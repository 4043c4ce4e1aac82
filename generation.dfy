/** generate-agents end to end: `generate`, which reads the cache, finds the existing agents
    and the orphans, gathers the specs and writes the agents, and `main`, which turns its
    report into an exit status. */
module Generation {
  import opened Values
  import opened Fs
  import opened Profiles
  import opened Render
  import opened Agents

  /** What `generate` returns once its writes are done: the report of a plan that stops, or
      of a plan whose writes all succeed (all of them in a dry run, which writes nothing); a
      failing write raises. */
  function OutcomeOf(plan: Plan, dryRun: bool, temp: string, faults: nat -> Faults, files0: map<string, string>): (r: Outcome)
    ensures plan.Halted? ==> r == Done(plan.report)
    ensures plan.Crashed? ==> r.Crash?
  {
    match plan
    case Halted(report) => Done(report)
    case Crashed => Crash
    case Planned(orphaned, errors, split) =>
      if dryRun || AllWritesSucceed(faults, temp, files0, |split.toWrite|)
      then Done(Report(Ok, Names(split.toWrite), split.skipped, orphaned, errors))
      else Crash
  }

  /** The agents directory after `generate`, once `files0`: untouched unless the plan writes
      and the run is not a dry run; then every rendered spec written, or, when write `g`
      fails, the `g` before it written and the rest untouched except for the temp file. */
  ghost predicate FilesAfter(plan: Plan, dryRun: bool, t: Template, clock: nat -> string, temp: string,
                             faults: nat -> Faults, files0: map<string, string>, files: map<string, string>)
  {
    if !plan.Planned? || dryRun then files == files0
    else
      var w := plan.split.toWrite;
      if AllWritesSucceed(faults, temp, files0, |w|) then files == WrittenFiles(files0, w, t, clock)
      else OnlyTempDiffers(WrittenFiles(files0, w[..FailedWrite(faults, temp, files0, |w|)], t, clock), files, temp)
  }

  /** The decisions of `generate` before it writes, over the agents directory `dir`: `cache`
      is the cache file (None when it does not exist, Some(None) when it cannot be read),
      `listing` the sorted `fd-*.md` listing of `dir`, `unreadable` the files of `dir` that
      cannot be read, `profiles` the domain profiles.  A plan that writes comes with the specs
      and the existing agents it was split from. */
  method PlanRun(dir: Directory, cache: Option<Option<string>>, listing: seq<string>, unreadable: set<string>,
                 profiles: map<string, Option<string>>, mode: Mode, p: Parsers)
    returns (plan: Plan, specs: seq<AgentSpec>, existing: seq<Existing>)
    ensures plan == PlanOf(cache, dir.present, listing, dir.files, unreadable, profiles, mode, p)
    ensures plan.Planned? ==> plan.split == Partition(specs, existing, mode)
  {
    specs, existing := [], [];
    var read := ReadDomains(cache, p);
    if read.Stop? {
      return Halted(NoDomainsReport(read.errors)), specs, existing;
    }
    if read.CacheCrash? {
      return Crashed, specs, existing;
    }
    var names := DetectedNames(read.entries);
    if names.None? {
      return Crashed, specs, existing;
    }
    if names.value == {} {
      return Halted(NoDomainsReport([])), specs, existing;
    }
    existing := CheckExistingAgents(dir, listing, unreadable, p);
    var orphaned := FindOrphans(existing, names.value);
    if orphaned.None? {
      return Crashed, specs, existing;
    }
    var collected := CollectSpecs(read.entries, profiles);
    if collected.None? {
      return Crashed, specs, existing;
    }
    specs := collected.value.specs;
    plan := Planned(orphaned.value, collected.value.errors, Partition(specs, existing, mode));
  }

  /** `generate`: the plan of `PlanRun`, then its writes, write `k` finding the environment
      `faults(k)` and rendering with the clock reading `clock(k)`. */
  method Generate(dir: Directory, cache: Option<Option<string>>, listing: seq<string>, unreadable: set<string>,
                  profiles: map<string, Option<string>>, mode: Mode, dryRun: bool, p: Parsers,
                  t: Template, clock: nat -> string, temp: string, faults: nat -> Faults)
    returns (outcome: Outcome)
    requires dir.Valid() && IsTempName(temp)
    modifies dir
    ensures dir.Valid() && dir.open == old(dir.open)
    ensures outcome == OutcomeOf(PlanOf(cache, old(dir.present), listing, old(dir.files), unreadable, profiles, mode, p),
                                 dryRun, temp, faults, old(dir.files))
    ensures FilesAfter(PlanOf(cache, old(dir.present), listing, old(dir.files), unreadable, profiles, mode, p),
                       dryRun, t, clock, temp, faults, old(dir.files), dir.files)
  {
    var plan, specs, existing := PlanRun(dir, cache, listing, unreadable, profiles, mode, p);
    if !plan.Planned? {
      return if plan.Halted? then Done(plan.report) else Crash;
    }
    var ok, generated, skipped := GenerateAgents(dir, specs, existing, mode, dryRun, t, clock, temp, faults);
    if !ok {
      return Crash;
    }
    outcome := Done(Report(Ok, generated, skipped, plan.orphaned, plan.errors));
  }

  /** The exit status of `main`: 2 when the project is not a directory or `generate` raises,
      1 when no domains are detected, 0 otherwise. */
  function ExitCode(isDir: bool, outcome: Outcome): (code: int)
  {
    if !isDir || outcome.Crash? then 2
    else if outcome.report.status == NoDomains then 1
    else 0
  }

  /** `main` for a project that is a directory exactly when `isDir`, with `generate` run over
      its agents directory `dir`; the printed report is not modelled. */
  method CommandLine(isDir: bool, dir: Directory, cache: Option<Option<string>>, listing: seq<string>,
                     unreadable: set<string>, profiles: map<string, Option<string>>, mode: Mode, dryRun: bool,
                     p: Parsers, t: Template, clock: nat -> string, temp: string, faults: nat -> Faults)
    returns (code: int)
    requires dir.Valid() && IsTempName(temp)
    modifies dir
    ensures dir.Valid()
    ensures code == ExitCode(isDir, OutcomeOf(PlanOf(cache, old(dir.present), listing, old(dir.files), unreadable, profiles, mode, p),
                                              dryRun, temp, faults, old(dir.files)))
    ensures !isDir ==> dir.files == old(dir.files)
    ensures isDir ==> FilesAfter(PlanOf(cache, old(dir.present), listing, old(dir.files), unreadable, profiles, mode, p),
                                 dryRun, t, clock, temp, faults, old(dir.files), dir.files)
  {
    if !isDir {
      return 2;
    }
    var outcome := Generate(dir, cache, listing, unreadable, profiles, mode, dryRun, p, t, clock, temp, faults);
    code := ExitCode(isDir, outcome);
  }

  /** `main` exits with 1 exactly when the project is a directory and the cache names no
      domain, with 0 exactly when a plan is carried out, and with 2 otherwise. */
  lemma ExitCodes(isDir: bool, cache: Option<Option<string>>, present: bool, listing: seq<string>, files: map<string, string>,
                  unreadable: set<string>, profiles: map<string, Option<string>>, mode: Mode, dryRun: bool, p: Parsers,
                  temp: string, faults: nat -> Faults)
    ensures var plan := PlanOf(cache, present, listing, files, unreadable, profiles, mode, p);
      var code := ExitCode(isDir, OutcomeOf(plan, dryRun, temp, faults, files));
      && (code == 1 <==> isDir && plan.Halted?)
      && (code == 0 <==> isDir && plan.Planned? && (dryRun || AllWritesSucceed(faults, temp, files, |plan.split.toWrite|)))
      && (code == 2 <==> !isDir || plan.Crashed? || (plan.Planned? && !dryRun && !AllWritesSucceed(faults, temp, files, |plan.split.toWrite|)))
  {
  }

  /** A dry run writes nothing and never fails for a write. */
  lemma DryRunWritesNothing(plan: Plan, t: Template, clock: nat -> string, temp: string, faults: nat -> Faults,
                            files0: map<string, string>, files: map<string, string>)
    requires FilesAfter(plan, true, t, clock, temp, faults, files0, files)
    ensures files == files0
    ensures plan.Planned? ==> OutcomeOf(plan, true, temp, faults, files0).Done?
  {
  }

  /** In a finished run no name is both generated and skipped: whether a spec is skipped
      depends on its name alone. */
  lemma ReportDisjoint(cache: Option<Option<string>>, present: bool, listing: seq<string>, files: map<string, string>,
                       unreadable: set<string>, profiles: map<string, Option<string>>, mode: Mode, dryRun: bool,
                       p: Parsers, temp: string, faults: nat -> Faults, n: string)
    ensures var r := OutcomeOf(PlanOf(cache, present, listing, files, unreadable, profiles, mode, p), dryRun, temp, faults, files);
      r.Done? && r.report.status == Ok ==> !(n in r.report.generated && n in r.report.skipped)
  {
    var read := ReadDomains(cache, p);
    if read.Entries? && DetectedNames(read.entries).Some? {
      var existing := ExistingAgents(present, listing, files, unreadable, p);
      var c := Collected(read.entries, profiles);
      if c.Some? {
        PartitionDisjoint(c.value.specs, existing, mode, n);
      }
    }
  }
}
