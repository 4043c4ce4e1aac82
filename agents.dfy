/** generate-agents: which agent files already exist, which domains are detected, which
    agents are orphaned, skipped or (re)generated, and how each file is written. */
module Agents {
  import opened Values
  import opened Text
  import opened Fs
  import opened Profiles
  import opened Render

  // ---------------------------------------------------------------------------------------
  // Existing agent files
  // ---------------------------------------------------------------------------------------

  /** The names the pattern `fd-*.md` matches. */
  predicate IsAgentFile(name: string) {
    |name| >= 6 && name[..3] == "fd-" && name[|name| - 3..] == ".md"
  }

  /** `Path.stem` of an agent file: the name without its `.md`. */
  function Stem(name: string): (r: string)
    requires IsAgentFile(name)
    ensures r + ".md" == name
  {
    name[..|name| - 3]
  }

  /** An agent's file name is its agent name with `.md`, and the stem gives the agent back. */
  lemma AgentFileOfName(name: string)
    requires IsAgentName(name)
    ensures IsAgentFile(name + ".md") && Stem(name + ".md") == name
  {
    assert (name + ".md")[..3] == name[..3];
    assert (name + ".md")[|name| + 3 - 3..] == ".md";
  }

  /** The text of the file `name` when it exists and can be read. */
  function FileText(files: map<string, string>, unreadable: set<string>, name: string): Option<string> {
    if name in files && name !in unreadable then Some(files[name]) else None
  }

  /** `_parse_frontmatter`: the YAML between a leading `---` and the next `---`; None when the
      file cannot be read, does not open with `---`, has no closing `---` or the YAML does not
      load. */
  function FrontmatterOf(text: Option<string>, p: Parsers): (r: Option<Value>)
    ensures text.None? || !("---" <= text.value) ==> r.None?
    ensures r.Some? ==> exists e :: (3 <= e <= |text.value| && "---" <= text.value[e..]
                                     && (forall j :: 3 <= j < e ==> !("---" <= text.value[j..]))
                                     && p.yaml(text.value[3..e]) == r)
  {
    match text
    case None => None
    case Some(t) =>
      if !("---" <= t) then None
      else
        var e := Find(t, "---", 3);
        if e == -1 then None else p.yaml(t[3..e])
  }

  /** Whether a frontmatter read back from a file is a mapping marked as generated. */
  predicate MarkedGenerated(fm: Option<Value>) {
    fm.Some? && fm.value.VMap? && Get(fm.value.fields, "generated_by", VNone) == VStr("flux-gen")
  }

  /** A generated agent found on disk: its name and its frontmatter. */
  datatype Existing = Existing(name: string, frontmatter: map<string, Value>)

  /** What one listed file contributes: itself when it is an agent file marked as generated.
      A frontmatter that is not a mapping is passed over. */
  function ExistingEntry(name: string, files: map<string, string>, unreadable: set<string>, p: Parsers): (r: seq<Existing>)
    ensures r != [] <==> IsAgentFile(name) && MarkedGenerated(FrontmatterOf(FileText(files, unreadable, name), p))
    ensures r != [] ==> r == [Existing(Stem(name), FrontmatterOf(FileText(files, unreadable, name), p).value.fields)]
  {
    if !IsAgentFile(name) then []
    else
      var fm := FrontmatterOf(FileText(files, unreadable, name), p);
      if MarkedGenerated(fm) then [Existing(Stem(name), fm.value.fields)] else []
  }

  /** The generated agents among the files `names`, in their order. */
  function ExistingFrom(names: seq<string>, files: map<string, string>, unreadable: set<string>, p: Parsers): (r: seq<Existing>)
    ensures |r| <= |names|
  {
    if |names| == 0 then []
    else ExistingFrom(names[..|names| - 1], files, unreadable, p) + ExistingEntry(names[|names| - 1], files, unreadable, p)
  }

  /** File `i` of `names` is a generated agent `e`. */
  predicate ListedAt(names: seq<string>, files: map<string, string>, unreadable: set<string>, p: Parsers, i: int, e: Existing) {
    0 <= i < |names| && e in ExistingEntry(names[i], files, unreadable, p)
  }

  /** Every listed agent file marked as generated is found. */
  lemma {:induction false} ExistingKeepsListed(names: seq<string>, files: map<string, string>, unreadable: set<string>, p: Parsers)
    ensures forall i, e :: ListedAt(names, files, unreadable, p, i, e) ==> e in ExistingFrom(names, files, unreadable, p)
  {
    if |names| > 0 {
      var n := |names| - 1;
      var init := names[..n];
      ExistingKeepsListed(init, files, unreadable, p);
      assert ExistingFrom(names, files, unreadable, p)
        == ExistingFrom(init, files, unreadable, p) + ExistingEntry(names[n], files, unreadable, p);
      forall i, e | ListedAt(names, files, unreadable, p, i, e)
        ensures e in ExistingFrom(names, files, unreadable, p)
      {
        if i < n {
          assert init[i] == names[i];
          assert ListedAt(init, files, unreadable, p, i, e);
        } else {
          assert i == n;
          assert e in ExistingEntry(names[i], files, unreadable, p);
        }
      }
    }
  }

  /** Every generated agent found comes from a listed file. */
  lemma {:induction false} ExistingOnlyListed(names: seq<string>, files: map<string, string>, unreadable: set<string>, p: Parsers)
    ensures forall e :: e in ExistingFrom(names, files, unreadable, p) ==> exists i :: ListedAt(names, files, unreadable, p, i, e)
  {
    if |names| > 0 {
      var n := |names| - 1;
      var init := names[..n];
      ExistingOnlyListed(init, files, unreadable, p);
      var c := ExistingFrom(init, files, unreadable, p);
      assert ExistingFrom(names, files, unreadable, p) == c + ExistingEntry(names[n], files, unreadable, p);
      forall e | e in ExistingFrom(names, files, unreadable, p)
        ensures exists i :: ListedAt(names, files, unreadable, p, i, e)
      {
        if e in c {
          var i :| ListedAt(init, files, unreadable, p, i, e);
          assert init[i] == names[i];
          assert ListedAt(names, files, unreadable, p, i, e);
        } else {
          assert ListedAt(names, files, unreadable, p, n, e);
        }
      }
    }
  }

  /** `check_existing_agents` (with non-mapping frontmatter passed over): nothing when the
      agents directory does not exist, otherwise the generated agents among its files, taken
      in the directory's sorted listing `listing`. */
  function ExistingAgents(present: bool, listing: seq<string>, files: map<string, string>, unreadable: set<string>, p: Parsers): (r: seq<Existing>)
    ensures !present ==> r == []
    ensures present ==> forall e :: e in r <==> exists i :: ListedAt(listing, files, unreadable, p, i, e)
  {
    if present then
      ExistingKeepsListed(listing, files, unreadable, p);
      ExistingOnlyListed(listing, files, unreadable, p);
      ExistingFrom(listing, files, unreadable, p)
    else []
  }

  /** A frontmatter on which the source's `frontmatter.get` raises: a true value that is not
      a mapping (a scalar or a list document). */
  predicate FrontmatterCrashes(fm: Option<Value>) {
    fm.Some? && Truthy(fm.value) && !fm.value.VMap?
  }

  /** `check_existing_agents` as written: one agent file whose frontmatter is a true
      non-mapping makes the whole call raise; otherwise it agrees with `ExistingAgents`. */
  function ExistingAgentsAsWritten(present: bool, listing: seq<string>, files: map<string, string>, unreadable: set<string>, p: Parsers): (r: Option<seq<Existing>>)
    ensures r.Some? ==> r.value == ExistingAgents(present, listing, files, unreadable, p)
  {
    if present && exists i :: (0 <= i < |listing| && IsAgentFile(listing[i])
                              && FrontmatterCrashes(FrontmatterOf(FileText(files, unreadable, listing[i]), p)))
    then None
    else Some(ExistingAgents(present, listing, files, unreadable, p))
  }

  /** A single agent file with a scalar frontmatter stops the as-written reader, while the
      corrected reader only passes that file over. */
  lemma ScalarFrontmatterStops(present: bool, listing: seq<string>, files: map<string, string>, unreadable: set<string>, p: Parsers, i: nat)
    requires present && i < |listing| && IsAgentFile(listing[i])
    requires FrontmatterCrashes(FrontmatterOf(FileText(files, unreadable, listing[i]), p))
    ensures ExistingAgentsAsWritten(present, listing, files, unreadable, p).None?
    ensures ExistingEntry(listing[i], files, unreadable, p) == []
  {
  }

  /** No three dashes in a row anywhere in `s`. */
  predicate NoDashRun(s: string) {
    forall j :: 0 <= j < |s| - 2 ==> !(s[j] == '-' && s[j + 1] == '-' && s[j + 2] == '-')
  }

  /** No three dashes in a row anywhere in `s`, and no dash at its end. */
  predicate ClosesCleanly(s: string) {
    NoDashRun(s) && (|s| == 0 || s[|s| - 1] != '-')
  }

  /** A text that opens with `---`, then `y`, then `---`: its frontmatter is `y` loaded as
      YAML, whatever follows, provided `y` cannot be mistaken for the closing line. */
  lemma FrontmatterOfBlock(y: string, rest: string, p: Parsers)
    requires ClosesCleanly(y)
    ensures FrontmatterOf(Some("---" + y + "---" + rest), p) == p.yaml(y)
  {
    var t := "---" + y + "---" + rest;
    var e := 3 + |y|;
    assert t[3..e] == y;
    assert t[e..][..3] == "---";
    forall j | 3 <= j < e
      ensures !("---" <= t[j..])
    {
      if j + 2 < e {
        assert t[j] == y[j - 3] && t[j + 1] == y[j - 2] && t[j + 2] == y[j - 1];
      } else if j + 1 == e {
        assert t[j] == y[|y| - 1];
      } else {
        assert t[j + 1] == y[|y| - 1];
      }
    }
    var f := Find(t, "---", 3);
    assert f == e;
  }

  /** The frontmatter `---\nhello\n---\n` holds the YAML document `hello`, a plain string,
      which `check_existing_agents` as written cannot read a key from. */
  lemma ScalarFrontmatterExample(p: Parsers)
    requires p.yaml("\nhello\n") == Some(VStr("hello"))
    ensures FrontmatterCrashes(FrontmatterOf(Some("---" + "\nhello\n" + "---" + "\n"), p))
  {
    FrontmatterOfBlock("\nhello\n", "\n", p);
  }

  /** Joining two texts without a run of dashes makes none when a character other than a
      dash stands at the seam, on either side of it. */
  lemma NoDashRunJoin(a: string, b: string)
    requires NoDashRun(a) && NoDashRun(b)
    requires (|a| > 0 && a[|a| - 1] != '-') || (|b| > 0 && b[0] != '-')
    ensures NoDashRun(a + b)
  {
    var s := a + b;
    forall j | 0 <= j < |s| - 2
      ensures !(s[j] == '-' && s[j + 1] == '-' && s[j + 2] == '-')
    {
      if j + 2 < |a| {
        assert s[j] == a[j] && s[j + 1] == a[j + 1] && s[j + 2] == a[j + 2];
      } else if j >= |a| {
        assert s[j] == b[j - |a|] && s[j + 1] == b[j + 1 - |a|] && s[j + 2] == b[j + 2 - |a|];
      }
    }
  }

  /** The frontmatter `render_agent` writes cannot be cut short by its own text: the domain and
      the time stamp hold no three dashes in a row. */
  lemma FrontmatterYamlCloses(domain: string, now: string)
    requires NoDashRun(domain) && NoDashRun(now)
    ensures ClosesCleanly(FrontmatterYaml(domain, now))
  {
    var p1, p2, p3 := "\ngenerated_by: flux-gen\ndomain: ", "\ngenerated_at: '", "'\nflux_gen_version: ";
    var v := Decimal(FluxGenVersion);
    assert v == "4";
    assert NoDashRun(p1) && NoDashRun(p2) && NoDashRun(p3) && NoDashRun(v) && NoDashRun("\n");
    NoDashRunJoin(p1, domain);
    NoDashRunJoin(p1 + domain, p2);
    NoDashRunJoin(p1 + domain + p2, now);
    NoDashRunJoin(p1 + domain + p2 + now, p3);
    NoDashRunJoin(p1 + domain + p2 + now + p3, v);
    NoDashRunJoin(p1 + domain + p2 + now + p3 + v, "\n");
    assert FrontmatterYaml(domain, now) == p1 + domain + p2 + now + p3 + v + "\n";
  }

  /** A text that opens with the frontmatter block of `domain` and `now` reads back as that
      block's YAML. */
  lemma BlockReadsBack(s: string, domain: string, now: string, p: Parsers)
    requires FrontmatterBlock(domain, now) <= s
    requires NoDashRun(domain) && NoDashRun(now)
    ensures FrontmatterOf(Some(s), p) == p.yaml(FrontmatterYaml(domain, now))
  {
    var y := FrontmatterYaml(domain, now);
    var rest := s[|y| + 6..];
    assert s == "---" + y + "---" + rest by {
      assert s[..|y| + 6] == FrontmatterBlock(domain, now)[..|y| + 6] == "---" + y + "---";
      assert s == s[..|y| + 6] + rest;
    }
    FrontmatterYamlCloses(domain, now);
    FrontmatterOfBlock(y, rest, p);
  }

  /** The mapping a YAML loader makes of the frontmatter `render_agent` writes. */
  function FrontmatterFields(domain: string, now: string): map<string, Value> {
    map["generated_by" := VStr("flux-gen"), "domain" := VStr(domain), "generated_at" := VStr(now),
        "flux_gen_version" := VInt(FluxGenVersion as int)]
  }

  /** A generated agent file reads back, on the next run, as a generated agent of the same
      name recording its domain, and as current, so `--mode regenerate-stale` keeps it; this
      holds when its domain and time stamp hold no `---` and the YAML loader reads the
      frontmatter as the mapping it spells out. */
  lemma RenderedAgentFound(t: Template, spec: AgentSpec, now: string, files: map<string, string>,
                           unreadable: set<string>, p: Parsers)
    requires IsAgentName(spec.name) && spec.name + ".md" !in unreadable
    requires NoDashRun(spec.domain) && NoDashRun(now)
    requires p.yaml(FrontmatterYaml(spec.domain, now)) == Some(VMap(FrontmatterFields(spec.domain, now)))
    ensures var e := Existing(spec.name, FrontmatterFields(spec.domain, now));
      && ExistingEntry(spec.name + ".md", files[spec.name + ".md" := AgentText(t, spec, now)], unreadable, p) == [e]
      && DomainOf(e) == VStr(spec.domain)
      && Current(e.frontmatter)
      && Skips(RegenerateStale, [e], spec.name)
  {
    RenderedFrontmatter(t, spec, now);
    BlockFound(AgentText(t, spec, now), spec.name, spec.domain, now, files, unreadable, p);
  }

  /** The file `name.md` holding a text that opens with the frontmatter block is found as a
      generated agent with the mapping the loader makes of that block. */
  lemma BlockFound(s: string, name: string, domain: string, now: string, files: map<string, string>,
                   unreadable: set<string>, p: Parsers)
    requires FrontmatterBlock(domain, now) <= s
    requires IsAgentName(name) && name + ".md" !in unreadable
    requires NoDashRun(domain) && NoDashRun(now)
    requires p.yaml(FrontmatterYaml(domain, now)) == Some(VMap(FrontmatterFields(domain, now)))
    ensures ExistingEntry(name + ".md", files[name + ".md" := s], unreadable, p) == [Existing(name, FrontmatterFields(domain, now))]
  {
    var file := name + ".md";
    BlockReadsBack(s, domain, now, p);
    AgentFileOfName(name);
    assert FileText(files[file := s], unreadable, file) == Some(s);
    assert MarkedGenerated(FrontmatterOf(Some(s), p));
  }

  /** `check_existing_agents` over the directory `dir`, whose sorted listing is `listing`. */
  method CheckExistingAgents(dir: Directory, listing: seq<string>, unreadable: set<string>, p: Parsers)
    returns (existing: seq<Existing>)
    ensures existing == ExistingAgents(dir.present, listing, dir.files, unreadable, p)
  {
    existing := [];
    if !dir.present {
      return;
    }
    var i := 0;
    while i < |listing|
      invariant 0 <= i <= |listing|
      invariant existing == ExistingFrom(listing[..i], dir.files, unreadable, p)
    {
      assert listing[..i + 1][..i] == listing[..i];
      assert ExistingFrom(listing[..i + 1], dir.files, unreadable, p)
        == ExistingFrom(listing[..i], dir.files, unreadable, p) + ExistingEntry(listing[i], dir.files, unreadable, p);
      existing := existing + ExistingEntry(listing[i], dir.files, unreadable, p);
      i := i + 1;
    }
    assert listing[..i] == listing;
  }

  // ---------------------------------------------------------------------------------------
  // The detected domains
  // ---------------------------------------------------------------------------------------

  /** What goes wrong in a run without stopping it. */
  datatype Problem =
    | CacheUnreadable              // the cache exists but cannot be read or loaded
    | ProfileMissing(domain: Value) // no profile for a detected domain

  datatype Status = Ok | NoDomains

  /** The report `generate` returns. */
  datatype Report = Report(status: Status, generated: seq<string>, skipped: seq<string>,
                           orphaned: seq<string>, errors: seq<Problem>)

  /** A run either raises or returns a report. */
  datatype Outcome = Crash | Done(report: Report)

  function NoDomainsReport(errors: seq<Problem>): Report {
    Report(NoDomains, [], [], [], errors)
  }

  /** The domain entries of the cache, or the reason there are none. */
  datatype CacheRead =
    | Stop(errors: seq<Problem>)
    | Entries(entries: seq<Value>)
    | CacheCrash

  /** Reading `.claude/flux-drive.yaml`: `cache` is None when the file does not exist and
      Some(None) when it cannot be read.  A `domains` that is a mapping or a string is
      iterated as its keys or characters, none of which is a mapping, so it yields no entry
      with a name; a true number or boolean cannot be iterated. */
  function ReadDomains(cache: Option<Option<string>>, p: Parsers): (r: CacheRead)
    ensures r.Stop? ==> r.errors == [] || r.errors == [CacheUnreadable]
    ensures r.Stop? && r.errors == [CacheUnreadable] <==> cache.Some? && (cache.value.None? || p.yaml(cache.value.value).None?)
    ensures r.Entries? ==> (cache.Some? && cache.value.Some? && p.yaml(cache.value.value).Some?
                            && p.yaml(cache.value.value).value.VMap?
                            && TruthyField(p.yaml(cache.value.value).value.fields, "domains"))
  {
    match cache
    case None => Stop([])
    case Some(None) => Stop([CacheUnreadable])
    case Some(Some(t)) =>
      match p.yaml(t)
      case None => Stop([CacheUnreadable])
      case Some(doc) =>
        if !doc.VMap? || !TruthyField(doc.fields, "domains") then Stop([])
        else
          match doc.fields["domains"]
          case VList(items) => Entries(items)
          case VMap(_) => Entries([])
          case VStr(_) => Entries([])
          case _ => CacheCrash
  }

  /** The `name` of a domain entry that is a mapping holding one. */
  function NameOf(entry: Value): Option<Value> {
    if entry.VMap? && "name" in entry.fields then Some(entry.fields["name"]) else None
  }

  /** A value Python can put in a set: not a list and not a mapping. */
  predicate Hashable(v: Value) {
    !v.VList? && !v.VMap?
  }

  /** `detected_domain_names`: the names of the entries that are mappings with a `name`; the
      set comprehension raises on a name that is a list or a mapping. */
  function DetectedNames(entries: seq<Value>): (r: Option<set<Value>>)
    ensures r.None? <==> exists i :: 0 <= i < |entries| && NameOf(entries[i]).Some? && !Hashable(NameOf(entries[i]).value)
    ensures r.Some? ==> forall v :: v in r.value <==> exists i :: 0 <= i < |entries| && NameOf(entries[i]) == Some(v)
  {
    if exists i :: 0 <= i < |entries| && NameOf(entries[i]).Some? && !Hashable(NameOf(entries[i]).value) then None
    else Some(set i | 0 <= i < |entries| && NameOf(entries[i]).Some? :: NameOf(entries[i]).value)
  }

  // ---------------------------------------------------------------------------------------
  // Orphans
  // ---------------------------------------------------------------------------------------

  /** The `domain` a generated agent records, "" when it records none. */
  function DomainOf(e: Existing): Value {
    Get(e.frontmatter, "domain", VStr(""))
  }

  /** An agent is orphaned when it records a domain that is no longer detected. */
  predicate Orphaned(e: Existing, names: set<Value>) {
    Truthy(DomainOf(e)) && DomainOf(e) !in names
  }

  /** Testing a recorded domain for membership raises when it is a list or a mapping. */
  predicate OrphanCheckCrashes(e: Existing) {
    Truthy(DomainOf(e)) && !Hashable(DomainOf(e))
  }

  /** The orphaned agents among `existing`, in order, or None when the membership test
      raises. */
  function Orphans(existing: seq<Existing>, names: set<Value>): (r: Option<seq<string>>)
    ensures r.None? <==> exists k :: 0 <= k < |existing| && OrphanCheckCrashes(existing[k])
    ensures r.Some? ==> forall n :: n in r.value <==>
      exists k :: 0 <= k < |existing| && existing[k].name == n && Orphaned(existing[k], names)
  {
    if |existing| == 0 then Some([])
    else
      var last := existing[|existing| - 1];
      match Orphans(existing[..|existing| - 1], names)
      case None => None
      case Some(o) =>
        if OrphanCheckCrashes(last) then None
        else if Orphaned(last, names) then Some(o + [last.name])
        else Some(o)
  }

  /** The orphan loop of `generate`. */
  method FindOrphans(existing: seq<Existing>, names: set<Value>) returns (orphaned: Option<seq<string>>)
    ensures orphaned == Orphans(existing, names)
  {
    var found := [];
    var i := 0;
    while i < |existing|
      invariant 0 <= i <= |existing|
      invariant Orphans(existing[..i], names) == Some(found)
    {
      assert existing[..i + 1][..i] == existing[..i];
      var e := existing[i];
      if OrphanCheckCrashes(e) {
        assert Orphans(existing[..i + 1], names).None?;
        OrphansCrashLater(existing, names, i + 1);
        return None;
      }
      if Orphaned(e, names) {
        found := found + [e.name];
      }
      i := i + 1;
    }
    assert existing[..i] == existing;
    orphaned := Some(found);
  }

  /** Once the orphan check of a prefix raises, so does that of the whole sequence. */
  lemma {:induction false} OrphansCrashLater(existing: seq<Existing>, names: set<Value>, k: nat)
    requires k <= |existing| && Orphans(existing[..k], names).None?
    ensures Orphans(existing, names).None?
  {
    var j :| 0 <= j < k && OrphanCheckCrashes(existing[..k][j]);
    assert existing[j] == existing[..k][j];
  }

  // ---------------------------------------------------------------------------------------
  // Agent specs of the detected domains
  // ---------------------------------------------------------------------------------------

  /** What one domain entry contributes to the specs. */
  datatype EntryResult =
    | Skip                          // not a mapping, or no true `name`
    | Missing(problem: Problem)     // no profile for that name
    | Found(specs: seq<AgentSpec>)  // the agents its profile asks for
    | ProfileUnreadable             // the profile exists but cannot be read: the run raises

  /** One turn of the spec loop of `generate`, with entries that are not mappings passed
      over.  `profiles` maps a domain name to its profile text (None when it exists but
      cannot be read); a name that is not a string names no profile. */
  function EntryOutcome(entry: Value, profiles: map<string, Option<string>>): (r: EntryResult)
    ensures r.Skip? <==> !entry.VMap? || !Truthy(Get(entry.fields, "name", VStr("")))
    ensures r.Missing? ==> (r.problem == ProfileMissing(entry.fields["name"])
                            && (!entry.fields["name"].VStr? || entry.fields["name"].s !in profiles))
    ensures r.Found? ==> (entry.VMap? && "name" in entry.fields && entry.fields["name"].VStr?
                          && var name := entry.fields["name"].s;
                          name in profiles && profiles[name].Some? && r.specs == SpecsOf(profiles[name].value, name))
  {
    if !entry.VMap? then Skip
    else
      var name := Get(entry.fields, "name", VStr(""));
      if !Truthy(name) then Skip
      else if !name.VStr? || name.s !in profiles then Missing(ProfileMissing(name))
      else
        match profiles[name.s]
        case None => ProfileUnreadable
        case Some(text) => Found(SpecsOf(text, name.s))
  }

  /** The specs and the problems the spec loop gathers. */
  datatype Collection = Collection(specs: seq<AgentSpec>, errors: seq<Problem>)

  /** The spec loop over `entries` (non-mapping entries passed over): the specs of every
      profile found, in entry order, and one problem per missing profile; None when a
      profile cannot be read. */
  function Collected(entries: seq<Value>, profiles: map<string, Option<string>>): (r: Option<Collection>)
    ensures r.None? <==> exists i :: 0 <= i < |entries| && EntryOutcome(entries[i], profiles).ProfileUnreadable?
  {
    if |entries| == 0 then Some(Collection([], []))
    else
      match Collected(entries[..|entries| - 1], profiles)
      case None => None
      case Some(c) =>
        match EntryOutcome(entries[|entries| - 1], profiles)
        case Skip => Some(c)
        case Missing(q) => Some(Collection(c.specs, c.errors + [q]))
        case Found(specs) => Some(Collection(c.specs + specs, c.errors))
        case ProfileUnreadable => None
  }

  /** One more entry appends its specs or its problem. */
  lemma CollectedStep(entries: seq<Value>, profiles: map<string, Option<string>>)
    requires |entries| > 0 && Collected(entries, profiles).Some?
    ensures Collected(entries[..|entries| - 1], profiles).Some?
    ensures var c := Collected(entries[..|entries| - 1], profiles).value;
      var last := EntryOutcome(entries[|entries| - 1], profiles);
      Collected(entries, profiles).value
        == Collection(c.specs + (if last.Found? then last.specs else []),
                      c.errors + (if last.Missing? then [last.problem] else []))
  {
  }

  /** Entry `i` yields the spec `sp`. */
  predicate FoundAt(entries: seq<Value>, profiles: map<string, Option<string>>, i: int, sp: AgentSpec) {
    0 <= i < |entries| && EntryOutcome(entries[i], profiles).Found? && sp in EntryOutcome(entries[i], profiles).specs
  }

  /** The spec loop keeps every spec of every profile found. */
  lemma {:induction false} CollectedKeepsSpecs(entries: seq<Value>, profiles: map<string, Option<string>>)
    requires Collected(entries, profiles).Some?
    ensures forall i, sp :: FoundAt(entries, profiles, i, sp) ==> sp in Collected(entries, profiles).value.specs
  {
    if |entries| > 0 {
      var n := |entries| - 1;
      var init := entries[..n];
      CollectedStep(entries, profiles);
      CollectedKeepsSpecs(init, profiles);
      forall i, sp | FoundAt(entries, profiles, i, sp)
        ensures sp in Collected(entries, profiles).value.specs
      {
        if i < n {
          assert init[i] == entries[i];
          assert FoundAt(init, profiles, i, sp);
          assert sp in Collected(init, profiles).value.specs;
        } else {
          assert i == n;
          assert EntryOutcome(entries[i], profiles).Found?;
          assert sp in EntryOutcome(entries[i], profiles).specs;
        }
      }
    }
  }

  /** Every spec the spec loop gathers comes from a profile found. */
  lemma {:induction false} CollectedOnlySpecs(entries: seq<Value>, profiles: map<string, Option<string>>)
    requires Collected(entries, profiles).Some?
    ensures forall sp :: sp in Collected(entries, profiles).value.specs ==> exists i :: FoundAt(entries, profiles, i, sp)
  {
    if |entries| > 0 {
      var n := |entries| - 1;
      var init := entries[..n];
      CollectedStep(entries, profiles);
      CollectedOnlySpecs(init, profiles);
      var c := Collected(init, profiles).value;
      forall sp | sp in Collected(entries, profiles).value.specs
        ensures exists i :: FoundAt(entries, profiles, i, sp)
      {
        if sp in c.specs {
          var i :| FoundAt(init, profiles, i, sp);
          assert init[i] == entries[i];
          assert FoundAt(entries, profiles, i, sp);
        } else {
          assert FoundAt(entries, profiles, n, sp);
        }
      }
    }
  }

  /** The spec loop records exactly one problem kind per missing profile. */
  lemma {:induction false} CollectedErrors(entries: seq<Value>, profiles: map<string, Option<string>>)
    requires Collected(entries, profiles).Some?
    ensures forall i :: 0 <= i < |entries| && EntryOutcome(entries[i], profiles).Missing? ==>
      EntryOutcome(entries[i], profiles).problem in Collected(entries, profiles).value.errors
    ensures forall q :: q in Collected(entries, profiles).value.errors ==>
      exists i :: 0 <= i < |entries| && EntryOutcome(entries[i], profiles) == Missing(q)
  {
    if |entries| > 0 {
      var n := |entries| - 1;
      var init := entries[..n];
      CollectedStep(entries, profiles);
      CollectedErrors(init, profiles);
      var c := Collected(init, profiles).value;
      var r := Collected(entries, profiles).value;
      forall i | 0 <= i < |entries| && EntryOutcome(entries[i], profiles).Missing?
        ensures EntryOutcome(entries[i], profiles).problem in r.errors
      {
        if i < n {
          assert init[i] == entries[i];
        }
      }
      forall q | q in r.errors
        ensures exists i :: 0 <= i < |entries| && EntryOutcome(entries[i], profiles) == Missing(q)
      {
        if q in c.errors {
          var i :| 0 <= i < |init| && EntryOutcome(init[i], profiles) == Missing(q);
          assert init[i] == entries[i];
        } else {
          assert EntryOutcome(entries[n], profiles) == Missing(q);
        }
      }
    }
  }

  /** The spec loop as written: `domain_entry.get` raises on an entry that is not a mapping,
      although the name set just above passes such entries over. */
  function CollectedAsWritten(entries: seq<Value>, profiles: map<string, Option<string>>): (r: Option<Collection>)
    ensures r.Some? ==> r == Collected(entries, profiles)
  {
    if exists i :: 0 <= i < |entries| && !entries[i].VMap? then None else Collected(entries, profiles)
  }

  /** A plain string among the cached domains, next to a named mapping, is left out of the
      names without complaint, then stops the as-written spec loop; the corrected loop passes
      it over. */
  lemma StringEntryStops(entries: seq<Value>, profiles: map<string, Option<string>>, i: nat)
    requires i < |entries| && entries[i].VStr?
    ensures NameOf(entries[i]).None?
    ensures CollectedAsWritten(entries, profiles).None?
    ensures EntryOutcome(entries[i], profiles).Skip?
  {
  }

  /** The spec loop of `generate`, parsing each profile with `ParseAgentSpecs`. */
  method CollectSpecs(entries: seq<Value>, profiles: map<string, Option<string>>) returns (c: Option<Collection>)
    ensures c == Collected(entries, profiles)
  {
    var specs := [];
    var errors := [];
    var i := 0;
    while i < |entries|
      invariant 0 <= i <= |entries|
      invariant Collected(entries[..i], profiles) == Some(Collection(specs, errors))
    {
      assert entries[..i + 1][..i] == entries[..i];
      var entry := entries[i];
      var outcome := EntryOutcome(entry, profiles);
      if outcome.ProfileUnreadable? {
        CollectedCrashLater(entries, profiles, i + 1);
        return None;
      }
      if outcome.Missing? {
        errors := errors + [outcome.problem];
      } else if outcome.Found? {
        var name := entry.fields["name"].s;
        var parsed := ParseAgentSpecs(profiles[name].value, name);
        specs := specs + parsed;
      }
      i := i + 1;
    }
    assert entries[..i] == entries;
    c := Some(Collection(specs, errors));
  }

  /** Once a prefix of the spec loop raises, so does the whole loop. */
  lemma {:induction false} CollectedCrashLater(entries: seq<Value>, profiles: map<string, Option<string>>, k: nat)
    requires k <= |entries| && Collected(entries[..k], profiles).None?
    ensures Collected(entries, profiles).None?
  {
    var j :| 0 <= j < k && EntryOutcome(entries[..k][j], profiles).ProfileUnreadable?;
    assert entries[j] == entries[..k][j];
  }

  // ---------------------------------------------------------------------------------------
  // Which specs are generated
  // ---------------------------------------------------------------------------------------

  /** `existing[name]`: the frontmatter of the last generated agent of that name (a later
      dictionary entry replaces an earlier one). */
  function Lookup(existing: seq<Existing>, name: string): (r: Option<map<string, Value>>)
    ensures r.Some? <==> exists k :: 0 <= k < |existing| && existing[k].name == name
    ensures r.Some? ==> exists k :: 0 <= k < |existing| && existing[k] == Existing(name, r.value)
  {
    if |existing| == 0 then None
    else if existing[|existing| - 1].name == name then Some(existing[|existing| - 1].frontmatter)
    else
      var r := Lookup(existing[..|existing| - 1], name);
      assert forall k :: 0 <= k < |existing| - 1 ==> existing[..|existing| - 1][k] == existing[k];
      r
  }

  /** The three generation modes of the command line. */
  datatype Mode = SkipExisting | RegenerateStale | Force

  /** An agent file is current when its `flux_gen_version` is an integer no smaller than the
      generator's version (a missing version reads as 0; `true` counts as the integer 1, which
      is below it, so only an integer version can be current). */
  predicate Current(fm: map<string, Value>)
    ensures Current(fm) <==> "flux_gen_version" in fm && fm["flux_gen_version"].VInt? && fm["flux_gen_version"].i >= FluxGenVersion
  {
    var v := Get(fm, "flux_gen_version", VInt(0));
    (v.VInt? && v.i >= FluxGenVersion) || (v.VBool? && (if v.b then 1 else 0) >= FluxGenVersion)
  }

  /** Whether the spec named `name` is skipped: its agent exists, and the mode keeps every
      existing agent or keeps current ones and this one is current. */
  predicate Skips(mode: Mode, existing: seq<Existing>, name: string)
    ensures mode == SkipExisting ==> (Skips(mode, existing, name) <==> exists k :: 0 <= k < |existing| && existing[k].name == name)
    ensures mode == RegenerateStale ==>
      (Skips(mode, existing, name) <==> Lookup(existing, name).Some? && Current(Lookup(existing, name).value))
    ensures mode == Force ==> !Skips(mode, existing, name)
  {
    var fm := Lookup(existing, name);
    fm.Some? && (mode == SkipExisting || (mode == RegenerateStale && Current(fm.value)))
  }

  /** The specs to render and the names skipped, each in spec order. */
  datatype Split = Split(toWrite: seq<AgentSpec>, skipped: seq<string>)

  /** The decision loop of `generate` over `specs`. */
  function Partition(specs: seq<AgentSpec>, existing: seq<Existing>, mode: Mode): (r: Split)
    ensures |r.toWrite| + |r.skipped| == |specs|
  {
    if |specs| == 0 then Split([], [])
    else
      var r := Partition(specs[..|specs| - 1], existing, mode);
      var sp := specs[|specs| - 1];
      if Skips(mode, existing, sp.name) then Split(r.toWrite, r.skipped + [sp.name])
      else Split(r.toWrite + [sp], r.skipped)
  }

  /** A spec is rendered exactly when it is not skipped, and a name is reported skipped
      exactly when a spec of that name is skipped. */
  lemma {:induction false} PartitionSound(specs: seq<AgentSpec>, existing: seq<Existing>, mode: Mode)
    ensures forall sp :: sp in Partition(specs, existing, mode).toWrite <==> sp in specs && !Skips(mode, existing, sp.name)
    ensures forall n :: n in Partition(specs, existing, mode).skipped <==>
      Skips(mode, existing, n) && exists k :: 0 <= k < |specs| && specs[k].name == n
  {
    if |specs| > 0 {
      var init := specs[..|specs| - 1];
      PartitionSound(init, existing, mode);
      assert specs == init + [specs[|specs| - 1]];
      forall n | Skips(mode, existing, n) && exists k :: 0 <= k < |specs| && specs[k].name == n
        ensures n in Partition(specs, existing, mode).skipped
      {
        var k :| 0 <= k < |specs| && specs[k].name == n;
        if k < |init| {
          assert init[k] == specs[k];
        }
      }
      forall n | n in Partition(specs, existing, mode).skipped
        ensures exists k :: 0 <= k < |specs| && specs[k].name == n
      {
        if n in Partition(init, existing, mode).skipped {
          var k :| 0 <= k < |init| && init[k].name == n;
          assert specs[k] == init[k];
        } else {
          assert specs[|specs| - 1].name == n;
        }
      }
    }
  }

  /** No name is both rendered and skipped: whether a spec is skipped depends on its name
      alone. */
  lemma PartitionDisjoint(specs: seq<AgentSpec>, existing: seq<Existing>, mode: Mode, n: string)
    ensures !(n in Names(Partition(specs, existing, mode).toWrite) && n in Partition(specs, existing, mode).skipped)
  {
    var split := Partition(specs, existing, mode);
    PartitionSound(specs, existing, mode);
    if n in Names(split.toWrite) {
      var k :| 0 <= k < |split.toWrite| && Names(split.toWrite)[k] == n;
      assert split.toWrite[k] in split.toWrite;
    }
  }

  /** `--mode force` renders every spec and skips none. */
  lemma {:induction false} ForceRendersAll(specs: seq<AgentSpec>, existing: seq<Existing>)
    ensures Partition(specs, existing, Force) == Split(specs, [])
  {
    if |specs| > 0 {
      ForceRendersAll(specs[..|specs| - 1], existing);
      assert specs[..|specs| - 1] + [specs[|specs| - 1]] == specs;
    }
  }

  // ---------------------------------------------------------------------------------------
  // The plan of a run
  // ---------------------------------------------------------------------------------------

  /** What `generate` decides before it writes: stop with a report, raise, or render
      `split.toWrite`. */
  datatype Plan =
    | Halted(report: Report)
    | Crashed
    | Planned(orphaned: seq<string>, errors: seq<Problem>, split: Split)

  /** The decisions of `generate` (with the two readers that pass over malformed entries):
      the cache, then the detected names, then the existing agents of the agents directory
      (`present`, `listing`, `files`, `unreadable`), then the orphans, the specs of the
      domain profiles `profiles`, and which of them the mode skips.  A run stops with
      `no_domains` exactly when the cache is missing, unreadable, not a mapping or without
      true `domains`, or when no cached entry is a mapping with a name; the report then lists
      nothing, and its only possible problem is the unreadable cache. */
  function PlanOf(cache: Option<Option<string>>, present: bool, listing: seq<string>, files: map<string, string>,
                  unreadable: set<string>, profiles: map<string, Option<string>>, mode: Mode, p: Parsers): (r: Plan)
    ensures r.Halted? <==> ReadDomains(cache, p).Stop? || (ReadDomains(cache, p).Entries? && DetectedNames(ReadDomains(cache, p).entries) == Some({}))
    ensures r.Halted? ==> (r.report.status == NoDomains && r.report.generated == [] && r.report.skipped == []
                           && r.report.orphaned == [] && (r.report.errors == [] || r.report.errors == [CacheUnreadable]))
    ensures cache.None? ==> r == Halted(NoDomainsReport([]))
  {
    match ReadDomains(cache, p)
    case Stop(errors) => Halted(NoDomainsReport(errors))
    case CacheCrash => Crashed
    case Entries(entries) =>
      match DetectedNames(entries)
      case None => Crashed
      case Some(names) =>
        if names == {} then Halted(NoDomainsReport([]))
        else
          var existing := ExistingAgents(present, listing, files, unreadable, p);
          match Orphans(existing, names)
          case None => Crashed
          case Some(orphaned) =>
            match Collected(entries, profiles)
            case None => Crashed
            case Some(c) => Planned(orphaned, c.errors, Partition(c.specs, existing, mode))
  }

  /** The decisions of `generate` as written, with the two readers that raise.  The
      corrections only turn raising runs into finished ones: whenever the code as written
      finishes, it decides what the corrected code decides. */
  function PlanAsWritten(cache: Option<Option<string>>, present: bool, listing: seq<string>, files: map<string, string>,
                         unreadable: set<string>, profiles: map<string, Option<string>>, mode: Mode, p: Parsers): (r: Plan)
    ensures r.Crashed? || r == PlanOf(cache, present, listing, files, unreadable, profiles, mode, p)
  {
    match ReadDomains(cache, p)
    case Stop(errors) => Halted(NoDomainsReport(errors))
    case CacheCrash => Crashed
    case Entries(entries) =>
      match DetectedNames(entries)
      case None => Crashed
      case Some(names) =>
        if names == {} then Halted(NoDomainsReport([]))
        else
          match ExistingAgentsAsWritten(present, listing, files, unreadable, p)
          case None => Crashed
          case Some(existing) =>
            match Orphans(existing, names)
            case None => Crashed
            case Some(orphaned) =>
              match CollectedAsWritten(entries, profiles)
              case None => Crashed
              case Some(c) => Planned(orphaned, c.errors, Partition(c.specs, existing, mode))
  }

  /** The cache `domains: [{name: web-api}, cli-tool]` with a readable web-api profile: the
      string entry has no name, so the run goes on; the code as written then raises on it,
      the corrected code passes it over. */
  lemma StringEntryRun(cache: Option<Option<string>>, present: bool, listing: seq<string>, files: map<string, string>,
                       unreadable: set<string>, profiles: map<string, Option<string>>, mode: Mode, p: Parsers)
    requires cache.Some? && cache.value.Some?
    requires p.yaml(cache.value.value) == Some(VMap(map["domains" := VList([VMap(map["name" := VStr("web-api")]), VStr("cli-tool")])]))
    requires "web-api" in profiles && profiles["web-api"].Some?
    requires Orphans(ExistingAgents(present, listing, files, unreadable, p), {VStr("web-api")}).Some?
    requires ExistingAgentsAsWritten(present, listing, files, unreadable, p).Some?
    ensures PlanOf(cache, present, listing, files, unreadable, profiles, mode, p).Planned?
    ensures PlanAsWritten(cache, present, listing, files, unreadable, profiles, mode, p).Crashed?
  {
    var entries := [VMap(map["name" := VStr("web-api")]), VStr("cli-tool")];
    assert ReadDomains(cache, p) == Entries(entries);
    assert NameOf(entries[0]) == Some(VStr("web-api"));
    assert NameOf(entries[1]).None?;
    assert DetectedNames(entries).value == {VStr("web-api")};
    assert EntryOutcome(entries[0], profiles).Found?;
    assert EntryOutcome(entries[1], profiles).Skip?;
    assert Collected(entries, profiles).Some?;
    StringEntryStops(entries, profiles, 1);
  }

  // ---------------------------------------------------------------------------------------
  // Writing agent files
  // ---------------------------------------------------------------------------------------

  /** A name `mkstemp(suffix=".tmp")` can pick. */
  predicate IsTempName(name: string) {
    |name| >= 4 && name[|name| - 4..] == ".tmp"
  }

  /** An agent file is never a temp file. */
  lemma AgentFileNotTemp(name: string, temp: string)
    requires IsTempName(temp)
    ensures name + ".md" != temp
  {
    assert (name + ".md")[|name| + 2] == 'd';
    assert temp[|temp| - 4..][3] == temp[|temp| - 1] == 'p';
  }

  /** `_atomic_write`, writing again after a short write: `content` goes to the temp file
      `temp` of the agents directory, is synced, closed and renamed over `target`.  On success `target` holds `content`; on any
      failure the other files are untouched, no descriptor is left open and the error
      propagates. */
  method AtomicWrite(dir: Directory, target: string, content: string, temp: string, faults: Faults)
    returns (ok: bool)
    requires dir.Valid()
    modifies dir
    ensures dir.Valid()
    ensures ok <==> NoFault(faults) && temp !in old(dir.files)
    ensures ok ==> dir.files == old(dir.files)[target := content]
    ensures !ok ==> OnlyTempDiffers(old(dir.files), dir.files, temp)
    ensures dir.open == old(dir.open)
  {
    ok := dir.MakeDirectory(faults);
    if !ok {
      return;
    }
    ok := dir.CreateTempFile(temp, faults);
    if !ok {
      return;
    }
    var n;
    ok, n := dir.WriteOnce(temp, content, faults);
    if ok && n < |content| {
      ok := dir.WriteAll(temp, content[n..], faults);
    }
    assert ok ==> dir.files == old(dir.files)[temp := content] by {
      assert "" + content[..n] + content[n..] == content;
      assert "" + content[..|content|] == content;
    }
    assert old(dir.files)[temp := content] - {temp} == old(dir.files);
    assert OnlyTempDiffers(old(dir.files), dir.files, temp);
    ok := SyncAndRename(dir, temp, target, faults, ok);
  }

  /** `_atomic_write` as written: the count `os.write` returns is ignored, so a short write
      is synced and renamed into place as if it were the whole file. */
  method AtomicWriteAsWritten(dir: Directory, target: string, content: string, temp: string, faults: Faults)
    returns (ok: bool)
    requires dir.Valid()
    modifies dir
    ensures dir.Valid()
    ensures ok <==> NoFault(faults) && temp !in old(dir.files)
    ensures ok ==> dir.files == old(dir.files)[target := content[..Accepted(faults, |content|)]]
    ensures ok && 0 < faults.chunk < |content| ==> dir.files[target] != content
    ensures !ok ==> OnlyTempDiffers(old(dir.files), dir.files, temp)
    ensures dir.open == old(dir.open)
  {
    ok := dir.MakeDirectory(faults);
    if !ok {
      return;
    }
    ok := dir.CreateTempFile(temp, faults);
    if !ok {
      return;
    }
    var n;
    ok, n := dir.WriteOnce(temp, content, faults);
    assert "" + content[..n] == content[..n];
    assert ok ==> n == Accepted(faults, |content|) && dir.files == old(dir.files)[temp := content[..n]];
    assert ok && 0 < faults.chunk < |content| ==> |content[..n]| < |content|;
    assert old(dir.files)[temp := content[..n]] - {temp} == old(dir.files);
    assert OnlyTempDiffers(old(dir.files), dir.files, temp);
    ok := SyncAndRename(dir, temp, target, faults, ok);
  }

  /** The end of `_atomic_write`, once the content is written (`written`) or its write has
      failed: sync, close and rename when it was written; on any failure the descriptor is
      closed unless that already happened, and the temp file removed.  Either way the temp
      file ends up closed. */
  method SyncAndRename(dir: Directory, temp: string, target: string, faults: Faults, written: bool)
    returns (ok: bool)
    requires dir.Valid() && temp in dir.files && temp in dir.open
    modifies dir
    ensures dir.Valid()
    ensures ok <==> written && Sync !in faults.failing && CloseFile !in faults.failing && RenameFile !in faults.failing
    ensures ok ==> dir.files == (old(dir.files) - {temp})[target := old(dir.files)[temp]]
    ensures !ok ==> OnlyTempDiffers(old(dir.files), dir.files, temp)
    ensures !ok && temp in dir.files ==> RemoveFile in faults.failing
    ensures dir.open == old(dir.open) - {temp}
  {
    var closed := false;
    ok := written;
    if ok {
      ok := dir.SyncFile(temp, faults);
    }
    if ok {
      ok := dir.Close(temp, faults);
      closed := ok;
    }
    if ok {
      ok := dir.Rename(temp, target, faults);
      assert ok && temp == target ==> (old(dir.files) - {temp})[target := old(dir.files)[temp]] == old(dir.files);
    }
    if !ok {
      if !closed {
        var closedAgain := dir.Close(temp, faults);
      }
      var removed := dir.Remove(temp, faults);
    }
  }

  /** A `write` that accepts fewer characters than the content leaves a strict prefix. */
  lemma ShortWriteTruncates(content: string, faults: Faults)
    requires 0 < faults.chunk < |content|
    ensures content[..Accepted(faults, |content|)] != content
    ensures content[..Accepted(faults, |content|)] < content
  {
    assert |content[..Accepted(faults, |content|)]| < |content|;
  }

  /** `m` with `keys[k]` set to `vals[k]`, one key after the other. */
  function Overwrite<K, V>(m: map<K, V>, keys: seq<K>, vals: seq<V>): map<K, V>
    requires |keys| == |vals|
  {
    if |keys| == 0 then m
    else
      var n := |keys| - 1;
      Overwrite(m, keys[..n], vals[..n])[keys[n] := vals[n]]
  }

  /** A key holds the value of its last write. */
  lemma {:induction false} OverwriteHold<K, V>(m: map<K, V>, keys: seq<K>, vals: seq<V>, k: nat)
    requires |keys| == |vals| && k < |keys| && forall j :: k < j < |keys| ==> keys[j] != keys[k]
    ensures keys[k] in Overwrite(m, keys, vals) && Overwrite(m, keys, vals)[keys[k]] == vals[k]
  {
    var n := |keys| - 1;
    if k < n {
      var ks, vs := keys[..n], vals[..n];
      assert ks[k] == keys[k] && vs[k] == vals[k];
      assert forall j :: k < j < |ks| ==> ks[j] != ks[k] by {
        forall j | k < j < |ks| ensures ks[j] != ks[k] {
          assert ks[j] == keys[j];
        }
      }
      OverwriteHold(m, ks, vs, k);
    }
  }

  /** A key never written keeps its value, or stays absent. */
  lemma {:induction false} OverwriteKeep<K, V>(m: map<K, V>, keys: seq<K>, vals: seq<V>, x: K)
    requires |keys| == |vals| && forall k :: 0 <= k < |keys| ==> keys[k] != x
    ensures x in Overwrite(m, keys, vals) <==> x in m
    ensures x in m ==> Overwrite(m, keys, vals)[x] == m[x]
  {
    if |keys| > 0 {
      var n := |keys| - 1;
      var ks := keys[..n];
      assert forall k :: 0 <= k < |ks| ==> ks[k] != x by {
        forall k | 0 <= k < |ks| ensures ks[k] != x {
          assert ks[k] == keys[k];
        }
      }
      OverwriteKeep(m, ks, vals[..n], x);
      assert keys[n] != x;
    }
  }

  /** One more write goes on top of the others. */
  lemma OverwriteSnoc<K, V>(m: map<K, V>, keys: seq<K>, vals: seq<V>, a: K, b: V)
    requires |keys| == |vals|
    ensures Overwrite(m, keys + [a], vals + [b]) == Overwrite(m, keys, vals)[a := b]
  {
    assert (keys + [a])[..|keys|] == keys;
    assert (vals + [b])[..|vals|] == vals;
  }

  /** The file of each spec of `w`. */
  function AgentFiles(w: seq<AgentSpec>): (r: seq<string>)
    ensures |r| == |w|
    ensures forall k :: 0 <= k < |w| ==> r[k] == w[k].name + ".md"
  {
    if |w| == 0 then [] else AgentFiles(w[..|w| - 1]) + [w[|w| - 1].name + ".md"]
  }

  /** `f` applied to each element of `s` and its position. */
  function MapIndexed<A, B>(s: seq<A>, f: (A, nat) -> B): (r: seq<B>)
    ensures |r| == |s|
  {
    if |s| == 0 then [] else MapIndexed(s[..|s| - 1], f) + [f(s[|s| - 1], |s| - 1)]
  }

  lemma {:induction false} MapIndexedAt<A, B>(s: seq<A>, f: (A, nat) -> B, k: nat)
    requires k < |s|
    ensures MapIndexed(s, f)[k] == f(s[k], k)
  {
    var n := |s| - 1;
    if k < n {
      MapIndexedAt(s[..n], f, k);
      assert s[..n][k] == s[k];
    }
  }

  /** The `k`-th rendering of a run: `sp` stamped with the `k`-th clock reading. */
  function Stamped(t: Template, clock: nat -> string): (AgentSpec, nat) -> string {
    (sp: AgentSpec, k: nat) => AgentText(t, sp, clock(k))
  }

  /** The rendering of each spec of `w`, the `k`-th with the `k`-th clock reading. */
  function Renderings(t: Template, w: seq<AgentSpec>, clock: nat -> string): (r: seq<string>)
    ensures |r| == |w|
  {
    MapIndexed(w, Stamped(t, clock))
  }

  /** Rendering `k` is the text of spec `k` stamped with reading `k`. */
  lemma RenderingAt(t: Template, w: seq<AgentSpec>, clock: nat -> string, k: nat)
    requires k < |w|
    ensures Renderings(t, w, clock)[k] == AgentText(t, w[k], clock(k))
  {
    MapIndexedAt(w, Stamped(t, clock), k);
  }

  /** The agents directory after a run that renders `w`: write `k` replaces `<name>.md` of
      `w[k]` by its rendering with the `k`-th clock reading. */
  function WrittenFiles(files: map<string, string>, w: seq<AgentSpec>, t: Template, clock: nat -> string): map<string, string> {
    if |w| == 0 then files
    else
      var m := |w| - 1;
      WrittenFiles(files, w[..m], t, clock)[w[m].name + ".md" := AgentText(t, w[m], clock(m))]
  }

  /** The writes of a run are the agent files overwritten by the renderings. */
  lemma {:induction false} WrittenAsOverwrite(files: map<string, string>, w: seq<AgentSpec>, t: Template, clock: nat -> string)
    ensures WrittenFiles(files, w, t, clock) == Overwrite(files, AgentFiles(w), Renderings(t, w, clock))
  {
    if |w| > 0 {
      var m := |w| - 1;
      var init := w[..m];
      WrittenAsOverwrite(files, init, t, clock);
      OverwriteSnoc(files, AgentFiles(init), Renderings(t, init, clock), w[m].name + ".md", AgentText(t, w[m], clock(m)));
    }
  }

  /** A rendered agent's file holds its rendering unless a later spec of the same name
      replaced it. */
  lemma WrittenFilesHold(files: map<string, string>, w: seq<AgentSpec>, t: Template, clock: nat -> string, k: nat)
    requires k < |w| && forall j :: k < j < |w| ==> w[j].name != w[k].name
    ensures w[k].name + ".md" in WrittenFiles(files, w, t, clock)
    ensures WrittenFiles(files, w, t, clock)[w[k].name + ".md"] == AgentText(t, w[k], clock(k))
  {
    var keys := AgentFiles(w);
    forall j | k < j < |w| ensures keys[j] != keys[k] {
      NameFileInjective(w[j].name, w[k].name);
    }
    OverwriteHold(files, keys, Renderings(t, w, clock), k);
    RenderingAt(t, w, clock, k);
    WrittenAsOverwrite(files, w, t, clock);
  }

  /** A file that is no rendered agent's keeps its content. */
  lemma WrittenFilesKeep(files: map<string, string>, w: seq<AgentSpec>, t: Template, clock: nat -> string, n: string)
    requires forall k :: 0 <= k < |w| ==> w[k].name + ".md" != n
    ensures n in WrittenFiles(files, w, t, clock) <==> n in files
    ensures n in files ==> WrittenFiles(files, w, t, clock)[n] == files[n]
  {
    OverwriteKeep(files, AgentFiles(w), Renderings(t, w, clock), n);
    WrittenAsOverwrite(files, w, t, clock);
  }

  /** Distinct agents have distinct files. */
  lemma NameFileInjective(a: string, b: string)
    ensures a + ".md" == b + ".md" ==> a == b
  {
    if a + ".md" == b + ".md" {
      assert |a| == |b|;
      assert a == (a + ".md")[..|a|];
      assert b == (b + ".md")[..|b|];
    }
  }

  /** The environment write `k` finds. */
  function FaultsAt(faults: nat -> Faults, k: nat): Faults {
    faults(k)
  }

  /** The first write, from `k` on, whose environment faults. */
  function FirstFault(faults: nat -> Faults, k: nat, n: nat): (r: nat)
    ensures k <= n ==> k <= r <= n
    ensures forall j :: k <= j < r ==> NoFault(FaultsAt(faults, j))
    ensures k <= r < n ==> !NoFault(FaultsAt(faults, r))
    decreases n - k
  {
    if k >= n then k
    else if !NoFault(FaultsAt(faults, k)) then k
    else FirstFault(faults, k + 1, n)
  }

  /** All of `n` writes succeed: each finds its environment without fault and the temp name
      free (the renames take it away again). */
  predicate AllWritesSucceed(faults: nat -> Faults, temp: string, files: map<string, string>, n: nat) {
    n == 0 || (temp !in files && forall j :: 0 <= j < n ==> NoFault(FaultsAt(faults, j)))
  }

  /** The write that fails when not all of `n` succeed. */
  function FailedWrite(faults: nat -> Faults, temp: string, files: map<string, string>, n: nat): (r: nat)
    ensures r <= n
    ensures !AllWritesSucceed(faults, temp, files, n) ==> r < n
  {
    if temp in files then 0 else FirstFault(faults, 0, n)
  }

  /** Once `n` writes fail, the one that fails is the first whose environment faults, or the
      first write when the temp name is taken. */
  lemma {:induction false} FirstFaultIs(faults: nat -> Faults, k: nat, n: nat, f: nat)
    requires k <= f < n && !NoFault(FaultsAt(faults, f)) && forall j :: k <= j < f ==> NoFault(FaultsAt(faults, j))
    ensures FirstFault(faults, k, n) == f
    decreases f - k
  {
    if k < f {
      FirstFaultIs(faults, k + 1, n, f);
    }
  }

  /** Write `g` of `n` fails after `g` successful ones: it is the failed write of the run. */
  lemma WriteFailsAt(faults: nat -> Faults, temp: string, files: map<string, string>, g: nat, n: nat)
    requires g < n && AllWritesSucceed(faults, temp, files, g)
    requires !NoFault(FaultsAt(faults, g)) || temp in files
    ensures !AllWritesSucceed(faults, temp, files, n)
    ensures FailedWrite(faults, temp, files, n) == g
  {
    if temp !in files {
      FirstFaultIs(faults, 0, n, g);
    }
  }

  /** The names of the rendered specs. */
  function Names(w: seq<AgentSpec>): (r: seq<string>)
    ensures |r| == |w|
    ensures forall k :: 0 <= k < |w| ==> r[k] == w[k].name
  {
    if |w| == 0 then [] else Names(w[..|w| - 1]) + [w[|w| - 1].name]
  }

  /** One more spec: the decision of `generate` for it is added to those for the specs before. */
  lemma PartitionStep(specs: seq<AgentSpec>, existing: seq<Existing>, mode: Mode, i: nat)
    requires i < |specs|
    ensures Partition(specs[..i + 1], existing, mode).toWrite
      == if Skips(mode, existing, specs[i].name) then Partition(specs[..i], existing, mode).toWrite
         else Partition(specs[..i], existing, mode).toWrite + [specs[i]]
    ensures Partition(specs[..i + 1], existing, mode).skipped
      == if Skips(mode, existing, specs[i].name) then Partition(specs[..i], existing, mode).skipped + [specs[i].name]
         else Partition(specs[..i], existing, mode).skipped
  {
    assert specs[..i + 1][..i] == specs[..i];
  }

  lemma NamesStep(w: seq<AgentSpec>, sp: AgentSpec)
    ensures Names(w + [sp]) == Names(w) + [sp.name]
  {
    assert (w + [sp])[..|w|] == w;
  }

  /** A further successful write extends a run of successful ones. */
  lemma WritesExtend(faults: nat -> Faults, temp: string, files: map<string, string>, n: nat)
    requires AllWritesSucceed(faults, temp, files, n) && NoFault(FaultsAt(faults, n)) && temp !in files
    ensures AllWritesSucceed(faults, temp, files, n + 1)
  {
    assert forall j :: 0 <= j < n + 1 ==> NoFault(FaultsAt(faults, j));
  }

  /** The specs rendered for a prefix of `specs` come first among those rendered for all. */
  lemma {:induction false} PartitionPrefix(specs: seq<AgentSpec>, existing: seq<Existing>, mode: Mode, i: nat)
    requires i <= |specs|
    ensures Partition(specs[..i], existing, mode).toWrite <= Partition(specs, existing, mode).toWrite
  {
    if i < |specs| {
      var init := specs[..|specs| - 1];
      PartitionPrefix(init, existing, mode, i);
      assert init[..i] == specs[..i];
    } else {
      assert specs[..i] == specs;
    }
  }

  /** When the write of the spec at position `i` of `specs` fails after the writes of those
      rendered before it succeeded, it is the failed write of the whole run, and the files
      rendered before it are the ones written. */
  lemma FailedRun(specs: seq<AgentSpec>, existing: seq<Existing>, mode: Mode, i: nat, w: seq<AgentSpec>,
                  faults: nat -> Faults, temp: string, files: map<string, string>)
    requires i < |specs| && Partition(specs[..i + 1], existing, mode).toWrite == w + [specs[i]]
    requires AllWritesSucceed(faults, temp, files, |w|)
    requires !NoFault(FaultsAt(faults, |w|)) || temp in files
    ensures var all := Partition(specs, existing, mode).toWrite;
      !AllWritesSucceed(faults, temp, files, |all|) && all[..FailedWrite(faults, temp, files, |all|)] == w
  {
    RenderedPrefix(specs, existing, mode, i, w);
    WriteFailsAt(faults, temp, files, |w|, |Partition(specs, existing, mode).toWrite|);
  }

  /** The specs rendered before the one at position `i` are the first ones rendered in all. */
  lemma RenderedPrefix(specs: seq<AgentSpec>, existing: seq<Existing>, mode: Mode, i: nat, w: seq<AgentSpec>)
    requires i < |specs| && Partition(specs[..i + 1], existing, mode).toWrite == w + [specs[i]]
    ensures var all := Partition(specs, existing, mode).toWrite;
      |w| < |all| && all[..|w|] == w
  {
    PartitionPrefix(specs, existing, mode, i + 1);
    PrefixBeforeLast(w, specs[i], Partition(specs, existing, mode).toWrite);
  }

  lemma PrefixBeforeLast<T>(a: seq<T>, x: T, b: seq<T>)
    requires a + [x] <= b
    ensures |a| < |b| && b[..|a|] == a
  {
    assert b[..|a|] == (a + [x])[..|a|];
  }

  /** One more rendered spec replaces its own file. */
  lemma WrittenStep(files: map<string, string>, w: seq<AgentSpec>, sp: AgentSpec, t: Template, clock: nat -> string)
    ensures WrittenFiles(files, w + [sp], t, clock)
      == WrittenFiles(files, w, t, clock)[sp.name + ".md" := AgentText(t, sp, clock(|w|))]
  {
    assert (w + [sp])[..|w|] == w;
  }

  /** One turn of the generation loop for `sp`: skipped when the mode says so; otherwise
      rendered and, unless `dryRun`, written as the run's write number `|w|`. */
  method GenerateOne(dir: Directory, ghost files: map<string, string>, ghost w: seq<AgentSpec>, position: nat,
                     sp: AgentSpec, existing: seq<Existing>, mode: Mode, dryRun: bool,
                     t: Template, clock: nat -> string, temp: string, faults: nat -> Faults)
    returns (ok: bool, rendered: bool)
    requires dir.Valid() && IsTempName(temp) && position == |w|
    requires !dryRun ==> dir.files == WrittenFiles(files, w, t, clock) && AllWritesSucceed(faults, temp, files, |w|)
    modifies dir
    ensures dir.Valid() && dir.open == old(dir.open)
    ensures rendered <==> !Skips(mode, existing, sp.name)
    ensures ok <==> !rendered || dryRun || (NoFault(FaultsAt(faults, |w|)) && temp !in files)
    ensures !rendered || dryRun ==> dir.files == old(dir.files)
    ensures ok && rendered && !dryRun ==>
      dir.files == WrittenFiles(files, w + [sp], t, clock) && AllWritesSucceed(faults, temp, files, |w| + 1)
    ensures !ok ==> OnlyTempDiffers(WrittenFiles(files, w, t, clock), dir.files, temp)
  {
    ok, rendered := true, false;
    if Skips(mode, existing, sp.name) {
      return;
    }
    rendered := true;
    var content := RenderAgent(t, sp, clock(position));
    if !dryRun {
      TempUntouched(files, w, t, clock, temp);
      ok := AtomicWrite(dir, sp.name + ".md", content, temp, FaultsAt(faults, position));
      if ok {
        WrittenStep(files, w, sp, t, clock);
        WritesExtend(faults, temp, files, |w|);
      }
    }
  }

  /** The state of the generation loop after the first `i` specs: `w` are the specs rendered
      so far, `generated` their names and `skipped` the names passed over; unless `dryRun`,
      every write so far succeeded and the agents directory, once `files0`, now `files`
      holds their renderings. */
  ghost predicate Progress(specs: seq<AgentSpec>, existing: seq<Existing>, mode: Mode, dryRun: bool, t: Template,
                           clock: nat -> string, temp: string, faults: nat -> Faults, files0: map<string, string>,
                           i: nat, w: seq<AgentSpec>, generated: seq<string>, skipped: seq<string>, files: map<string, string>)
  {
    && i <= |specs|
    && Partition(specs[..i], existing, mode).toWrite == w
    && Partition(specs[..i], existing, mode).skipped == skipped
    && generated == Names(w)
    && (dryRun ==> files == files0)
    && (!dryRun ==> files == WrittenFiles(files0, w, t, clock) && AllWritesSucceed(faults, temp, files0, |w|))
  }

  /** The end of a run whose writes fail: the failed write is the first that faults, and the
      agents directory holds exactly the files written before it. */
  ghost predicate FailedWrites(specs: seq<AgentSpec>, existing: seq<Existing>, mode: Mode, t: Template,
                               clock: nat -> string, temp: string, faults: nat -> Faults,
                               files0: map<string, string>, files: map<string, string>)
  {
    var all := Partition(specs, existing, mode).toWrite;
    && !AllWritesSucceed(faults, temp, files0, |all|)
    && OnlyTempDiffers(WrittenFiles(files0, all[..FailedWrite(faults, temp, files0, |all|)], t, clock), files, temp)
  }

  /** One turn of the generation loop, for the spec at position `i`: it keeps the loop's
      `Progress`, or fails the run. */
  method GenerateStep(dir: Directory, specs: seq<AgentSpec>, existing: seq<Existing>, mode: Mode, dryRun: bool,
                      t: Template, clock: nat -> string, temp: string, faults: nat -> Faults, ghost files0: map<string, string>,
                      i: nat, ghost w: seq<AgentSpec>, generated: seq<string>, skipped: seq<string>)
    returns (ok: bool, ghost w': seq<AgentSpec>, generated': seq<string>, skipped': seq<string>)
    requires dir.Valid() && IsTempName(temp) && i < |specs|
    requires Progress(specs, existing, mode, dryRun, t, clock, temp, faults, files0, i, w, generated, skipped, dir.files)
    modifies dir
    ensures dir.Valid() && dir.open == old(dir.open)
    ensures ok ==> Progress(specs, existing, mode, dryRun, t, clock, temp, faults, files0, i + 1, w', generated', skipped', dir.files)
    ensures !ok ==> !dryRun && FailedWrites(specs, existing, mode, t, clock, temp, faults, files0, dir.files)
  {
    var sp := specs[i];
    PartitionStep(specs, existing, mode, i);
    var rendered;
    ok, rendered := GenerateOne(dir, files0, w, |generated|, sp, existing, mode, dryRun, t, clock, temp, faults);
    if !ok {
      FailedRun(specs, existing, mode, i, w, faults, temp, files0);
      return ok, w, generated, skipped;
    }
    if rendered {
      NamesStep(w, sp);
      w', generated', skipped' := w + [sp], generated + [sp.name], skipped;
    } else {
      w', generated', skipped' := w, generated, skipped + [sp.name];
    }
  }

  /** The generation loop of `generate`: each spec is skipped or rendered with the next clock
      reading and, unless `dryRun`, written to `<name>.md` in an environment `faults(k)` of
      its own; a failing write ends the loop with `ok` false. */
  method GenerateAgents(dir: Directory, specs: seq<AgentSpec>, existing: seq<Existing>, mode: Mode, dryRun: bool,
                        t: Template, clock: nat -> string, temp: string, faults: nat -> Faults)
    returns (ok: bool, generated: seq<string>, skipped: seq<string>)
    requires dir.Valid() && IsTempName(temp)
    modifies dir
    ensures dir.Valid() && dir.open == old(dir.open)
    ensures ok <==> dryRun || AllWritesSucceed(faults, temp, old(dir.files), |Partition(specs, existing, mode).toWrite|)
    ensures ok ==> generated == Names(Partition(specs, existing, mode).toWrite)
    ensures ok ==> skipped == Partition(specs, existing, mode).skipped
    ensures dryRun ==> dir.files == old(dir.files)
    ensures ok && !dryRun ==> dir.files == WrittenFiles(old(dir.files), Partition(specs, existing, mode).toWrite, t, clock)
    ensures !ok ==> OnlyTempDiffers(
      WrittenFiles(old(dir.files), Partition(specs, existing, mode).toWrite[..FailedWrite(faults, temp, old(dir.files), |Partition(specs, existing, mode).toWrite|)], t, clock),
      dir.files, temp)
  {
    generated, skipped := [], [];
    ghost var w: seq<AgentSpec> := [];
    var i := 0;
    assert specs[..i] == [];
    while i < |specs|
      invariant dir.Valid() && dir.open == old(dir.open)
      invariant Progress(specs, existing, mode, dryRun, t, clock, temp, faults, old(dir.files), i, w, generated, skipped, dir.files)
    {
      var fine;
      fine, w, generated, skipped := GenerateStep(dir, specs, existing, mode, dryRun, t, clock, temp, faults, old(dir.files),
                                                  i, w, generated, skipped);
      if !fine {
        return false, generated, skipped;
      }
      i := i + 1;
    }
    assert specs[..i] == specs;
    ok := true;
  }

  /** The temp name is no agent file, so the writes leave it as it was. */
  lemma TempUntouched(files: map<string, string>, w: seq<AgentSpec>, t: Template, clock: nat -> string, temp: string)
    requires IsTempName(temp)
    ensures temp in WrittenFiles(files, w, t, clock) <==> temp in files
  {
    forall k | 0 <= k < |w|
      ensures w[k].name + ".md" != temp
    {
      AgentFileNotTemp(w[k].name, temp);
    }
    WrittenFilesKeep(files, w, t, clock, temp);
  }
}
