/** The four signal gatherers.  Each scores one category of a domain's signals against the
    project snapshot as the fraction of signals present, and 0.0 when the domain has no signals
    of that category or the project root cannot be listed. */
module Gatherers {
  import opened Values
  import opened Text
  import opened Collections
  import opened Scoring
  import opened Snapshot
  import opened Glob
  import opened Extractors

  // ---------------------------------------------------------------------------
  // Directories
  // ---------------------------------------------------------------------------

  /** The names of the root's entries that are directories. */
  function ChildDirNames(entries: seq<Entry>): set<string> {
    set e | e in entries && e.node.Dir? :: e.name
  }

  /** A signal with a `/` names a nested path, which must be a directory; any other signal
      names an immediate child directory. */
  predicate DirSignalHolds(root: Node, entries: seq<Entry>, sig: string) {
    if '/' in sig then IsDirAt(root, sig) else sig in ChildDirNames(entries)
  }

  function DirectoryScore(root: Node, signals: seq<string>): (r: real)
    ensures InUnit(r)
  {
    if signals == [] then 0.0
    else
      match Listing(root)
      case None => 0.0
      case Some(entries) => Fraction(Count(signals, s => DirSignalHolds(root, entries, s)), |signals|)
  }

  /** `gather_directories`. */
  method GatherDirectories(root: Node, signals: seq<string>) returns (r: real)
    ensures r == DirectoryScore(root, signals)
  {
    if signals == [] {
      return 0.0;
    }
    var listing := Listing(root);
    if listing.None? {
      return 0.0;
    }
    var entries := listing.value;
    var existing := set e | e in entries && e.node.Dir? :: e.name;
    var holds := s => DirSignalHolds(root, entries, s);
    var matches := 0;
    for i := 0 to |signals|
      invariant matches == Count(signals[..i], holds)
    {
      var sig := signals[i];
      if '/' in sig {
        if IsDirAt(root, sig) {
          matches := matches + 1;
        }
      } else if sig in existing {
        matches := matches + 1;
      }
      CountSnoc(signals, i, holds);
    }
    assert signals[..|signals|] == signals;
    r := Fraction(matches, |signals|);
  }

  /** For a plain name the membership test agrees with asking whether the joined path is a
      directory, which is what the nested rule asks: the two rules are one rule. */
  lemma PlainDirSignalIsPathCheck(root: Node, sig: string)
    requires root.Dir? && root.listing.Some? && UniqueNames(root.listing.value)
    requires '/' !in sig && sig != "" && sig != "."
    ensures DirSignalHolds(root, root.listing.value, sig) <==> IsDirAt(root, sig)
  {
    var entries := root.listing.value;
    assert IndexWhere(sig, 0, x => x == '/') == |sig|;
    assert SplitOn(sig, '/') == [sig];
    assert KeepNamed([sig]) == [sig] by {
      assert KeepNamed([sig][1..]) == [];
    }
    var child := Child(entries, sig);
    if sig in ChildDirNames(entries) {
      var e :| e in entries && e.node.Dir? && e.name == sig;
      var i :| 0 <= i < |entries| && entries[i] == e;
      var j :| 0 <= j < |entries| && entries[j] == Entry(sig, child.value);
      assert i == j;
      assert [sig][0] == sig && [sig][1..] == [];
      assert IsDirPath(child.value, [sig][1..]);
      assert IsDirPath(root, [sig]);
      assert sig[0] in sig;
    }
    if IsDirAt(root, sig) {
      assert IsDirPath(root, [sig]);
      assert [sig][0] == sig && [sig][1..] == [];
      assert child.Some?;
      assert IsDirPath(child.value, [sig][1..]);
      assert child.value.Dir?;
      var w := Entry(sig, child.value);
      assert w in entries && w.node.Dir? && w.name == sig;
      assert sig in ChildDirNames(entries);
    }
  }

  // ---------------------------------------------------------------------------
  // Files
  // ---------------------------------------------------------------------------

  function FileNameOf(e: Entry): Option<string> {
    if e.node.File? then Some(e.name) else None
  }

  /** The file names an entry of the root contributes: its own name when it is a file, the
      names of the files directly inside it when it is a readable directory that is not
      hidden. */
  function EntryFileNames(e: Entry): set<string> {
    match e.node
    case File(_) => {e.name}
    case Dir(listing) => if IsHidden(e.name) || listing.None? then {} else Collect(listing.value, FileNameOf)
  }

  /** The file names the gatherer matches patterns against: root level and one level down. */
  function VisibleFileNames(entries: seq<Entry>): set<string> {
    Flatten(entries, EntryFileNames)
  }

  predicate FileSignalHolds(names: set<string>, sig: string) {
    exists f :: f in names && Matches(f, sig)
  }

  function FileScore(root: Node, signals: seq<string>): (r: real)
    ensures InUnit(r)
  {
    if signals == [] then 0.0
    else
      match Listing(root)
      case None => 0.0
      case Some(entries) =>
        var names := VisibleFileNames(entries);
        Fraction(Count(signals, s => FileSignalHolds(names, s)), |signals|)
  }

  /** `gather_files`. */
  method GatherFiles(root: Node, signals: seq<string>) returns (r: real)
    ensures r == FileScore(root, signals)
  {
    if signals == [] {
      return 0.0;
    }
    var listing := Listing(root);
    if listing.None? {
      return 0.0;
    }
    var entries := listing.value;
    var filenames: set<string> := {};
    for i := 0 to |entries|
      invariant filenames == Flatten(entries[..i], EntryFileNames)
    {
      var entry := entries[i];
      if entry.node.File? {
        filenames := filenames + {entry.name};
      } else if !IsHidden(entry.name) && entry.node.listing.Some? {
        var children := entry.node.listing.value;
        ghost var before := filenames;
        for j := 0 to |children|
          invariant filenames == before + Collect(children[..j], FileNameOf)
        {
          if children[j].node.File? {
            filenames := filenames + {children[j].name};
          }
          CollectSnoc(children, j, FileNameOf);
        }
        assert children[..|children|] == children;
      }
      FlattenSnoc(entries, i, EntryFileNames);
    }
    assert entries[..|entries|] == entries;
    var holds := s => FileSignalHolds(filenames, s);
    var matches := 0;
    for i := 0 to |signals|
      invariant matches == Count(signals[..i], holds)
    {
      if exists f :: f in filenames && Matches(f, signals[i]) {
        matches := matches + 1;
      }
      CountSnoc(signals, i, holds);
    }
    assert signals[..|signals|] == signals;
    r := Fraction(matches, |signals|);
  }

  /** A pattern without wildcards, such as `game.toml`, is present exactly when a visible file
      has that very name. */
  lemma LiteralFileSignal(names: set<string>, sig: string)
    requires IsLiteral(sig)
    ensures FileSignalHolds(names, sig) <==> sig in names
  {
    if sig in names {
      LiteralMatchesOnlyItself(sig, sig);
    }
    if FileSignalHolds(names, sig) {
      var f :| f in names && Matches(f, sig);
      LiteralMatchesOnlyItself(f, sig);
    }
  }

  /** A file directly inside a non-hidden, readable subdirectory is visible; one inside a
      hidden subdirectory is not, unless some other entry contributes the same name. */
  lemma SubdirectoryFilesVisible(entries: seq<Entry>, d: Entry, c: Entry)
    requires d in entries && d.node.Dir? && d.node.listing.Some? && c in d.node.listing.value && c.node.File?
    ensures !IsHidden(d.name) ==> c.name in VisibleFileNames(entries)
  {
    if !IsHidden(d.name) {
      assert c.name in Collect(d.node.listing.value, FileNameOf);
      assert c.name in EntryFileNames(d);
    }
  }

  // ---------------------------------------------------------------------------
  // Frameworks
  // ---------------------------------------------------------------------------

  /** Every dependency name the five manifests yield. */
  function AllDeps(root: Node, p: Parsers): set<string> {
    PackageJsonDeps(root, p) + CargoDeps(root, p) + GoModDeps(root) + PyprojectDeps(root, p) + RequirementsDeps(root)
  }

  function Normalised(deps: set<string>): set<string> {
    set d | d in deps :: RemoveSeparators(d)
  }

  predicate FrameworkSignalHolds(normalised: set<string>, sig: string) {
    RemoveSeparators(sig) in normalised
  }

  function FrameworkScore(root: Node, p: Parsers, signals: seq<string>): (r: real)
    ensures InUnit(r)
  {
    if signals == [] then 0.0
    else
      var normalised := Normalised(AllDeps(root, p));
      Fraction(Count(signals, s => FrameworkSignalHolds(normalised, s)), |signals|)
  }

  /** The `all_deps.update(...)` sequence of `gather_frameworks`. */
  method CollectAllDeps(root: Node, p: Parsers) returns (allDeps: set<string>)
    ensures allDeps == AllDeps(root, p)
  {
    allDeps := {};
    var deps := ParsePackageJsonDeps(root, p);
    allDeps := allDeps + deps;
    deps := ParseCargoTomlDeps(root, p);
    allDeps := allDeps + deps;
    deps := ParseGoModDeps(root);
    allDeps := allDeps + deps;
    deps := ParsePyprojectDeps(root, p);
    allDeps := allDeps + deps;
    deps := ParseRequirementsTxt(root);
    allDeps := allDeps + deps;
  }

  /** `gather_frameworks`. */
  method GatherFrameworks(root: Node, p: Parsers, signals: seq<string>) returns (r: real)
    ensures r == FrameworkScore(root, p, signals)
  {
    if signals == [] {
      return 0.0;
    }
    var allDeps := CollectAllDeps(root, p);
    var normalised := set d | d in allDeps :: RemoveSeparators(d);
    var holds := s => FrameworkSignalHolds(normalised, s);
    var matches := 0;
    for i := 0 to |signals|
      invariant matches == Count(signals[..i], holds)
    {
      if RemoveSeparators(signals[i]) in normalised {
        matches := matches + 1;
      }
      CountSnoc(signals, i, holds);
    }
    assert signals[..|signals|] == signals;
    r := Fraction(matches, |signals|);
  }

  /** A signal is present exactly when some dependency equals it once both have lost their
      `-` and `_` characters; case is not folded at this step. */
  lemma FrameworkSignalMeaning(deps: set<string>, sig: string)
    ensures FrameworkSignalHolds(Normalised(deps), sig) <==> exists d :: d in deps && RemoveSeparators(d) == RemoveSeparators(sig)
  {
  }

  /** Writing a signal with or without a separator makes no difference: `scikit-learn`,
      `scikit_learn` and `scikitlearn` are the same signal. */
  lemma FrameworkSignalIgnoresSeparator(normalised: set<string>, a: string, sep: char, b: string)
    requires sep == '-' || sep == '_'
    ensures FrameworkSignalHolds(normalised, a + [sep] + b) <==> FrameworkSignalHolds(normalised, a + b)
  {
    RemoveSeparatorsConcat(a + [sep], b);
    RemoveSeparatorsConcat(a, [sep]);
    assert RemoveSeparators([sep]) == [] by {
      assert [sep][1..] == [];
    }
    assert RemoveSeparators(a + [sep]) == RemoveSeparators(a);
    RemoveSeparatorsConcat(a, b);
    assert RemoveSeparators(a + [sep] + b) == RemoveSeparators(a + b);
  }

  // ---------------------------------------------------------------------------
  // Keywords
  // ---------------------------------------------------------------------------

  /** The file suffixes scanned for keywords. */
  const SourceExtensions: set<string> :=
    {".py", ".go", ".rs", ".ts", ".js", ".java", ".kt", ".swift", ".c", ".cpp", ".h", ".gd", ".dart"}

  /** The number of source files read for keywords unless a caller says otherwise. */
  const DefaultKeywordFileLimit: nat := 5

  predicate IsSourceFile(e: Entry) {
    e.node.File? && Suffix(e.name) in SourceExtensions
  }

  /** The source files of a listing, in listing order. */
  function SourceFilesIn(children: seq<Entry>): seq<Entry>
    decreases |children|
  {
    if children == [] then []
    else
      var last := children[|children| - 1];
      SourceFilesIn(children[..|children| - 1]) + (if IsSourceFile(last) then [last] else [])
  }

  /** The candidates an entry of the root contributes: itself when it is a source file, the
      source files directly inside it when it is a readable directory that is not hidden. */
  function EntryCandidates(e: Entry): seq<Entry> {
    if IsSourceFile(e) then [e]
    else if e.node.Dir? && !IsHidden(e.name) && e.node.listing.Some? then SourceFilesIn(e.node.listing.value)
    else []
  }

  /** Every candidate source file, in the order of a breadth-first walk of sorted listings. */
  function Candidates(entries: seq<Entry>): seq<Entry>
    decreases |entries|
  {
    if entries == [] then []
    else Candidates(entries[..|entries| - 1]) + EntryCandidates(entries[|entries| - 1])
  }

  function Take<T>(xs: seq<T>, n: nat): (r: seq<T>)
    ensures |r| <= n && r <= xs
    ensures |xs| <= n ==> r == xs
  {
    if |xs| <= n then xs else xs[..n]
  }

  /** What reading the selected files yields: each readable file's text followed by a newline;
      an unreadable file adds nothing. */
  function CombinedText(files: seq<Entry>): string
    decreases |files|
  {
    if files == [] then ""
    else
      var last := files[|files| - 1];
      CombinedText(files[..|files| - 1]) + (match last.node case File(Some(t)) => t + "\n" case _ => "")
  }

  /** A keyword is found when it occurs in the combined text, ignoring case. */
  predicate KeywordFound(text: string, kw: string) {
    Contains(Lower(text), Lower(kw))
  }

  function KeywordScore(root: Node, signals: seq<string>, limit: nat): (r: real)
    ensures InUnit(r)
  {
    if signals == [] then 0.0
    else
      match Listing(root)
      case None => 0.0
      case Some(entries) =>
        var files := Take(Candidates(entries), limit);
        var text := CombinedText(files);
        if files == [] || text == "" then 0.0
        else Fraction(Count(signals, kw => KeywordFound(text, kw)), |signals|)
  }

  lemma {:induction false} SourceFilesPrefix(children: seq<Entry>, k: nat)
    requires k <= |children|
    ensures SourceFilesIn(children[..k]) <= SourceFilesIn(children)
    decreases |children| - k
  {
    if k < |children| {
      SourceFilesPrefix(children, k + 1);
      var pre := children[..k + 1];
      assert pre[..|pre| - 1] == children[..k];
    } else {
      assert children[..k] == children;
    }
  }

  /** The source files of a listing are among its children. */
  lemma {:induction false} SourceFilesSound(children: seq<Entry>)
    ensures forall c :: c in SourceFilesIn(children) ==> c in children && IsSourceFile(c)
    decreases |children|
  {
    if children != [] {
      var n := |children| - 1;
      SourceFilesSound(children[..n]);
      assert forall c :: c in children[..n] ==> c in children;
    }
  }

  /** One more child of a listing. */
  lemma SourceFilesSnoc(children: seq<Entry>, j: nat)
    requires j < |children|
    ensures SourceFilesIn(children[..j + 1])
      == SourceFilesIn(children[..j]) + (if IsSourceFile(children[j]) then [children[j]] else [])
  {
    assert children[..j + 1][..j] == children[..j];
  }

  lemma PrefixExtend<T>(g: seq<T>, a: seq<T>, b: seq<T>)
    requires a <= b
    ensures g + a <= g + b
  {
    assert g + a == (g + b)[..|g + a|];
  }

  lemma {:induction false} CandidatesPrefix(entries: seq<Entry>, k: nat)
    requires k <= |entries|
    ensures Candidates(entries[..k]) <= Candidates(entries)
    decreases |entries| - k
  {
    if k < |entries| {
      CandidatesPrefix(entries, k + 1);
      CandidatesSnoc(entries, k);
      PrefixOfConcat(Candidates(entries[..k]), EntryCandidates(entries[k]), Candidates(entries));
    } else {
      assert entries[..k] == entries;
    }
  }

  /** The candidates of one more entry of the root. */
  lemma CandidatesSnoc(entries: seq<Entry>, k: nat)
    requires k < |entries|
    ensures Candidates(entries[..k + 1]) == Candidates(entries[..k]) + EntryCandidates(entries[k])
  {
    assert entries[..k + 1][..k] == entries[..k];
  }

  lemma PrefixOfConcat<T>(a: seq<T>, b: seq<T>, c: seq<T>)
    requires a + b <= c
    ensures a <= c
  {
    assert a == (a + b)[..|a|];
  }

  lemma PrefixTransitive<T>(a: seq<T>, b: seq<T>, c: seq<T>)
    requires a <= b && b <= c
    ensures a <= c
  {
    assert a == b[..|a|];
    assert b == c[..|b|];
  }

  /** Stopping early, once at least `3 * limit` candidates are gathered, does not change the
      first `limit` of them. */
  lemma TakeOfEarlyStop<T>(gathered: seq<T>, all: seq<T>, limit: nat)
    requires gathered <= all
    requires |gathered| >= 3 * limit || gathered == all
    ensures Take(gathered, limit) == Take(all, limit)
  {
  }

  /** The inner loop of the candidate walk: appends the source files of one subdirectory's
      listing, stopping as soon as `cap` candidates are gathered. */
  method AppendSourceFiles(gathered: seq<Entry>, children: seq<Entry>, cap: nat) returns (out: seq<Entry>)
    ensures out <= gathered + SourceFilesIn(children)
    ensures |out| >= cap || out == gathered + SourceFilesIn(children)
  {
    out := gathered;
    var j := 0;
    while j < |children|
      invariant 0 <= j <= |children|
      invariant out == gathered + SourceFilesIn(children[..j])
    {
      var child := children[j];
      SourceFilesSnoc(children, j);
      if IsSourceFile(child) {
        out := out + [child];
        if |out| >= cap {
          SourceFilesPrefix(children, j + 1);
          PrefixExtend(gathered, SourceFilesIn(children[..j + 1]), SourceFilesIn(children));
          break;
        }
      }
      j := j + 1;
    }
    assert children[..|children|] == children;
  }

  /** One step of the outer loop: the candidates one entry of the root contributes. */
  method AppendEntryCandidates(gathered: seq<Entry>, entry: Entry, cap: nat) returns (out: seq<Entry>)
    ensures out <= gathered + EntryCandidates(entry)
    ensures |out| >= cap || out == gathered + EntryCandidates(entry)
  {
    if IsSourceFile(entry) {
      out := gathered + [entry];
    } else if entry.node.Dir? && !IsHidden(entry.name) && entry.node.listing.Some? {
      out := AppendSourceFiles(gathered, entry.node.listing.value, cap);
    } else {
      out := gathered;
    }
  }

  /** The outer loop of the candidate walk over the root listing, stopping as soon as `cap`
      candidates are gathered: what it gathers starts the full candidate list, and is all of it
      unless the cap was reached. */
  method GatherCandidates(entries: seq<Entry>, cap: nat) returns (sourceFiles: seq<Entry>)
    ensures sourceFiles <= Candidates(entries)
    ensures |sourceFiles| >= cap || sourceFiles == Candidates(entries)
  {
    sourceFiles := [];
    var i := 0;
    while i < |entries|
      invariant 0 <= i <= |entries|
      invariant sourceFiles == Candidates(entries[..i])
    {
      var entry := entries[i];
      ghost var pre := entries[..i + 1];
      CandidatesSnoc(entries, i);
      sourceFiles := AppendEntryCandidates(sourceFiles, entry, cap);
      assert sourceFiles <= Candidates(pre);
      if |sourceFiles| >= cap {
        CandidatesPrefix(entries, i + 1);
        PrefixTransitive(sourceFiles, Candidates(pre), Candidates(entries));
        break;
      }
      i := i + 1;
    }
    assert entries[..|entries|] == entries;
  }

  /** The loop reading the selected files into one text. */
  method ReadCombined(files: seq<Entry>) returns (combined: string)
    ensures combined == CombinedText(files)
  {
    combined := "";
    for k := 0 to |files|
      invariant combined == CombinedText(files[..k])
    {
      ghost var upTo := files[..k + 1];
      assert upTo[..|upTo| - 1] == files[..k];
      match files[k].node {
        case File(Some(t)) => combined := combined + t + "\n";
        case _ =>
      }
    }
    assert files[..|files|] == files;
  }

  /** `gather_keywords`, with the file limit as a parameter (5 at every call in the source). */
  method GatherKeywords(root: Node, signals: seq<string>, limit: nat) returns (r: real)
    ensures r == KeywordScore(root, signals, limit)
  {
    if signals == [] {
      return 0.0;
    }
    var listing := Listing(root);
    if listing.None? {
      return 0.0;
    }
    var sourceFiles := GatherCandidates(listing.value, limit * 3);
    TakeOfEarlyStop(sourceFiles, Candidates(listing.value), limit);
    sourceFiles := Take(sourceFiles, limit);
    if sourceFiles == [] {
      return 0.0;
    }
    var combined := ReadCombined(sourceFiles);
    if combined == "" {
      return 0.0;
    }
    var combinedLower := Lower(combined);
    var found := kw => KeywordFound(combined, kw);
    var matches := 0;
    for i := 0 to |signals|
      invariant matches == Count(signals[..i], found)
    {
      if Contains(combinedLower, Lower(signals[i])) {
        matches := matches + 1;
      }
      CountSnoc(signals, i, found);
    }
    assert signals[..|signals|] == signals;
    r := Fraction(matches, |signals|);
  }

  /** Every candidate is a source file at the root or directly inside a non-hidden
      subdirectory of it. */
  lemma {:induction false} CandidatesShape(entries: seq<Entry>)
    ensures forall c :: c in Candidates(entries) ==>
      IsSourceFile(c) && (c in entries || exists d :: d in entries && d.node.Dir? && !IsHidden(d.name) && d.node.listing.Some? && c in d.node.listing.value)
    decreases |entries|
  {
    if entries != [] {
      var init := entries[..|entries| - 1];
      var last := entries[|entries| - 1];
      CandidatesShape(init);
      assert forall e :: e in init ==> e in entries;
      assert last in entries;
      if last.node.Dir? && last.node.listing.Some? {
        SourceFilesSound(last.node.listing.value);
      }
    }
  }

  /** A keyword that occurs, in any case, in the text of one readable selected file is found. */
  lemma {:induction false} KeywordInOneFile(files: seq<Entry>, k: nat, t: string, kw: string)
    requires k < |files| && files[k].node == File(Some(t))
    requires Contains(Lower(t), Lower(kw))
    ensures KeywordFound(CombinedText(files), kw)
    decreases |files|
  {
    var init := files[..|files| - 1];
    var last := files[|files| - 1];
    var tail := match last.node case File(Some(u)) => u + "\n" case _ => "";
    assert CombinedText(files) == CombinedText(init) + tail;
    LowerConcat(CombinedText(init), tail);
    if k == |files| - 1 {
      LowerConcat(t, "\n");
      ContainsInside(Lower(CombinedText(init)), Lower(t), Lower("\n"), Lower(kw));
      assert Lower(tail) == Lower(t) + Lower("\n");
      assert Lower(CombinedText(init)) + Lower(t) + Lower("\n") == Lower(CombinedText(files));
    } else {
      assert init[k] == files[k];
      KeywordInOneFile(init, k, t, kw);
      ContainsPrefix(Lower(CombinedText(init)), Lower(tail), Lower(kw));
    }
  }

  /** At most `limit` files are read. */
  lemma KeywordFilesBounded(entries: seq<Entry>, limit: nat)
    ensures |Take(Candidates(entries), limit)| <= limit
    ensures Take(Candidates(entries), limit) <= Candidates(entries)
  {
  }
}
