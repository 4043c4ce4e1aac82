/** The domain catalog and the detection pass that scores every domain against a project,
    keeps those that reach their threshold, orders them by confidence and marks the first as
    primary. */
module Detection {
  import opened Values
  import opened Collections
  import opened Scoring
  import opened Snapshot
  import opened Gatherers
  import opened Text

  // ---------------------------------------------------------------------------
  // The catalog
  // ---------------------------------------------------------------------------

  /** One domain of the catalog: its profile (whatever value the entry holds there), the
      confidence it must reach and its four lists of signals. */
  datatype DomainSpec = DomainSpec(
    profile: Value,
    minConfidence: real,
    directories: seq<string>,
    files: seq<string>,
    frameworks: seq<string>,
    keywords: seq<string>)

  /** The threshold of a domain that names none. */
  const DefaultMinConfidence: real := 0.3

  /** `float(v)` for the values YAML yields: booleans and numbers, and strings holding a
      plain decimal numeral; None where it raises. */
  function AsReal(v: Value): Option<real> {
    match v
    case VBool(b) => Some(if b then 1.0 else 0.0)
    case VInt(i) => Some(i as real)
    case VReal(r) => Some(r)
    case VStr(s) => DecimalNumber(s)
    case _ => None
  }

  /** A YAML list of strings. */
  function StringList(v: Value): Option<seq<string>> {
    if v.VList? && forall i :: 0 <= i < |v.items| ==> v.items[i].VStr? then
      Some(seq(|v.items|, i requires 0 <= i < |v.items| && v.items[i].VStr? => v.items[i].s))
    else None
  }

  /** The one-character strings that iterating `s` yields. */
  function Characters(s: string): (r: seq<string>)
    ensures |r| == |s| && forall i :: 0 <= i < |s| ==> r[i] == [s[i]]
  {
    seq(|s|, i requires 0 <= i < |s| => [s[i]])
  }

  /** What the gatherers iterate for one signal value: a false value (`if not signals`) is no
      signals, a string its characters, a list of strings its items.  None for a mapping
      (whose key order is not kept), a list holding a non-string and a true scalar. */
  function SignalValues(v: Value): (r: Option<seq<string>>)
    ensures !Truthy(v) ==> r == Some([])
    ensures v.VStr? ==> r == Some(Characters(v.s))
    ensures v.VList? && (forall i :: 0 <= i < |v.items| ==> v.items[i].VStr?) ==> r.Some?
    ensures r.Some? && v.VList? ==> |r.value| == |v.items| && forall i :: 0 <= i < |v.items| ==> v.items[i] == VStr(r.value[i])
  {
    if !Truthy(v) then Some([])
    else if v.VStr? then Some(Characters(v.s))
    else StringList(v)
  }

  /** One signal list of a domain; a missing list is empty. */
  function SignalList(signals: map<string, Value>, key: string): Option<seq<string>> {
    SignalValues(Get(signals, key, VList([])))
  }

  /** `DomainSpec(raw)`: None where the constructor raises (not a mapping, no `profile`, a
      threshold `float` rejects, `signals` not a mapping) or a signal list lies outside the
      model (see `SignalValues`). */
  function DomainSpecOf(raw: Value): (r: Option<DomainSpec>)
    ensures r.Some? ==> raw.VMap? && "profile" in raw.fields && raw.fields["profile"] == r.value.profile
    ensures r.Some? && "min_confidence" !in raw.fields ==> r.value.minConfidence == DefaultMinConfidence
    ensures r.Some? && "min_confidence" in raw.fields ==> AsReal(raw.fields["min_confidence"]) == Some(r.value.minConfidence)
  {
    if !raw.VMap? || "profile" !in raw.fields then None
    else
      var m := raw.fields;
      var min := AsReal(Get(m, "min_confidence", VReal(DefaultMinConfidence)));
      var signals := Get(m, "signals", EmptyMap);
      if min.None? || !signals.VMap? then None
      else
        var dirs := SignalList(signals.fields, "directories");
        var files := SignalList(signals.fields, "files");
        var frameworks := SignalList(signals.fields, "frameworks");
        var keywords := SignalList(signals.fields, "keywords");
        if dirs.None? || files.None? || frameworks.None? || keywords.None? then None
        else Some(DomainSpec(m["profile"], min.value, dirs.value, files.value, frameworks.value, keywords.value))
  }

  /** An entry whose signal lists are all missing or false (null, an empty list, mapping or
      string, zero) and whose threshold is a numeral string loads as a domain with no
      signals and that threshold. */
  lemma {:induction false} FalseSignalsLoadEmpty(raw: Value, text: string)
    requires raw.VMap? && "profile" in raw.fields && raw.fields.Keys <= {"profile", "min_confidence", "signals"}
    requires "min_confidence" in raw.fields ==> raw.fields["min_confidence"] == VStr(text) && DecimalNumber(text).Some?
    requires "signals" in raw.fields ==>
      (raw.fields["signals"].VMap? && forall key :: key in raw.fields["signals"].fields ==> !Truthy(raw.fields["signals"].fields[key]))
    ensures DomainSpecOf(raw).Some?
    ensures DomainSpecOf(raw).value.directories == [] && DomainSpecOf(raw).value.keywords == []
    ensures DomainSpecOf(raw).value.files == [] && DomainSpecOf(raw).value.frameworks == []
    ensures "min_confidence" in raw.fields ==> DomainSpecOf(raw).value.minConfidence == DecimalNumber(text).value
  {
    var m := raw.fields;
    var signals := Get(m, "signals", EmptyMap);
    assert signals.VMap?;
    NoSignal(signals.fields, "directories");
    NoSignal(signals.fields, "files");
    NoSignal(signals.fields, "frameworks");
    NoSignal(signals.fields, "keywords");
    assert AsReal(Get(m, "min_confidence", VReal(DefaultMinConfidence))).Some?;
  }

  lemma NoSignal(signals: map<string, Value>, key: string)
    requires forall k :: k in signals ==> !Truthy(signals[k])
    ensures SignalList(signals, key) == Some([])
  {
    assert !Truthy(Get(signals, key, VList([])));
  }

  /** `load_index` on the parsed catalog: the `domains` list, each entry built in order.  None
      where loading raises.  An empty mapping or an empty string iterates as no entries. */
  function LoadIndex(doc: Option<Value>): (r: Option<seq<DomainSpec>>)
    ensures r.Some? ==> doc.Some? && doc.value.VMap? && "domains" in doc.value.fields
    ensures r.Some? && doc.value.fields["domains"].VList? ==>
      var raws := doc.value.fields["domains"].items;
      |r.value| == |raws| && forall i :: 0 <= i < |raws| ==> DomainSpecOf(raws[i]) == Some(r.value[i])
    ensures doc.Some? && doc.value.VMap? && "domains" in doc.value.fields && doc.value.fields["domains"].VList? ==>
      var raws := doc.value.fields["domains"].items;
      (forall i :: 0 <= i < |raws| ==> DomainSpecOf(raws[i]).Some?) ==> r.Some?
  {
    if doc.None? || !doc.value.VMap? || "domains" !in doc.value.fields then None
    else
      match doc.value.fields["domains"]
      case VList(raws) =>
        if forall i :: 0 <= i < |raws| ==> DomainSpecOf(raws[i]).Some? then
          Some(seq(|raws|, i requires 0 <= i < |raws| && DomainSpecOf(raws[i]).Some? => DomainSpecOf(raws[i]).value))
        else None
      case VMap(m) => if m == map[] then Some([]) else None
      case VStr(s) => if s == "" then Some([]) else None
      case _ => None
  }

  // ---------------------------------------------------------------------------
  // Scoring one domain
  // ---------------------------------------------------------------------------

  /** The confidence `detect` gives one domain.  When `skip` holds and the three cheap
      categories already reach the threshold, the keyword scan is skipped and that partial
      score is the confidence. */
  function DomainConfidence(root: Node, p: Parsers, spec: DomainSpec, skip: bool): real {
    var d := DirectoryScore(root, spec.directories);
    var f := FileScore(root, spec.files);
    var fw := FrameworkScore(root, p, spec.frameworks);
    var partial := Preliminary(d, f, fw);
    if skip && partial >= spec.minConfidence then partial
    else Score(d, f, fw, KeywordScore(root, spec.keywords, DefaultKeywordFileLimit))
  }

  predicate Qualifies(root: Node, p: Parsers, spec: DomainSpec, skip: bool) {
    DomainConfidence(root, p, spec, skip) >= spec.minConfidence
  }

  /** Confidences are fractions of a whole. */
  lemma ConfidenceInUnit(root: Node, p: Parsers, spec: DomainSpec, skip: bool)
    ensures InUnit(DomainConfidence(root, p, spec, skip))
  {
  }

  /** Skipping the keyword scan never changes whether a domain is detected: the partial score
      only grows once keywords are added, so a domain whose partial score reaches the threshold
      reaches it with keywords too. */
  lemma ShortcutKeepsVerdict(root: Node, p: Parsers, spec: DomainSpec)
    ensures Qualifies(root, p, spec, true) <==> Qualifies(root, p, spec, false)
  {
    var d := DirectoryScore(root, spec.directories);
    var f := FileScore(root, spec.files);
    var fw := FrameworkScore(root, p, spec.frameworks);
    var kw := KeywordScore(root, spec.keywords, DefaultKeywordFileLimit);
    assert Score(d, f, fw, kw) >= Preliminary(d, f, fw);
  }

  /** `score_domain` plus the shortcut, as the loop body of `detect` computes it. */
  method ScoreOneDomain(root: Node, p: Parsers, spec: DomainSpec, skip: bool) returns (confidence: real)
    ensures confidence == DomainConfidence(root, p, spec, skip)
  {
    var d := GatherDirectories(root, spec.directories);
    var f := GatherFiles(root, spec.files);
    var fw := GatherFrameworks(root, p, spec.frameworks);
    var partial := d * DirWeight + f * FileWeight + fw * FrameworkWeight;
    if skip && partial >= spec.minConfidence {
      confidence := partial;
    } else {
      var kw := GatherKeywords(root, spec.keywords, DefaultKeywordFileLimit);
      confidence := Score(d, f, fw, kw);
    }
  }

  // ---------------------------------------------------------------------------
  // Results
  // ---------------------------------------------------------------------------

  /** One detected domain: its name, its confidence rounded to two decimals, and whether it
      is the primary domain. */
  datatype Detected = Detected(name: Value, confidence: real, primary: bool)

  /** Whether a domain reaches its threshold, as a function of the domain. */
  function Keep(root: Node, p: Parsers, skip: bool): DomainSpec -> bool {
    (spec: DomainSpec) => Qualifies(root, p, spec, skip)
  }

  /** The entry a qualifying domain contributes: its confidence rounded, not primary. */
  function Entry(root: Node, p: Parsers, skip: bool): DomainSpec -> Detected {
    (spec: DomainSpec) => Detected(spec.profile, Round2(DomainConfidence(root, p, spec, skip)), false)
  }

  /** The domains that reach their threshold, in catalog order, before sorting. */
  function Qualifying(root: Node, p: Parsers, domains: seq<DomainSpec>, skip: bool): seq<Detected> {
    Kept(domains, Keep(root, p, skip), Entry(root, p, skip))
  }

  function Names(rs: seq<Detected>): seq<Value> {
    seq(|rs|, i requires 0 <= i < |rs| => rs[i].name)
  }

  /** A domain is listed exactly when its unrounded confidence reaches its threshold; the
      listed confidence is the rounded one. */
  lemma QualifyingMembership(root: Node, p: Parsers, domains: seq<DomainSpec>, skip: bool, x: Detected)
    ensures x in Qualifying(root, p, domains, skip) <==>
      exists spec :: spec in domains && Qualifies(root, p, spec, skip)
        && x == Detected(spec.profile, Round2(DomainConfidence(root, p, spec, skip)), false)
  {
    var keep, entry := Keep(root, p, skip), Entry(root, p, skip);
    if x in Qualifying(root, p, domains, skip) {
      KeptSound(domains, keep, entry, x);
      var k :| 0 <= k < |domains| && keep(domains[k]) && x == entry(domains[k]);
      assert domains[k] in domains;
    }
    if exists spec :: spec in domains && Qualifies(root, p, spec, skip)
         && x == Detected(spec.profile, Round2(DomainConfidence(root, p, spec, skip)), false) {
      var spec :| spec in domains && Qualifies(root, p, spec, skip)
        && x == Detected(spec.profile, Round2(DomainConfidence(root, p, spec, skip)), false);
      var k :| 0 <= k < |domains| && domains[k] == spec;
      KeptComplete(domains, keep, entry, k);
    }
  }

  /** No listed domain is marked primary before sorting. */
  lemma QualifyingUnmarked(root: Node, p: Parsers, domains: seq<DomainSpec>, skip: bool)
    ensures forall i :: 0 <= i < |Qualifying(root, p, domains, skip)| ==> !Qualifying(root, p, domains, skip)[i].primary
  {
    var q := Qualifying(root, p, domains, skip);
    forall i | 0 <= i < |q| ensures !q[i].primary {
      KeptSound(domains, Keep(root, p, skip), Entry(root, p, skip), q[i]);
    }
  }

  /** The shortcut changes confidences but never which domains are listed, nor their order. */
  lemma ShortcutKeepsNames(root: Node, p: Parsers, domains: seq<DomainSpec>)
    ensures Names(Qualifying(root, p, domains, true)) == Names(Qualifying(root, p, domains, false))
  {
    var name := (d: Detected) => d.name;
    forall k | 0 <= k < |domains| ensures Keep(root, p, true)(domains[k]) == Keep(root, p, false)(domains[k]) {
      ShortcutKeepsVerdict(root, p, domains[k]);
    }
    KeptAlike(domains, Keep(root, p, true), Entry(root, p, true), Keep(root, p, false), Entry(root, p, false), name);
  }

  // ---------------------------------------------------------------------------
  // Ordering: a stable sort, descending by rounded confidence
  // ---------------------------------------------------------------------------

  predicate SortedDesc(xs: seq<Detected>) {
    forall i, j :: 0 <= i < j < |xs| ==> xs[i].confidence >= xs[j].confidence
  }

  /** Inserts `x` after every element whose confidence is at least its own. */
  function Insert(x: Detected, sorted: seq<Detected>): (r: seq<Detected>)
    ensures multiset(r) == multiset(sorted) + multiset{x}
    ensures |r| == |sorted| + 1
    decreases |sorted|
  {
    if sorted == [] then [x]
    else if x.confidence > sorted[0].confidence then [x] + sorted
    else
      assert sorted == [sorted[0]] + sorted[1..];
      [sorted[0]] + Insert(x, sorted[1..])
  }

  /** `list.sort(key=confidence, reverse=True)`, which is stable. */
  function SortDesc(xs: seq<Detected>): (r: seq<Detected>)
    ensures multiset(r) == multiset(xs)
    ensures |r| == |xs|
    decreases |xs|
  {
    if xs == [] then []
    else
      assert xs == xs[..|xs| - 1] + [xs[|xs| - 1]];
      Insert(xs[|xs| - 1], SortDesc(xs[..|xs| - 1]))
  }

  lemma SortedTail(xs: seq<Detected>)
    requires SortedDesc(xs) && xs != []
    ensures SortedDesc(xs[1..])
    ensures forall k :: 0 <= k < |xs| ==> xs[k].confidence <= xs[0].confidence
  {
  }

  /** Every element of `Insert(x, s)` is `x` or an element of `s`. */
  lemma InsertElements(x: Detected, s: seq<Detected>, k: int)
    requires 0 <= k < |Insert(x, s)|
    ensures Insert(x, s)[k] == x || exists j :: 0 <= j < |s| && s[j] == Insert(x, s)[k]
  {
    var y := Insert(x, s)[k];
    assert y in multiset(Insert(x, s));
    if y != x {
      assert y in multiset(s);
      assert y in s;
    }
  }

  lemma {:induction false} InsertSorted(x: Detected, sorted: seq<Detected>)
    requires SortedDesc(sorted)
    ensures SortedDesc(Insert(x, sorted))
    decreases |sorted|
  {
    if sorted != [] {
      SortedTail(sorted);
      var r := Insert(x, sorted);
      if x.confidence > sorted[0].confidence {
        assert r == [x] + sorted;
        forall i, j | 0 <= i < j < |r| ensures r[i].confidence >= r[j].confidence {
          assert r[j] == sorted[j - 1];
          if i > 0 {
            assert r[i] == sorted[i - 1];
          }
        }
      } else {
        var rest := Insert(x, sorted[1..]);
        InsertSorted(x, sorted[1..]);
        assert r == [sorted[0]] + rest;
        forall i, j | 0 <= i < j < |r| ensures r[i].confidence >= r[j].confidence {
          assert r[j] == rest[j - 1];
          if i > 0 {
            assert r[i] == rest[i - 1];
          } else {
            InsertElements(x, sorted[1..], j - 1);
          }
        }
      }
    }
  }

  lemma {:induction false} SortDescSorted(xs: seq<Detected>)
    ensures SortedDesc(SortDesc(xs))
    decreases |xs|
  {
    if xs != [] {
      SortDescSorted(xs[..|xs| - 1]);
      InsertSorted(xs[|xs| - 1], SortDesc(xs[..|xs| - 1]));
    }
  }

  /** `[x]` when `x` has confidence `c`, else nothing. */
  function Tagged(x: Detected, c: real): seq<Detected> {
    if x.confidence == c then [x] else []
  }

  /** The elements of `xs` with confidence `c`, in order. */
  function WithConfidence(xs: seq<Detected>, c: real): seq<Detected>
    decreases |xs|
  {
    if xs == [] then [] else Tagged(xs[0], c) + WithConfidence(xs[1..], c)
  }

  lemma WithConfidenceCons(a: Detected, rest: seq<Detected>, c: real)
    ensures WithConfidence([a] + rest, c) == Tagged(a, c) + WithConfidence(rest, c)
  {
    assert ([a] + rest)[0] == a;
    assert ([a] + rest)[1..] == rest;
  }

  lemma {:induction false} WithConfidenceConcat(a: seq<Detected>, b: seq<Detected>, c: real)
    ensures WithConfidence(a + b, c) == WithConfidence(a, c) + WithConfidence(b, c)
    decreases |a|
  {
    if a == [] {
      assert a + b == b;
    } else {
      var h, t := a[0], a[1..];
      assert a == [h] + t;
      assert a + b == [h] + (t + b);
      WithConfidenceCons(h, t + b, c);
      WithConfidenceCons(h, t, c);
      WithConfidenceConcat(t, b, c);
      SeqAssoc(Tagged(h, c), WithConfidence(t, c), WithConfidence(b, c));
    }
  }

  lemma SeqAssoc<T>(x: seq<T>, y: seq<T>, z: seq<T>)
    ensures x + (y + z) == (x + y) + z
  {
  }

  lemma {:induction false} WithConfidenceNone(xs: seq<Detected>, c: real)
    requires forall i :: 0 <= i < |xs| ==> xs[i].confidence < c
    ensures WithConfidence(xs, c) == []
    decreases |xs|
  {
    if xs != [] {
      WithConfidenceNone(xs[1..], c);
    }
  }

  lemma {:induction false} InsertStable(x: Detected, sorted: seq<Detected>, c: real)
    requires SortedDesc(sorted)
    ensures WithConfidence(Insert(x, sorted), c) == WithConfidence(sorted, c) + Tagged(x, c)
    decreases |sorted|
  {
    if sorted == [] {
      WithConfidenceCons(x, [], c);
    } else {
      SortedTail(sorted);
      var s0 := sorted[0];
      var tail := sorted[1..];
      assert sorted == [s0] + tail;
      WithConfidenceCons(s0, tail, c);
      if x.confidence > s0.confidence {
        assert Insert(x, sorted) == [x] + sorted;
        WithConfidenceCons(x, sorted, c);
        if x.confidence == c {
          WithConfidenceNone(sorted, c);
        } else {
          assert Tagged(x, c) == [];
        }
      } else {
        assert Insert(x, sorted) == [s0] + Insert(x, tail);
        InsertStable(x, tail, c);
        WithConfidenceCons(s0, Insert(x, tail), c);
        SeqAssoc(Tagged(s0, c), WithConfidence(tail, c), Tagged(x, c));
      }
    }
  }

  /** Entries of equal confidence keep their catalog order. */
  lemma {:induction false} SortDescStable(xs: seq<Detected>, c: real)
    ensures WithConfidence(SortDesc(xs), c) == WithConfidence(xs, c)
    decreases |xs|
  {
    if xs != [] {
      var init := xs[..|xs| - 1];
      var last := xs[|xs| - 1];
      var sortedInit := SortDesc(init);
      SortDescSorted(init);
      calc {
        WithConfidence(SortDesc(xs), c);
        WithConfidence(Insert(last, sortedInit), c);
        { InsertStable(last, sortedInit, c); }
        WithConfidence(sortedInit, c) + Tagged(last, c);
        { SortDescStable(init, c); }
        WithConfidence(init, c) + Tagged(last, c);
        { assert [last] + [] == [last]; WithConfidenceCons(last, [], c); }
        WithConfidence(init, c) + WithConfidence([last], c);
        { WithConfidenceConcat(init, [last], c); }
        WithConfidence(init + [last], c);
        { assert init + [last] == xs; }
        WithConfidence(xs, c);
      }
    }
  }

  /** `results[0]["primary"] = True`. */
  function MarkPrimary(xs: seq<Detected>): seq<Detected> {
    if xs == [] then [] else [xs[0].(primary := true)] + xs[1..]
  }

  /** The result without its primary mark. */
  function Unmarked(xs: seq<Detected>): seq<Detected> {
    seq(|xs|, i requires 0 <= i < |xs| => xs[i].(primary := false))
  }

  /** What `detect` returns. */
  function DetectionOf(root: Node, p: Parsers, domains: seq<DomainSpec>, skip: bool): seq<Detected> {
    MarkPrimary(SortDesc(Qualifying(root, p, domains, skip)))
  }

  /** The loop of `detect`: every domain scored in catalog order, those reaching their
      threshold kept with their rounded confidence. */
  method QualifyingDomains(root: Node, p: Parsers, domains: seq<DomainSpec>, skip: bool) returns (results: seq<Detected>)
    ensures results == Qualifying(root, p, domains, skip)
  {
    results := [];
    for i := 0 to |domains|
      invariant results == Qualifying(root, p, domains[..i], skip)
    {
      var spec := domains[i];
      QualifyingStep(root, p, domains, skip, i);
      var confidence := ScoreOneDomain(root, p, spec, skip);
      if confidence >= spec.minConfidence {
        results := results + [Detected(spec.profile, Round2(confidence), false)];
      }
    }
    assert domains[..|domains|] == domains;
  }

  /** One more domain appends its entry when it qualifies. */
  lemma QualifyingStep(root: Node, p: Parsers, domains: seq<DomainSpec>, skip: bool, i: nat)
    requires i < |domains|
    ensures Qualifying(root, p, domains[..i + 1], skip)
      == Qualifying(root, p, domains[..i], skip)
         + if Qualifies(root, p, domains[i], skip)
           then [Detected(domains[i].profile, Round2(DomainConfidence(root, p, domains[i], skip)), false)]
           else []
  {
    KeptSnoc(domains, i, Keep(root, p, skip), Entry(root, p, skip));
  }

  /** `detect`. */
  method Detect(root: Node, p: Parsers, domains: seq<DomainSpec>, skip: bool) returns (results: seq<Detected>)
    ensures results == DetectionOf(root, p, domains, skip)
  {
    var qualifying := QualifyingDomains(root, p, domains, skip);
    results := SortDesc(qualifying);
    if results != [] {
      MarkFirst(results);
      results := results[0 := results[0].(primary := true)];
    }
  }

  /** Marking the first entry in place gives `MarkPrimary`. */
  lemma MarkFirst(s: seq<Detected>)
    requires s != []
    ensures s[0 := s[0].(primary := true)] == MarkPrimary(s)
  {
    assert s[0 := s[0].(primary := true)] == [s[0].(primary := true)] + s[1..];
  }

  /** Sorting and marking: the order is by confidence, highest first, the entries are those
      given, equal confidences keep their order, and only the first is primary. */
  lemma SortAndMark(q: seq<Detected>)
    requires forall i :: 0 <= i < |q| ==> !q[i].primary
    ensures var r := MarkPrimary(SortDesc(q));
      && |r| == |q|
      && SortedDesc(r)
      && multiset(Unmarked(r)) == multiset(q)
      && (forall c :: WithConfidence(Unmarked(r), c) == WithConfidence(q, c))
      && (forall i :: 0 <= i < |r| ==> (r[i].primary <==> i == 0))
  {
    var s := SortDesc(q);
    var r := MarkPrimary(s);
    SortDescSorted(q);
    forall i | 0 <= i < |s| ensures !s[i].primary {
      assert s[i] in multiset(q);
    }
    assert Unmarked(r) == s;
    forall i | 0 <= i < |r| ensures r[i].confidence == s[i].confidence {
    }
    forall c ensures WithConfidence(Unmarked(r), c) == WithConfidence(q, c) {
      SortDescStable(q, c);
    }
  }

  /** `detect` finds nothing exactly when no domain reaches its threshold. */
  lemma NothingDetectedIff(root: Node, p: Parsers, domains: seq<DomainSpec>, skip: bool)
    ensures DetectionOf(root, p, domains, skip) == [] <==> forall spec :: spec in domains ==> !Qualifies(root, p, spec, skip)
  {
    var q := Qualifying(root, p, domains, skip);
    assert DetectionOf(root, p, domains, skip) == [] <==> q == [];
    if q != [] {
      QualifyingMembership(root, p, domains, skip, q[0]);
    } else {
      forall spec | spec in domains ensures !Qualifies(root, p, spec, skip) {
        QualifyingMembership(root, p, domains, skip, Detected(spec.profile, Round2(DomainConfidence(root, p, spec, skip)), false));
      }
    }
  }

  /** What the source promises of `detect`'s result: sorted by confidence, highest first;
      exactly the qualifying domains; equal confidences in catalog order; only the first marked
      primary; empty exactly when no domain qualifies. */
  lemma DetectionProperties(root: Node, p: Parsers, domains: seq<DomainSpec>, skip: bool)
    ensures var r := DetectionOf(root, p, domains, skip);
      var q := Qualifying(root, p, domains, skip);
      && |r| == |q|
      && SortedDesc(r)
      && multiset(Unmarked(r)) == multiset(q)
      && (forall c :: WithConfidence(Unmarked(r), c) == WithConfidence(q, c))
      && (forall i :: 0 <= i < |r| ==> (r[i].primary <==> i == 0))
      && (r == [] <==> forall spec :: spec in domains ==> !Qualifies(root, p, spec, skip))
  {
    QualifyingUnmarked(root, p, domains, skip);
    SortAndMark(Qualifying(root, p, domains, skip));
    NothingDetectedIff(root, p, domains, skip);
  }

  /** A directory signal that names at least one path component, as every real signal does. */
  predicate NamesSubpath(sig: string) {
    '/' in sig ==> KeepNamed(SplitOn(sig, '/')) != []
  }

  /** An empty project yields no domains when every threshold is positive. */
  lemma EmptyProjectDetectsNothing(p: Parsers, domains: seq<DomainSpec>, skip: bool)
    requires forall spec :: spec in domains ==> spec.minConfidence > 0.0
    requires forall spec, sig :: spec in domains && sig in spec.directories ==> NamesSubpath(sig)
    ensures DetectionOf(Dir(Some([])), p, domains, skip) == []
  {
    var root := Dir(Some([]));
    forall spec | spec in domains ensures !Qualifies(root, p, spec, skip) {
      EmptyProjectScoresZero(p, spec);
    }
    NothingDetectedIff(root, p, domains, skip);
  }

  lemma EmptyProjectScoresZero(p: Parsers, spec: DomainSpec)
    requires forall sig :: sig in spec.directories ==> NamesSubpath(sig)
    ensures DirectoryScore(Dir(Some([])), spec.directories) == 0.0
    ensures FileScore(Dir(Some([])), spec.files) == 0.0
    ensures FrameworkScore(Dir(Some([])), p, spec.frameworks) == 0.0
    ensures KeywordScore(Dir(Some([])), spec.keywords, DefaultKeywordFileLimit) == 0.0
  {
    var root := Dir(Some([]));
    var entries: seq<Entry> := [];
    if spec.directories != [] {
      var holds := s => DirSignalHolds(root, entries, s);
      forall i | 0 <= i < |spec.directories| ensures !holds(spec.directories[i]) {
        var sig := spec.directories[i];
        assert sig in spec.directories;
        if '/' in sig {
          var parts := KeepNamed(SplitOn(sig, '/'));
          assert parts != [];
          assert Child(entries, parts[0]).None?;
        }
      }
      CountNone(spec.directories, holds);
    }
    assert VisibleFileNames(entries) == {};
    if spec.files != [] {
      CountNone(spec.files, s => FileSignalHolds(VisibleFileNames(entries), s));
    }
    assert AllDeps(root, p) == {};
    if spec.frameworks != [] {
      CountNone(spec.frameworks, s => FrameworkSignalHolds(Normalised(AllDeps(root, p)), s));
    }
  }
}
