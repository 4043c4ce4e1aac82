/** Reading a domain profile: the `## Agent Specifications` section of its markdown, cut into
    one block per `### fd-*` heading, and the labelled lines and bullet lists of each block.

    Each regular expression of the profile reader is modelled by a function that says where it
    matches at one position, and a search for the first position where it does. */
module Profiles {
  import opened Values
  import opened Text

  /** The agents every project has already; a profile may not redefine them. */
  const CoreAgents: set<string> := {
    "fd-architecture", "fd-safety", "fd-correctness", "fd-quality",
    "fd-performance", "fd-user-product", "fd-game-design"
  }

  /** One agent a profile asks for. */
  datatype AgentSpec = AgentSpec(
    name: string,
    domain: string,
    focus: string,
    persona: Option<string>,
    decisionLens: Option<string>,
    reviewAreas: seq<string>,
    successHints: seq<string>)

  // ---------------------------------------------------------------------------
  // Searching
  // ---------------------------------------------------------------------------

  /** `^` in multi-line mode. */
  predicate AtLineStart(s: string, i: nat)
    requires i <= |s|
  {
    i == 0 || s[i - 1] == '\n'
  }

  /** The last newline in s[lo..hi]. */
  function LastNewline(s: string, lo: nat, hi: nat): (r: Option<nat>)
    requires lo <= hi <= |s|
    ensures r.Some? ==> lo <= r.value < hi && s[r.value] == '\n'
    ensures r.Some? ==> forall j :: r.value < j < hi ==> s[j] != '\n'
    ensures r.None? ==> forall j :: lo <= j < hi ==> s[j] != '\n'
    decreases hi - lo
  {
    if lo == hi then None
    else if s[hi - 1] == '\n' then Some(hi - 1)
    else LastNewline(s, lo, hi - 1)
  }

  /** The last position in s[lo..hi] that is not a newline. */
  function LastNonNewline(s: string, lo: nat, hi: nat): (r: Option<nat>)
    requires lo <= hi <= |s|
    ensures r.Some? ==> lo <= r.value < hi && s[r.value] != '\n'
    ensures r.Some? ==> forall j :: r.value < j < hi ==> s[j] == '\n'
    ensures r.None? ==> forall j :: lo <= j < hi ==> s[j] == '\n'
    decreases hi - lo
  {
    if lo == hi then None
    else if s[hi - 1] != '\n' then Some(hi - 1)
    else LastNonNewline(s, lo, hi - 1)
  }

  // ---------------------------------------------------------------------------
  // The section: ^## Agent Specifications\s*\n(.*?)(?=^## |\Z), multi-line and dot-all
  // ---------------------------------------------------------------------------

  const SectionHeading: string := "## Agent Specifications"

  /** Where the section's text starts when the heading matches at `i`: after the last newline
      of the whitespace that follows the heading. */
  function SectionStartAt(s: string, i: nat): (r: Option<nat>)
    requires i <= |s|
    ensures r.Some? ==> i + |SectionHeading| < r.value <= |s| && s[r.value - 1] == '\n'
  {
    if !AtLineStart(s, i) || !(SectionHeading <= s[i..]) then None
    else
      var p := i + |SectionHeading|;
      match LastNewline(s, p, SkipSpace(s, p))
      case None => None
      case Some(nl) => Some(nl + 1)
  }

  /** The lookahead that ends the section: the next `## ` heading, or the end of the text. */
  predicate SectionStop(s: string, k: nat)
    requires k <= |s|
  {
    k == |s| || (AtLineStart(s, k) && "## " <= s[k..])
  }

  /** The lazy `(.*?)` stops at the first position where the lookahead holds. */
  function SectionEnd(s: string, k: nat): (r: nat)
    requires k <= |s|
    ensures k <= r <= |s| && SectionStop(s, r)
    ensures forall j :: k <= j < r ==> !SectionStop(s, j)
    decreases |s| - k
  {
    if SectionStop(s, k) then k else SectionEnd(s, k + 1)
  }

  /** Where the section's text starts, for the first position at or after `from` where the
      heading matches. */
  function SectionStart(s: string, from: nat): (r: Option<nat>)
    requires from <= |s|
    ensures r.Some? ==> exists i :: from <= i <= |s| && SectionStartAt(s, i) == r
    ensures r.None? <==> forall i :: from <= i <= |s| ==> SectionStartAt(s, i).None?
    decreases |s| - from
  {
    match SectionStartAt(s, from)
    case Some(start) => Some(start)
    case None => if from == |s| then None else SectionStart(s, from + 1)
  }

  /** The text of the `## Agent Specifications` section, or None when there is none. */
  function AgentSection(s: string): (r: Option<string>)
    ensures r.None? <==> forall i :: 0 <= i <= |s| ==> SectionStartAt(s, i).None?
  {
    match SectionStart(s, 0)
    case None => None
    case Some(start) => Some(s[start..SectionEnd(s, start)])
  }

  /** A prefix of a suffix of a slice is a prefix of the same suffix of the whole text. */
  lemma PrefixThroughSlice(s: string, lo: nat, hi: nat, k: nat, p: string)
    requires lo + k <= hi <= |s|
    ensures p <= s[lo..hi][k..] ==> p <= s[lo + k..]
  {
    if p <= s[lo..hi][k..] {
      assert s[lo..hi][k..] == s[lo + k..hi];
      assert s[lo + k..hi] == s[lo + k..][..hi - lo - k];
    }
  }

  /** The text from `start` up to where the lazy match stops holds no `## ` heading. */
  lemma SliceStopsAtHeading(s: string, start: nat)
    requires start <= |s|
    ensures var sec := s[start..SectionEnd(s, start)];
      forall k :: 0 < k < |sec| && sec[k - 1] == '\n' ==> !("## " <= sec[k..])
  {
    var end := SectionEnd(s, start);
    var sec := s[start..end];
    forall k | 0 < k < |sec| && sec[k - 1] == '\n' ensures !("## " <= sec[k..]) {
      assert !SectionStop(s, start + k);
      assert s[start + k - 1] == sec[k - 1];
      PrefixThroughSlice(s, start, end, k, "## ");
    }
  }

  /** The section never runs into the next second-level heading. */
  lemma SectionStopsAtHeading(s: string)
    requires AgentSection(s).Some?
    ensures var sec := AgentSection(s).value;
      forall k :: 0 < k < |sec| && sec[k - 1] == '\n' ==> !("## " <= sec[k..])
  {
    var start := SectionStart(s, 0).value;
    assert AgentSection(s).value == s[start..SectionEnd(s, start)];
    SliceStopsAtHeading(s, start);
  }

  // ---------------------------------------------------------------------------
  // The agent headings: re.split(^### (fd-[\w-]+)\s*$), multi-line
  // ---------------------------------------------------------------------------

  predicate IsNameChar(c: char) {
    IsWordChar(c) || c == '-'
  }

  /** A name the heading pattern captures: `fd-` and at least one word character or dash. */
  predicate IsAgentName(name: string) {
    |name| > 3 && name[..3] == "fd-" && forall k :: 0 <= k < |name| ==> IsNameChar(name[k])
  }

  /** A name char is never whitespace. */
  lemma NameCharNotSpace(c: char)
    requires IsNameChar(c)
    ensures !IsSpace(c)
  {
  }

  /** An agent name has nothing for `strip()` to remove. */
  lemma AgentNameStripped(name: string)
    requires IsAgentName(name)
    ensures Strip(name) == name
  {
    NameCharNotSpace(name[0]);
    NameCharNotSpace(name[|name| - 1]);
    StripNoop(name);
  }

  /** The end of the run of name characters from `i`. */
  function NameEnd(s: string, i: nat): (r: nat)
    requires i <= |s|
    ensures i <= r <= |s| && (r < |s| ==> !IsNameChar(s[r]))
    ensures forall j :: i <= j < r ==> IsNameChar(s[j])
    decreases |s| - i
  {
    if i < |s| && IsNameChar(s[i]) then NameEnd(s, i + 1) else i
  }

  /** The heading pattern at `i`: the captured name and where the match ends (before the last
      newline of the trailing whitespace, or at the end of the text). */
  function HeadingAt(s: string, i: nat): (r: Option<(string, nat)>)
    requires i <= |s|
    ensures r.Some? ==> IsAgentName(r.value.0) && i < r.value.1 <= |s|
  {
    if !AtLineStart(s, i) || !("### fd-" <= s[i..]) then None
    else
      var j := NameEnd(s, i + 7);
      if j == i + 7 then None
      else
        var name := s[i + 4..j];
        assert name[..3] == "fd-" by {
          assert s[i..][..7] == "### fd-";
          assert name[..3] == s[i..][4..7];
        }
        var q := SkipSpace(s, j);
        if q == |s| then Some((name, q))
        else
          match LastNewline(s, j, q)
          case None => None
          case Some(nl) => Some((name, nl))
  }

  /** The heading pattern as a function of the position. */
  function Headings(s: string): nat -> Option<(string, nat)> {
    (i: nat) => if i <= |s| then HeadingAt(s, i) else None
  }

  /** The first position at or after `from` where the heading pattern matches, with the
      match there. */
  function NextHeading(s: string, from: nat): (r: Option<(nat, (string, nat))>)
    requires from <= |s|
    ensures r.Some? ==> from <= r.value.0 < r.value.1.1 <= |s| && IsAgentName(r.value.1.0)
  {
    FirstSomeIsFirst(|s|, from, Headings(s));
    FirstSome(|s|, from, Headings(s))
  }

  /** `NextHeading` finds the first match: none before it, and none at all when it finds
      nothing. */
  lemma NextHeadingIsFirst(s: string, from: nat)
    requires from <= |s|
    ensures var r := NextHeading(s, from);
      && (r.Some? ==> HeadingAt(s, r.value.0) == Some(r.value.1))
      && (r.Some? ==> forall j :: from <= j < r.value.0 ==> HeadingAt(s, j).None?)
      && (r.None? ==> forall j :: from <= j < |s| ==> HeadingAt(s, j).None?)
  {
    FirstSomeIsFirst(|s|, from, Headings(s));
    var r := NextHeading(s, from);
    forall j | from <= j < (if r.Some? then r.value.0 else |s|) ensures HeadingAt(s, j).None? {
      assert Headings(s)(j).None?;
    }
  }

  /** One more than an even number. */
  predicate Odd(n: nat)
    decreases n
  {
    n == 1 || (n >= 2 && Odd(n - 2))
  }

  lemma {:induction false} OddHalf(n: nat)
    requires Odd(n)
    ensures n == 2 * (n / 2) + 1
    decreases n
  {
    if n != 1 {
      OddHalf(n - 2);
    }
  }

  /** `re.split` from position `from`, the current piece starting at `start`: the pieces
      between headings interleaved with the captured names. */
  function SplitFrom(s: string, start: nat, from: nat): (r: seq<string>)
    requires start <= from <= |s|
    ensures Odd(|r|)
    decreases |s| - from
  {
    var h := NextHeading(s, from);
    if h.None? then [s[start..]]
    else
      var i := h.value.0;
      var name := h.value.1.0;
      var end := h.value.1.1;
      [s[start..i], name] + SplitFrom(s, end, end)
  }

  /** The `k`-th name of a split: the captures sit at the odd positions. */
  function NameAt(r: seq<string>, k: nat): string
    requires 2 * k + 1 < |r|
  {
    r[2 * k + 1]
  }

  /** Every capture of a split is an agent name. */
  ghost predicate NamesAtOdd(r: seq<string>) {
    forall k: nat :: 2 * k + 1 < |r| ==> IsAgentName(NameAt(r, k))
  }

  lemma NamesAtOddCons(piece: string, name: string, rest: seq<string>)
    requires IsAgentName(name) && NamesAtOdd(rest)
    ensures NamesAtOdd([piece, name] + rest)
  {
    var r := [piece, name] + rest;
    forall k: nat | 2 * k + 1 < |r| ensures IsAgentName(NameAt(r, k)) {
      if k > 0 {
        assert NameAt(r, k) == NameAt(rest, k - 1);
      }
    }
  }

  lemma {:induction false} SplitFromNames(s: string, start: nat, from: nat)
    requires start <= from <= |s|
    ensures NamesAtOdd(SplitFrom(s, start, from))
    decreases |s| - from
  {
    var h := NextHeading(s, from);
    if h.Some? {
      var end := h.value.1.1;
      SplitFromNames(s, end, end);
      NamesAtOddCons(s[start..h.value.0], h.value.1.0, SplitFrom(s, end, end));
    }
  }

  /** `re.split(r"^### (fd-[\w-]+)\s*$", section, flags=re.MULTILINE)`: the preamble, then
      alternately a heading's name and the text up to the next heading. */
  function SplitAgentBlocks(section: string): (r: seq<string>)
    ensures |r| == 2 * (|r| / 2) + 1
    ensures NamesAtOdd(r)
  {
    SplitFromNames(section, 0, 0);
    OddHalf(|SplitFrom(section, 0, 0)|);
    SplitFrom(section, 0, 0)
  }

  lemma NoHeadingNone(s: string, from: nat)
    requires from <= |s|
    requires forall i :: from <= i <= |s| ==> HeadingAt(s, i).None?
    ensures NextHeading(s, from).None?
  {
    forall i | from <= i < |s| ensures Headings(s)(i).None? {
    }
    FirstSomeIsFirst(|s|, from, Headings(s));
  }

  /** A section without any heading is all preamble. */
  lemma NoHeadingNoBlocks(section: string)
    requires forall i :: 0 <= i <= |section| ==> HeadingAt(section, i).None?
    ensures SplitAgentBlocks(section) == [section]
  {
    NoHeadingNone(section, 0);
  }

  // ---------------------------------------------------------------------------
  // Labelled lines: ^Label:\s*(.+)$, multi-line
  // ---------------------------------------------------------------------------

  /** The pattern `^<tag>\s*(.+)$` at `i`: the captured text.  The whitespace may span
      lines; it gives back characters until `.+` can match at least one. */
  function LabelAt(s: string, i: nat, tag: string): (r: Option<string>)
    requires i <= |s|
    ensures r.Some? ==> r.value != [] && forall k :: 0 <= k < |r.value| ==> r.value[k] != '\n'
  {
    if !AtLineStart(s, i) || !(tag <= s[i..]) then None
    else
      var p := i + |tag|;
      var q := SkipSpace(s, p);
      if q < |s| then Some(s[q..LineEnd(s, q)])
      else
        match LastNonNewline(s, p, q)
        case None => None
        case Some(at) => Some(s[at..LineEnd(s, at)])
  }

  /** The captured text of the first match at or after `from`. */
  function LabelSearch(s: string, from: nat, tag: string): (r: Option<string>)
    requires from <= |s|
    ensures r.Some? ==> exists i :: from <= i <= |s| && LabelAt(s, i, tag) == r
    ensures r.None? ==> forall i :: from <= i <= |s| ==> LabelAt(s, i, tag).None?
    decreases |s| - from
  {
    match LabelAt(s, from, tag)
    case Some(v) => Some(v)
    case None => if from == |s| then None else LabelSearch(s, from + 1, tag)
  }

  /** `m.group(1).strip()` of the first match of `^<tag>\s*(.+)$`, or None. */
  function LabelValue(content: string, tag: string): (r: Option<string>)
    ensures r.Some? ==> forall k :: 0 <= k < |r.value| ==> r.value[k] != '\n'
  {
    match LabelSearch(content, 0, tag)
    case None => None
    case Some(v) =>
      StripSlice(v);
      Some(Strip(v))
  }

  /** A block whose first line is `<tag> <value>` yields that value. */
  lemma LabelOnFirstLine(tag: string, value: string, rest: string)
    requires tag != [] && value != []
    requires !IsSpace(value[0]) && !IsSpace(value[|value| - 1])
    requires forall k :: 0 <= k < |value| ==> value[k] != '\n'
    ensures LabelValue(tag + " " + value + "\n" + rest, tag) == Some(value)
  {
    var s := tag + " " + value + "\n" + rest;
    var p := |tag|;
    assert s[..p] == tag;
    assert s[p] == ' ';
    assert SkipSpace(s, p + 1) == p + 1 by {
      assert s[p + 1] == value[0];
    }
    assert SkipSpace(s, p) == p + 1;
    var e := LineEnd(s, p + 1);
    assert e == p + 1 + |value| by {
      assert s[p + 1 + |value|] == '\n';
      forall j | p + 1 <= j < p + 1 + |value| ensures s[j] != '\n' {
        assert s[j] == value[j - p - 1];
      }
    }
    assert s[p + 1..e] == value;
    assert LabelAt(s, 0, tag) == Some(value);
    StripNoop(value);
  }

  // ---------------------------------------------------------------------------
  // Bullet lists: ^Header:\s*\n((?:- .+\n?)+), multi-line
  // ---------------------------------------------------------------------------

  /** `- ` followed by at least one character of the same line. */
  predicate BulletLineAt(s: string, x: nat)
    requires x <= |s|
  {
    x + 2 < |s| && s[x] == '-' && s[x + 1] == ' ' && s[x + 2] != '\n'
  }

  /** Where the run of bullet lines starting at `x` ends. */
  function BulletRunEnd(s: string, x: nat): (r: nat)
    requires x <= |s|
    ensures x <= r <= |s|
    decreases |s| - x
  {
    if !BulletLineAt(s, x) then x
    else
      var t := LineEnd(s, x + 2);
      if t < |s| then BulletRunEnd(s, t + 1) else t
  }

  /** The pattern at `i`: the run of bullet lines right after the header's whitespace, which
      must end with a newline. */
  function BulletBlockAt(s: string, i: nat, header: string): (r: Option<string>)
    requires i <= |s|
    ensures r.Some? ==> |r.value| > 2 && r.value[..2] == "- "
  {
    if !AtLineStart(s, i) || !(header <= s[i..]) then None
    else
      var p := i + |header|;
      var q := SkipSpace(s, p);
      if p < q && s[q - 1] == '\n' && BulletLineAt(s, q) then
        var end := BulletRunEnd(s, q);
        assert end > q + 2;
        Some(s[q..end])
      else None
  }

  /** The bullet block of the first match at or after `from`, or None. */
  function BulletSearch(s: string, from: nat, header: string): (r: Option<string>)
    requires from <= |s|
    ensures r.Some? ==> exists i :: from <= i <= |s| && BulletBlockAt(s, i, header) == r
    ensures r.None? ==> forall i :: from <= i <= |s| ==> BulletBlockAt(s, i, header).None?
    decreases |s| - from
  {
    match BulletBlockAt(s, from, header)
    case Some(block) => Some(block)
    case None => if from == |s| then None else BulletSearch(s, from + 1, header)
  }

  /** The first match's bullet block, or None. */
  function BulletBlock(content: string, header: string): Option<string> {
    BulletSearch(content, 0, header)
  }

  /** The item of one line of a bullet block, when it is one. */
  function BulletItemOf(line: string): Option<string> {
    var l := Strip(line);
    if |l| >= 2 && l[..2] == "- " then Some(Strip(l[2..])) else None
  }

  /** The items of a bullet block: its stripped lines that start with `- `, without it. */
  function BulletItemsOf(lines: seq<string>): (r: seq<string>)
    ensures |r| <= |lines|
    decreases |lines|
  {
    if lines == [] then []
    else
      var init := BulletItemsOf(lines[..|lines| - 1]);
      match BulletItemOf(lines[|lines| - 1])
      case Some(item) => init + [item]
      case None => init
  }

  /** The bullet items under `header`, in order; none when the list is missing. */
  function BulletList(content: string, header: string): (r: seq<string>)
    ensures BulletBlock(content, header).None? ==> r == []
    ensures forall k :: 0 <= k < |r| ==> r[k] == Strip(r[k])
  {
    match BulletBlock(content, header)
    case None => []
    case Some(block) =>
      BulletItemsShape(SplitLines(Strip(block)));
      BulletItemsOf(SplitLines(Strip(block)))
  }

  /** The loop over the lines of a bullet block. */
  method CollectBullets(block: string) returns (items: seq<string>)
    ensures items == BulletItemsOf(SplitLines(Strip(block)))
  {
    var lines := SplitLines(Strip(block));
    items := [];
    for k := 0 to |lines|
      invariant items == BulletItemsOf(lines[..k])
    {
      var line := Strip(lines[k]);
      if |line| >= 2 && line[..2] == "- " {
        items := items + [Strip(line[2..])];
      }
      assert lines[..k + 1][..k] == lines[..k];
    }
    assert lines[..|lines|] == lines;
  }

  /** Items are stripped, and a line that is a bullet keeps its text in order. */
  lemma {:induction false} BulletItemsShape(lines: seq<string>)
    ensures forall k :: 0 <= k < |BulletItemsOf(lines)| ==> BulletItemsOf(lines)[k] == Strip(BulletItemsOf(lines)[k])
    decreases |lines|
  {
    if lines != [] {
      BulletItemsShape(lines[..|lines| - 1]);
      var l := Strip(lines[|lines| - 1]);
      if |l| >= 2 && l[..2] == "- " {
        StripIdempotent(l[2..]);
      }
    }
  }

  lemma StripIdempotent(s: string)
    ensures Strip(Strip(s)) == Strip(s)
  {
    StripShape(s);
    StripNoop(Strip(s));
  }

  /** A value that `strip()` leaves as it is, and that is not empty. */
  predicate Trimmed(v: string) {
    v != [] && !IsSpace(v[0]) && !IsSpace(v[|v| - 1])
  }

  /** The bullet lines `- v` of `values`, in order. */
  function Bullets(values: seq<string>): (r: seq<string>)
    ensures |r| == |values| && forall k :: 0 <= k < |values| ==> r[k] == "- " + values[k]
  {
    seq(|values|, k requires 0 <= k < |values| => "- " + values[k])
  }

  /** Bullet lines given in order come back in order, without their `- `. */
  lemma {:induction false} BulletItemsOfBullets(values: seq<string>)
    requires forall k :: 0 <= k < |values| ==> Trimmed(values[k])
    ensures BulletItemsOf(Bullets(values)) == values
    decreases |values|
  {
    if values != [] {
      var n := |values| - 1;
      var lines := Bullets(values);
      BulletItemsOfBullets(values[..n]);
      assert lines[..n] == Bullets(values[..n]);
      BulletLine(values[n]);
      assert values[..n] + [values[n]] == values;
    }
  }

  /** One bullet line gives back its value. */
  lemma BulletLine(v: string)
    requires Trimmed(v)
    ensures BulletItemOf("- " + v) == Some(v)
  {
    var line := "- " + v;
    StripNoop(line);
    assert line[..2] == "- " && line[2..] == v;
    StripNoop(v);
  }

  // ---------------------------------------------------------------------------
  // One agent, and the whole profile
  // ---------------------------------------------------------------------------

  /** `_parse_single_agent` as a value. */
  function AgentOf(content: string, name: string, domain: string): (r: AgentSpec)
    ensures r.name == name && r.domain == domain
  {
    var focus := LabelValue(content, "Focus:");
    AgentSpec(
      name, domain,
      if focus.Some? then focus.value else "",
      LabelValue(content, "Persona:"),
      LabelValue(content, "Decision lens:"),
      BulletList(content, "Key review areas:"),
      BulletList(content, "Success criteria hints:"))
  }

  /** `_parse_single_agent`. */
  method ParseSingleAgent(content: string, name: string, domain: string) returns (spec: AgentSpec)
    ensures spec == AgentOf(content, name, domain)
  {
    var focus := LabelValue(content, "Focus:");
    var reviewAreas: seq<string> := [];
    var reviewBlock := BulletBlock(content, "Key review areas:");
    if reviewBlock.Some? {
      reviewAreas := CollectBullets(reviewBlock.value);
    }
    var successHints: seq<string> := [];
    var hintsBlock := BulletBlock(content, "Success criteria hints:");
    if hintsBlock.Some? {
      successHints := CollectBullets(hintsBlock.value);
    }
    spec := AgentSpec(
      name, domain,
      if focus.Some? then focus.value else "",
      LabelValue(content, "Persona:"),
      LabelValue(content, "Decision lens:"),
      reviewAreas,
      successHints);
  }

  /** The (name, text) pairs of the first `n` headings of `blocks` whose name is not a core
      agent, in order.  A captured name is word characters and dashes, so the `strip()` the
      parser applies to it changes nothing. */
  function KeptBefore(blocks: seq<string>, n: nat): (r: seq<(string, string)>)
    requires 2 * n < |blocks|
    ensures |r| <= n
  {
    if n == 0 then []
    else
      var name := blocks[2 * n - 1];
      KeptBefore(blocks, n - 1) + (if name in CoreAgents then [] else [(name, blocks[2 * n])])
  }

  lemma KeptStep(blocks: seq<string>, n: nat)
    requires 2 * n + 2 < |blocks|
    ensures var name := blocks[2 * n + 1];
      KeptBefore(blocks, n + 1)
        == KeptBefore(blocks, n) + (if name in CoreAgents then [] else [(name, blocks[2 * n + 2])])
  {
  }

  /** Each kept pair parsed into a spec for `domain`. */
  function Parsed(pairs: seq<(string, string)>, domain: string): (r: seq<AgentSpec>)
    ensures |r| == |pairs|
    ensures forall k :: 0 <= k < |r| ==> r[k] == AgentOf(pairs[k].1, pairs[k].0, domain)
  {
    seq(|pairs|, k requires 0 <= k < |pairs| => AgentOf(pairs[k].1, pairs[k].0, domain))
  }

  lemma ParsedAppend(pairs: seq<(string, string)>, name: string, content: string, domain: string)
    ensures Parsed(pairs + [(name, content)], domain) == Parsed(pairs, domain) + [AgentOf(content, name, domain)]
  {
  }

  /** What `parse_agent_specs` returns for a profile's text: every spec is for the given
      domain, named by a `### fd-*` heading, and never a core agent; no section means no
      specs. */
  function SpecsOf(text: string, domain: string): (r: seq<AgentSpec>)
    ensures AgentSection(text).None? ==> r == []
    ensures forall k :: 0 <= k < |r| ==> r[k].domain == domain && r[k].name !in CoreAgents && IsAgentName(r[k].name)
  {
    match AgentSection(text)
    case None => []
    case Some(section) =>
      var blocks := SplitAgentBlocks(section);
      KeptShape(blocks, |blocks| / 2);
      Parsed(KeptBefore(blocks, |blocks| / 2), domain)
  }

  /** The loop of `parse_agent_specs`: walks the split blocks two at a time, skipping the
      core agents. */
  method ParseBlocks(blocks: seq<string>, domain: string) returns (specs: seq<AgentSpec>)
    requires |blocks| == 2 * (|blocks| / 2) + 1 && NamesAtOdd(blocks)
    ensures specs == Parsed(KeptBefore(blocks, |blocks| / 2), domain)
  {
    specs := [];
    var i := 1;
    ghost var n := 0;
    while i < |blocks| - 1
      invariant i == 2 * n + 1 && i <= |blocks|
      invariant specs == Parsed(KeptBefore(blocks, n), domain)
    {
      specs := ParseBlock(blocks, i, domain, specs, n);
      i := i + 2;
      n := n + 1;
    }
    assert n == |blocks| / 2;
  }

  /** One round of the loop of `parse_agent_specs`: the heading name at `i` and the block
      after it, skipped for a core agent and parsed otherwise. */
  method ParseBlock(blocks: seq<string>, i: nat, domain: string, specs: seq<AgentSpec>, ghost n: nat)
    returns (specs': seq<AgentSpec>)
    requires i == 2 * n + 1 && i < |blocks| - 1 && NamesAtOdd(blocks)
    requires specs == Parsed(KeptBefore(blocks, n), domain)
    ensures specs' == Parsed(KeptBefore(blocks, n + 1), domain)
  {
    assert IsAgentName(NameAt(blocks, n));
    AgentNameStripped(blocks[i]);
    var name := Strip(blocks[i]);
    var content := blocks[i + 1];
    KeptStep(blocks, n);
    specs' := specs;
    if name !in CoreAgents {
      var spec := ParseSingleAgent(content, name, domain);
      ParsedAppend(KeptBefore(blocks, n), name, content, domain);
      specs' := specs + [spec];
    }
  }

  /** `parse_agent_specs`. */
  method ParseAgentSpecs(text: string, domain: string) returns (specs: seq<AgentSpec>)
    ensures specs == SpecsOf(text, domain)
  {
    var section := AgentSection(text);
    if section.None? {
      return [];
    }
    var blocks := SplitAgentBlocks(section.value);
    specs := ParseBlocks(blocks, domain);
  }

  /** Every kept name is an agent name and not a core agent. */
  lemma {:induction false} KeptShape(blocks: seq<string>, n: nat)
    requires 2 * n < |blocks|
    requires NamesAtOdd(blocks)
    ensures forall k :: 0 <= k < |KeptBefore(blocks, n)| ==>
      KeptBefore(blocks, n)[k].0 !in CoreAgents && IsAgentName(KeptBefore(blocks, n)[k].0)
  {
    if n > 0 {
      KeptShape(blocks, n - 1);
      assert IsAgentName(NameAt(blocks, n - 1));
    }
  }

  /** The heading names of the first `n` pairs of `blocks`, in order. */
  function HeadingNames(blocks: seq<string>, n: nat): (r: seq<string>)
    requires 2 * n < |blocks|
    ensures |r| == n
  {
    if n == 0 then [] else HeadingNames(blocks, n - 1) + [blocks[2 * n - 1]]
  }

  /** `names` without the core agents, in order. */
  function WithoutCore(names: seq<string>): (r: seq<string>)
    ensures |r| <= |names|
    ensures forall k :: 0 <= k < |r| ==> r[k] !in CoreAgents && r[k] in names
  {
    if names == [] then []
    else WithoutCore(names[..|names| - 1]) + (if names[|names| - 1] in CoreAgents then [] else [names[|names| - 1]])
  }

  /** The names of `specs`, in order. */
  function SpecNames(specs: seq<AgentSpec>): (r: seq<string>)
    ensures |r| == |specs| && forall k :: 0 <= k < |r| ==> r[k] == specs[k].name
  {
    seq(|specs|, k requires 0 <= k < |specs| => specs[k].name)
  }

  /** The kept names are the heading names without the core agents, in order. */
  lemma {:induction false} KeptFollowsHeadings(blocks: seq<string>, n: nat)
    requires 2 * n < |blocks|
    ensures var kept := KeptBefore(blocks, n);
      seq(|kept|, k requires 0 <= k < |kept| => kept[k].0) == WithoutCore(HeadingNames(blocks, n))
  {
    if n > 0 {
      KeptFollowsHeadings(blocks, n - 1);
      var names := HeadingNames(blocks, n);
      assert names[..|names| - 1] == HeadingNames(blocks, n - 1);
    }
  }

  /** `parse_agent_specs` yields one spec per `### fd-*` heading whose name is not a core
      agent, in the order of the headings. */
  lemma SpecsFollowHeadings(text: string, domain: string)
    requires AgentSection(text).Some?
    ensures var blocks := SplitAgentBlocks(AgentSection(text).value);
      SpecNames(SpecsOf(text, domain)) == WithoutCore(HeadingNames(blocks, |blocks| / 2))
  {
    var blocks := SplitAgentBlocks(AgentSection(text).value);
    var kept := KeptBefore(blocks, |blocks| / 2);
    KeptFollowsHeadings(blocks, |blocks| / 2);
    var specs := SpecsOf(text, domain);
    assert specs == Parsed(kept, domain);
    assert SpecNames(specs) == seq(|kept|, k requires 0 <= k < |kept| => kept[k].0);
  }
}
