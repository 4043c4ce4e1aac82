/** Rendering an agent spec into the markdown file generate-agents writes: the YAML
    frontmatter, the persona, one numbered section per review area under a short title, the
    success criteria and the decision lens.

    Case mapping is ASCII-only: `str.title()`, `str.lower()` and `str.upper()` of characters
    outside ASCII are not modelled. */
module Render {
  import opened Values
  import opened Text
  import opened Profiles

  /** The template version written into every generated file. */
  const FluxGenVersion: nat := 4

  // ---------------------------------------------------------------------------
  // Display names: domain.replace("-", " ").title()
  // ---------------------------------------------------------------------------

  /** `str.title()` at position `i`: a letter that follows a letter is lower-cased, any other
      letter upper-cased; other characters are kept.  `afterLetter` says whether a letter
      comes before `s`. */
  function TitleChar(s: string, i: nat, afterLetter: bool): char
    requires i < |s|
  {
    if !IsLetter(s[i]) then s[i]
    else if (if i == 0 then afterLetter else IsLetter(s[i - 1])) then LowerChar(s[i])
    else UpperChar(s[i])
  }

  /** `str.title()`, one character at a time. */
  function TitleFrom(s: string, afterLetter: bool): (r: string)
    ensures |r| == |s|
    ensures forall i :: 0 <= i < |s| ==> r[i] == TitleChar(s, i, afterLetter)
  {
    if s == [] then []
    else [TitleChar(s, 0, afterLetter)] + TitleFrom(s[1..], IsLetter(s[0]))
  }

  /** `str.title()`. */
  function Title(s: string): (r: string)
    ensures |r| == |s|
    ensures forall i :: 0 <= i < |s| ==> (IsLetter(r[i]) <==> IsLetter(s[i]))
    ensures forall i :: 0 <= i < |s| && !IsLetter(s[i]) ==> r[i] == s[i]
  {
    TitleFrom(s, false)
  }

  /** Title-casing changes the case of letters and nothing else. */
  lemma TitleKeepsLetters(s: string)
    ensures Lower(Title(s)) == Lower(s)
  {
    var t := Title(s);
    forall i | 0 <= i < |s| ensures LowerChar(t[i]) == LowerChar(s[i]) {
      assert t[i] == TitleChar(s, i, false);
    }
  }

  /** Title-casing a title changes nothing. */
  lemma TitleIdempotent(s: string)
    ensures Title(Title(s)) == Title(s)
  {
    var t := Title(s);
    forall i | 0 <= i < |s| ensures Title(t)[i] == t[i] {
      assert t[i] == TitleChar(s, i, false);
      assert Title(t)[i] == TitleChar(t, i, false);
      if IsLetter(s[i]) && i > 0 {
        assert IsLetter(t[i - 1]) <==> IsLetter(s[i - 1]);
      }
    }
  }

  /** `_domain_display_name`: dashes become spaces and every word is capitalised. */
  function DisplayName(domain: string): (r: string)
    ensures |r| == |domain|
    ensures forall i :: 0 <= i < |r| ==> r[i] != '-'
  {
    Title(ReplaceChar(domain, '-', ' '))
  }

  /** The display name spells the slug with spaces for dashes, up to case. */
  lemma DisplayNameSpelling(domain: string)
    ensures Lower(DisplayName(domain)) == Lower(ReplaceChar(domain, '-', ' '))
  {
    TitleKeepsLetters(ReplaceChar(domain, '-', ' '));
  }

  /** Position `i` of `s` holds the first letter of a word. */
  predicate WordStart(s: string, i: nat) {
    i < |s| && IsLetter(s[i]) && (i == 0 || !IsLetter(s[i - 1]))
  }

  /** Position `i` of `s` holds a letter that follows a letter. */
  predicate WithinWord(s: string, i: nat) {
    0 < i < |s| && IsLetter(s[i - 1]) && IsLetter(s[i])
  }

  /** Each word of the slug is capitalised and the rest of it lower-cased, so an acronym is
      not kept: "ml-pipeline" reads "Ml Pipeline". */
  lemma DisplayNameCase(domain: string)
    ensures forall i: nat :: WithinWord(domain, i) ==> IsLower(DisplayName(domain)[i])
    ensures forall i: nat :: WordStart(domain, i) ==> IsUpper(DisplayName(domain)[i])
  {
    forall i: nat | WordStart(domain, i) ensures IsUpper(DisplayName(domain)[i]) {
      WordStartUpper(domain, i);
    }
    forall i: nat | WithinWord(domain, i) ensures IsLower(DisplayName(domain)[i]) {
      WordRestLower(domain, i);
    }
  }

  lemma WordStartUpper(domain: string, i: nat)
    requires WordStart(domain, i)
    ensures IsUpper(DisplayName(domain)[i])
  {
    var spaced := ReplaceChar(domain, '-', ' ');
    DisplayNameAt(domain, i);
    if i > 0 {
      DisplayNameAt(domain, i - 1);
      assert !IsLetter(spaced[i - 1]);
    }
    assert DisplayName(domain)[i] == UpperChar(domain[i]);
    LetterCases(domain[i]);
  }

  lemma WordRestLower(domain: string, i: nat)
    requires WithinWord(domain, i)
    ensures IsLower(DisplayName(domain)[i])
  {
    DisplayNameAt(domain, i);
    DisplayNameAt(domain, i - 1);
    assert DisplayName(domain)[i] == LowerChar(domain[i]);
    LetterCases(domain[i]);
  }

  /** One character of a display name. */
  lemma DisplayNameAt(domain: string, i: nat)
    requires i < |domain|
    ensures var spaced := ReplaceChar(domain, '-', ' ');
      spaced[i] == (if domain[i] == '-' then ' ' else domain[i])
      && DisplayName(domain)[i] == TitleChar(spaced, i, false)
  {
  }

  lemma LetterCases(c: char)
    requires IsLetter(c)
    ensures IsLower(LowerChar(c)) && IsUpper(UpperChar(c))
  {
  }

  // ---------------------------------------------------------------------------
  // Section titles: _short_title
  // ---------------------------------------------------------------------------

  /** Where `[,\.\-—]| and | so ` matches at `i`. */
  predicate ClauseBreak(s: string, i: nat)
    requires i <= |s|
  {
    (i < |s| && (s[i] == ',' || s[i] == '.' || s[i] == '-' || s[i] == '\U{2014}'))
    || " and " <= s[i..] || " so " <= s[i..]
  }

  /** The first match of the break pattern at or after `i`, or the end of the text. */
  function ClauseEnd(s: string, i: nat): (r: nat)
    requires i <= |s|
    ensures i <= r <= |s|
    ensures r < |s| ==> ClauseBreak(s, r)
    ensures forall j :: i <= j < r ==> !ClauseBreak(s, j)
    decreases |s| - i
  {
    if i == |s| || ClauseBreak(s, i) then i else ClauseEnd(s, i + 1)
  }

  /** `re.split(..., maxsplit=1)[0]`: the text before the first break. */
  function FirstClause(s: string): (r: string)
    ensures r <= s
    ensures forall j :: 0 <= j < |r| ==> !ClauseBreak(s, j)
  {
    s[..ClauseEnd(s, 0)]
  }

  /** The imperative verbs a title drops, in the order the pattern tries them. */
  const Verbs: seq<string> := ["Check that", "Check", "Verify that", "Verify", "Validate", "Confirm", "Ensure that", "Ensure"]

  /** Whether the `j`-th verb, in any case, followed by whitespace, opens `s`. */
  predicate VerbAt(s: string, j: nat)
    requires j < |Verbs|
  {
    |Verbs[j]| < |s| && Lower(s[..|Verbs[j]|]) == Lower(Verbs[j]) && IsSpace(s[|Verbs[j]|])
  }

  /** Which verb of `^(Check that|...|Ensure)\s+` matches, trying them from the `k`-th on:
      the first that does. */
  function FirstVerb(s: string, k: nat): (r: Option<nat>)
    ensures r.Some? ==> k <= r.value < |Verbs| && VerbAt(s, r.value) && forall i :: k <= i < r.value ==> !VerbAt(s, i)
    ensures r.None? ==> forall j :: k <= j < |Verbs| ==> !VerbAt(s, j)
    decreases |Verbs| - k
  {
    if k >= |Verbs| then None
    else if VerbAt(s, k) then Some(k)
    else FirstVerb(s, k + 1)
  }

  /** The text without its leading imperative verb and the whole run of whitespace after it. */
  function DropVerb(s: string): (r: string)
    ensures |r| <= |s| && r == s[|s| - |r|..]
    ensures (forall j :: 0 <= j < |Verbs| ==> !VerbAt(s, j)) ==> r == s
    ensures r != s ==> r == [] || !IsSpace(r[0])
  {
    match FirstVerb(s, 0)
    case None => s
    case Some(j) => s[SkipSpace(s, |Verbs[j]| + 1)..]
  }

  /** The first character upper-cased. */
  function Capitalize(s: string): (r: string)
    ensures |r| == |s| && (r != [] ==> !IsLower(r[0]) && r[1..] == s[1..])
  {
    if s == [] then [] else [UpperChar(s[0])] + s[1..]
  }

  const TitleLimit: nat := 60

  /** At most 60 characters: a longer title keeps 57 and ends in "...". */
  function Truncate(s: string): (r: string)
    ensures |r| <= TitleLimit
  {
    if |s| > TitleLimit then s[..TitleLimit - 3] + "..." else s
  }

  /** No character the break pattern splits at. */
  predicate NoBreakChars(s: string) {
    forall k :: 0 <= k < |s| ==> s[k] != ',' && s[k] != '.' && s[k] != '-' && s[k] != '\U{2014}'
  }

  /** `_short_title`. */
  function ShortTitle(bullet: string): (r: string)
    ensures |r| <= TitleLimit
  {
    Truncate(Capitalize(DropVerb(Strip(FirstClause(bullet)))))
  }

  lemma ClauseHasNoBreaks(bullet: string)
    ensures NoBreakChars(FirstClause(bullet))
  {
    var clause := FirstClause(bullet);
    forall k | 0 <= k < |clause| ensures clause[k] != ',' && clause[k] != '.' && clause[k] != '-' && clause[k] != '\U{2014}' {
      assert !ClauseBreak(bullet, k);
    }
  }

  lemma StripHasNoBreaks(s: string)
    requires NoBreakChars(s)
    ensures NoBreakChars(Strip(s))
  {
    StripSlice(s);
  }

  lemma CapitalizeHasNoBreaks(s: string)
    requires NoBreakChars(s)
    ensures NoBreakChars(Capitalize(s))
  {
    var c := Capitalize(s);
    forall k | 0 <= k < |c| ensures c[k] != ',' && c[k] != '.' && c[k] != '-' && c[k] != '\U{2014}' {
      if k > 0 {
        assert c[k] == c[1..][k - 1] == s[1..][k - 1];
      }
    }
  }

  /** What a truncated title holds, given a clause without break characters. */
  lemma TruncateShape(s: string)
    requires NoBreakChars(s)
    ensures var r := Truncate(s);
      && (forall k :: 0 <= k < |r| ==> r[k] != ',' && r[k] != '-' && r[k] != '\U{2014}')
      && (forall k :: 0 <= k < |r| && r[k] == '.' ==> |r| == TitleLimit && TitleLimit - 3 <= k)
      && (s != [] && !IsLower(s[0]) ==> r != [] && !IsLower(r[0]))
  {
    if |s| > TitleLimit {
      var r := Truncate(s);
      forall k | 0 <= k < |r| && k < TitleLimit - 3 ensures r[k] == s[k] {
      }
    }
  }

  /** A short title is a clause of its bullet: it holds no comma, dash or em dash, a period
      only in the "..." of a truncated title, and does not start with a lower-case letter. */
  lemma ShortTitleShape(bullet: string)
    ensures var r := ShortTitle(bullet);
      && (forall k :: 0 <= k < |r| ==> r[k] != ',' && r[k] != '-' && r[k] != '\U{2014}')
      && (forall k :: 0 <= k < |r| && r[k] == '.' ==> |r| == TitleLimit && TitleLimit - 3 <= k)
      && (r != [] ==> !IsLower(r[0]))
  {
    var clause := FirstClause(bullet);
    ClauseHasNoBreaks(bullet);
    var stripped := Strip(clause);
    StripHasNoBreaks(clause);
    var dropped := DropVerb(stripped);
    assert NoBreakChars(dropped);
    var cap := Capitalize(dropped);
    CapitalizeHasNoBreaks(dropped);
    TruncateShape(cap);
  }

  /** A bullet that already reads as a title is its own title: capitalised, at most 60
      characters, without surrounding whitespace, break characters or a leading verb. */
  lemma PlainTitleKept(bullet: string)
    requires Strip(bullet) == bullet && |bullet| <= TitleLimit
    requires forall j :: 0 <= j <= |bullet| ==> !ClauseBreak(bullet, j)
    requires forall j :: 0 <= j < |Verbs| ==> !VerbAt(bullet, j)
    requires bullet != [] ==> !IsLower(bullet[0])
    ensures ShortTitle(bullet) == bullet
  {
    WholeClause(bullet);
    CapitalizeCapital(bullet);
  }

  lemma WholeClause(s: string)
    requires forall j :: 0 <= j <= |s| ==> !ClauseBreak(s, j)
    ensures FirstClause(s) == s
  {
    assert ClauseEnd(s, 0) == |s|;
  }

  lemma CapitalizeCapital(s: string)
    requires s != [] ==> !IsLower(s[0])
    ensures Capitalize(s) == s
  {
    if s != [] {
      assert [UpperChar(s[0])] + s[1..] == s;
    }
  }

  // ---------------------------------------------------------------------------
  // The agent file
  // ---------------------------------------------------------------------------

  /** The frontmatter that marks a file as generated, and by which template version. */
  function FrontmatterBlock(domain: string, now: string): string {
    "---" + FrontmatterYaml(domain, now) + "---\n"
  }

  /** The YAML between the frontmatter's two `---` lines, newlines included. */
  function FrontmatterYaml(domain: string, now: string): string {
    "\ngenerated_by: flux-gen\ndomain: " + domain + "\ngenerated_at: '" + now + "'\nflux_gen_version: "
      + Decimal(FluxGenVersion) + "\n"
  }

  /** The persona: the profile's, or one made from the domain and focus when it has none. */
  function PersonaText(t: Template, spec: AgentSpec): (r: string)
    ensures spec.persona.Some? && spec.persona.value != "" ==> r == spec.persona.value
    ensures spec.persona.None? || spec.persona.value == "" ==>
      r == t.personaOpening + Lower(DisplayName(spec.domain)) + " " + TrimEndChar(Lower(spec.focus), '.') + t.personaClosing
  {
    if spec.persona.Some? && spec.persona.value != "" then spec.persona.value
    else t.personaOpening + Lower(DisplayName(spec.domain)) + " " + TrimEndChar(Lower(spec.focus), '.') + t.personaClosing
  }

  /** The decision lens: the profile's, or a default that names the domain. */
  function LensText(t: Template, spec: AgentSpec): (r: string)
    ensures spec.decisionLens.Some? && spec.decisionLens.value != "" ==> r == spec.decisionLens.value
    ensures spec.decisionLens.None? || spec.decisionLens.value == "" ==>
      r == t.lensOpening + Lower(DisplayName(spec.domain)) + t.lensClosing
  {
    if spec.decisionLens.Some? && spec.decisionLens.value != "" then spec.decisionLens.value
    else t.lensOpening + Lower(DisplayName(spec.domain)) + t.lensClosing
  }

  /** The review section for the `index`-th area. */
  function SectionText(index: nat, area: string): string {
    "\n### " + Decimal(index) + ". " + ShortTitle(area) + "\n\n" + "- " + area + "\n"
  }

  /** The review sections of `areas`, numbered from 1. */
  function SectionsText(areas: seq<string>): string {
    if areas == [] then ""
    else SectionsText(areas[..|areas| - 1]) + SectionText(|areas|, areas[|areas| - 1])
  }

  /** One bullet per success hint. */
  function HintsText(hints: seq<string>): string {
    if hints == [] then ""
    else HintsText(hints[..|hints| - 1]) + "- " + hints[|hints| - 1] + "\n"
  }

  /** The fixed parts of the template: the wording between the values it interpolates, the
      criteria every agent carries before its own hints, and the documentation kinds the
      "First Step" section points a reviewer of each domain to. */
  datatype Template = Template(
    afterDisplay: string, afterGeneratedFrom: string, firstStep: string, modes: string,
    reviewApproach: string, notToFlag: string, decisionLens: string, compete: string,
    prioritization: string, fixedCriteria: string,
    docTypes: map<string, string>, defaultDocTypes: string,
    personaOpening: string, personaClosing: string, lensOpening: string, lensClosing: string)

  /** The documentation kinds for `domain`. */
  function DocTypes(t: Template, domain: string): (r: string)
    ensures domain in t.docTypes ==> r == t.docTypes[domain]
    ensures domain !in t.docTypes ==> r == t.defaultDocTypes
  {
    if domain in t.docTypes then t.docTypes[domain] else t.defaultDocTypes
  }

  /** The template generate-agents renders with, word for word. */
  const SourceTemplate: Template := Template(
    afterDisplay := @" Domain Reviewer

> Generated by `/flux-gen` from the ",
    afterGeneratedFrom := @" domain profile.
> Customize this file for your project's specific needs.

",
    firstStep := @"

## First Step (MANDATORY)

Check for project documentation:
1. `CLAUDE.md` in the project root
2. `AGENTS.md` in the project root
3. Domain-relevant docs: ",
    modes := @"

If docs exist, operate in codebase-aware mode:
- Ground every finding in the project's actual patterns and conventions
- Reuse the project's terminology, not generic terms
- Avoid recommending changes the project has explicitly ruled out

If docs don't exist, operate in generic mode:
- Apply best practices for ",
    reviewApproach := @" projects
- Mark assumptions explicitly so the team can correct them

## Review Approach
",
    notToFlag := @"
## What NOT to Flag

- Architecture, module boundaries, or coupling concerns (fd-architecture handles this)
- Security vulnerabilities or credential handling (fd-safety handles this)
- Data consistency, race conditions, or transaction safety (fd-correctness handles this)
- Naming conventions, code style, or language idioms (fd-quality handles this)
- Rendering bottlenecks, algorithmic complexity, or memory usage (fd-performance handles this)
- User flows, UX friction, or value proposition (fd-user-product handles this)
- Only flag the above if they are deeply entangled with your domain expertise and the core agent would miss the domain-specific nuance

## Success Criteria

A good ",
    decisionLens := @"
## Decision Lens

",
    compete := @"

When two fixes compete for attention, choose the one with higher real-world impact on ",
    prioritization := @" concerns.

## Prioritization

- P0/P1: Issues that would cause failures, data loss, or broken functionality in production
- P2: Issues that degrade quality or create maintenance burden
- P3: Improvements and polish — suggest but don't block on these
- Always tie findings to specific files, functions, and line numbers
- Frame uncertain findings as questions, not assertions
",
    fixedCriteria := @"- Ties every finding to a specific file, function, and line number — never a vague ""consider X""
- Provides a concrete failure scenario for each P0/P1 finding — what breaks, under what conditions, and who is affected
- Recommends the smallest viable fix, not an architecture overhaul — one diff hunk, not a rewrite
- Distinguishes domain-specific expertise from generic code quality (defer the latter to core agents listed in ""What NOT to Flag"")
- Frames uncertain findings as questions: ""Does this handle X?"" not ""This doesn't handle X""
",
    docTypes := map[
      "game-simulation" := "Game design documents (GDD), balance spreadsheets, system design docs",
      "web-api" := "API specs (OpenAPI/Swagger), architecture decision records, runbooks",
      "ml-pipeline" := "Model cards, experiment tracking docs, data lineage docs",
      "cli-tool" := "Man pages, help text source, CLI design docs",
      "mobile-app" := "Platform guidelines docs, accessibility docs, release checklists",
      "embedded-systems" := "Hardware specs, memory maps, timing constraint docs",
      "data-pipeline" := "Schema docs, data dictionaries, SLA definitions",
      "library-sdk" := "API reference docs, migration guides, changelog",
      "tui-app" := "Keybinding docs, accessibility docs, terminal compatibility notes",
      "desktop-tauri" := "Platform integration docs, packaging configs, update channel docs",
      "claude-code-plugin" := "Plugin manifest, skill/agent/command inventories, hook documentation"
    ],
    defaultDocTypes := "Project-specific documentation",
    personaOpening := "You are a ",
    personaClosing := " specialist \U{2014} methodical, specific, and grounded in project reality.",
    lensOpening := "Prioritize findings by real-world impact on ",
    lensClosing := " projects. Flag issues that would cause failures in production before style concerns.")

  /** The frontmatter, the title line and the note on where the file came from. */
  function Opening(t: Template, spec: AgentSpec, now: string): (r: string)
    ensures FrontmatterBlock(spec.domain, now) <= r
  {
    var d := spec.domain;
    FrontmatterBlock(d, now) + "# " + spec.name + " \U{2014} " + DisplayName(d) + t.afterDisplay + d + t.afterGeneratedFrom
  }

  /** "First Step": where to look for documentation, and how to review with or without it. */
  function Guidance(t: Template, domain: string): string {
    t.firstStep + DocTypes(t, domain) + t.modes + domain + t.reviewApproach
  }

  /** "What NOT to Flag", then the opening of "Success Criteria". */
  function CriteriaIntro(t: Template, domain: string): string {
    t.notToFlag + domain + " review:\n"
  }

  /** The close of the decision lens, then "Prioritization". */
  function Closing(t: Template, domain: string): string {
    t.compete + domain + t.prioritization
  }

  /** The file in nine parts: the values `render_agent` interpolates that come from the
      profile, and the fixed text around them. */
  datatype Parts = Parts(
    opening: string, persona: string, guidance: string, sections: string, criteriaIntro: string,
    criteria: string, lensHeading: string, lens: string, closing: string)

  /** The parts in file order. */
  function Join(p: Parts): string {
    p.opening + p.persona + p.guidance + p.sections + p.criteriaIntro + p.criteria + p.lensHeading + p.lens + p.closing
  }

  /** The parts of the file for `spec`, given the two lists `render_agent` assembles. */
  function PartsOf(t: Template, spec: AgentSpec, now: string, sections: string, criteria: string): Parts {
    var d := spec.domain;
    Parts(Opening(t, spec, now), PersonaText(t, spec), Guidance(t, d), sections, CriteriaIntro(t, d), criteria,
          t.decisionLens, LensText(t, spec), Closing(t, d))
  }

  /** The file `render_agent` produces for `spec` at clock reading `now`, rendered with the
      template `t` (the source's own is `SourceTemplate`). */
  function AgentText(t: Template, spec: AgentSpec, now: string): string {
    Join(PartsOf(t, spec, now, SectionsText(spec.reviewAreas), t.fixedCriteria + HintsText(spec.successHints)))
  }

  lemma SectionsStep(areas: seq<string>, k: nat)
    requires k < |areas|
    ensures SectionsText(areas[..k]) + SectionText(k + 1, areas[k]) == SectionsText(areas[..k + 1])
  {
    assert areas[..k + 1][..k] == areas[..k];
  }

  lemma HintsStep(prefix: string, hints: seq<string>, k: nat)
    requires k < |hints|
    ensures prefix + HintsText(hints[..k]) + "- " + hints[k] + "\n" == prefix + HintsText(hints[..k + 1])
  {
    assert hints[..k + 1][..k] == hints[..k];
  }

  /** The review-approach loop of `render_agent`: one numbered section per area. */
  method ReviewSections(areas: seq<string>) returns (sections: string)
    ensures sections == SectionsText(areas)
  {
    sections := "";
    var idx := 0;
    while idx < |areas|
      invariant idx <= |areas|
      invariant sections == SectionsText(areas[..idx])
    {
      SectionsStep(areas, idx);
      sections := sections + SectionText(idx + 1, areas[idx]);
      idx := idx + 1;
    }
    assert areas[..idx] == areas;
  }

  /** The success-criteria loop of `render_agent`: the fixed criteria, then a bullet per hint. */
  method SuccessBullets(fixed: string, hints: seq<string>) returns (criteria: string)
    ensures criteria == fixed + HintsText(hints)
  {
    criteria := fixed;
    var k := 0;
    assert hints[..0] == [];
    while k < |hints|
      invariant k <= |hints|
      invariant criteria == fixed + HintsText(hints[..k])
    {
      HintsStep(fixed, hints, k);
      criteria := criteria + "- " + hints[k] + "\n";
      k := k + 1;
    }
    assert hints[..k] == hints;
  }

  /** `render_agent`. */
  method RenderAgent(t: Template, spec: AgentSpec, now: string) returns (content: string)
    ensures content == AgentText(t, spec, now)
  {
    var sections := ReviewSections(spec.reviewAreas);
    var criteria := SuccessBullets(t.fixedCriteria, spec.successHints);
    content := Join(PartsOf(t, spec, now, sections, criteria));
  }

  // ---------------------------------------------------------------------------
  // What a rendered file holds
  // ---------------------------------------------------------------------------

  /** Every review area appears, in order, under its number and short title. */
  lemma {:induction false} SectionsHoldAreas(areas: seq<string>, k: nat)
    requires k < |areas|
    ensures Contains(SectionsText(areas), SectionText(k + 1, areas[k]))
    decreases |areas|
  {
    var init := areas[..|areas| - 1];
    if k == |areas| - 1 {
      ContainsSuffix(SectionsText(init) + SectionText(|areas|, areas[k]), |SectionsText(init)|, SectionText(k + 1, areas[k]));
    } else {
      assert init[k] == areas[k];
      SectionsHoldAreas(init, k);
      ContainsPrefix(SectionsText(init), SectionText(|areas|, areas[|areas| - 1]), SectionText(k + 1, areas[k]));
    }
  }

  /** Every success hint appears as a bullet of its own. */
  lemma {:induction false} HintsHoldHints(hints: seq<string>, k: nat)
    requires k < |hints|
    ensures Contains(HintsText(hints), "- " + hints[k] + "\n")
    decreases |hints|
  {
    var init := hints[..|hints| - 1];
    var line := "- " + hints[k] + "\n";
    if k == |hints| - 1 {
      assert HintsText(hints) == HintsText(init) + line;
      ContainsSuffix(HintsText(init) + line, |HintsText(init)|, line);
    } else {
      assert init[k] == hints[k];
      HintsHoldHints(init, k);
      assert HintsText(hints) == HintsText(init) + ("- " + hints[|hints| - 1] + "\n");
      ContainsPrefix(HintsText(init), "- " + hints[|hints| - 1] + "\n", line);
    }
  }

  /** Review areas written in a profile as `- ` bullets come out of the rendered sections in
      order, each under its number and short title. */
  lemma BulletAreasRendered(values: seq<string>, k: nat)
    requires forall j :: 0 <= j < |values| ==> Trimmed(values[j])
    requires k < |values|
    ensures Contains(SectionsText(BulletItemsOf(Bullets(values))), SectionText(k + 1, values[k]))
  {
    BulletItemsOfBullets(values);
    SectionsHoldAreas(values, k);
  }

  /** Either side's needle is the joined text's needle. */
  lemma ContainsEither(a: string, b: string, needle: string)
    ensures Contains(a, needle) || Contains(b, needle) ==> Contains(a + b, needle)
  {
    if Contains(a, needle) {
      ContainsPrefix(a, b, needle);
    } else if Contains(b, needle) {
      ContainsAfter(a, b, needle);
    }
  }

  /** Whatever a part holds, the file holds. */
  lemma JoinHolds(p: Parts, needle: string)
    requires Contains(p.persona, needle) || Contains(p.sections, needle) || Contains(p.criteria, needle)
             || Contains(p.lens, needle)
    ensures Contains(Join(p), needle)
  {
    var s := p.opening;
    ContainsEither(s, p.persona, needle);
    s := s + p.persona;
    ContainsEither(s, p.guidance, needle);
    s := s + p.guidance;
    ContainsEither(s, p.sections, needle);
    s := s + p.sections;
    ContainsEither(s, p.criteriaIntro, needle);
    s := s + p.criteriaIntro;
    ContainsEither(s, p.criteria, needle);
    s := s + p.criteria;
    ContainsEither(s, p.lensHeading, needle);
    s := s + p.lensHeading;
    ContainsEither(s, p.lens, needle);
    s := s + p.lens;
    ContainsEither(s, p.closing, needle);
  }

  /** Whatever opens the first part opens the file. */
  lemma JoinOpens(p: Parts, head: string)
    requires head <= p.opening
    ensures head <= Join(p)
  {
    var rest := p.persona + p.guidance + p.sections + p.criteriaIntro + p.criteria + p.lensHeading + p.lens + p.closing;
    assert Join(p) == p.opening + rest;
    assert (p.opening + rest)[..|head|] == p.opening[..|head|];
  }

  lemma ContainsWhole(s: string)
    ensures Contains(s, s)
  {
  }

  /** A rendered file opens with the frontmatter. */
  lemma RenderedFrontmatter(t: Template, spec: AgentSpec, now: string)
    ensures FrontmatterBlock(spec.domain, now) <= AgentText(t, spec, now)
  {
    var p := PartsOf(t, spec, now, SectionsText(spec.reviewAreas), t.fixedCriteria + HintsText(spec.successHints));
    JoinOpens(p, FrontmatterBlock(spec.domain, now));
  }

  /** Nothing of the profile is dropped: the file holds the persona and the decision lens in
      use, every review area under its number and short title, and every success hint. */
  lemma RenderedHoldsProfile(t: Template, spec: AgentSpec, now: string)
    ensures Contains(AgentText(t, spec, now), PersonaText(t, spec))
    ensures Contains(AgentText(t, spec, now), LensText(t, spec))
    ensures forall k :: 0 <= k < |spec.reviewAreas| ==>
      Contains(AgentText(t, spec, now), SectionText(k + 1, spec.reviewAreas[k]))
    ensures forall k :: 0 <= k < |spec.successHints| ==>
      Contains(AgentText(t, spec, now), "- " + spec.successHints[k] + "\n")
  {
    var hints := HintsText(spec.successHints);
    var p := PartsOf(t, spec, now, SectionsText(spec.reviewAreas), t.fixedCriteria + hints);
    ContainsWhole(p.persona);
    JoinHolds(p, p.persona);
    ContainsWhole(p.lens);
    JoinHolds(p, p.lens);
    forall k | 0 <= k < |spec.reviewAreas|
      ensures Contains(AgentText(t, spec, now), SectionText(k + 1, spec.reviewAreas[k]))
    {
      SectionsHoldAreas(spec.reviewAreas, k);
      JoinHolds(p, SectionText(k + 1, spec.reviewAreas[k]));
    }
    forall k | 0 <= k < |spec.successHints|
      ensures Contains(AgentText(t, spec, now), "- " + spec.successHints[k] + "\n")
    {
      HintsHoldHints(spec.successHints, k);
      ContainsAfter(t.fixedCriteria, hints, "- " + spec.successHints[k] + "\n");
      JoinHolds(p, "- " + spec.successHints[k] + "\n");
    }
  }

  lemma ContainsAfter(a: string, b: string, needle: string)
    requires Contains(b, needle)
    ensures Contains(a + b, needle)
  {
    assert (a + b)[|a|..] == b;
    ContainsSuffix(a + b, |a|, needle);
  }
}
