# flux-drive domain detection and agent generation, in Dafny

This project models the two scripts at the heart of the interflux plugin's flux-drive reviewer.
The model follows both scripts, and it proves properties about them. The end-to-end members (`Cache.Run`, `Agents.GenerateAgents`, `Generation.Generate`) compose the readers and writers with the corrections listed under "## Findings". The code as written is modelled beside them (`Agents.PlanAsWritten`, `Agents.ExistingAgentsAsWritten`, `Agents.CollectedAsWritten`, `Agents.AtomicWriteAsWritten`, `Cache.WriteCacheAsWritten`); those members exist only to exhibit the findings and to prove that the corrections change nothing else.

- `scripts/detect-domains.py` classifies a project into domains such as `web-api` or `game-simulation`.
  - For each domain of the catalog (`index.yaml`) it computes four signal fractions:
    - directories;
    - file-name globs;
    - build-dependency names (from `package.json`, `Cargo.toml`, `go.mod`, `pyproject.toml` and `requirements.txt`);
    - keywords in at most five source files.
  - It weighs these 0.3/0.2/0.3/0.2, keeps the domains whose confidence reaches their threshold, sorts them by rounded confidence, highest first, and marks the first as primary.
  - It caches the result in `.claude/flux-drive.yaml` by writing a temp file, syncing it and renaming it over the cache.
  - Its command line answers from that cache unless `--no-cache` is given. Even with `--no-cache`, a cache marked `override` still wins.
- `scripts/generate-agents.py` turns the cached domains into reviewer agent files `.claude/agents/fd-*.md`.
  - It parses each domain profile's `## Agent Specifications` section into agent specs and drops the core agents.
  - It renders each spec into a markdown file with YAML frontmatter.
  - It reconciles the specs with the agent files already present. The modes are `skip-existing`, `regenerate-stale` and `force`. It also reports orphaned agents.
  - It writes each file atomically, or writes nothing in a dry run.

Modules and files:

| module | file | what it holds |
|---|---|---|
| Values | values.dfy | a parsed YAML/JSON/TOML document, Python truthiness, `dict.get` |
| Text | text.dfy | the `str` operations both scripts use (`lower`, `strip`, `split`, `find`, ...) |
| Collections | collections.dfy | counting, collecting and filtering over sequences |
| Glob | glob.dfy | `fnmatch` with `*`, `?` and literal characters |
| Snapshot | snapshot.dfy | a read-only snapshot of the project tree |
| Scoring | scoring.dfy | weights, the weighted score, fractions, rounding to two decimals |
| Extractors | extractors.dfy | the five dependency-name extractors |
| Gatherers | gatherers.dfy | the four signal gatherers |
| Detection | detection.dfy | `DomainSpec`, `load_index`, `detect` |
| Fs | fs.dfy | a directory object whose files change step by step, with failing steps |
| Cache | cache.dfy | `read_cache`, `write_cache`, and the cache decision and exit codes of `main` |
| Profiles | profiles.dfy | `parse_agent_specs` and `_parse_single_agent` |
| Render | render.dfy | `_domain_display_name`, `_short_title`, `render_agent` |
| Agents | agents.dfy | `check_existing_agents`, `_parse_frontmatter`, `_atomic_write`, and the steps of `generate` |
| Generation | generation.dfy | `generate` as a whole, and the exit codes of its `main` |

How the model is built:

- The file system is treated in two ways.
  - It is read through a `Snapshot.Node` tree, in which an unreadable directory or file is `None`.
  - It is written through the `Fs.Directory` class: a map from file name to text, a set of open descriptors, and a set of failing steps with a short-write size (`Fs.Faults`).
- Document loaders (`yaml.safe_load`, `json.loads`, `tomllib.loads`) and the YAML dumper are function parameters (`Values.Parsers`). Every property that needs them to behave says so in a `requires`.
- Clocks are string parameters.
- The long fixed prose of the agent template is a parameter (`Render.Template`).
- Each loop of the scripts is a `method` with loop invariants. The method is proved equal to a function, and the promised properties are proved about that function as lemmas.

## Model

| member | source | states |
|---|---|---|
| Scoring.Score | scripts/detect-domains.py:339-341 | the weighted score is the preliminary score plus 0.2 times the keyword score; it lies in [0,1] when all four inputs do; equal inputs give that value back |
| Scoring.Preliminary | scripts/detect-domains.py:358 | the score without keywords lies in [0, 0.8] for inputs in [0,1] |
| Scoring.ScoreOfSingleCategories | scripts/detect-domains.py:41-44 | the weights are 0.3, 0.2, 0.3 and 0.2: one full category scores its weight, and all categories at one half score one half |
| Scoring.ScoreMonotone | scripts/detect-domains.py:339-341 | raising any signal never lowers the score |
| Scoring.Fraction | scripts/detect-domains.py:148 | a matched/total fraction lies in [0,1]; it is 0 exactly when nothing matched and 1 exactly when every signal of a non-empty list matched |
| Scoring.Round2 | scripts/detect-domains.py:369 | the rounded confidence lies within half a hundredth of the confidence |
| Scoring.Round2Monotone | scripts/detect-domains.py:369 | rounding never reverses the order of two confidences |
| Scoring.Round2InUnit | scripts/detect-domains.py:369 | rounding keeps a confidence in [0,1] |
| Scoring.Round2OfGrid | scripts/detect-domains.py:369 | a value that already has two decimals is unchanged |
| Text.Lower | scripts/detect-domains.py:241 | `lower()` keeps the length and leaves no upper-case letter |
| Text.LowerConcat | scripts/detect-domains.py:330 | lower-casing commutes with concatenation |
| Text.StripShape | scripts/detect-domains.py:241 | `strip()` never lengthens a string and leaves no whitespace at either end |
| Text.StripSlice | scripts/detect-domains.py:241 | `strip()` yields a contiguous slice of its input |
| Text.StripNoop | scripts/generate-agents.py:108 | a string without surrounding whitespace is its own `strip()` |
| Text.TrimStartShape | scripts/generate-agents.py:215 | `lstrip()` removes exactly the leading whitespace |
| Text.TrimEndShape | scripts/generate-agents.py:215 | `rstrip()` removes exactly the trailing whitespace |
| Text.Find | scripts/generate-agents.py:350 | `find` returns the first index at or after the start where the needle occurs, and -1 exactly when there is none |
| Text.SplitOn | scripts/detect-domains.py:222 | `split(c)` yields at least one piece, and no piece holds `c` |
| Text.RemoveSeparatorsShape | scripts/detect-domains.py:282 | deleting `-` and `_` leaves neither behind and is idempotent |
| Text.RemoveSeparatorsConcat | scripts/detect-domains.py:282 | deleting separators commutes with concatenation |
| Text.RemoveSeparatorsNoop | scripts/detect-domains.py:286 | a name without separators is its own normal form |
| Glob.LiteralMatchesOnlyItself | scripts/detect-domains.py:171 | a pattern without wildcards matches exactly the name it spells |
| Glob.StarMatchesAll | scripts/detect-domains.py:171 | `*` matches every file name |
| Glob.StarThenLiteral | scripts/detect-domains.py:171 | `*` followed by a literal tail matches exactly the names ending in that tail |
| Snapshot.Child | scripts/detect-domains.py:137 | the child lookup finds a node exactly when the listing holds an entry of that name, and it finds that entry's node |
| Snapshot.LastIndexOf | scripts/detect-domains.py:299 | the suffix search finds the last occurrence of the dot, or -1 when there is none |
| Snapshot.KeepNamed | scripts/detect-domains.py:144 | the path components pathlib keeps are neither empty nor `.` |
| Detection.DomainSpecOf | scripts/detect-domains.py:57-67 | a catalog entry yields a spec only when it is a mapping with a `profile`, and the spec keeps that profile value; a missing `min_confidence` reads as 0.3, and a given one is read as `float` reads it |
| Detection.SignalValues | scripts/detect-domains.py:63-67 | a false signal value (null, empty, zero) is no signals, a string gives its characters, and a list of strings gives its items in order; a list of strings is always accepted |
| Detection.FalseSignalsLoadEmpty | scripts/detect-domains.py:57-67 | an entry whose signal lists are all missing or false, with a numeral-string threshold, loads with no signals and that threshold |
| Text.DecimalNumber | scripts/detect-domains.py:61 | a blank string is never a number |
| Text.DecimalNumberOfDecimal | scripts/detect-domains.py:61 | `float` reads back the numeral of every natural number |
| Text.DecimalNumberOfFraction | scripts/detect-domains.py:61 | `float` reads `w.ddd`, with k fraction digits spelling f, as w + f/10^k |
| Detection.LoadIndex | scripts/detect-domains.py:70-73 | the catalog loads only when the document is a mapping with `domains`; a `domains` list loads whenever each entry loads, and then yields one spec per entry, in order |
| Gatherers.DirectoryScore | scripts/detect-domains.py:132-148 | the directory fraction lies in [0,1] |
| Gatherers.GatherDirectories | scripts/detect-domains.py:132-148 | the counting loop returns the directory fraction: 0 for no signals or an unreadable root, else matched/total |
| Gatherers.PlainDirSignalIsPathCheck | scripts/detect-domains.py:143-147 | a signal without `/` holds exactly when that path is a directory, so both branches test the same thing |
| Gatherers.FileScore | scripts/detect-domains.py:151-172 | the file-pattern fraction lies in [0,1] |
| Gatherers.GatherFiles | scripts/detect-domains.py:151-172 | the loop that builds the set of visible file names returns the file-pattern fraction |
| Gatherers.LiteralFileSignal | scripts/detect-domains.py:171 | a literal pattern holds exactly when a file of that name is visible |
| Gatherers.SubdirectoryFilesVisible | scripts/detect-domains.py:158-165 | a file one level down counts unless its directory is hidden |
| Gatherers.FrameworkScore | scripts/detect-domains.py:271-288 | the framework fraction lies in [0,1] |
| Gatherers.CollectAllDeps | scripts/detect-domains.py:275-280 | the accumulated dependency set is the union of the five extractors' sets |
| Gatherers.GatherFrameworks | scripts/detect-domains.py:271-288 | the loop returns the framework fraction |
| Gatherers.FrameworkSignalMeaning | scripts/detect-domains.py:282-287 | a framework signal holds exactly when some dependency equals it once `-` and `_` are deleted from both |
| Gatherers.FrameworkSignalIgnoresSeparator | scripts/detect-domains.py:286 | inserting a `-` or `_` into a signal never changes whether it holds |
| Gatherers.Take | scripts/detect-domains.py:315 | taking `limit` files yields a prefix of at most `limit`, and the whole list when it is short enough |
| Gatherers.KeywordScore | scripts/detect-domains.py:291-332 | the keyword fraction lies in [0,1] |
| Gatherers.AppendSourceFiles | scripts/detect-domains.py:303-307 | the inner loop appends the subdirectory's source files in sorted order, stopping once the cap is reached |
| Gatherers.AppendEntryCandidates | scripts/detect-domains.py:299-309 | one root entry contributes itself when it is a source file, or its own source files when it is a visible directory |
| Gatherers.GatherCandidates | scripts/detect-domains.py:296-313 | the outer loop with its early break yields a prefix of all candidate files, and all of them unless the cap was reached |
| Gatherers.TakeOfEarlyStop | scripts/detect-domains.py:310-315 | stopping at `3 * limit` files and then taking `limit` gives what taking `limit` of all candidates gives |
| Gatherers.ReadCombined | scripts/detect-domains.py:320-325 | the read loop concatenates each readable file's text and a newline, and skips unreadable files |
| Gatherers.GatherKeywords | scripts/detect-domains.py:291-332 | the gatherer returns the keyword fraction: 0 for no signals, no candidates or empty text |
| Gatherers.CandidatesShape | scripts/detect-domains.py:296-311 | every candidate has a source suffix and lies at the root or in a visible immediate subdirectory |
| Gatherers.KeywordInOneFile | scripts/detect-domains.py:330-331 | a keyword found, ignoring case, in any one read file is found in the combined text |
| Gatherers.KeywordFilesBounded | scripts/detect-domains.py:315 | at most `limit` files are read, and they come first in sorted order |
| Gatherers.SourceFilesSound | scripts/detect-domains.py:303-305 | a collected subdirectory file is a child of that directory with a source suffix |
| Extractors.SectionKeysMembership | scripts/detect-domains.py:183-186 | a name is extracted exactly when it is a key of one of the listed sections that is a mapping |
| Extractors.CollectSectionKeys | scripts/detect-domains.py:183-186 | the section loop collects those keys |
| Extractors.ParsePackageJsonDeps | scripts/detect-domains.py:175-189 | `package.json` yields the keys of `dependencies` and `devDependencies`, and nothing else |
| Extractors.ParseCargoTomlDeps | scripts/detect-domains.py:192-206 | `Cargo.toml` yields the keys of the three dependency tables, and nothing else |
| Extractors.RequireBlocks | scripts/detect-domains.py:218 | a `require ( ... )` block's body holds no `)` |
| Extractors.RequireLines | scripts/detect-domains.py:224 | a single-line `require` yields a non-empty path without whitespace |
| Extractors.ParseGoModDeps | scripts/detect-domains.py:209-228 | the two loops over `go.mod` collect the lower-cased last path segments of both require forms |
| Extractors.GoModNameShape | scripts/detect-domains.py:222 | a go.mod name holds no `/` and no upper-case letter |
| Extractors.Elements | scripts/detect-domains.py:240 | iterating the PEP 621 dependency list yields its strings, and fails exactly when Python's iteration would raise |
| Extractors.ListedRequirementNames | scripts/detect-domains.py:240-243 | the PEP 621 loop collects the non-empty requirement names |
| Extractors.PoetryNames | scripts/detect-domains.py:245-247 | the Poetry names are lower-case and never `python` |
| Extractors.PoetryKeys | scripts/detect-domains.py:245-247 | the Poetry loop collects those names |
| Extractors.ParsePyprojectDeps | scripts/detect-domains.py:231-250 | `pyproject.toml` yields the union of the PEP 621 names and the Poetry names |
| Extractors.ParseRequirementsTxt | scripts/detect-domains.py:253-268 | the line loop collects the name of every line that is not blank, a comment or an option |
| Extractors.SpecNameShape | scripts/detect-domains.py:241 | a requirement name is lower-case, holds no separator character and has no whitespace at either end |
| Extractors.StrippedShape | scripts/detect-domains.py:241 | stripping the text before the first separator leaves no separator and no surrounding whitespace |
| Extractors.LowerShape | scripts/detect-domains.py:241 | lower-casing such a text keeps those properties |
| Extractors.LowerCharKeeps | scripts/detect-domains.py:241 | lower-casing never turns a character into a separator or whitespace, or back |
| Extractors.SpecNameIgnoresConstraint | scripts/detect-domains.py:241 | everything from the first version constraint or marker on is ignored |
| Extractors.SkippedRequirementLines | scripts/detect-domains.py:262 | lines starting with `#` or `-` yield no name |
| Detection.ConfidenceInUnit | scripts/detect-domains.py:352-364 | a domain's confidence lies in [0,1] |
| Detection.ShortcutKeepsVerdict | scripts/detect-domains.py:357-366 | skipping the keyword scan never changes whether a domain qualifies |
| Detection.ScoreOneDomain | scripts/detect-domains.py:353-364 | the per-domain steps compute the preliminary score when the shortcut applies, and the full score otherwise |
| Detection.QualifyingDomains | scripts/detect-domains.py:350-370 | the loop appends one rounded, unmarked record per qualifying domain, in catalog order |
| Detection.QualifyingMembership | scripts/detect-domains.py:366-370 | a record is listed exactly when its domain's unrounded confidence reaches the threshold; it carries the rounded confidence |
| Detection.QualifyingUnmarked | scripts/detect-domains.py:367-370 | no record is primary before sorting |
| Detection.ShortcutKeepsNames | scripts/detect-domains.py:357-370 | the shortcut changes confidences but not which domains are listed, nor their order |
| Detection.Insert | scripts/detect-domains.py:373 | one insertion step adds exactly the new record |
| Detection.SortDesc | scripts/detect-domains.py:373 | the sort permutes its input |
| Detection.InsertSorted | scripts/detect-domains.py:373 | insertion keeps a list sorted, highest confidence first |
| Detection.SortDescSorted | scripts/detect-domains.py:373 | the sort yields confidences in non-increasing order |
| Detection.InsertStable | scripts/detect-domains.py:373 | an inserted record goes after every earlier record of equal confidence |
| Detection.SortDescStable | scripts/detect-domains.py:373 | the sort is stable: records of equal confidence keep their relative order |
| Detection.SortAndMark | scripts/detect-domains.py:373-375 | sorting and marking give a sorted permutation of the records, stable among equal confidences, with only the first marked primary |
| Detection.Detect | scripts/detect-domains.py:348-376 | `detect` computes the qualifying records, sorts them and marks the first primary |
| Detection.NothingDetectedIff | scripts/detect-domains.py:366-376 | `detect` finds nothing exactly when no domain reaches its threshold |
| Detection.DetectionProperties | scripts/detect-domains.py:348-376 | the result is sorted, stable and a permutation of the qualifying records, only its first element is primary, and it is empty exactly when nothing qualifies |
| Detection.EmptyProjectDetectsNothing | scripts/detect-domains.py:348-376 | an empty project yields no domain when every threshold is positive |
| Detection.EmptyProjectScoresZero | scripts/detect-domains.py:132-332 | every signal fraction of an empty project is 0 |
| Cache.ResultValue | scripts/detect-domains.py:367-375 | a record holds its name and confidence, and a `primary` key exactly when it is primary |
| Cache.ResultsValue | scripts/detect-domains.py:101-105 | the `domains` list has one record per detected domain, and is truthy exactly when something was detected |
| Cache.CacheText | scripts/detect-domains.py:106-107 | the cache file opens with its header comment |
| Cache.ReadCache | scripts/detect-domains.py:81-91 | `read_cache` returns the record exactly when the file exists, parses to a mapping, and has a non-empty `domains` |
| Cache.AnswerFromCache | scripts/detect-domains.py:412-432 | the command line answers from the cache exactly when one is usable and either `--no-cache` is off or the cache says `override` |
| Cache.CacheRoundTrip | scripts/detect-domains.py:94-107 | when the YAML loader inverts the dumper, a written cache reads back, with its payload, exactly when it holds a domain |
| Cache.CachedPrimary | scripts/detect-domains.py:101-105 | in a cached detection, only the first record carries `primary` |
| Cache.WriteCache | scripts/detect-domains.py:94-124 | all or nothing: on success the cache holds the new text; on failure only the temp file may differ, and no descriptor stays open |
| Cache.WriteCacheAsWritten | scripts/detect-domains.py:94-124 | as written, a short write still succeeds and leaves a truncated cache; a failure leaves only the temp file changed |
| Cache.SyncAndReplace | scripts/detect-domains.py:112-124 | sync, close and rename succeed together or the temp file is closed and removed; the rename moves the temp text to the cache |
| Cache.Run | scripts/detect-domains.py:379-448 | exit 2 for a missing project or catalog, 0 with the cached record when the cache answers, 1 when nothing is detected, else 0 after a successful cache write or 2 when it fails |
| Fs.Accepted | scripts/detect-domains.py:111 | one `write` accepts at least one and at most the remaining bytes, and fewer exactly when a short-write size below them is set |
| Fs.Directory.MakeDirectory | scripts/detect-domains.py:100 | `mkdir(parents=True, exist_ok=True)` leaves the directory present unless it fails, and touches no file |
| Fs.Directory.CreateTempFile | scripts/detect-domains.py:109 | `mkstemp` creates an empty, open file under a fresh name, or changes nothing |
| Fs.Directory.WriteOnce | scripts/detect-domains.py:111 | one `os.write` appends the first `Accepted` bytes of the data and reports how many it wrote |
| Fs.Directory.WriteAll | scripts/generate-agents.py:372 | writing until everything is accepted appends the whole data, or changes nothing when the first write fails |
| Fs.Directory.SyncFile | scripts/detect-domains.py:112 | `fsync` succeeds unless it is a failing step |
| Fs.Directory.Close | scripts/detect-domains.py:113 | `close` releases the descriptor whether it succeeds or not, and fails for one already closed |
| Fs.Directory.Rename | scripts/detect-domains.py:114 | `rename` moves the source's text over the target, replacing it |
| Fs.Directory.Remove | scripts/detect-domains.py:121 | `unlink` removes the file, or changes nothing |
| Render.Title | scripts/generate-agents.py:73 | `title()` keeps the length, the non-letters and which characters are letters |
| Render.TitleFrom | scripts/generate-agents.py:73 | `title()` decides each character by whether a letter precedes it |
| Render.TitleKeepsLetters | scripts/generate-agents.py:73 | `title()` changes only case |
| Render.TitleIdempotent | scripts/generate-agents.py:73 | applying `title()` twice is applying it once |
| Render.DisplayName | scripts/generate-agents.py:68-73 | a display name has the slug's length and no `-` |
| Render.DisplayNameSpelling | scripts/generate-agents.py:73 | ignoring case, the display name is the slug with `-` replaced by a space |
| Render.DisplayNameCase | scripts/generate-agents.py:68-73 | the first letter of every word is upper case and every later letter is lower case, so `ml-pipeline` becomes `Ml Pipeline` |
| Render.WordStartUpper | scripts/generate-agents.py:73 | a letter at the start of a word is upper-cased |
| Render.WordRestLower | scripts/generate-agents.py:73 | a letter after a letter is lower-cased |
| Render.ClauseEnd | scripts/generate-agents.py:184 | the clause ends at the first comma, period, dash, em dash, ` and ` or ` so ` |
| Render.FirstClause | scripts/generate-agents.py:184 | the first clause is a prefix of the bullet with no break inside it |
| Render.FirstVerb | scripts/generate-agents.py:186-191 | the first alternative of the verb pattern that matches is chosen, as the regex tries them in order |
| Render.DropVerb | scripts/generate-agents.py:186-191 | removing the verb leaves a suffix of the clause, changes nothing when no verb matches, and never leaves leading whitespace |
| Render.Capitalize | scripts/generate-agents.py:193-194 | only the first character changes, and it is not left lower case |
| Render.Truncate | scripts/generate-agents.py:196-197 | a title never exceeds 60 characters |
| Render.ShortTitle | scripts/generate-agents.py:177-198 | a short title never exceeds 60 characters |
| Render.ShortTitleShape | scripts/generate-agents.py:177-198 | a short title has no comma or dash, a period only in the `...` of a truncation, and no lower-case first letter |
| Render.TruncateShape | scripts/generate-agents.py:196-197 | truncation to 57 characters plus `...` keeps these properties |
| Render.PlainTitleKept | scripts/generate-agents.py:177-198 | a bullet that already reads as a title is its own title |
| Render.WholeClause | scripts/generate-agents.py:184 | a bullet with no break is its own first clause |
| Render.CapitalizeCapital | scripts/generate-agents.py:193-194 | capitalising a capitalised string changes nothing |
| Render.PersonaText | scripts/generate-agents.py:211-217 | a given, non-empty persona is used as is; otherwise the persona is the template's opening, the lower-cased display name, a space, the lower-cased focus without trailing periods, and the template's closing |
| Render.LensText | scripts/generate-agents.py:219-225 | a given, non-empty decision lens is used as is; otherwise the lens is the template's opening, the lower-cased display name and the template's closing |
| Render.DocTypes | scripts/generate-agents.py:228 | the document kinds are the domain's entry, or the default for an unknown domain |
| Render.Opening | scripts/generate-agents.py:252-258 | the file opens with the frontmatter block |
| Render.ReviewSections | scripts/generate-agents.py:234-238 | the loop emits the `### n. title` sections, numbered from 1 |
| Render.SuccessBullets | scripts/generate-agents.py:241-249 | the loop appends one bullet per hint after the fixed criteria |
| Render.RenderAgent | scripts/generate-agents.py:201-311 | the rendering steps produce the agent text |
| Render.SectionsHoldAreas | scripts/generate-agents.py:235-238 | the sections hold the numbered section of every review area |
| Render.BulletAreasRendered | scripts/generate-agents.py:144-147 | review areas written as `- ` bullets come out of the rendered sections in order, each under its number and short title |
| Render.HintsHoldHints | scripts/generate-agents.py:248-249 | the criteria hold one bullet per success hint |
| Render.RenderedFrontmatter | scripts/generate-agents.py:252-257 | every rendered agent opens with its frontmatter block |
| Render.RenderedHoldsProfile | scripts/generate-agents.py:252-299 | the rendered file holds the persona, the decision lens, each numbered review section and each hint bullet |
| Render.LetterCases | scripts/generate-agents.py:194 | lower- and upper-casing a letter give the expected case |
| Profiles.SectionEnd | scripts/generate-agents.py:91 | the section runs to the first line that starts with `## `, or to the end of the text |
| Profiles.SectionStartAt | scripts/generate-agents.py:91 | the section's body starts after the heading line and its trailing whitespace, on a new line |
| Profiles.SectionStart | scripts/generate-agents.py:90-94 | the search finds the first heading, or reports that there is none |
| Profiles.AgentSection | scripts/generate-agents.py:90-98 | a section is found exactly when some line heads it |
| Profiles.SectionStopsAtHeading | scripts/generate-agents.py:91 | the section holds no line that starts with `## ` |
| Profiles.LastNewline | scripts/generate-agents.py:91 | the search finds the last newline in range, or there is none |
| Profiles.LastNonNewline | scripts/generate-agents.py:91 | the search finds the last character in range that is not a newline, or there is none |
| Profiles.NameEnd | scripts/generate-agents.py:101 | a name runs while its characters are word characters or `-` |
| Profiles.HeadingAt | scripts/generate-agents.py:101 | a heading line `### fd-...` yields a well-formed agent name and ends after it |
| Profiles.NextHeading | scripts/generate-agents.py:101 | the next heading starts at or after the given position |
| Profiles.NextHeadingIsFirst | scripts/generate-agents.py:101 | the next heading is the first one, and none means no heading remains |
| Profiles.AgentNameStripped | scripts/generate-agents.py:108 | a heading's name has no surrounding whitespace, so `strip()` keeps it |
| Profiles.SplitFrom | scripts/generate-agents.py:101 | the split pieces number an odd count |
| Profiles.SplitFromNames | scripts/generate-agents.py:101 | the pieces at odd positions are agent names |
| Profiles.SplitAgentBlocks | scripts/generate-agents.py:101-103 | the split gives the preamble, then alternating names and bodies |
| Profiles.NoHeadingNoBlocks | scripts/generate-agents.py:101 | a section without headings splits into itself alone |
| Profiles.LabelAt | scripts/generate-agents.py:125 | a label's value is non-empty and stays on its line |
| Profiles.LabelSearch | scripts/generate-agents.py:125-134 | the search finds the first line carrying the label, or reports that there is none |
| Profiles.LabelValue | scripts/generate-agents.py:125-134 | a found value lies on one line |
| Profiles.LabelOnFirstLine | scripts/generate-agents.py:125-126 | `Focus: x` on the first line yields `x` |
| Profiles.BulletBlockAt | scripts/generate-agents.py:138-142 | a bullet block starts with `- ` |
| Profiles.BulletSearch | scripts/generate-agents.py:138-156 | the search finds the first block under its header, or reports that there is none |
| Profiles.BulletRunEnd | scripts/generate-agents.py:139 | the run of bullet lines ends within the text |
| Profiles.BulletItemsOf | scripts/generate-agents.py:144-147 | there are no more items than lines |
| Profiles.CollectBullets | scripts/generate-agents.py:143-147 | the bullet loop keeps the stripped text after `- ` of each bullet line |
| Profiles.BulletItemsShape | scripts/generate-agents.py:144-147 | every item is stripped |
| Profiles.BulletList | scripts/generate-agents.py:138-147 | a missing list gives no items, and every item is stripped |
| Profiles.BulletItemsOfBullets | scripts/generate-agents.py:144-147 | bullets `- v` give back the values `v` in order |
| Profiles.AgentOf | scripts/generate-agents.py:122-170 | a spec carries its heading's name and the profile's domain |
| Profiles.ParseSingleAgent | scripts/generate-agents.py:122-170 | the parsing steps produce that spec: focus "" when absent, persona and lens None when absent, bullets in order |
| Profiles.Parsed | scripts/generate-agents.py:116-117 | one spec per kept block, in order |
| Profiles.ParseBlocks | scripts/generate-agents.py:105-119 | the `i += 2` walk yields the specs of the non-core headings, in order |
| Profiles.ParseBlock | scripts/generate-agents.py:107-117 | one step of the walk parses one pair, or skips a core agent |
| Profiles.ParseAgentSpecs | scripts/generate-agents.py:76-119 | `parse_agent_specs` computes the profile's specs |
| Profiles.KeptShape | scripts/generate-agents.py:107-117 | every kept name is a non-core agent name |
| Profiles.SpecsOf | scripts/generate-agents.py:76-119 | there are no specs without a section; every spec has the given domain and a non-core agent name |
| Profiles.WithoutCore | scripts/generate-agents.py:112-114 | exactly the non-core names are kept |
| Profiles.KeptFollowsHeadings | scripts/generate-agents.py:106-117 | the kept names are the non-core heading names, in order |
| Profiles.SpecsFollowHeadings | scripts/generate-agents.py:76-119 | the specs are named after the non-core headings, in document order |
| Agents.Stem | scripts/generate-agents.py:331 | the stem with `.md` appended gives back the file name |
| Agents.AgentFileOfName | scripts/generate-agents.py:328-331 | an agent's file `name.md` matches `fd-*.md` and has stem `name` |
| Agents.FrontmatterOf | scripts/generate-agents.py:337-357 | there is no frontmatter without a leading `---`; a found block is the text up to the next `---` |
| Agents.FrontmatterOfBlock | scripts/generate-agents.py:347-355 | `---y---rest` yields what the loader makes of `y` |
| Agents.ExistingEntry | scripts/generate-agents.py:328-332 | a file is listed exactly when it matches `fd-*.md` and its frontmatter says `generated_by: flux-gen`, and then under its stem |
| Agents.ExistingFrom | scripts/generate-agents.py:328-332 | there are no more entries than files |
| Agents.ExistingKeepsListed | scripts/generate-agents.py:318-334 | every generated agent of the directory is listed |
| Agents.ExistingOnlyListed | scripts/generate-agents.py:318-334 | only generated agents of the directory are listed |
| Agents.ExistingAgents | scripts/generate-agents.py:318-334 | nothing for a missing directory; otherwise an agent is found exactly when some listed file is an agent file marked as generated that yields it |
| Agents.CheckExistingAgents | scripts/generate-agents.py:318-334 | the loop over the sorted listing builds the map of existing agents, empty for a missing directory |
| Agents.ExistingAgentsAsWritten | scripts/generate-agents.py:328-332 | when the code as written finishes, it gives what the corrected code gives |
| Agents.ScalarFrontmatterStops | scripts/generate-agents.py:330 | a truthy frontmatter that is not a mapping makes the code as written raise, while the corrected code skips the file |
| Agents.ScalarFrontmatterExample | scripts/generate-agents.py:330 | `---\nhello\n---` is such a frontmatter |
| Agents.FrontmatterYamlCloses | scripts/generate-agents.py:252-257 | the rendered frontmatter holds no run of three dashes and does not end in a dash, so the closing `---` is found where it is written |
| Agents.BlockReadsBack | scripts/generate-agents.py:252-257 | the frontmatter of a rendered file reads back as its YAML block |
| Agents.BlockFound | scripts/generate-agents.py:328-332 | a file opening with a generated block is listed under its name with that frontmatter |
| Agents.RenderedAgentFound | scripts/generate-agents.py:318-357 | an agent file this script writes is found by a later run as generated, with its domain, and is current, so regenerate-stale skips it |
| Agents.ReadDomains | scripts/generate-agents.py:426-441 | a run goes on only with a cache that parses to a mapping with a non-empty `domains`; the read error is reported exactly when the cache cannot be read or parsed |
| Agents.DetectedNames | scripts/generate-agents.py:442 | the detected names are exactly the names of the mapping entries, and collecting them fails exactly when a name is unhashable |
| Agents.Orphans | scripts/generate-agents.py:452-455 | an agent is orphaned exactly when its recorded domain is non-empty and not detected |
| Agents.FindOrphans | scripts/generate-agents.py:452-455 | the orphan loop computes that list |
| Agents.OrphansCrashLater | scripts/generate-agents.py:452-455 | an unhashable recorded domain makes the orphan check raise |
| Agents.EntryOutcome | scripts/generate-agents.py:459-466 | an entry without a truthy name is passed over, one whose string name has no profile is reported, and a readable profile yields its specs; a name that is not a string is reported missing (see "## Left out") |
| Agents.Collected | scripts/generate-agents.py:458-469 | collection fails exactly when some profile cannot be read |
| Agents.CollectedStep | scripts/generate-agents.py:458-469 | collection extends one entry at a time |
| Agents.CollectedKeepsSpecs | scripts/generate-agents.py:458-469 | every spec of every found profile is collected |
| Agents.CollectedOnlySpecs | scripts/generate-agents.py:458-469 | only specs of found profiles are collected |
| Agents.CollectedErrors | scripts/generate-agents.py:464-466 | exactly the missing profiles are reported as errors |
| Agents.CollectSpecs | scripts/generate-agents.py:458-469 | the collection loop computes that result |
| Agents.CollectedCrashLater | scripts/generate-agents.py:468 | an unreadable profile makes the run raise |
| Agents.CollectedAsWritten | scripts/generate-agents.py:459-462 | when the code as written finishes, it gives what the corrected code gives |
| Agents.StringEntryStops | scripts/generate-agents.py:460 | an entry that is not a mapping makes the code as written raise, while the corrected code passes it over |
| Agents.Lookup | scripts/generate-agents.py:475-480 | the lookup finds an existing agent exactly when one has that name |
| Agents.Partition | scripts/generate-agents.py:472-492 | every spec goes to exactly one of the rendered and the skipped lists |
| Agents.PartitionSound | scripts/generate-agents.py:472-492 | a spec is rendered exactly when its mode does not skip it, and skipped exactly when it does |
| Agents.PartitionDisjoint | scripts/generate-agents.py:472-492 | no name is both generated and skipped |
| Agents.ForceRendersAll | scripts/generate-agents.py:485 | force renders every spec |
| Agents.Skips | scripts/generate-agents.py:475-485 | skip-existing skips exactly the existing agents; regenerate-stale skips exactly the existing current ones; force never skips |
| Agents.Current | scripts/generate-agents.py:480-481 | an agent is current exactly when its frontmatter holds an integer `flux_gen_version` no smaller than the generator's version |
| Agents.PartitionStep | scripts/generate-agents.py:472-483 | the mode loop extends the partition one spec at a time |
| Agents.PartitionPrefix | scripts/generate-agents.py:472-492 | specs rendered early stay first among all rendered ones |
| Agents.PlanAsWritten | scripts/generate-agents.py:414-485 | the code as written either raises or decides what the corrected code decides, so the corrections only turn raising runs into finished ones |
| Agents.PlanOf | scripts/generate-agents.py:414-485 | a run reports `no_domains`, listing nothing, exactly when the cache gives no usable domains or no named entry; a missing cache stops with an empty report |
| Agents.StringEntryRun | scripts/generate-agents.py:442-460 | a cache with a string entry beside a named mapping entry runs on, but the code as written raises |
| Agents.AgentFileNotTemp | scripts/generate-agents.py:490 | an agent file is never the temp file |
| Agents.AtomicWrite | scripts/generate-agents.py:364-387 | all or nothing: on success the target holds the content; on failure only the temp file may differ, and no descriptor stays open |
| Agents.AtomicWriteAsWritten | scripts/generate-agents.py:364-387 | as written, a short write still succeeds and leaves a truncated agent file; a failure leaves only the temp file changed |
| Agents.ShortWriteTruncates | scripts/generate-agents.py:372 | a write that accepts fewer characters than the content leaves a strict prefix of it |
| Agents.SyncAndRename | scripts/generate-agents.py:373-387 | sync, close and rename succeed together, or the temp file is closed if it was not, and removed |
| Agents.WrittenFilesHold | scripts/generate-agents.py:488-491 | after the writes, each rendered agent's file holds its rendering |
| Agents.WrittenFilesKeep | scripts/generate-agents.py:488-491 | the writes leave every other file as it was |
| Agents.WrittenAsOverwrite | scripts/generate-agents.py:488-491 | the writes overwrite the agent files with their renderings, in order |
| Agents.TempUntouched | scripts/generate-agents.py:488-491 | the writes neither create nor remove the temp file |
| Agents.FirstFault | scripts/generate-agents.py:491 | the first write to fail is found, or none fails |
| Agents.FailedWrite | scripts/generate-agents.py:491 | a failing run stops at a write within the plan |
| Agents.FailedRun | scripts/generate-agents.py:487-492 | when a write fails, it is the run's failing write, and the files rendered before it are the ones written |
| Agents.GenerateOne | scripts/generate-agents.py:473-492 | one spec is rendered exactly when its mode does not skip it, and written unless this is a dry run |
| Agents.GenerateStep | scripts/generate-agents.py:472-492 | one turn of the loop keeps the run's progress, or ends it at the failing write |
| Agents.GenerateAgents | scripts/generate-agents.py:471-492 | the loop succeeds exactly when it is a dry run or every write succeeds; it then reports the rendered names as generated and the rest as skipped, and it writes each rendered agent |
| Generation.OutcomeOf | scripts/generate-agents.py:394-494 | a stopped run returns its report, and a raising run raises |
| Generation.PlanRun | scripts/generate-agents.py:414-469 | the reading steps compute the plan, with the partition of the collected specs |
| Generation.Generate | scripts/generate-agents.py:394-494 | `generate` returns the planned outcome and leaves the files the plan's writes leave |
| Generation.CommandLine | scripts/generate-agents.py:501-562 | `main` exits with the code of the outcome, and writes nothing for a project that is not a directory |
| Generation.ExitCodes | scripts/generate-agents.py:525-562 | exit 1 exactly for `no_domains`, 0 exactly when the plan is carried out, else 2 |
| Generation.DryRunWritesNothing | scripts/generate-agents.py:489 | a dry run writes nothing and never fails for a write |
| Generation.ReportDisjoint | scripts/generate-agents.py:472-492 | in a finished run no name is both generated and skipped |

## Left out

- Printing, JSON and YAML output formatting, and argparse are left out. The reply of `Cache.Run` is the value that would be printed; error messages are not modelled.
- Parsing itself (`yaml.safe_load`, `json.loads`, `tomllib.loads`) and `yaml.dump` are parameters. Properties that need a loader to invert the dumper require it.
- The regular expressions (`re.search`, `re.split`, `re.findall`, `re.sub`) are hand-modelled for the specific patterns used. A general regex engine is not modelled.
- `fnmatch` character classes (`[...]`) are treated as literal characters.
- Case mapping (`lower`, `upper`, `title`) is ASCII-only. `str.isspace()` and `splitlines()` cover the ASCII control characters they use.
- Text is `seq<char>`. UTF-8 encoding, decoding, and `errors="ignore"` are not modelled, so a short write counts characters, not bytes.
- Confidences are real numbers. IEEE-754 rounding of the weighted sum is not modelled.
- Scoring.Round2: rounds halves upward on reals, whereas Python's `round` rounds the nearest binary float half to even. The model can differ at exact ties.
- Clocks (`datetime.now`) are string parameters. `mkstemp`'s name choice is the `temp` parameter.
- The file system is a snapshot for reading and a flat map for writing. These are not modelled: absolute paths and symbolic links; `resolve()`; the cache's directory being distinct from the project's; and concurrent writers.
- The long fixed prose of `render_agent` and the `DOMAIN_DOC_TYPES` table are fields of `Render.Template`. Every rendering member takes the template as a parameter, and the model proves where its text goes, not its wording. `Render.SourceTemplate` records the source's wording for reference only; no member uses it.
- Names read from YAML are modelled as values whose equality is structural. Python's numeric cross-type equality (`1 == 1.0 == True`) in name sets is not modelled.
- Detection.DomainSpecOf: rejects three kinds of signal value that the catalog loader accepts. These are a mapping, whose key order is not kept; a list holding a non-string; and a true scalar such as a number. In the source a mapping is never an error: every gatherer counts and iterates its keys, so it scores as the list of its keys would (scripts/detect-domains.py:142, 171, 285, 331). The other two raise only when a gatherer that runs reaches them. The framework gatherer always does. The directory and file gatherers do only once listing the project succeeds (:136-139, :157-169), and the file gatherer calls `fnmatch` on a list item only when the project has files (:171). The keyword gatherer does only when the shortcut does not apply (:359) and the sampled files hold text (:327). So a catalog holding these values can still run to a verdict in the source.
- Agents.EntryOutcome: treats a truthy domain name that is not a string as naming no profile, and reports it missing. The source looks up the file `str(name).md` (scripts/generate-agents.py:462), so `name: 42` finds `42.md` when it exists; rendering a spec of that profile then raises at :73, because the domain is not a string, and the run exits with 2. The model's spec domains are strings, so this path is not modelled.
- Generation.Generate, Generation.CommandLine: the parameter `listing` stands for the sorted glob of `fd-*.md` in the agents directory (scripts/generate-agents.py:328). The contracts do not tie it to the directory's files; they hold for every listing.
- Detection.LoadIndex: fails where `Detection.DomainSpecOf` rejects an entry, so a catalog holding one of the signal values above gives exit code 2 in the model.
- Text.DecimalNumber: reads only plain decimal numerals, with surrounding whitespace and an optional sign. Python's `float` also reads exponents, `_` between digits, `inf`, `nan` and non-ASCII digits, which the model rejects.
- Profiles.NameEnd: treats the `re` class `\w` as ASCII letters, digits and `_`. Python's `\w` also matches every Unicode letter and digit, so a heading such as `### fd-é` yields a longer name in the source.
- Profiles.HeadingAt: inherits the ASCII `\w` of `Profiles.NameEnd`, so it does not recognise a heading whose name holds a non-ASCII letter.
- Fs.Directory.CreateTempFile: fails when the chosen temp name already exists. `mkstemp` would retry with another name.
- Agents.Current: treats `true` as the integer 1, as Python does. The model does not cover a `flux_gen_version` that is a huge integer or that is written in another numeric form.
- The module-level `try/except` that turns any uncaught exception into exit code 2 is modelled as the `Crash` outcome. The exception's message is not modelled.
- `scripts/content-hash.py` and `hooks/python-hook-example.py` only call other code and are not part of this model.

## Findings

| source | as written | input that shows it | evidently intended | confidence | as-written member | corrected member |
|---|---|---|---|---|---|---|
| scripts/generate-agents.py:330 | `frontmatter.get(...)` is called on whatever `yaml.safe_load` returned once it is truthy | an `fd-x.md` file reading `---\nhello\n---\n`: the frontmatter is the string `hello`, which has no `get`, so `check_existing_agents` raises and `generate` fails | skip files whose frontmatter is not a mapping, as the docstring of `_parse_frontmatter` ("the parsed dict, or None") implies | medium, not executed | Agents.ScalarFrontmatterStops | Agents.ExistingKeepsListed |
| scripts/generate-agents.py:460 | `domain_entry.get("name", "")` is called on every cached entry, while line 442 skips entries that are not mappings | a cache `domains: [{name: web-api}, cli-tool]`: line 442 finds `web-api`, then line 460 raises on the string `cli-tool` | pass over entries that are not mappings, as line 442 does | medium, not executed | Agents.StringEntryRun | Agents.CollectedKeepsSpecs |
| scripts/generate-agents.py:372 | the count returned by `os.write` is ignored | a write that accepts fewer bytes than the content (for example, interrupted by a signal): the truncated temp file is synced and renamed over the agent file | write until all the content is accepted | low, not executed | Agents.AtomicWriteAsWritten | Agents.AtomicWrite |
| scripts/detect-domains.py:111 | the count returned by `os.write` is ignored | the same short write while writing the cache: a truncated YAML file replaces the cache | write until all the content is accepted | low, not executed | Cache.WriteCacheAsWritten | Cache.WriteCache |
