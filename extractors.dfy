/** Dependency names read from a project's build manifests: `package.json`, `Cargo.toml`,
    `go.mod`, `pyproject.toml` and `requirements.txt` at the project root.

    Every extractor yields the empty set when its manifest is missing, unreadable or unparseable,
    or when reading it raises anywhere on the way: the source catches every exception. */
module Extractors {
  import opened Values
  import opened Text
  import opened Snapshot
  import opened Collections

  // ---------------------------------------------------------------------------
  // Name normalisation
  // ---------------------------------------------------------------------------

  /** A character at which `re.split(r"[>=<!\[; ]", dep)` cuts a requirement string. */
  predicate IsSpecSeparator(c: char) {
    c == '>' || c == '=' || c == '<' || c == '!' || c == '[' || c == ';' || c == ' '
  }

  /** The distribution name of a requirement string such as `numpy>=1.2; python_version>"3"`:
      the text before the first separator, stripped and lower-cased. */
  function SpecName(dep: string): string {
    Lower(Strip(dep[..IndexWhere(dep, 0, IsSpecSeparator)]))
  }

  /** The name a go.mod module path stands for: its last `/` segment, lower-cased. */
  function GoModName(path: string): string {
    Lower(LastSegment(path, '/'))
  }

  /** The document a loader makes of a manifest's text; None when there is no text or it does
      not parse. */
  function Load(loader: string -> Option<Value>, text: Option<string>): Option<Value> {
    if text.None? then None else loader(text.value)
  }

  // ---------------------------------------------------------------------------
  // package.json and Cargo.toml: the keys of dependency tables
  // ---------------------------------------------------------------------------

  /** The keys of those `sections` of a manifest that are tables.  A manifest that is not a
      table has no `get`, so the extractor raises and yields nothing. */
  function SectionKeys(doc: Option<Value>, sections: seq<string>): set<string> {
    if doc.Some? && doc.value.VMap? then
      var m := doc.value.fields;
      set i, k | 0 <= i < |sections| && sections[i] in m && m[sections[i]].VMap? && k in m[sections[i]].fields :: k
    else {}
  }

  const PackageJsonSections: seq<string> := ["dependencies", "devDependencies"]
  const CargoSections: seq<string> := ["dependencies", "dev-dependencies", "build-dependencies"]

  function PackageJsonDeps(root: Node, p: Parsers): set<string> {
    SectionKeys(Load(p.json, RootFileText(root, "package.json")), PackageJsonSections)
  }

  function CargoDeps(root: Node, p: Parsers): set<string> {
    SectionKeys(Load(p.toml, RootFileText(root, "Cargo.toml")), CargoSections)
  }

  /** The `deps.update(section.keys())` loop shared by the package.json and Cargo extractors. */
  method CollectSectionKeys(doc: Option<Value>, sections: seq<string>) returns (deps: set<string>)
    ensures deps == SectionKeys(doc, sections)
  {
    deps := {};
    if !(doc.Some? && doc.value.VMap?) {
      return;
    }
    var m := doc.value.fields;
    for i := 0 to |sections|
      invariant deps == SectionKeys(doc, sections[..i])
    {
      var key := sections[i];
      if key in m && m[key].VMap? {
        deps := deps + m[key].fields.Keys;
      }
      assert sections[..i + 1][i] == key;
      assert forall j :: 0 <= j < i ==> sections[..i + 1][j] == sections[..i][j];
    }
    assert sections[..|sections|] == sections;
  }

  /** `_parse_package_json_deps`. */
  method ParsePackageJsonDeps(root: Node, p: Parsers) returns (deps: set<string>)
    ensures deps == PackageJsonDeps(root, p)
    ensures forall k :: k in deps ==> exists s :: s in PackageJsonSections && k in SectionOf(Load(p.json, RootFileText(root, "package.json")), s)
  {
    var doc := Load(p.json, RootFileText(root, "package.json"));
    deps := CollectSectionKeys(doc, PackageJsonSections);
    SectionKeysMembership(doc, PackageJsonSections);
  }

  /** `_parse_cargo_toml_deps`. */
  method ParseCargoTomlDeps(root: Node, p: Parsers) returns (deps: set<string>)
    ensures deps == CargoDeps(root, p)
    ensures forall k :: k in deps ==> exists s :: s in CargoSections && k in SectionOf(Load(p.toml, RootFileText(root, "Cargo.toml")), s)
  {
    var doc := Load(p.toml, RootFileText(root, "Cargo.toml"));
    deps := CollectSectionKeys(doc, CargoSections);
    SectionKeysMembership(doc, CargoSections);
  }

  /** The keys of the table `name` of a manifest (none when it is absent or not a table). */
  function SectionOf(doc: Option<Value>, name: string): set<string> {
    if doc.Some? && doc.value.VMap? && name in doc.value.fields && doc.value.fields[name].VMap? then
      doc.value.fields[name].fields.Keys
    else {}
  }

  /** A name is collected exactly when it is a key of one of the listed tables. */
  lemma SectionKeysMembership(doc: Option<Value>, sections: seq<string>)
    ensures forall k :: k in SectionKeys(doc, sections) <==> exists s :: s in sections && k in SectionOf(doc, s)
  {
    forall k | k in SectionKeys(doc, sections)
      ensures exists s :: s in sections && k in SectionOf(doc, s)
    {
      var m := doc.value.fields;
      var i :| 0 <= i < |sections| && sections[i] in m && m[sections[i]].VMap? && k in m[sections[i]].fields;
      assert sections[i] in sections && k in SectionOf(doc, sections[i]);
    }
    forall k | exists s :: s in sections && k in SectionOf(doc, s)
      ensures k in SectionKeys(doc, sections)
    {
      var s :| s in sections && k in SectionOf(doc, s);
      var i :| 0 <= i < |sections| && sections[i] == s;
    }
  }

  // ---------------------------------------------------------------------------
  // go.mod
  // ---------------------------------------------------------------------------

  /** The bodies of the `require ( ... )` blocks that `re.findall(r"require\s*\((.*?)\)", text,
      re.DOTALL)` finds from index `i` on: the keyword may stand anywhere, blank space (newlines
      included) may precede the parenthesis, and a body ends at the first `)`. */
  function RequireBlocks(text: string, i: nat): (r: seq<string>)
    requires i <= |text|
    ensures forall b :: b in r ==> forall c :: c in b ==> c != ')'
    decreases |text| - i
  {
    if i == |text| then []
    else if "require" <= text[i..] then
      var j := SkipSpace(text, i + 7);
      if j < |text| && text[j] == '(' then
        var k := Find(text, ")", j + 1);
        if k == -1 then RequireBlocks(text, i + 1)
        else
          assert forall t :: j + 1 <= t < k ==> !(")" <= text[t..]);
          assert forall t :: j + 1 <= t < k ==> text[t] != ')' by {
            forall t | j + 1 <= t < k ensures text[t] != ')' {
              assert !(")" <= text[t..]);
            }
          }
          [text[j + 1..k]] + RequireBlocks(text, k + 1)
      else RequireBlocks(text, i + 1)
    else RequireBlocks(text, i + 1)
  }

  /** The module paths that `re.findall(r"^require\s+(\S+)", text, re.MULTILINE)` finds from
      index `i` on: a line starting with `require`, then at least one blank (which may run over
      line ends), then a run of non-blank characters. */
  function RequireLines(text: string, i: nat): (r: seq<string>)
    requires i <= |text|
    ensures forall m :: m in r ==> m != [] && forall c :: c in m ==> !IsSpace(c)
    decreases |text| - i
  {
    if i == |text| then []
    else if (i == 0 || text[i - 1] == '\n') && "require" <= text[i..] then
      var w := SkipSpace(text, i + 7);
      if i + 7 < w < |text| then
        var e := IndexWhere(text, w, IsSpace);
        assert forall c :: c in text[w..e] ==> !IsSpace(c) by {
          forall c | c in text[w..e] ensures !IsSpace(c) {
            var t :| 0 <= t < e - w && text[w..e][t] == c;
            assert text[w + t] == c;
          }
        }
        [text[w..e]] + RequireLines(text, e)
      else RequireLines(text, i + 1)
    else RequireLines(text, i + 1)
  }

  /** The module path a line of a require block names: its first field, unless that is a
      `//` comment. */
  function BlockLineModule(line: string): Option<string> {
    var field := FirstField(Strip(line));
    if field.Some? && !("//" <= field.value) then field else None
  }

  /** The name a line of a require block contributes. */
  function BlockLineName(line: string): Option<string> {
    var path := BlockLineModule(line);
    if path.Some? then Some(GoModName(path.value)) else None
  }

  /** The lines of a require block, as `block.strip().splitlines()` yields them. */
  function BlockLines(block: string): seq<string> {
    SplitLines(Strip(block))
  }

  function BlockNames(block: string): set<string> {
    Collect(BlockLines(block), BlockLineName)
  }

  function SingleRequireName(path: string): Option<string> {
    Some(GoModName(path))
  }

  function GoModDepsOf(text: string): set<string> {
    Flatten(RequireBlocks(text, 0), BlockNames) + Collect(RequireLines(text, 0), SingleRequireName)
  }

  function GoModDeps(root: Node): set<string> {
    var text := RootFileText(root, "go.mod");
    if text.None? then {} else GoModDepsOf(text.value)
  }

  /** `_parse_go_mod_deps`. */
  method ParseGoModDeps(root: Node) returns (deps: set<string>)
    ensures deps == GoModDeps(root)
  {
    var file := RootFileText(root, "go.mod");
    if file.None? {
      return {};
    }
    var text := file.value;
    deps := {};
    var blocks := RequireBlocks(text, 0);
    for b := 0 to |blocks|
      invariant deps == Flatten(blocks[..b], BlockNames)
    {
      var lines := BlockLines(blocks[b]);
      ghost var before := deps;
      for i := 0 to |lines|
        invariant deps == before + Collect(lines[..i], BlockLineName)
      {
        var path := BlockLineModule(lines[i]);
        if path.Some? {
          deps := deps + {GoModName(path.value)};
        }
        CollectSnoc(lines, i, BlockLineName);
      }
      assert lines[..|lines|] == lines;
      FlattenSnoc(blocks, b, BlockNames);
    }
    assert blocks[..|blocks|] == blocks;
    ghost var fromBlocks := deps;
    var singles := RequireLines(text, 0);
    for s := 0 to |singles|
      invariant deps == fromBlocks + Collect(singles[..s], SingleRequireName)
    {
      deps := deps + {GoModName(singles[s])};
      CollectSnoc(singles, s, SingleRequireName);
    }
    assert singles[..|singles|] == singles;
  }

  // ---------------------------------------------------------------------------
  // pyproject.toml
  // ---------------------------------------------------------------------------

  /** The strings `for dep in v` yields; None when `v` is not iterable or yields a non-string,
      on which `re.split` raises.  A string yields its characters, a table its keys. */
  function IteratedStrings(v: Value): Option<set<string>> {
    match v
    case VList(xs) =>
      if forall i :: 0 <= i < |xs| ==> xs[i].VStr? then Some(set i | 0 <= i < |xs| :: xs[i].s) else None
    case VStr(s) => Some(set i | 0 <= i < |s| :: [s[i]])
    case VMap(m) => Some(m.Keys)
    case _ => None
  }

  /** The PEP 621 dependency list and the Poetry dependency table of a pyproject document;
      None when the document, `project`, `tool` or `tool.poetry` is not a table, so that
      one of the chained `get` calls raises. */
  function PyprojectParts(doc: Value): Option<(Value, Value)> {
    if !doc.VMap? then None
    else
      var project := Get(doc.fields, "project", EmptyMap);
      var tool := Get(doc.fields, "tool", EmptyMap);
      if !project.VMap? || !tool.VMap? then None
      else
        var poetry := Get(tool.fields, "poetry", EmptyMap);
        if !poetry.VMap? then None
        else Some((Get(project.fields, "dependencies", VList([])), Get(poetry.fields, "dependencies", EmptyMap)))
  }

  /** The name a PEP 621 requirement string contributes; none when that name is empty. */
  function RequirementNameOf(dep: string): Option<string> {
    if SpecName(dep) == "" then None else Some(SpecName(dep))
  }

  /** The names of a set of PEP 621 requirement strings. */
  function RequirementNames(deps: set<string>): set<string> {
    set d | d in deps && RequirementNameOf(d).Some? :: RequirementNameOf(d).value
  }

  /** The lower-cased keys of a Poetry dependency table, except `python`. */
  function PoetryNames(section: Value): (r: set<string>)
    ensures "python" !in r
    ensures forall n :: n in r ==> forall i :: 0 <= i < |n| ==> !IsUpper(n[i])
  {
    if section.VMap? then set k | k in section.fields && Lower(k) != "python" :: Lower(k) else {}
  }

  function PyprojectDepsOf(doc: Option<Value>): set<string> {
    if doc.None? then {}
    else
      match PyprojectParts(doc.value)
      case None => {}
      case Some((listed, section)) =>
        match IteratedStrings(listed)
        case None => {}
        case Some(items) => RequirementNames(items) + PoetryNames(section)
  }

  function PyprojectDeps(root: Node, p: Parsers): set<string> {
    PyprojectDepsOf(Load(p.toml, RootFileText(root, "pyproject.toml")))
  }

  /** The strings a loop over `v` visits, in some order. */
  method Elements(v: Value) returns (r: Option<seq<string>>)
    ensures r.None? <==> IteratedStrings(v).None?
    ensures r.Some? ==> forall x :: x in r.value <==> x in IteratedStrings(v).value
  {
    match v {
      case VList(xs) =>
        var out: seq<string> := [];
        for i := 0 to |xs|
          invariant forall j :: 0 <= j < i ==> xs[j].VStr?
          invariant |out| == i && forall j :: 0 <= j < i ==> out[j] == xs[j].s
        {
          if !xs[i].VStr? {
            return None;
          }
          out := out + [xs[i].s];
        }
        r := Some(out);
        forall x | x in IteratedStrings(v).value ensures x in out {
          var j :| 0 <= j < |xs| && xs[j].s == x;
          assert out[j] == x;
        }
      case VStr(s) =>
        var out := seq(|s|, i requires 0 <= i < |s| => [s[i]]);
        r := Some(out);
        forall x | x in IteratedStrings(v).value ensures x in out {
          var j :| 0 <= j < |s| && [s[j]] == x;
          assert out[j] == x;
        }
      case VMap(m) =>
        var out: seq<string> := [];
        var rest := m.Keys;
        while rest != {}
          invariant rest <= m.Keys
          invariant forall x :: x in out <==> x in m.Keys && x !in rest
          decreases |rest|
        {
          var k :| k in rest;
          out := out + [k];
          rest := rest - {k};
        }
        r := Some(out);
      case _ =>
        r := None;
    }
  }

  /** `_parse_pyproject_deps`. */
  method ParsePyprojectDeps(root: Node, p: Parsers) returns (deps: set<string>)
    ensures deps == PyprojectDeps(root, p)
  {
    var loaded := Load(p.toml, RootFileText(root, "pyproject.toml"));
    if loaded.None? {
      return {};
    }
    var parts := PyprojectParts(loaded.value);
    if parts.None? {
      return {};
    }
    var (listed, section) := parts.value;
    var items := Elements(listed);
    if items.None? {
      return {};
    }
    var listedNames := ListedRequirementNames(items.value);
    CollectBySet(items.value, IteratedStrings(listed).value, RequirementNameOf);
    var poetry := PoetryKeys(section);
    deps := listedNames + poetry;
  }

  /** The loop of `_parse_pyproject_deps` over the PEP 621 dependency strings. */
  method ListedRequirementNames(names: seq<string>) returns (deps: set<string>)
    ensures deps == Collect(names, RequirementNameOf)
  {
    deps := {};
    for i := 0 to |names|
      invariant deps == Collect(names[..i], RequirementNameOf)
    {
      var name := SpecName(names[i]);
      if name != "" {
        deps := deps + {name};
      }
      CollectSnoc(names, i, RequirementNameOf);
    }
    assert names[..|names|] == names;
  }

  /** The loop of `_parse_pyproject_deps` over the keys of the Poetry dependency table. */
  method PoetryKeys(section: Value) returns (deps: set<string>)
    ensures deps == PoetryNames(section)
  {
    deps := {};
    if section.VMap? {
      var rest := section.fields.Keys;
      while rest != {}
        invariant rest <= section.fields.Keys
        invariant deps == set k | k in section.fields.Keys - rest && Lower(k) != "python" :: Lower(k)
        decreases |rest|
      {
        var k :| k in rest;
        if Lower(k) != "python" {
          deps := deps + {Lower(k)};
        }
        rest := rest - {k};
      }
    }
  }

  // ---------------------------------------------------------------------------
  // requirements.txt
  // ---------------------------------------------------------------------------

  /** The name a requirements line contributes: none for a blank line, a `#` comment or a `-`
      option line, nor when its name is empty. */
  function RequirementLineName(line: string): Option<string> {
    var s := Strip(line);
    if s == [] || s[0] == '#' || s[0] == '-' then None
    else RequirementNameOf(s)
  }

  function RequirementsDepsOf(text: string): set<string> {
    Collect(SplitLines(text), RequirementLineName)
  }

  function RequirementsDeps(root: Node): set<string> {
    var text := RootFileText(root, "requirements.txt");
    if text.None? then {} else RequirementsDepsOf(text.value)
  }

  /** `_parse_requirements_txt`. */
  method ParseRequirementsTxt(root: Node) returns (deps: set<string>)
    ensures deps == RequirementsDeps(root)
  {
    var file := RootFileText(root, "requirements.txt");
    if file.None? {
      return {};
    }
    var lines := SplitLines(file.value);
    deps := {};
    for i := 0 to |lines|
      invariant deps == Collect(lines[..i], RequirementLineName)
    {
      var line := Strip(lines[i]);
      if line != "" && line[0] != '#' && line[0] != '-' {
        var name := SpecName(line);
        if name != "" {
          deps := deps + {name};
        }
      }
      CollectSnoc(lines, i, RequirementLineName);
    }
    assert lines[..|lines|] == lines;
  }

  // ---------------------------------------------------------------------------
  // Properties of the extracted names
  // ---------------------------------------------------------------------------

  /** A requirement name is lower-case, holds no separator and neither begins nor ends with
      blank space. */
  lemma SpecNameShape(dep: string)
    ensures var n := SpecName(dep);
      (forall i :: 0 <= i < |n| ==> !IsSpecSeparator(n[i]) && !IsUpper(n[i]))
      && (n != [] ==> !IsSpace(n[0]) && !IsSpace(n[|n| - 1]))
  {
    var head := dep[..IndexWhere(dep, 0, IsSpecSeparator)];
    StrippedShape(head);
    LowerShape(Strip(head));
  }

  /** The stripped text before the first separator holds no separator and has no blank space
      at either end. */
  lemma StrippedShape(head: string)
    requires forall i :: 0 <= i < |head| ==> !IsSpecSeparator(head[i])
    ensures var s := Strip(head);
      (forall i :: 0 <= i < |s| ==> !IsSpecSeparator(s[i]))
      && (s != [] ==> !IsSpace(s[0]) && !IsSpace(s[|s| - 1]))
  {
    StripShape(head);
    StripSlice(head);
    var s := Strip(head);
    var a: nat, b: nat :| a <= b <= |head| && s == head[a..b];
    assert forall i :: 0 <= i < |s| ==> s[i] == head[a + i];
  }

  /** Lower-casing keeps a text free of separators and of blank space at its ends. */
  lemma LowerShape(s: string)
    requires forall i :: 0 <= i < |s| ==> !IsSpecSeparator(s[i])
    requires s != [] ==> !IsSpace(s[0]) && !IsSpace(s[|s| - 1])
    ensures var n := Lower(s);
      (forall i :: 0 <= i < |n| ==> !IsSpecSeparator(n[i]))
      && (n != [] ==> !IsSpace(n[0]) && !IsSpace(n[|n| - 1]))
  {
    var n := Lower(s);
    forall i | 0 <= i < |n| ensures !IsSpecSeparator(n[i]) && (IsSpace(n[i]) <==> IsSpace(s[i])) {
      LowerCharKeeps(s[i]);
    }
  }

  /** Lower-casing keeps separators and blank space as they are. */
  lemma LowerCharKeeps(c: char)
    ensures IsSpecSeparator(LowerChar(c)) <==> IsSpecSeparator(c)
    ensures IsSpace(LowerChar(c)) <==> IsSpace(c)
  {
  }

  /** Whatever follows the first separator does not change the name: `numpy>=1.2` and
      `numpy[extra]; os_name=="nt"` both name `numpy`. */
  lemma SpecNameIgnoresConstraint(name: string, c: char, rest: string)
    requires forall i :: 0 <= i < |name| ==> !IsSpecSeparator(name[i])
    requires IsSpecSeparator(c)
    ensures SpecName(name + [c] + rest) == Lower(Strip(name))
  {
    var dep := name + [c] + rest;
    assert dep[|name|] == c;
    assert forall i :: 0 <= i < |name| ==> dep[i] == name[i];
    assert IndexWhere(dep, 0, IsSpecSeparator) == |name|;
    assert dep[..|name|] == name;
  }

  /** A go.mod name is lower-case and holds no `/`. */
  lemma GoModNameShape(path: string)
    ensures var n := GoModName(path);
      forall i :: 0 <= i < |n| ==> n[i] != '/' && !IsUpper(n[i])
  {
    var parts := SplitOn(path, '/');
    var last := parts[|parts| - 1];
    assert forall j :: 0 <= j < |last| ==> last[j] != '/';
  }

  /** Blank lines, comments and option lines of requirements.txt contribute nothing. */
  lemma SkippedRequirementLines(line: string)
    requires var s := Strip(line); s == [] || s[0] == '#' || s[0] == '-'
    ensures RequirementLineName(line).None?
  {
  }

}
