/** An abstract, read-only snapshot of a project tree.

    A directory lists its entries in the order `sorted(path.iterdir())` yields them (ascending by
    name); a listing or a file content of None stands for the OSError that reading it raises. */
module Snapshot {
  import opened Values
  import opened Text

  datatype Node = File(content: Option<string>) | Dir(listing: Option<seq<Entry>>)
  datatype Entry = Entry(name: string, node: Node)

  /** What `iterdir()` yields, or None when it raises (the node is a file, or unreadable). */
  function Listing(n: Node): Option<seq<Entry>> {
    if n.Dir? then n.listing else None
  }

  /** `name.startswith(".")`. */
  predicate IsHidden(name: string) {
    name != [] && name[0] == '.'
  }

  /** The last index of `c` in `s`, or -1. */
  function LastIndexOf(s: string, c: char): (r: int)
    ensures -1 <= r < |s|
    ensures r >= 0 ==> s[r] == c
    ensures forall j :: r < j < |s| ==> s[j] != c
    decreases |s|
  {
    if s == [] then -1 else if s[|s| - 1] == c then |s| - 1 else LastIndexOf(s[..|s| - 1], c)
  }

  /** `Path(name).suffix`: from the last dot, unless that dot is the first or the last character. */
  function Suffix(name: string): string {
    var i := LastIndexOf(name, '.');
    if 0 < i < |name| - 1 then name[i..] else ""
  }

  /** The node of the first entry called `name`. */
  function Child(entries: seq<Entry>, name: string): (r: Option<Node>)
    ensures r.Some? <==> exists e :: e in entries && e.name == name
    ensures r.Some? ==> Entry(name, r.value) in entries
    decreases |entries|
  {
    if entries == [] then None
    else if entries[0].name == name then Some(entries[0].node)
    else Child(entries[1..], name)
  }

  /** No two entries of a listing share a name, as in any real directory. */
  predicate UniqueNames(entries: seq<Entry>) {
    forall i, j :: 0 <= i < j < |entries| ==> entries[i].name != entries[j].name
  }

  /** The components pathlib keeps when it joins a path to the root: empty and "." parts vanish. */
  function KeepNamed(parts: seq<string>): (r: seq<string>)
    ensures forall i :: 0 <= i < |r| ==> r[i] != "" && r[i] != "."
    decreases |parts|
  {
    if parts == [] then []
    else (if parts[0] == "" || parts[0] == "." then [] else [parts[0]]) + KeepNamed(parts[1..])
  }

  /** Following `parts` from `n` reaches a directory. */
  predicate IsDirPath(n: Node, parts: seq<string>)
    decreases |parts|
  {
    if parts == [] then n.Dir?
    else
      match Listing(n)
      case None => false
      case Some(entries) =>
        match Child(entries, parts[0])
        case None => false
        case Some(c) => IsDirPath(c, parts[1..])
  }

  /** `(root / p).is_dir()` for a relative `p`; an absolute `p` is outside the snapshot. */
  predicate IsDirAt(root: Node, p: string) {
    !(p != [] && p[0] == '/') && IsDirPath(root, KeepNamed(SplitOn(p, '/')))
  }

  /** The text of the root-level file `name`; None when it is missing, not a file, or unreadable. */
  function RootFileText(root: Node, name: string): Option<string> {
    match Listing(root)
    case None => None
    case Some(entries) =>
      match Child(entries, name)
      case Some(File(Some(text))) => Some(text)
      case _ => None
  }
}
