/** Shell-style file name patterns as `fnmatch.fnmatch` applies them on POSIX (case-sensitive).

    `*` matches any run of characters, `?` any single character, every other character itself.
    Bracketed character classes are not interpreted: `[` is an ordinary character here. */
module Glob {

  predicate Matches(name: string, pattern: string)
    decreases |name| + |pattern|
  {
    if pattern == [] then name == []
    else if pattern[0] == '*' then
      Matches(name, pattern[1..]) || (name != [] && Matches(name[1..], pattern))
    else
      name != [] && (pattern[0] == '?' || pattern[0] == name[0]) && Matches(name[1..], pattern[1..])
  }

  /** A pattern with no wildcard. */
  predicate IsLiteral(pattern: string) {
    forall i :: 0 <= i < |pattern| ==> pattern[i] != '*' && pattern[i] != '?'
  }

  /** A literal pattern such as `game.toml` matches exactly the name it spells. */
  lemma {:induction false} LiteralMatchesOnlyItself(name: string, pattern: string)
    requires IsLiteral(pattern)
    ensures Matches(name, pattern) <==> name == pattern
    decreases |pattern|
  {
    if pattern != [] && name != [] {
      LiteralMatchesOnlyItself(name[1..], pattern[1..]);
      if name[1..] == pattern[1..] && name[0] == pattern[0] {
        assert name == [name[0]] + name[1..];
        assert pattern == [pattern[0]] + pattern[1..];
      }
    }
  }

  /** `*` matches every name. */
  lemma {:induction false} StarMatchesAll(name: string)
    ensures Matches(name, "*")
    decreases |name|
  {
    if name != [] {
      StarMatchesAll(name[1..]);
    }
  }

  /** `*` followed by a literal tail, as in `*.gd`, matches exactly the names ending in that tail. */
  lemma {:induction false} StarThenLiteral(name: string, tail: string)
    requires IsLiteral(tail)
    ensures Matches(name, "*" + tail) <==> |tail| <= |name| && name[|name| - |tail|..] == tail
    decreases |name|
  {
    var pattern := "*" + tail;
    assert pattern[1..] == tail;
    LiteralMatchesOnlyItself(name, tail);
    if name != [] {
      StarThenLiteral(name[1..], tail);
      if |tail| <= |name| - 1 {
        assert name[1..][|name[1..]| - |tail|..] == name[|name| - |tail|..];
      }
    }
    if |tail| <= |name| && tail <= name[|name| - |tail|..] {
      assert name[|name| - |tail|..] == tail;
    }
  }
}
