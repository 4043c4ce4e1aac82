/** Counting and collecting over sequences: the accumulations the gatherers and extractors
    perform with counters and sets. */
module Collections {
  import opened Values

  /** How many elements of `xs` satisfy `p`. */
  function Count<T>(xs: seq<T>, p: T -> bool): (n: nat)
    ensures n <= |xs|
    decreases |xs|
  {
    if xs == [] then 0 else Count(xs[..|xs| - 1], p) + (if p(xs[|xs| - 1]) then 1 else 0)
  }

  /** Counting one more element. */
  lemma CountSnoc<T>(xs: seq<T>, i: nat, p: T -> bool)
    requires i < |xs|
    ensures Count(xs[..i + 1], p) == Count(xs[..i], p) + (if p(xs[i]) then 1 else 0)
  {
    assert xs[..i + 1][..i] == xs[..i];
  }

  /** Every element satisfies `p` exactly when all of them are counted. */
  lemma {:induction false} CountAll<T>(xs: seq<T>, p: T -> bool)
    ensures Count(xs, p) == |xs| <==> forall i :: 0 <= i < |xs| ==> p(xs[i])
    decreases |xs|
  {
    if xs != [] {
      var init := xs[..|xs| - 1];
      CountAll(init, p);
      assert forall i :: 0 <= i < |init| ==> init[i] == xs[i];
    }
  }

  /** No element satisfies `p` exactly when none is counted. */
  lemma {:induction false} CountNone<T>(xs: seq<T>, p: T -> bool)
    ensures Count(xs, p) == 0 <==> forall i :: 0 <= i < |xs| ==> !p(xs[i])
    decreases |xs|
  {
    if xs != [] {
      var init := xs[..|xs| - 1];
      CountNone(init, p);
      assert forall i :: 0 <= i < |init| ==> init[i] == xs[i];
    }
  }

  /** Two predicates that agree on every element count the same. */
  lemma {:induction false} CountCongruent<T>(xs: seq<T>, p: T -> bool, q: T -> bool)
    requires forall i :: 0 <= i < |xs| ==> (p(xs[i]) <==> q(xs[i]))
    ensures Count(xs, p) == Count(xs, q)
    decreases |xs|
  {
    if xs != [] {
      var init := xs[..|xs| - 1];
      assert forall i :: 0 <= i < |init| ==> init[i] == xs[i];
      CountCongruent(init, p, q);
    }
  }

  /** The set of values `g` gives the elements of `xs`, where it gives any: what a loop
      adding `g(x)` to a set for each `x` of `xs` ends with. */
  function Collect<T(==), U>(xs: seq<T>, g: T -> Option<U>): set<U> {
    set x | x in xs && g(x).Some? :: g(x).value
  }

  /** Collecting over one more element. */
  lemma CollectSnoc<T, U>(xs: seq<T>, i: nat, g: T -> Option<U>)
    requires i < |xs|
    ensures Collect(xs[..i + 1], g) == Collect(xs[..i], g) + (if g(xs[i]).Some? then {g(xs[i]).value} else {})
  {
    assert xs[..i + 1] == xs[..i] + [xs[i]];
  }

  /** Collecting depends only on which elements occur, not on their order or repetition. */
  lemma CollectBySet<T, U>(xs: seq<T>, items: set<T>, g: T -> Option<U>)
    requires forall x :: x in items <==> x in xs
    ensures Collect(xs, g) == set x | x in items && g(x).Some? :: g(x).value
  {
  }

  /** The union of the sets `f` gives the elements of `xs`. */
  function Flatten<T(==), U>(xs: seq<T>, f: T -> set<U>): set<U> {
    set x, y | x in xs && y in f(x) :: y
  }

  lemma FlattenSnoc<T, U>(xs: seq<T>, i: nat, f: T -> set<U>)
    requires i < |xs|
    ensures Flatten(xs[..i + 1], f) == Flatten(xs[..i], f) + f(xs[i])
  {
    assert xs[..i + 1] == xs[..i] + [xs[i]];
  }

  /** The entries `entry` gives the elements of `xs` that `keep` admits, in the order of `xs`. */
  function Kept<A, B>(xs: seq<A>, keep: A -> bool, entry: A -> B): seq<B>
    decreases |xs|
  {
    if xs == [] then []
    else Kept(xs[..|xs| - 1], keep, entry) + (if keep(xs[|xs| - 1]) then [entry(xs[|xs| - 1])] else [])
  }

  /** Keeping one more element. */
  lemma KeptSnoc<A, B>(xs: seq<A>, i: nat, keep: A -> bool, entry: A -> B)
    requires i < |xs|
    ensures Kept(xs[..i + 1], keep, entry) == Kept(xs[..i], keep, entry) + (if keep(xs[i]) then [entry(xs[i])] else [])
  {
    assert xs[..i + 1][..i] == xs[..i];
  }

  /** Every kept entry is the entry of an admitted element. */
  lemma {:induction false} KeptSound<A, B>(xs: seq<A>, keep: A -> bool, entry: A -> B, y: B)
    requires y in Kept(xs, keep, entry)
    ensures exists k :: 0 <= k < |xs| && keep(xs[k]) && y == entry(xs[k])
    decreases |xs|
  {
    var n := |xs| - 1;
    if y in Kept(xs[..n], keep, entry) {
      KeptSound(xs[..n], keep, entry, y);
      var k :| 0 <= k < n && keep(xs[..n][k]) && y == entry(xs[..n][k]);
      assert xs[..n][k] == xs[k];
    } else {
      assert keep(xs[n]) && y == entry(xs[n]);
    }
  }

  /** Every admitted element has its entry kept. */
  lemma {:induction false} KeptComplete<A, B>(xs: seq<A>, keep: A -> bool, entry: A -> B, k: nat)
    requires k < |xs| && keep(xs[k])
    ensures entry(xs[k]) in Kept(xs, keep, entry)
    decreases |xs|
  {
    var n := |xs| - 1;
    if k < n {
      assert xs[..n][k] == xs[k];
      KeptComplete(xs[..n], keep, entry, k);
    }
  }

  /** Two filters that admit the same elements, with entries that agree under `g`, keep
      entries that agree under `g`, position by position. */
  lemma {:induction false} KeptAlike<A, B, C>(xs: seq<A>, keep1: A -> bool, entry1: A -> B,
                                              keep2: A -> bool, entry2: A -> B, g: B -> C)
    requires forall k :: 0 <= k < |xs| ==> keep1(xs[k]) == keep2(xs[k])
    requires forall k :: 0 <= k < |xs| ==> g(entry1(xs[k])) == g(entry2(xs[k]))
    ensures |Kept(xs, keep1, entry1)| == |Kept(xs, keep2, entry2)|
    ensures forall i :: 0 <= i < |Kept(xs, keep1, entry1)| ==> g(Kept(xs, keep1, entry1)[i]) == g(Kept(xs, keep2, entry2)[i])
    decreases |xs|
  {
    if xs != [] {
      var n := |xs| - 1;
      forall k | 0 <= k < n ensures keep1(xs[..n][k]) == keep2(xs[..n][k]) && g(entry1(xs[..n][k])) == g(entry2(xs[..n][k])) {
        assert xs[..n][k] == xs[k];
      }
      KeptAlike(xs[..n], keep1, entry1, keep2, entry2, g);
    }
  }
}
