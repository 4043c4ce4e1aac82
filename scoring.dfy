/** The weighted score of a domain and the arithmetic its signal gatherers share.

    Confidences are exact reals, so the weights add up exactly and `0.3 * 1.0 + 0.0 == 0.3`. */
module Scoring {
  import opened Collections

  /** Weight of each signal category; together they sum to one. */
  const DirWeight: real := 0.3
  const FileWeight: real := 0.2
  const FrameworkWeight: real := 0.3
  const KeywordWeight: real := 0.2

  predicate InUnit(x: real) { 0.0 <= x <= 1.0 }

  /** `score_domain`: the weighted average of the four category scores. */
  function Score(d: real, f: real, fw: real, kw: real): (r: real)
    ensures InUnit(d) && InUnit(f) && InUnit(fw) && InUnit(kw) ==> InUnit(r)
    ensures d == f && f == fw && fw == kw ==> r == d
    ensures r == Preliminary(d, f, fw) + kw * KeywordWeight
  {
    d * DirWeight + f * FileWeight + fw * FrameworkWeight + kw * KeywordWeight
  }

  /** The score without the keyword category, which `detect` computes before deciding whether
      to scan source files at all. */
  function Preliminary(d: real, f: real, fw: real): (r: real)
    ensures InUnit(d) && InUnit(f) && InUnit(fw) ==> 0.0 <= r <= 0.8
  {
    d * DirWeight + f * FileWeight + fw * FrameworkWeight
  }

  /** Each category alone, fully matched, contributes exactly its weight. */
  lemma ScoreOfSingleCategories()
    ensures Score(1.0, 0.0, 0.0, 0.0) == 0.3 && Score(0.0, 1.0, 0.0, 0.0) == 0.2
    ensures Score(0.0, 0.0, 1.0, 0.0) == 0.3 && Score(0.0, 0.0, 0.0, 1.0) == 0.2
    ensures Score(0.5, 0.5, 0.5, 0.5) == 0.5
  {
  }

  /** A better score in any category never lowers the total. */
  lemma ScoreMonotone(d: real, f: real, fw: real, kw: real, d': real, f': real, fw': real, kw': real)
    requires d <= d' && f <= f' && fw <= fw' && kw <= kw'
    ensures Score(d, f, fw, kw) <= Score(d', f', fw', kw')
  {
  }

  /** `matches / len(signals)`, or 0.0 for no signals. */
  function Fraction(matches: nat, total: nat): (r: real)
    requires matches <= total
    ensures InUnit(r)
    ensures r == 0.0 <==> matches == 0
    ensures r == 1.0 <==> total > 0 && matches == total
  {
    if total == 0 then 0.0 else matches as real / total as real
  }

  /** Rounding to two decimals, halves upward: the value stored as a domain's confidence. */
  function Round2(x: real): (r: real)
    ensures x - 0.005 < r <= x + 0.005
  {
    (x * 100.0 + 0.5).Floor as real / 100.0
  }

  /** Rounding never reverses the order of two confidences. */
  lemma Round2Monotone(x: real, y: real)
    requires x <= y
    ensures Round2(x) <= Round2(y)
  {
    assert (x * 100.0 + 0.5).Floor <= (y * 100.0 + 0.5).Floor;
  }

  /** A confidence in [0, 1] stays in [0, 1] once rounded. */
  lemma Round2InUnit(x: real)
    requires InUnit(x)
    ensures InUnit(Round2(x))
  {
    assert 0 <= (x * 100.0 + 0.5).Floor <= 100;
  }

  /** A value already on the two-decimal grid is left as it is. */
  lemma Round2OfGrid(k: int)
    ensures Round2(k as real / 100.0) == k as real / 100.0
  {
    var y := k as real / 100.0;
    assert y * 100.0 == k as real;
    assert (k as real + 0.5).Floor == k;
  }
}
