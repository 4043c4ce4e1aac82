/** String operations of Python's `str` that the two scripts rely on, over `seq<char>`.

    Whitespace and line boundaries follow `str.isspace` and `str.splitlines` exactly; case
    mapping is ASCII only (Python maps the whole Unicode range). */
module Text {
  import opened Values

  /** `str.isspace()` for one character, which is also what the `re` class `\s` matches. */
  predicate IsSpace(c: char) {
    c == ' ' || ('\t' <= c <= '\r') || ('\U{1C}' <= c <= '\U{1F}') || c == '\U{85}' || c == '\U{A0}'
    || c == '\U{1680}' || ('\U{2000}' <= c <= '\U{200A}') || c == '\U{2028}' || c == '\U{2029}'
    || c == '\U{202F}' || c == '\U{205F}' || c == '\U{3000}'
  }

  /** The characters at which `str.splitlines()` breaks a line. */
  predicate IsLineBreak(c: char) {
    ('\n' <= c <= '\r') || ('\U{1C}' <= c <= '\U{1E}') || c == '\U{85}' || c == '\U{2028}' || c == '\U{2029}'
  }

  predicate IsUpper(c: char) { 'A' <= c <= 'Z' }
  predicate IsLower(c: char) { 'a' <= c <= 'z' }
  predicate IsLetter(c: char) { IsUpper(c) || IsLower(c) }
  predicate IsDigit(c: char) { '0' <= c <= '9' }

  /** The `re` class `\w` (letters, digits and underscore). */
  predicate IsWordChar(c: char) { IsLetter(c) || IsDigit(c) || c == '_' }

  function LowerChar(c: char): char {
    if IsUpper(c) then (c as int + 32) as char else c
  }

  function UpperChar(c: char): char {
    if IsLower(c) then (c as int - 32) as char else c
  }

  /** `s.lower()`. */
  function Lower(s: string): (r: string)
    ensures |r| == |s|
    ensures forall i :: 0 <= i < |r| ==> !IsUpper(r[i])
  {
    seq(|s|, i requires 0 <= i < |s| => LowerChar(s[i]))
  }

  /** `s.replace(a, b)` for single characters. */
  function ReplaceChar(s: string, a: char, b: char): (r: string)
    ensures |r| == |s|
  {
    seq(|s|, i requires 0 <= i < |s| => if s[i] == a then b else s[i])
  }

  /** `s.lstrip()`. */
  function TrimStart(s: string): string
  {
    if s != [] && IsSpace(s[0]) then TrimStart(s[1..]) else s
  }

  /** `s.rstrip()`. */
  function TrimEnd(s: string): string
  {
    if s != [] && IsSpace(s[|s| - 1]) then TrimEnd(s[..|s| - 1]) else s
  }

  /** `s.strip()`. */
  function Strip(s: string): string {
    TrimEnd(TrimStart(s))
  }

  /** `s.rstrip(c)` for one character `c`. */
  function TrimEndChar(s: string, c: char): string
  {
    if s != [] && s[|s| - 1] == c then TrimEndChar(s[..|s| - 1], c) else s
  }

  /** `needle in hay` for strings. */
  predicate Contains(hay: string, needle: string)
    decreases |hay|
  {
    needle <= hay || (hay != [] && Contains(hay[1..], needle))
  }

  /** `s.find(needle, start)`: the first index at or after `start` where `needle` occurs, or -1. */
  function Find(s: string, needle: string, start: nat): (r: int)
    ensures r == -1 || (start <= r <= |s| && needle <= s[r..])
    ensures r == -1 ==> forall j :: start <= j <= |s| ==> !(needle <= s[j..])
    ensures r != -1 ==> forall j :: start <= j < r ==> !(needle <= s[j..])
    decreases |s| - start
  {
    if start > |s| then -1
    else if needle <= s[start..] then start
    else Find(s, needle, start + 1)
  }

  /** The first index at or after `i` that is not whitespace (or `|s|`). */
  function SkipSpace(s: string, i: nat): (r: nat)
    requires i <= |s|
    ensures i <= r <= |s|
    ensures r < |s| ==> !IsSpace(s[r])
    ensures forall j :: i <= j < r ==> IsSpace(s[j])
    decreases |s| - i
  {
    if i < |s| && IsSpace(s[i]) then SkipSpace(s, i + 1) else i
  }

  /** The first index at or after `i` holding '\n' (or `|s|`): where `.+` stops in a regex. */
  function LineEnd(s: string, i: nat): (r: nat)
    requires i <= |s|
    ensures i <= r <= |s|
    ensures r < |s| ==> s[r] == '\n'
    ensures forall j :: i <= j < r ==> s[j] != '\n'
    decreases |s| - i
  {
    if i < |s| && s[i] != '\n' then LineEnd(s, i + 1) else i
  }

  /** The first index at or after `i` holding a character of `p` (or `|s|`). */
  function IndexWhere(s: string, i: nat, p: char -> bool): (r: nat)
    requires i <= |s|
    ensures i <= r <= |s|
    ensures r < |s| ==> p(s[r])
    ensures forall j :: i <= j < r ==> !p(s[j])
    decreases |s| - i
  {
    if i < |s| && !p(s[i]) then IndexWhere(s, i + 1, p) else i
  }

  /** `s.splitlines()`. */
  function SplitLines(s: string): seq<string>
    decreases |s|
  {
    if s == [] then []
    else
      var k := IndexWhere(s, 0, IsLineBreak);
      if k == |s| then [s]
      else
        var next := if s[k] == '\r' && k + 1 < |s| && s[k + 1] == '\n' then k + 2 else k + 1;
        [s[..k]] + SplitLines(s[next..])
  }

  /** `s.split(c)` for one character `c`. */
  function SplitOn(s: string, c: char): (r: seq<string>)
    ensures |r| >= 1
    ensures forall k, j :: 0 <= k < |r| && 0 <= j < |r[k]| ==> r[k][j] != c
    decreases |s|
  {
    var k := IndexWhere(s, 0, x => x == c);
    if k == |s| then [s] else [s[..k]] + SplitOn(s[k + 1..], c)
  }

  /** `s.split(c)[-1]`. */
  function LastSegment(s: string, c: char): string {
    var parts := SplitOn(s, c);
    parts[|parts| - 1]
  }

  /** `s.split()[0]` when `s.split()` is not empty: the first whitespace-separated field. */
  function FirstField(s: string): Option<string> {
    var i := SkipSpace(s, 0);
    if i == |s| then None else Some(s[i..IndexWhere(s, i, IsSpace)])
  }

  /** `s` without any of the characters '-' and '_'. */
  function RemoveSeparators(s: string): string
    decreases |s|
  {
    if s == [] then []
    else (if s[0] == '-' || s[0] == '_' then [] else [s[0]]) + RemoveSeparators(s[1..])
  }

  /** `str(n)` for a natural number. */
  function Decimal(n: nat): (r: string)
    ensures |r| >= 1
  {
    if n < 10 then [DigitChar(n)] else Decimal(n / 10) + [DigitChar(n % 10)]
  }

  function DigitChar(d: nat): char
    requires d < 10
  {
    ('0' as int + d) as char
  }

  /** `"%0*d" % (width, n)`: at least `width` digits, zero-padded on the left. */
  function Padded(n: nat, width: nat): (r: string)
    ensures |r| >= width
  {
    var digits := Decimal(n);
    if |digits| >= width then digits else seq(width - |digits|, _ => '0') + digits
  }

  predicate IsDot(c: char) { c == '.' }

  predicate AllDigits(s: string) {
    forall i :: 0 <= i < |s| ==> IsDigit(s[i])
  }

  /** The number a run of decimal digits spells (leading zeros allowed). */
  function DigitsValue(s: string): nat
    requires AllDigits(s)
  {
    if s == [] then 0 else DigitsValue(s[..|s| - 1]) * 10 + (s[|s| - 1] as int - '0' as int)
  }

  function Pow10(k: nat): (r: nat)
    ensures r >= 1
  {
    if k == 0 then 1 else 10 * Pow10(k - 1)
  }

  /** A numeral without sign: digits with at most one decimal point and at least one digit. */
  function UnsignedNumber(body: string): Option<real> {
    var dot := IndexWhere(body, 0, IsDot);
    var whole := body[..dot];
    var frac := if dot < |body| then body[dot + 1..] else [];
    if |whole| + |frac| > 0 && AllDigits(whole) && AllDigits(frac) then Some(Magnitude(whole, frac)) else None
  }

  /** The value of the numeral `whole.frac`. */
  function Magnitude(whole: string, frac: string): real
    requires AllDigits(whole) && AllDigits(frac)
  {
    DigitsValue(whole) as real + DigitsValue(frac) as real / Pow10(|frac|) as real
  }

  /** `float(s)` for a plain decimal numeral: surrounding whitespace, an optional sign, then
      digits with at most one decimal point and at least one digit.  None where it raises. */
  function DecimalNumber(s: string): (r: Option<real>)
    ensures r.Some? ==> Strip(s) != []
  {
    var t := Strip(s);
    if t != [] && (t[0] == '-' || t[0] == '+') then
      var magnitude := UnsignedNumber(t[1..]);
      if t[0] == '-' && magnitude.Some? then Some(-magnitude.value) else magnitude
    else UnsignedNumber(t)
  }

  // ---------------------------------------------------------------------------
  // Facts about the helpers
  // ---------------------------------------------------------------------------

  lemma LowerConcat(a: string, b: string)
    ensures Lower(a + b) == Lower(a) + Lower(b)
  {
  }

  lemma {:induction false} ContainsSuffix(hay: string, k: nat, needle: string)
    requires k <= |hay|
    requires Contains(hay[k..], needle)
    ensures Contains(hay, needle)
    decreases k
  {
    if k > 0 {
      assert hay[1..][k - 1..] == hay[k..];
      ContainsSuffix(hay[1..], k - 1, needle);
    }
  }

  lemma {:induction false} ContainsPrefix(a: string, b: string, needle: string)
    requires Contains(a, needle)
    ensures Contains(a + b, needle)
    decreases |a|
  {
    if needle <= a {
      assert needle <= a + b;
    } else {
      assert (a + b)[1..] == a[1..] + b;
      ContainsPrefix(a[1..], b, needle);
    }
  }

  /** A needle found in any piece is found in a concatenation containing that piece. */
  lemma ContainsInside(a: string, b: string, c: string, needle: string)
    requires Contains(b, needle)
    ensures Contains(a + b + c, needle)
  {
    ContainsPrefix(b, c, needle);
    assert (a + b + c)[|a|..] == b + c;
    ContainsSuffix(a + b + c, |a|, needle);
  }

  lemma {:induction false} TrimStartShape(s: string)
    ensures |TrimStart(s)| <= |s| && TrimStart(s) == s[|s| - |TrimStart(s)|..]
    ensures TrimStart(s) != [] ==> !IsSpace(TrimStart(s)[0])
    ensures forall i :: 0 <= i < |s| - |TrimStart(s)| ==> IsSpace(s[i])
    decreases |s|
  {
    if s != [] && IsSpace(s[0]) {
      TrimStartShape(s[1..]);
    }
  }

  lemma {:induction false} TrimEndShape(s: string)
    ensures |TrimEnd(s)| <= |s| && TrimEnd(s) == s[..|TrimEnd(s)|]
    ensures TrimEnd(s) != [] ==> !IsSpace(TrimEnd(s)[|TrimEnd(s)| - 1])
    ensures forall i :: |TrimEnd(s)| <= i < |s| ==> IsSpace(s[i])
    decreases |s|
  {
    if s != [] && IsSpace(s[|s| - 1]) {
      TrimEndShape(s[..|s| - 1]);
    }
  }

  /** A string with no whitespace at either end is its own `strip()`. */
  lemma StripNoop(s: string)
    requires s != [] ==> !IsSpace(s[0]) && !IsSpace(s[|s| - 1])
    ensures Strip(s) == s
  {
  }

  /** `strip()` leaves a string that neither begins nor ends with whitespace. */
  lemma StripShape(s: string)
    ensures var r := Strip(s); |r| <= |s| && (r != [] ==> !IsSpace(r[0]) && !IsSpace(r[|r| - 1]))
  {
    var t := TrimStart(s);
    TrimStartShape(s);
    TrimEndShape(t);
  }

  /** `strip()` keeps a contiguous piece of the text. */
  lemma StripSlice(s: string)
    ensures exists a: nat, b: nat :: a <= b <= |s| && Strip(s) == s[a..b]
  {
    TrimStartShape(s);
    var t := TrimStart(s);
    TrimEndShape(t);
    var a := |s| - |t|;
    assert Strip(s) == s[a..a + |TrimEnd(t)|];
  }

  /** No '-' or '_' survives normalisation, and normalisation is idempotent. */
  lemma {:induction false} RemoveSeparatorsShape(s: string)
    ensures forall i :: 0 <= i < |RemoveSeparators(s)| ==> RemoveSeparators(s)[i] != '-' && RemoveSeparators(s)[i] != '_'
    ensures RemoveSeparators(RemoveSeparators(s)) == RemoveSeparators(s)
    decreases |s|
  {
    if s != [] {
      RemoveSeparatorsShape(s[1..]);
      RemoveSeparatorsNoop(RemoveSeparators(s));
    }
  }

  lemma {:induction false} RemoveSeparatorsNoop(s: string)
    requires forall i :: 0 <= i < |s| ==> s[i] != '-' && s[i] != '_'
    ensures RemoveSeparators(s) == s
    decreases |s|
  {
    if s != [] {
      RemoveSeparatorsNoop(s[1..]);
    }
  }

  lemma {:induction false} RemoveSeparatorsConcat(a: string, b: string)
    ensures RemoveSeparators(a + b) == RemoveSeparators(a) + RemoveSeparators(b)
    decreases |a|
  {
    if a == [] {
      assert a + b == b;
    } else {
      assert (a + b)[1..] == a[1..] + b;
      RemoveSeparatorsConcat(a[1..], b);
    }
  }

  /** The first position in `[from, end)` where `f` yields a value, with that value. */
  function FirstSome<T>(end: nat, from: nat, f: nat -> Option<T>): Option<(nat, T)>
    requires from <= end
    decreases end - from
  {
    if from == end then None
    else
      match f(from)
      case Some(v) => Some((from, v))
      case None => FirstSome(end, from + 1, f)
  }

  /** `FirstSome` finds the first position where `f` yields a value, and finds none exactly
      when there is none. */
  lemma {:induction false} FirstSomeIsFirst<T>(end: nat, from: nat, f: nat -> Option<T>)
    requires from <= end
    ensures var r := FirstSome(end, from, f);
      && (r.Some? ==> from <= r.value.0 < end && f(r.value.0) == Some(r.value.1))
      && (r.Some? ==> forall j :: from <= j < r.value.0 ==> f(j).None?)
      && (r.None? ==> forall j :: from <= j < end ==> f(j).None?)
    decreases end - from
  {
    if from < end && f(from).None? {
      FirstSomeIsFirst(end, from + 1, f);
      var r := FirstSome(end, from + 1, f);
      forall j | from <= j < (if r.Some? then r.value.0 else end) ensures f(j).None? {
        if j > from {
          assert from + 1 <= j;
        }
      }
    }
  }

  lemma AllDigitsConcat(a: string, b: string)
    requires AllDigits(a) && AllDigits(b)
    ensures AllDigits(a + b)
  {
  }

  /** Leading zeros do not change the number digits spell. */
  lemma {:induction false} LeadingZeros(m: nat, d: string)
    requires AllDigits(d)
    ensures AllDigits(seq(m, _ => '0') + d)
    ensures DigitsValue(seq(m, _ => '0') + d) == DigitsValue(d)
    decreases |d|
  {
    var zeros := seq(m, _ => '0');
    ZerosValue(m);
    AllDigitsConcat(zeros, d);
    if d == [] {
      assert zeros + d == zeros;
    } else {
      var zd := zeros + d;
      assert zd[..|zd| - 1] == zeros + d[..|d| - 1];
      assert zd[|zd| - 1] == d[|d| - 1];
      LeadingZeros(m, d[..|d| - 1]);
    }
  }

  lemma {:induction false} DecimalDigits(n: nat)
    ensures AllDigits(Decimal(n)) && DigitsValue(Decimal(n)) == n
    decreases n
  {
    if n >= 10 {
      DecimalDigits(n / 10);
      var d := Decimal(n);
      assert d[..|d| - 1] == Decimal(n / 10);
    }
  }

  lemma {:induction false} DecimalLength(n: nat, k: nat)
    requires 1 <= k && n < Pow10(k)
    ensures |Decimal(n)| <= k
    decreases k
  {
    if n >= 10 {
      DecimalLength(n / 10, k - 1);
    }
  }

  lemma {:induction false} ZerosValue(m: nat)
    ensures AllDigits(seq(m, _ => '0')) && DigitsValue(seq(m, _ => '0')) == 0
    decreases m
  {
    if m > 0 {
      ZerosValue(m - 1);
      assert seq(m, _ => '0')[..m - 1] == seq(m - 1, _ => '0');
    }
  }

  /** A zero-padded field of `k` digits spells the number it pads. */
  lemma PaddedDigits(f: nat, k: nat)
    requires 1 <= k && f < Pow10(k)
    ensures |Padded(f, k)| == k && AllDigits(Padded(f, k)) && DigitsValue(Padded(f, k)) == f
  {
    DecimalDigits(f);
    DecimalLength(f, k);
    var digits := Decimal(f);
    if |digits| < k {
      LeadingZeros(k - |digits|, digits);
    }
  }

  /** `float` reads back what `str` writes for a natural number. */
  lemma DecimalNumberOfDecimal(n: nat)
    ensures DecimalNumber(Decimal(n)) == Some(n as real)
  {
    var d := Decimal(n);
    DecimalDigits(n);
    UnsignedDigits(d);
    assert IsDigit(d[0]) && IsDigit(d[|d| - 1]);
    Unsigned(d);
  }

  /** `float` reads a numeral `w.ddd` (with `k` fraction digits spelling `f`) as
      `w + f / 10^k`. */
  lemma DecimalNumberOfFraction(w: nat, f: nat, k: nat)
    requires 1 <= k && f < Pow10(k)
    ensures DecimalNumber(Decimal(w) + "." + Padded(f, k)) == Some(w as real + f as real / Pow10(k) as real)
  {
    var whole, frac := Decimal(w), Padded(f, k);
    DecimalDigits(w);
    PaddedDigits(f, k);
    MagnitudeOf(whole, frac, w, f);
    PointNumeral(whole, frac);
  }

  lemma MagnitudeOf(whole: string, frac: string, w: nat, f: nat)
    requires AllDigits(whole) && AllDigits(frac) && DigitsValue(whole) == w && DigitsValue(frac) == f
    ensures Magnitude(whole, frac) == w as real + f as real / Pow10(|frac|) as real
  {
  }

  /** Digits, a point and at least one digit are read as whole part plus fraction. */
  lemma PointNumeral(whole: string, frac: string)
    requires whole != [] && frac != [] && AllDigits(whole) && AllDigits(frac)
    ensures DecimalNumber(whole + "." + frac) == Some(Magnitude(whole, frac))
  {
    UnsignedFraction(whole, frac);
    var s := whole + "." + frac;
    assert s[0] == whole[0] && s[|s| - 1] == frac[|frac| - 1];
    Unsigned(s);
  }

  /** A run of digits is read as the number it spells. */
  lemma UnsignedDigits(d: string)
    requires d != [] && AllDigits(d)
    ensures UnsignedNumber(d) == Some(DigitsValue(d) as real)
  {
    FirstDot(d, |d|);
    assert d[..|d|] == d;
  }

  /** Digits, a point and digits are read as whole part plus fraction. */
  lemma UnsignedFraction(whole: string, frac: string)
    requires whole != [] && AllDigits(whole) && AllDigits(frac)
    ensures UnsignedNumber(whole + "." + frac) == Some(Magnitude(whole, frac))
  {
    DotSplits(whole, frac);
  }

  /** The first point of `whole.frac` is the one after `whole`. */
  lemma DotSplits(whole: string, frac: string)
    requires AllDigits(whole)
    ensures var s := whole + "." + frac;
      IndexWhere(s, 0, IsDot) == |whole| && s[..|whole|] == whole && s[|whole| + 1..] == frac
  {
    var s := whole + "." + frac;
    forall j | 0 <= j < |whole|
      ensures !IsDot(s[j])
    {
      assert s[j] == whole[j];
    }
    assert IsDot(s[|whole|]);
    FirstDot(s, |whole|);
    assert s[..|whole|] == whole;
    assert s[|whole| + 1..] == frac;
  }

  /** A numeral that opens with a digit and ends without whitespace has no sign to read. */
  lemma Unsigned(s: string)
    requires s != [] && IsDigit(s[0]) && !IsSpace(s[|s| - 1])
    ensures DecimalNumber(s) == UnsignedNumber(s)
  {
    assert TrimStart(s) == s;
    assert TrimEnd(s) == s;
  }

  lemma FirstDot(body: string, k: nat)
    requires k <= |body| && (k < |body| ==> IsDot(body[k]))
    requires forall j :: 0 <= j < k ==> !IsDot(body[j])
    ensures IndexWhere(body, 0, IsDot) == k
  {
  }
}
