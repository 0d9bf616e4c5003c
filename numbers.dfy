/** The numeric tokens the miner extracts with Python's `re` module:
    leftmost-greedy matches of `\d+\.?\d*` (by `re.search` and
    `re.findall`) and of `\d+`, and their exact decimal values. A digit
    is an ASCII digit; normalised text has no full-width digits left. */
module Numbers {
  import opened Wrappers

  predicate IsDigit(c: char) {
    '0' <= c <= '9'
  }

  predicate AllDigits(s: string) {
    forall i :: 0 <= i < |s| ==> IsDigit(s[i])
  }

  /** `int(s)` for a string of decimal digits. */
  function DigitsValue(s: string): nat
    requires AllDigits(s)
  {
    if s == [] then 0 else DigitsValue(s[..|s| - 1]) * 10 + (s[|s| - 1] as int - '0' as int)
  }

  function Pow10(n: nat): (r: nat)
    ensures r >= 1
  {
    if n == 0 then 1 else 10 * Pow10(n - 1)
  }

  /** A string of `n` digits denotes less than 10^n. */
  lemma {:induction false} DigitsValueBound(s: string)
    requires AllDigits(s)
    ensures DigitsValue(s) < Pow10(|s|)
  {
    if s != [] {
      DigitsValueBound(s[..|s| - 1]);
    }
  }

  /** The first index at or after `i` holding a digit (|s| if none). */
  function SkipNonDigits(s: string, i: nat): (j: nat)
    requires i <= |s|
    ensures i <= j <= |s|
    ensures forall k :: i <= k < j ==> !IsDigit(s[k])
    ensures j < |s| ==> IsDigit(s[j])
    decreases |s| - i
  {
    if i == |s| || IsDigit(s[i]) then i else SkipNonDigits(s, i + 1)
  }

  /** The end of the run of digits starting at `i`. */
  function SkipDigits(s: string, i: nat): (j: nat)
    requires i <= |s|
    ensures i <= j <= |s|
    ensures forall k :: i <= k < j ==> IsDigit(s[k])
    ensures j < |s| ==> !IsDigit(s[j])
    decreases |s| - i
  {
    if i < |s| && IsDigit(s[i]) then SkipDigits(s, i + 1) else i
  }

  /** One match of `\d+\.?\d*`: where it starts, its integer digits,
      whether the optional point was taken and the digits after it. */
  datatype Number = Number(start: nat, whole: string, point: bool, frac: string)

  predicate WellFormed(m: Number) {
    m.whole != [] && AllDigits(m.whole) && AllDigits(m.frac) && (!m.point ==> m.frac == [])
  }

  /** The matched text. */
  function Lexeme(m: Number): string {
    m.whole + (if m.point then "." else "") + m.frac
  }

  function End(m: Number): nat {
    m.start + |Lexeme(m)|
  }

  /** `m` is the match `\d+\.?\d*` makes when it starts at `m.start`:
      each part is as long as it can be (the regex is greedy and never
      needs to backtrack). */
  ghost predicate MatchesAt(s: string, m: Number) {
    var w := m.start + |m.whole|;
    && WellFormed(m)
    && End(m) <= |s| && s[m.start..End(m)] == Lexeme(m)
    && (w < |s| ==> !IsDigit(s[w]))
    && m.point == (w < |s| && s[w] == '.')
    && (m.point && End(m) < |s| ==> !IsDigit(s[End(m)]))
  }

  /** `re.search(r'(\d+\.?\d*)', s[i..])`, positions relative to `s`. */
  function SearchFrom(s: string, i: nat): (r: Option<Number>)
    requires i <= |s|
    ensures r.None? <==> forall k :: i <= k < |s| ==> !IsDigit(s[k])
    ensures r.Some? ==> i <= r.value.start && MatchesAt(s, r.value)
    ensures r.Some? ==> forall k :: i <= k < r.value.start ==> !IsDigit(s[k])
  {
    var b := SkipNonDigits(s, i);
    if b == |s| then None else Some(NumberAt(s, b))
  }

  /** The match of `\d+\.?\d*` that starts at a digit. */
  function NumberAt(s: string, b: nat): (m: Number)
    requires b < |s| && IsDigit(s[b])
    ensures m.start == b && MatchesAt(s, m)
  {
    var e := SkipDigits(s, b);
    if e < |s| && s[e] == '.' then
      var f := SkipDigits(s, e + 1);
      DecimalMatches(s, b, e, f);
      Number(b, s[b..e], true, s[e + 1..f])
    else
      WholeMatches(s, b, e);
      Number(b, s[b..e], false, "")
  }

  /** A digit run not followed by a point is a match by itself. */
  lemma WholeMatches(s: string, b: nat, e: nat)
    requires b < e <= |s|
    requires forall k :: b <= k < e ==> IsDigit(s[k])
    requires e < |s| ==> !IsDigit(s[e]) && s[e] != '.'
    ensures MatchesAt(s, Number(b, s[b..e], false, ""))
  {
    DigitRun(s, b, e);
    assert Lexeme(Number(b, s[b..e], false, "")) == s[b..e];
  }

  /** A digit run, a point and the digit run after it form a match. */
  lemma DecimalMatches(s: string, b: nat, e: nat, f: nat)
    requires b < e < |s| && s[e] == '.' && e + 1 <= f <= |s|
    requires forall k :: b <= k < e ==> IsDigit(s[k])
    requires forall k :: e + 1 <= k < f ==> IsDigit(s[k])
    requires f < |s| ==> !IsDigit(s[f])
    ensures MatchesAt(s, Number(b, s[b..e], true, s[e + 1..f]))
  {
    DigitRun(s, b, e);
    DigitRun(s, e + 1, f);
    assert Lexeme(Number(b, s[b..e], true, s[e + 1..f])) == s[b..f];
  }

  /** A run of digits, sliced out, is a digit string. */
  lemma DigitRun(s: string, b: nat, e: nat)
    requires b <= e <= |s|
    requires forall k :: b <= k < e ==> IsDigit(s[k])
    ensures AllDigits(s[b..e])
  {
    forall k | 0 <= k < e - b
      ensures IsDigit(s[b..e][k])
    {
      assert s[b..e][k] == s[b + k];
    }
  }

  /** `re.search(r'(\d+\.?\d*)', s)`. */
  function Search(s: string): Option<Number> {
    SearchFrom(s, 0)
  }

  /** The regex semantics determine the match: whatever satisfies the
      leftmost-greedy description is what `SearchFrom` returns. */
  lemma SearchIsLeftmostMatch(s: string, i: nat, m: Number)
    requires i <= m.start && MatchesAt(s, m)
    requires forall k :: i <= k < m.start ==> !IsDigit(s[k])
    ensures SearchFrom(s, i) == Some(m)
  {
    MatchParts(s, m);
    assert IsDigit(s[m.start]);
    var r := SearchFrom(s, i).value;
    MatchParts(s, r);
    assert IsDigit(s[r.start]);
    MatchUnique(s, r, m);
  }

  /** At most one match starts at a given position. */
  lemma MatchUnique(s: string, m1: Number, m2: Number)
    requires MatchesAt(s, m1) && MatchesAt(s, m2) && m1.start == m2.start
    ensures m1 == m2
  {
    MatchParts(s, m1);
    MatchParts(s, m2);
    var w1, w2 := m1.start + |m1.whole|, m2.start + |m2.whole|;
    RunEndUnique(s, m1.start, w1, w2);
    if m1.point {
      RunEndUnique(s, w1 + 1, End(m1), End(m2));
    }
  }

  /** The parts of a match, read off the text. */
  lemma MatchParts(s: string, m: Number)
    requires MatchesAt(s, m)
    ensures var w := m.start + |m.whole|;
      && w <= End(m) <= |s| && m.whole == s[m.start..w]
      && (forall k :: m.start <= k < w ==> IsDigit(s[k]))
      && (m.point ==> w < |s| && s[w] == '.' && m.frac == s[w + 1..End(m)])
      && (m.point ==> forall k :: w + 1 <= k < End(m) ==> IsDigit(s[k]))
      && (!m.point ==> End(m) == w)
  {
    var w := m.start + |m.whole|;
    var lx := Lexeme(m);
    assert lx[..|m.whole|] == m.whole;
    assert s[m.start..w] == lx[..|m.whole|];
    forall k | m.start <= k < w ensures IsDigit(s[k]) {
      assert s[k] == m.whole[k - m.start];
    }
    if m.point {
      assert lx[|m.whole| + 1..] == m.frac;
      assert s[w + 1..End(m)] == lx[|m.whole| + 1..];
      forall k | w + 1 <= k < End(m) ensures IsDigit(s[k]) {
        assert s[k] == m.frac[k - w - 1];
      }
    }
  }

  /** Two maximal digit runs from the same position end at the same place. */
  lemma RunEndUnique(s: string, a: nat, e1: nat, e2: nat)
    requires a <= e1 <= |s| && a <= e2 <= |s|
    requires forall k :: a <= k < e1 ==> IsDigit(s[k])
    requires forall k :: a <= k < e2 ==> IsDigit(s[k])
    requires e1 < |s| ==> !IsDigit(s[e1])
    requires e2 < |s| ==> !IsDigit(s[e2])
    ensures e1 == e2
  {
  }

  /** `re.findall(r'(\d+\.?\d*)', s[i..])`: successive non-overlapping
      matches, each search resuming where the previous match ended. */
  function FindAllFrom(s: string, i: nat): (r: seq<Number>)
    requires i <= |s|
    ensures forall j :: 0 <= j < |r| ==> MatchesAt(s, r[j]) && i <= r[j].start
    decreases |s| - i
  {
    match SearchFrom(s, i)
    case None => []
    case Some(m) => [m] + FindAllFrom(s, End(m))
  }

  function FindAll(s: string): seq<Number> {
    FindAllFrom(s, 0)
  }

  /** The first element of `findall` is the `search` match, and
      `findall` is empty exactly when `search` finds nothing. */
  lemma FindAllStartsWithSearch(s: string)
    ensures FindAll(s) == [] <==> Search(s).None?
    ensures FindAll(s) != [] ==> FindAll(s)[0] == Search(s).value
  {
  }

  /** `re.search(r'(\d+)', s)` converted with `int`: the first maximal
      run of digits. */
  function FirstInteger(s: string): (r: Option<nat>)
    ensures r.None? <==> Search(s).None?
    ensures r.Some? ==> r.value == DigitsValue(Search(s).value.whole)
  {
    var b := SkipNonDigits(s, 0);
    if b == |s| then None else Some(DigitsValue(s[b..SkipDigits(s, b)]))
  }

  /** The integer part of a match (`int(float(token))`). */
  function WholeValue(m: Number): nat
    requires WellFormed(m)
  {
    DigitsValue(m.whole)
  }

  /** The exact value of a match as a decimal number. */
  function Value(m: Number): (v: real)
    requires WellFormed(m)
    ensures v >= 0.0
  {
    DigitsValue(m.whole) as real + DigitsValue(m.frac) as real / Pow10(|m.frac|) as real
  }

  /** The match value times `k`, truncated, in exact arithmetic
      (`int(float(token) * k)` without rounding error). */
  function ScaledFloor(m: Number, k: nat): nat
    requires WellFormed(m)
  {
    var n := Numerator(m);
    assert n * k >= 0;
    (n * k) / Pow10(|m.frac|)
  }

  /** The match value times 10^(number of fraction digits). */
  function Numerator(m: Number): nat
    requires WellFormed(m)
  {
    var w, p := DigitsValue(m.whole), Pow10(|m.frac|);
    assert w * p >= 0;
    w * p + DigitsValue(m.frac)
  }

  lemma FloorDivision(a: nat, p: nat)
    requires p > 0
    ensures (a / p) as real <= a as real / p as real < (a / p) as real + 1.0
  {
    var q, r := a / p, a % p;
    assert a == q * p + r;
    assert a as real == q as real * p as real + r as real;
    assert a as real / p as real == q as real + r as real / p as real;
  }

  /** The exact value is the numerator over 10^(fraction digits). */
  lemma ValueAsFraction(m: Number)
    requires WellFormed(m)
    ensures Value(m) == Numerator(m) as real / Pow10(|m.frac|) as real
  {
    var w, f, p := DigitsValue(m.whole), DigitsValue(m.frac), Pow10(|m.frac|);
    assert Numerator(m) == w * p + f;
    SumOverDenominator(w, f, p);
  }

  lemma SumOverDenominator(w: nat, f: nat, p: nat)
    requires p > 0
    ensures w as real + f as real / p as real == (w * p + f) as real / p as real
  {
    assert (w * p) as real == w as real * p as real;
  }

  /** Scaling a fraction scales its numerator. */
  lemma ScaleFraction(a: nat, p: nat, k: nat)
    requires p > 0
    ensures (a as real / p as real) * k as real == (a * k) as real / p as real
  {
    assert (a * k) as real == a as real * k as real;
  }

  /** `int(val)` is the floor of the exact value. */
  lemma WholeValueIsFloor(m: Number)
    requires WellFormed(m)
    ensures WholeValue(m) as real <= Value(m) < WholeValue(m) as real + 1.0
  {
    DigitsValueBound(m.frac);
    FractionBelowOne(DigitsValue(m.frac), Pow10(|m.frac|));
  }

  lemma FractionBelowOne(f: nat, p: nat)
    requires f < p
    ensures 0.0 <= f as real / p as real < 1.0
  {
    assert f as real / p as real * p as real == f as real;
  }

  /** `int(val * k)` is the floor of the exact value times `k`. */
  lemma ScaledFloorIsFloor(m: Number, k: nat)
    requires WellFormed(m)
    ensures ScaledFloor(m, k) as real <= Value(m) * k as real < ScaledFloor(m, k) as real + 1.0
  {
    var p := Pow10(|m.frac|);
    ValueAsFraction(m);
    ScaleFraction(Numerator(m), p, k);
    FloorDivision(Numerator(m) * k, p);
  }
}
