/** The text primitives the miner relies on: Unicode compatibility
    normalisation (NFKC, Unicode Standard Annex #15) restricted to the
    width and space foldings that occur in listing text, Python's
    `str.strip()` and substring containment. */
module Text {
  import opened Wrappers

  /** Python's `str.isspace()`: the characters `str.strip()` removes. */
  predicate IsSpace(c: char) {
    || c == ' ' || ('\t' <= c <= '\r') || ('\U{1C}' <= c <= '\U{1F}')
    || c == '\U{85}' || c == '\U{A0}' || c == '\U{1680}'
    || ('\U{2000}' <= c <= '\U{200A}') || c == '\U{2028}' || c == '\U{2029}'
    || c == '\U{202F}' || c == '\U{205F}' || c == '\U{3000}'
  }

  /** Full-width forms of the printable ASCII characters (U+FF01..U+FF5E). */
  predicate IsFullWidth(c: char) {
    '\U{FF01}' <= c <= '\U{FF5E}'
  }

  /** Spaces whose compatibility decomposition is a plain space. */
  predicate IsCompatSpace(c: char) {
    || c == '\U{A0}' || ('\U{2000}' <= c <= '\U{200A}')
    || c == '\U{202F}' || c == '\U{205F}' || c == '\U{3000}'
  }

  /** TRADE MARK SIGN, whose compatibility decomposition is "TM". */
  const TradeMark: char := '\U{2122}'

  /** A character that NFKC (as modelled here) leaves as it is. */
  predicate Stable(c: char) {
    !IsFullWidth(c) && !IsCompatSpace(c) && c != TradeMark
  }

  predicate AllStable(s: string) {
    forall i :: 0 <= i < |s| ==> Stable(s[i])
  }

  /** The NFKC image of one character. */
  function NfkcChar(c: char): (r: string)
    ensures AllStable(r)
    ensures Stable(c) ==> r == [c]
  {
    if IsFullWidth(c) then [(c as int - 0xFEE0) as char]
    else if IsCompatSpace(c) then " "
    else if c == TradeMark then "TM"
    else [c]
  }

  /** `unicodedata.normalize('NFKC', s)`, character by character. */
  function Nfkc(s: string): (r: string)
    ensures AllStable(r)
  {
    if s == [] then [] else NfkcChar(s[0]) + Nfkc(s[1..])
  }

  /** Removes leading whitespace. */
  function TrimStart(s: string): (r: string)
    ensures |r| <= |s| && r == s[|s| - |r|..]
    ensures forall i :: 0 <= i < |s| - |r| ==> IsSpace(s[i])
    ensures r != [] ==> !IsSpace(r[0])
  {
    if s != [] && IsSpace(s[0]) then TrimStart(s[1..]) else s
  }

  /** Removes trailing whitespace. */
  function TrimEnd(s: string): (r: string)
    ensures |r| <= |s| && r == s[..|r|]
    ensures forall i :: |r| <= i < |s| ==> IsSpace(s[i])
    ensures r != [] ==> !IsSpace(r[|r| - 1])
  {
    if s != [] && IsSpace(s[|s| - 1]) then TrimEnd(s[..|s| - 1]) else s
  }

  /** `s.strip()`: whitespace removed from both ends. */
  function Strip(s: string): (r: string)
    ensures r != [] ==> !IsSpace(r[0]) && !IsSpace(r[|r| - 1])
  {
    TrimEnd(TrimStart(s))
  }

  /** What `Strip` keeps is an infix of `s`, and all it removes is
      whitespace. */
  lemma StripSpec(s: string) returns (i: nat)
    ensures StrippedAt(s, Strip(s), i)
  {
    var t := TrimStart(s);
    var r := TrimEnd(t);
    i := |s| - |t|;
    assert t == s[i..];
    assert r == t[..|r|];
    assert r == s[i..i + |r|];
    forall k | i + |r| <= k < |s|
      ensures IsSpace(s[k])
    {
      assert s[k] == t[k - i];
    }
  }

  /** A string that neither starts nor ends with whitespace is its own
      strip. */
  lemma StripUnchanged(s: string)
    requires s != [] ==> !IsSpace(s[0]) && !IsSpace(s[|s| - 1])
    ensures Strip(s) == s
  {
    if s != [] {
      assert TrimStart(s) == s;
      assert TrimEnd(s) == s;
    }
  }

  /** `r` is the infix of `s` at offset `i`, and all that lies around it
      is whitespace. */
  predicate StrippedAt(s: string, r: string, i: int) {
    && 0 <= i <= |s| - |r| && r == s[i..i + |r|]
    && (forall k :: 0 <= k < i ==> IsSpace(s[k]))
    && (forall k :: i + |r| <= k < |s| ==> IsSpace(s[k]))
  }

  /** `normalize_japanese`: absent or empty text gives ""; otherwise the
      NFKC form with surrounding whitespace removed. */
  function NormalizeJapanese(text: Option<string>): (r: string)
    ensures text.None? || text == Some("") ==> r == ""
    ensures r != [] ==> !IsSpace(r[0]) && !IsSpace(r[|r| - 1])
    ensures AllStable(r)
  {
    if text.None? || text.value == "" then ""
    else
      var n := Nfkc(text.value);
      StripStable(n);
      Strip(n)
  }

  /** Non-empty text normalises to the whitespace-trimmed middle of its
      NFKC form, sitting at offset `i` of that form. */
  lemma NormalizeSpec(s: string) returns (i: nat)
    requires s != ""
    ensures StrippedAt(Nfkc(s), NormalizeJapanese(Some(s)), i)
  {
    i := StripSpec(Nfkc(s));
  }

  /** Stripping keeps only characters of the string it strips. */
  lemma StripStable(s: string)
    requires AllStable(s)
    ensures AllStable(Strip(s))
  {
    var r := Strip(s);
    var i := StripSpec(s);
    forall k | 0 <= k < |r|
      ensures Stable(r[k])
    {
      assert r[k] == s[i + k];
    }
  }

  /** Python's `sub in s`. */
  predicate Contains(s: string, sub: string) {
    exists i | 0 <= i <= |s| - |sub| :: OccursAt(s, sub, i)
  }

  /** `sub` occurs in `s` at offset `i`. */
  predicate OccursAt(s: string, sub: string, i: int) {
    0 <= i <= |s| - |sub| && s[i..i + |sub|] == sub
  }

  lemma {:induction false} NfkcOfStable(s: string)
    requires AllStable(s)
    ensures Nfkc(s) == s
  {
    if s != [] {
      NfkcOfStable(s[1..]);
    }
  }

  /** Normalising twice is normalising once: NFKC and stripping are both
      idempotent, and a stripped NFKC string is a fixed point of both. */
  lemma NormalizeIdempotent(text: Option<string>)
    ensures NormalizeJapanese(Some(NormalizeJapanese(text))) == NormalizeJapanese(text)
  {
    NormalizedIsFixed(NormalizeJapanese(text));
  }

  /** Stable text without surrounding whitespace normalises to itself. */
  lemma NormalizedIsFixed(r: string)
    requires AllStable(r) && (r != [] ==> !IsSpace(r[0]) && !IsSpace(r[|r| - 1]))
    ensures NormalizeJapanese(Some(r)) == r
  {
    NfkcOfStable(r);
    StripUnchanged(r);
  }

  /** The full-width digits U+FF10..U+FF19. */
  predicate AllFullWidthDigits(s: string) {
    forall i :: 0 <= i < |s| ==> '\U{FF10}' <= s[i] <= '\U{FF19}'
  }

  /** The same digits in ASCII. */
  function HalfWidth(s: string): (r: string)
    requires AllFullWidthDigits(s)
    ensures |r| == |s|
    ensures forall i :: 0 <= i < |s| ==> r[i] as int == s[i] as int - 0xFEE0 && '0' <= r[i] <= '9'
  {
    if s == [] then [] else [(s[0] as int - 0xFEE0) as char] + HalfWidth(s[1..])
  }

  /** A full-width digit string normalises to the same digits in ASCII,
      and nothing else is altered. */
  lemma {:induction false} NormalizeFullWidthDigits(s: string)
    requires AllFullWidthDigits(s)
    ensures NormalizeJapanese(Some(s)) == HalfWidth(s)
  {
    NfkcOfFullWidthDigits(s);
    var h := HalfWidth(s);
    DigitsNotSpace(h);
    StripUnchanged(h);
  }

  lemma DigitsNotSpace(h: string)
    requires forall i :: 0 <= i < |h| ==> '0' <= h[i] <= '9'
    ensures h != [] ==> !IsSpace(h[0]) && !IsSpace(h[|h| - 1])
  {
  }

  lemma {:induction false} NfkcOfFullWidthDigits(s: string)
    requires AllFullWidthDigits(s)
    ensures Nfkc(s) == HalfWidth(s)
  {
    if s != [] {
      NfkcOfFullWidthDigits(s[1..]);
    }
  }

  /** No normalised text contains the trade mark sign: NFKC spells it "TM". */
  lemma NormalizedHasNoTradeMark(text: Option<string>)
    ensures TradeMark !in NormalizeJapanese(text)
  {
  }

  /** A string made of NFKC-stable characters contains no substring that
      holds an unstable character. */
  lemma {:induction false} StableExcludes(s: string, sub: string, k: nat)
    requires AllStable(s)
    requires k < |sub| && !Stable(sub[k])
    ensures !Contains(s, sub)
  {
    forall i | 0 <= i <= |s| - |sub|
      ensures !OccursAt(s, sub, i)
    {
      assert s[i..i + |sub|][k] == s[i + k];
    }
  }

  /** A string that lacks the first character of `sub` does not contain
      `sub`. */
  lemma HeadAbsentExcludes(s: string, sub: string)
    requires sub != [] && sub[0] !in s
    ensures !Contains(s, sub)
  {
    forall i | 0 <= i <= |s| - |sub|
      ensures !OccursAt(s, sub, i)
    {
      assert s[i..i + |sub|][0] == s[i];
    }
  }
}
