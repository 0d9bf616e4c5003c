/** `src/debug_scraper.py`: the same `normalize_japanese` as the miner
    (it is `Text.NormalizeJapanese`), and a `clean_money` that takes the
    first element of `re.findall` instead of `re.search` and whose
    ten-thousand marker is the real character 万. */
module DebugScraper {
  import opened Wrappers
  import opened Text
  import opened Numbers
  import Scraper

  /** 万, "ten thousand", as src/debug_scraper.py:33 spells it. */
  const TenThousandMarker := "万"

  /** `clean_money` with the marker as a parameter: "-" or "" after
      normalisation gives 0, no number gives 0, otherwise the first
      `findall` token, times 10000 when the marker occurs in the text,
      truncated. */
  function CleanMoneyWith(marker: string, text: string): (r: int)
    ensures r >= 0
  {
    var t := NormalizeJapanese(Some(text));
    if t == "-" || t == "" then 0
    else
      var nums := FindAll(t);
      if nums == [] then 0
      else if Contains(t, marker) then ScaledFloor(nums[0], 10000)
      else WholeValue(nums[0])
  }

  /** `clean_money` as src/debug_scraper.py has it. */
  function CleanMoney(text: string): int {
    CleanMoneyWith(TenThousandMarker, text)
  }

  /** Taking the first `findall` token is taking the `search` match: for
      any marker the two scripts' parsers agree. */
  lemma AgreesWithScraper(marker: string, text: string)
    ensures CleanMoneyWith(marker, text) == Scraper.CleanMoneyWith(marker, text)
  {
    FindAllStartsWithSearch(NormalizeJapanese(Some(text)));
  }

  /** 6.5 man (65,000) yen, as a listing shows a rent. */
  const SixPointFiveMan := "6.5万円"

  /** The characters of `SixPointFiveMan`. */
  predicate IsSixPointFiveMan(s: string) {
    |s| == 5 && s[0] == '6' && s[1] == '.' && s[2] == '5' && s[3] == '万' && s[4] == '円'
  }

  /** On a typical rent, "6.5万円", the debug script reads 65000 yen and
      the miner reads 6: the miner's marker literal is not 万, so the
      scaling never applies and the value is truncated to its integer
      part. */
  lemma SixPointFiveManReadings()
    ensures CleanMoney(SixPointFiveMan) == 65000
    ensures Scraper.CleanMoney(SixPointFiveMan) == 6
  {
    DebugReadsSixPointFiveMan(SixPointFiveMan);
    MinerReadsSixPointFiveMan(SixPointFiveMan);
  }

  lemma DebugReadsSixPointFiveMan(s: string)
    requires IsSixPointFiveMan(s)
    ensures CleanMoney(s) == 65000
  {
    NormalizedAsIs(s);
    var m := LeadingDecimal(s);
    ScaledSixPointFive(m);
    assert OccursAt(s, TenThousandMarker, 3);
  }

  lemma MinerReadsSixPointFiveMan(s: string)
    requires IsSixPointFiveMan(s)
    ensures Scraper.CleanMoney(s) == 6
  {
    NormalizedAsIs(s);
    var m := LeadingDecimal(s);
    ScaledSixPointFive(m);
    assert Scraper.TenThousandMarker[0] !in s;
    HeadAbsentExcludes(s, Scraper.TenThousandMarker);
  }

  /** 6.5, scaled by 10000 and truncated, is 65000; its integer part is 6. */
  lemma ScaledSixPointFive(m: Number)
    requires |m.whole| == 1 && m.whole[0] == '6' && m.point && |m.frac| == 1 && m.frac[0] == '5'
    ensures WellFormed(m) && ScaledFloor(m, 10000) == 65000 && WholeValue(m) == 6
  {
    OneDigit(m.whole);
    OneDigit(m.frac);
    assert Numerator(m) == 65;
  }

  lemma NormalizedAsIs(s: string)
    requires IsSixPointFiveMan(s)
    ensures NormalizeJapanese(Some(s)) == s
  {
    assert AllStable(s);
    NfkcOfStable(s);
    StripUnchanged(s);
  }

  /** Text that opens with digit, point, digit, non-digit: its first
      token is those three characters. */
  lemma LeadingDecimal(s: string) returns (m: Number)
    requires |s| > 3 && IsDigit(s[0]) && s[1] == '.' && IsDigit(s[2]) && !IsDigit(s[3])
    ensures m == Number(0, s[..1], true, s[2..3])
    ensures Search(s) == Some(m) && FindAll(s) != [] && FindAll(s)[0] == m
  {
    m := Number(0, s[..1], true, s[2..3]);
    assert Lexeme(m) == s[0..3];
    SearchIsLeftmostMatch(s, 0, m);
    FindAllStartsWithSearch(s);
  }

  /** The value of a one-digit string. */
  lemma OneDigit(w: string)
    requires |w| == 1 && IsDigit(w[0])
    ensures AllDigits(w) && DigitsValue(w) == w[0] as int - '0' as int && Pow10(|w|) == 10
  {
    assert w[..0] == [];
  }
}
