/**
 * Sexagenary (干支) designations of years and days, as `getYearGanZhi` and
 * the arithmetic fallback of `getGanZhi` compute them: a stem index mod 10
 * and a branch index mod 12, calibrated so that 1900 and 1900-01-01 are
 * both 庚子 (stem 6, branch 0).
 */
module GanZhi {

  const HeavenlyStems := "甲乙丙丁戊己庚辛壬癸"
  const EarthlyBranches := "子丑寅卯辰巳午未申酉戌亥"
  const HeavenlyStemsKorean := "갑을병정무기경신임계"
  const EarthlyBranchesKorean := "자축인묘진사오미신유술해"

  /** The text returned for anything outside the supported years. */
  const NoInfo := "정보 없음"

  /** The years the lunar data, the year designation and the day designation support. */
  predicate InSupportedRange(year: int) {
    1900 <= year <= 2049
  }

  /** Stem and branch indices name distinct characters. */
  lemma TablesDistinct(i: int, j: int, k: int, l: int)
    requires 0 <= i < 10 && 0 <= j < 10 && 0 <= k < 12 && 0 <= l < 12
    ensures HeavenlyStems[i] == HeavenlyStems[j] ==> i == j
    ensures HeavenlyStemsKorean[i] == HeavenlyStemsKorean[j] ==> i == j
    ensures EarthlyBranches[k] == EarthlyBranches[l] ==> k == l
    ensures EarthlyBranchesKorean[k] == EarthlyBranchesKorean[l] ==> k == l
  {
  }

  /** Whole cycles of 60 leave the stem residue unchanged. */
  lemma ShiftStemByCycles(y: int, q: int)
    ensures (y - 60 * q) % 10 == y % 10
  {
    var k, r := y / 10, y % 10;
    assert y - 60 * q == 10 * (k - 6 * q) + r;
  }

  /** Whole cycles of 60 leave the branch residue unchanged. */
  lemma ShiftBranchByCycles(y: int, q: int)
    ensures (y - 60 * q) % 12 == y % 12
  {
    var k, r := y / 12, y % 12;
    assert y - 60 * q == 12 * (k - 5 * q) + r;
  }

  /** Two numbers have the same stem residue exactly when their difference is a multiple of 10. */
  lemma SameStemResidue(x: int, y: int)
    ensures x % 10 == y % 10 <==> (x - y) % 10 == 0
  {
    assert x - y == 10 * (x / 10 - y / 10) + (x % 10 - y % 10);
    assert (x - y) % 10 == 0 <==> x - y == 10 * ((x - y) / 10);
  }

  /** Two numbers have the same branch residue exactly when their difference is a multiple of 12. */
  lemma SameBranchResidue(x: int, y: int)
    ensures x % 12 == y % 12 <==> (x - y) % 12 == 0
  {
    assert x - y == 12 * (x / 12 - y / 12) + (x % 12 - y % 12);
  }

  /** A multiple of both 10 and 12 is a multiple of 60, their least common multiple. */
  lemma MultipleOfSixty(d: int)
    ensures (d % 10 == 0 && d % 12 == 0) <==> d % 60 == 0
  {
    var k, r := d / 60, d % 60;
    assert d - 60 * k == r;
    ShiftStemByCycles(d, k);
    ShiftBranchByCycles(d, k);
    if r % 10 == 0 && r % 12 == 0 {
      var t := r / 10;
      assert r == 10 * t && 0 <= t < 6;
      assert r == 0 || r == 10 || r == 20 || r == 30 || r == 40 || r == 50;
    }
  }

  /**
   * The stem residue (shifted by `shift`) and the branch residue together fix a
   * position in the 60-term cycle, and nothing less does.
   */
  lemma CycleCoordinates(a: int, b: int, shift: int)
    ensures ((a + shift) % 10 == (b + shift) % 10 && a % 12 == b % 12) <==> (a - b) % 60 == 0
  {
    SameStemResidue(a + shift, b + shift);
    SameBranchResidue(a, b);
    MultipleOfSixty(a - b);
  }

  /** `getYearGanZhi`: the year's stem and branch characters, or `NoInfo` outside 1900..2049. */
  function YearGanZhi(year: int): (r: string)
    ensures r == NoInfo <==> !InSupportedRange(year)
    ensures InSupportedRange(year) ==>
      r == [HeavenlyStems[(year - 1900 + 6) % 10], EarthlyBranches[(year - 1900) % 12]]
  {
    if !InSupportedRange(year) then NoInfo
    else
      var offset := (year - 1900) % 60;
      assert (offset + 6) % 10 == (year - 1900 + 6) % 10 && offset % 12 == (year - 1900) % 12 by {
        ShiftStemByCycles(year - 1900 + 6, (year - 1900) / 60);
        ShiftBranchByCycles(year - 1900, (year - 1900) / 60);
      }
      [HeavenlyStems[(offset + 6) % 10], EarthlyBranches[(offset + 0) % 12]]
  }

  /** 1900 is 庚子, and so are 1960 and 2020; 2025 is 乙巳. */
  lemma YearGanZhiCalibration()
    ensures YearGanZhi(1900) == "庚子" && YearGanZhi(1960) == "庚子" && YearGanZhi(2020) == "庚子"
    ensures YearGanZhi(2025) == "乙巳"
  {
    assert HeavenlyStems[6] == '庚' && EarthlyBranches[0] == '子';
    assert HeavenlyStems[1] == '乙' && EarthlyBranches[5] == '巳';
    assert (1960 - 1900 + 6) % 10 == 6 && (1960 - 1900) % 12 == 0;
    assert (2020 - 1900 + 6) % 10 == 6 && (2020 - 1900) % 12 == 0;
    assert (2025 - 1900 + 6) % 10 == 1 && (2025 - 1900) % 12 == 5;
  }

  /** The year designation repeats every 60 years. */
  lemma YearGanZhiPeriodic(year: int)
    requires InSupportedRange(year) && InSupportedRange(year + 60)
    ensures YearGanZhi(year + 60) == YearGanZhi(year)
  {
    ShiftStemByCycles(year + 60 - 1900 + 6, 1);
    ShiftBranchByCycles(year + 60 - 1900, 1);
  }

  /** Two supported years share a designation exactly when they are a multiple of 60 years apart. */
  lemma YearGanZhiSameIff(y1: int, y2: int)
    requires InSupportedRange(y1) && InSupportedRange(y2)
    ensures YearGanZhi(y1) == YearGanZhi(y2) <==> (y1 - y2) % 60 == 0
  {
    CycleCoordinates(y1 - 1900, y2 - 1900, 6);
    var r1, r2 := YearGanZhi(y1), YearGanZhi(y2);
    if r1 == r2 {
      assert r1[0] == r2[0] && r1[1] == r2[1];
      TablesDistinct((y1 - 1900 + 6) % 10, (y2 - 1900 + 6) % 10, (y1 - 1900) % 12, (y2 - 1900) % 12);
    }
  }

  /** The Korean reading followed by the characters in parentheses, e.g. "경자(庚子)". */
  function PillarText(stem: int, branch: int): (r: string)
    requires 0 <= stem < 10 && 0 <= branch < 12
    ensures |r| == 6 && r[2] == '(' && r[5] == ')'
    ensures r[0] == HeavenlyStemsKorean[stem] && r[1] == EarthlyBranchesKorean[branch] && r[3] == HeavenlyStems[stem] && r[4] == EarthlyBranches[branch]
  {
    [HeavenlyStemsKorean[stem], EarthlyBranchesKorean[branch]] + "(" + [HeavenlyStems[stem], EarthlyBranches[branch]] + ")"
  }

  /** The arithmetic fallback of `getGanZhi` for a whole-day offset since 1900-01-01. */
  function DayGanZhi(daysSince1900: int): (r: string)
    ensures r == NoInfo <==> daysSince1900 < 0
    ensures daysSince1900 >= 0 ==> r == PillarText((daysSince1900 + 6) % 10, daysSince1900 % 12)
  {
    if daysSince1900 >= 0 then
      PillarText((daysSince1900 + 6) % 10, (daysSince1900 + 0) % 12)
    else
      NoInfo
  }

  /** 1900-01-01 (offset 0) is the day 경자(庚子). */
  lemma DayGanZhiAtEpoch()
    ensures DayGanZhi(0) == "경자(庚子)"
  {
  }

  /** The day designation repeats every 60 days. */
  lemma DayGanZhiPeriodic(days: int)
    requires days >= 0
    ensures DayGanZhi(days + 60) == DayGanZhi(days)
  {
    ShiftStemByCycles(days + 60 + 6, 1);
    ShiftBranchByCycles(days + 60, 1);
  }

  /** Two non-negative offsets share a day designation exactly when they are a multiple of 60 days apart. */
  lemma DayGanZhiSameIff(d1: int, d2: int)
    requires d1 >= 0 && d2 >= 0
    ensures DayGanZhi(d1) == DayGanZhi(d2) <==> (d1 - d2) % 60 == 0
  {
    CycleCoordinates(d1, d2, 6);
    var r1, r2 := DayGanZhi(d1), DayGanZhi(d2);
    if r1 == r2 {
      assert r1[3] == r2[3] && r1[4] == r2[4];
      TablesDistinct((d1 + 6) % 10, (d2 + 6) % 10, d1 % 12, d2 % 12);
    }
  }
}
