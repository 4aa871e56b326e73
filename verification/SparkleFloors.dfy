/** scripts/sparkle-build.ts: the floors that a calendar version sets for Sparkle build numbers. */
module SparkleFloors {
  import opened Prelude

  /** The groups of CALVER_REGEX. */
  datatype Parts = Parts(year: string, month: string, day: string, suffix: string)

  datatype Floors = Floors(dateKey: nat, legacyFloor: nat, laneFloor: nat, lane: nat)

  predicate Digits(s: string) {
    forall i | 0 <= i < |s| :: IsDigit(s[i])
  }

  predicate IsSuffix(s: string) {
    s == "" || ((s[0] == '.' || s[0] == '-') && forall i | 0 <= i < |s| :: !IsLineTerminator(s[i]))
  }

  /** The texts that CALVER_REGEX describes. */
  predicate IsCalVer(text: string, p: Parts) {
    && text == p.year + "." + p.month + "." + p.day + p.suffix
    && Digits(p.year) && Digits(p.month) && Digits(p.day) && IsSuffix(p.suffix)
    && |p.year| == 4 && 1 <= |p.month| <= 2 && 1 <= |p.day| <= 2
  }

  // ---------------------------------------------------------------- matching the expression

  function DigitsEnd(s: string, from: nat): (end: nat)
    requires from <= |s|
    ensures from <= end <= |s| && Digits(s[from..end]) && (end < |s| ==> !IsDigit(s[end]))
    decreases |s| - from
  {
    if from < |s| && IsDigit(s[from]) then
      var end := DigitsEnd(s, from + 1);
      assert s[from..end] == [s[from]] + s[from + 1..end];
      end
    else from
  }

  function MatchCalVer(text: string): Option<Parts> {
    if |text| < 5 || !Digits(text[..4]) || text[4] != '.' then None
    else
      var monthEnd := DigitsEnd(text, 5);
      if !(1 <= monthEnd - 5 <= 2) || monthEnd == |text| || text[monthEnd] != '.' then None
      else
        var dayEnd := DigitsEnd(text, monthEnd + 1);
        if !(1 <= dayEnd - (monthEnd + 1) <= 2) || !IsSuffix(text[dayEnd..]) then None
        else Some(Parts(text[..4], text[5..monthEnd], text[monthEnd + 1..dayEnd], text[dayEnd..]))
  }

  lemma {:induction false} DigitsEndIs(s: string, from: nat, end: nat)
    requires from <= end <= |s| && (forall i | from <= i < end :: IsDigit(s[i])) && (end < |s| ==> !IsDigit(s[end]))
    ensures DigitsEnd(s, from) == end
    decreases end - from
  {
    if from < end {
      DigitsEndIs(s, from + 1, end);
    }
  }

  lemma MatchIsSound(text: string)
    requires MatchCalVer(text).Some?
    ensures IsCalVer(text, MatchCalVer(text).value)
  {
    var p := MatchCalVer(text).value;
    var monthEnd := DigitsEnd(text, 5);
    var dayEnd := DigitsEnd(text, monthEnd + 1);
    assert text == text[..4] + [text[4]] + text[5..monthEnd] + [text[monthEnd]] + text[monthEnd + 1..dayEnd] + text[dayEnd..];
  }

  /** Where the parts of a version stand in it. */
  lemma PartsStand(text: string, p: Parts)
    requires IsCalVer(text, p)
    ensures var monthEnd := 5 + |p.month|;
            var dayEnd := monthEnd + 1 + |p.day|;
            && text[..4] == p.year && text[4] == '.'
            && text[5..monthEnd] == p.month && text[monthEnd] == '.'
            && text[monthEnd + 1..dayEnd] == p.day && text[dayEnd..] == p.suffix
  {
  }

  lemma DigitsStand(text: string, from: nat, end: nat)
    requires from <= end <= |text| && Digits(text[from..end]) && (end < |text| ==> !IsDigit(text[end]))
    ensures DigitsEnd(text, from) == end
  {
    forall i | from <= i < end ensures IsDigit(text[i]) {
      assert text[i] == text[from..end][i - from];
    }
    DigitsEndIs(text, from, end);
  }

  lemma MatchIsComplete(text: string, p: Parts)
    requires IsCalVer(text, p)
    ensures MatchCalVer(text) == Some(p)
  {
    var monthEnd := 5 + |p.month|;
    var dayEnd := monthEnd + 1 + |p.day|;
    PartsStand(text, p);
    assert dayEnd < |text| ==> text[dayEnd] == text[dayEnd..][0];
    DigitsStand(text, 5, monthEnd);
    DigitsStand(text, monthEnd + 1, dayEnd);
  }

  /** Matching finds the parts of exactly the calendar versions, and those parts are unique. */
  lemma MatchingIsExact(text: string, p: Parts)
    ensures MatchCalVer(text) == Some(p) <==> IsCalVer(text, p)
  {
    if MatchCalVer(text) == Some(p) {
      MatchIsSound(text);
    }
    if IsCalVer(text, p) {
      MatchIsComplete(text, p);
    }
  }

  // ---------------------------------------------------------------- numbers as text

  /** Number.parseInt of digits. */
  function Value(digits: string): nat
    requires Digits(digits)
  {
    if digits == "" then 0 else 10 * Value(digits[..|digits| - 1]) + (digits[|digits| - 1] as nat - '0' as nat)
  }

  function Show(n: nat): (s: string)
    ensures Digits(s) && s != ""
  {
    if n < 10 then [(n + '0' as nat) as char] else Show(n / 10) + [(n % 10 + '0' as nat) as char]
  }

  /** padStart(2, "0") */
  function Pad2(s: string): string {
    if |s| == 0 then "00" else if |s| == 1 then "0" + s else s
  }

  lemma {:induction false} ValueOfShow(n: nat)
    ensures Value(Show(n)) == n
  {
    if n >= 10 {
      ValueOfShow(n / 10);
      var s := Show(n);
      assert s[..|s| - 1] == Show(n / 10);
    }
  }

  lemma ValueOfPadded(n: nat)
    requires n < 100
    ensures |Pad2(Show(n))| == 2 && Digits(Pad2(Show(n))) && Value(Pad2(Show(n))) == n
  {
    ValueOfShow(n);
    if n < 10 {
      var s := Pad2(Show(n));
      assert s == ['0', Show(n)[0]];
      assert s[..1] == "0" && Show(n)[..0] == "";
      assert Value("0") == 0;
    }
  }

  /** Two more digits shift a number by two places. */
  lemma ValueOfTwoMore(a: string, b: string)
    requires Digits(a) && Digits(b) && |b| == 2
    ensures Digits(a + b) && Value(a + b) == 100 * Value(a) + Value(b)
  {
    var s := a + b;
    assert s[..|s| - 1] == a + b[..1];
    assert (a + b[..1])[..|a|] == a && b[..1][..0] == "";
    assert Digits(a + b[..1]);
    assert Value(a + b[..1]) == 10 * Value(a) + (b[0] as nat - '0' as nat);
    assert Value(b[..1]) == b[0] as nat - '0' as nat;
  }

  lemma ValueOfZeroMore(a: string)
    requires Digits(a)
    ensures Digits(a + "0") && Value(a + "0") == 10 * Value(a)
  {
    assert (a + "0")[..|a|] == a;
  }

  // ---------------------------------------------------------------- the floors

  /** The longest run of digits at the end. */
  function NumericSuffix(s: string): (digits: string)
    ensures Digits(digits) && |digits| <= |s|
  {
    if s == "" || !IsDigit(s[|s| - 1]) then "" else NumericSuffix(s[..|s| - 1]) + [s[|s| - 1]]
  }

  /** It is the end of the text, and what stands in front of it is no digit. */
  lemma {:induction false} NumericSuffixIsLongest(s: string) returns (front: string)
    ensures s == front + NumericSuffix(s)
    ensures front == "" || !IsDigit(front[|front| - 1])
  {
    if s == "" || !IsDigit(s[|s| - 1]) {
      front := s;
    } else {
      front := NumericSuffixIsLongest(s[..|s| - 1]);
      assert s == s[..|s| - 1] + [s[|s| - 1]];
    }
  }

  function Lane(suffix: string): (lane: nat)
    ensures lane <= 90
  {
    if suffix == "" then 90
    else
      var digits := NumericSuffix(suffix);
      if digits == "" then 1
      else if Value(digits) < 89 then Value(digits) else 89
  }

  lemma {:induction false} NumericSuffixOf(front: string, digits: string)
    requires Digits(digits) && (front == "" || !IsDigit(front[|front| - 1]))
    ensures NumericSuffix(front + digits) == digits
    decreases |digits|
  {
    if digits == "" {
      assert front + digits == front;
    } else {
      var s := front + digits;
      assert s[..|s| - 1] == front + digits[..|digits| - 1];
      NumericSuffixOf(front, digits[..|digits| - 1]);
    }
  }

  /**
   * The lanes: 90 for a stable release; for another one the number at its end, where all numbers from 89 on
   * share a lane, and 1 when it does not end in a number.
   */
  lemma LanesAre(front: string, digits: string)
    requires Digits(digits) && (front == "" || !IsDigit(front[|front| - 1]))
    ensures var lane := Lane(front + digits);
            if front + digits == "" then lane == 90
            else if digits == "" then lane == 1
            else lane == if Value(digits) <= 88 then Value(digits) else 89
  {
    NumericSuffixOf(front, digits);
  }

  /** A number at the end of a suffix, and what stands in front of it. */
  predicate EndsInNumber(front: string, digits: string) {
    Digits(digits) && digits != "" && front != "" && !IsDigit(front[|front| - 1])
  }

  /** A stable release has a higher lane than any other; among those with a number up to 88 at the end the higher number wins. */
  lemma LanesOrderReleases(front: string, digits: string, other: string, number: string)
    requires EndsInNumber(front, digits) && EndsInNumber(other, number)
    ensures Lane(front) < Lane("") && Lane(front + digits) < Lane("")
    ensures Value(digits) <= 88 && Value(digits) < Value(number) ==> Lane(front + digits) < Lane(other + number)
  {
    LanesAre(front, digits);
    LanesAre(other, number);
    LanesAre(front, "");
    assert front + "" == front;
  }

  predicate ValidDate(month: nat, day: nat) {
    1 <= month <= 12 && 1 <= day <= 31
  }

  /** A calendar version with its lane: 90 for a stable release, lower for the others. */
  datatype Version = Version(year: nat, month: nat, day: nat, lane: nat) {
    predicate Valid() {
      year <= 9999 && ValidDate(month, day) && lane <= 90
    }
  }

  function DateKey(v: Version): nat {
    10000 * v.year + 100 * v.month + v.day
  }

  lemma DateTextIsDigits(year: nat, month: nat, day: nat)
    requires ValidDate(month, day)
    ensures Digits(Show(year) + Pad2(Show(month)) + Pad2(Show(day)))
    ensures Value(Show(year) + Pad2(Show(month)) + Pad2(Show(day))) == DateKey(Version(year, month, day, 0))
  {
    ValueOfShow(year);
    ValueOfPadded(month);
    ValueOfPadded(day);
    ValueOfTwoMore(Show(year), Pad2(Show(month)));
    ValueOfTwoMore(Show(year) + Pad2(Show(month)), Pad2(Show(day)));
  }

  /** sparkleBuildFloorsFromShortVersion: the numbers are put together as text. */
  function FloorsFromShortVersion(shortVersion: string): Option<Floors> {
    var parts := MatchCalVer(Trim(shortVersion));
    if parts.None? then None
    else
      MatchIsSound(Trim(shortVersion));
      var p := parts.value;
      var year, month, day := Value(p.year), Value(p.month), Value(p.day);
      if !ValidDate(month, day) then None
      else
        DateTextIsDigits(year, month, day);
        var dateKey := Value(Show(year) + Pad2(Show(month)) + Pad2(Show(day)));
        var lane := Lane(p.suffix);
        ValueOfZeroMore(Show(dateKey));
        ValueOfPadded(lane);
        Some(Floors(dateKey, Value(Show(dateKey) + "0"), Value(Show(dateKey) + Pad2(Show(lane))), lane))
  }

  /** A calendar version of which the date exists. */
  predicate IsVersion(text: string, v: Version) {
    match MatchCalVer(text)
    case None => false
    case Some(p) =>
      MatchIsSound(text);
      && v.year == Value(p.year) && v.month == Value(p.month) && v.day == Value(p.day) && v.lane == Lane(p.suffix)
      && ValidDate(v.month, v.day)
  }

  function FloorsOf(v: Version): Floors {
    Floors(DateKey(v), 10 * DateKey(v), 100 * DateKey(v) + v.lane, v.lane)
  }

  lemma ShortValue(digits: string)
    requires Digits(digits) && |digits| == 4
    ensures Value(digits) <= 9999
  {
    assert digits[..3][..2] == digits[..2] && digits[..2][..1] == digits[..1] && digits[..1][..0] == "";
    assert Value(digits[..1]) <= 9;
    assert Value(digits[..2]) <= 99;
    assert Value(digits[..3]) <= 999;
  }

  /** Putting the floors together as text is arithmetic on the parts. */
  lemma FloorsAreArithmetic(shortVersion: string)
    ensures match FloorsFromShortVersion(shortVersion)
            case None => forall v :: !IsVersion(Trim(shortVersion), v)
            case Some(f) => exists v :: IsVersion(Trim(shortVersion), v) && v.Valid() && f == FloorsOf(v)
  {
    var text := Trim(shortVersion);
    var floors := FloorsFromShortVersion(shortVersion);
    if floors.Some? {
      MatchIsSound(text);
      var p := MatchCalVer(text).value;
      var v := Version(Value(p.year), Value(p.month), Value(p.day), Lane(p.suffix));
      ShortValue(p.year);
      DateTextIsDigits(v.year, v.month, v.day);
      ValueOfShow(DateKey(v));
      ValueOfZeroMore(Show(DateKey(v)));
      ValueOfPadded(v.lane);
      ValueOfTwoMore(Show(DateKey(v)), Pad2(Show(v.lane)));
      assert IsVersion(text, v) && v.Valid() && floors.value == FloorsOf(v);
    }
  }

  // ---------------------------------------------------------------- the order of the floors

  const LANE_BUILD_MIN := 1_000_000_000

  predicate Before(v: Version, w: Version) {
    || v.year < w.year
    || (v.year == w.year && v.month < w.month)
    || (v.year == w.year && v.month == w.month && v.day < w.day)
    || (v.year == w.year && v.month == w.month && v.day == w.day && v.lane < w.lane)
  }

  /** The lane floor orders versions exactly by date, then by lane. */
  lemma LaneFloorOrdersVersions(v: Version, w: Version)
    requires v.Valid() && w.Valid()
    ensures FloorsOf(v).laneFloor < FloorsOf(w).laneFloor <==> Before(v, w)
    ensures FloorsOf(v).laneFloor == FloorsOf(w).laneFloor <==> v == w
  {
  }

  /** Legacy floors stay below the smallest lane build; lane floors reach it exactly from the year 1000 on. */
  lemma FloorsAreSeparated(v: Version)
    requires v.Valid()
    ensures FloorsOf(v).legacyFloor < LANE_BUILD_MIN
    ensures FloorsOf(v).laneFloor >= LANE_BUILD_MIN <==> v.year >= 1000
  {
  }
}
