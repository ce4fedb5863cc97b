/** RFC 3339 timestamps as exact nanoseconds: apps/admin/control-plane.js. */
module Timestamps {
  import opened Decimals
  import opened Lists

  const NANOS_PER_MILLISECOND := 1_000_000
  const MAX_SAFE := 9007199254740991

  predicate SafeInteger(n: int) {
    -MAX_SAFE <= n <= MAX_SAFE
  }

  // ---- the pattern, alternative by alternative ----

  predicate DigitsAt(s: string, from: nat, count: nat)
    requires from + count <= |s|
  {
    forall i :: from <= i < from + count ==> IsDigit(s[i])
  }

  /** 0[1-9]|[12][0-9] */
  predicate DayTo29(a: char, b: char) {
    (a == '0' && '1' <= b <= '9') || ('1' <= a <= '2' && IsDigit(b))
  }

  /** Every date except the 29th of February, whatever the year. */
  predicate CommonDate(s: string)
    requires |s| == 10
  {
    && DigitsAt(s, 0, 4) && s[4] == '-' && s[7] == '-'
    && var m, n, a, b := s[5], s[6], s[8], s[9];
       || (((m == '0' && n in {'1', '3', '5', '7', '8'}) || (m == '1' && n in {'0', '2'}))
           && (DayTo29(a, b) || (a == '3' && b in {'0', '1'})))
       || (((m == '0' && n in {'4', '6', '9'}) || (m == '1' && n == '1'))
           && (DayTo29(a, b) || (a == '3' && b == '0')))
       || (m == '0' && n == '2' && DayTo29(a, b) && !(a == '2' && b == '9'))
  }

  /** The 29th of February, for the year patterns that the expression allows it in. */
  predicate LeapDate(s: string)
    requires |s| == 10
  {
    && s[4..] == "-02-29"
    && (|| (DigitsAt(s, 0, 2) && LeapPair(s[2], s[3], false))
        || (LeapPair(s[0], s[1], true) && s[2] == '0' && s[3] == '0'))
  }

  /** 0[48]|[2468][048]|[13579][26], or with zero allowed in front: [02468][048]|[13579][26]. */
  predicate LeapPair(a: char, b: char, zero: bool) {
    || (a == '0' && (b in {'4', '8'} || (zero && b == '0')))
    || (a in {'2', '4', '6', '8'} && b in {'0', '4', '8'})
    || (a in {'1', '3', '5', '7', '9'} && b in {'2', '6'})
  }

  predicate DatePattern(s: string) {
    |s| == 10 && (CommonDate(s) || LeapDate(s))
  }

  predicate TimePattern(s: string) {
    && |s| == 8 && s[2] == ':' && s[5] == ':'
    && (('0' <= s[0] <= '1' && IsDigit(s[1])) || (s[0] == '2' && '0' <= s[1] <= '3'))
    && '0' <= s[3] <= '5' && IsDigit(s[4])
    && '0' <= s[6] <= '5' && IsDigit(s[7])
  }

  predicate ZonePattern(s: string) {
    || s == "Z"
    || (&& |s| == 6 && s[0] in {'+', '-'} && s[3] == ':'
        && (|| (((s[1] == '0' && IsDigit(s[2])) || (s[1] == '1' && '0' <= s[2] <= '3'))
                && '0' <= s[4] <= '5' && IsDigit(s[5]))
            || s[1..] == "14:00"))
  }

  // ---- a timestamp and its parts ----

  datatype Parts = Parts(date: string, time: string, fraction: Digits, zone: string)

  predicate Accepted(p: Parts) {
    DatePattern(p.date) && TimePattern(p.time) && |p.fraction| <= 9 && ZonePattern(p.zone)
  }

  function Compose(p: Parts): string {
    p.date + "T" + p.time + (if p.fraction == "" then "" else "." + p.fraction) + p.zone
  }

  function DigitRun(s: string): (k: nat)
    ensures k <= |s| && AllDigits(s[..k]) && forall i :: 0 <= i < k ==> IsDigit(s[i])
    ensures k < |s| ==> !IsDigit(s[k])
  {
    if s == "" || !IsDigit(s[0]) then 0 else 1 + DigitRun(s[1..])
  }

  /** The optional fraction and the zone behind it; a point without digits leaves no zone. */
  function SplitTail(tail: string): (Digits, string) {
    if tail == "" || tail[0] != '.' then ("", tail)
    else
      var run := DigitRun(tail[1..]);
      if run == 0 then ("", "") else (tail[1..][..run], tail[1..][run..])
  }

  /** What the two expressions together make of a text. */
  function Split(s: string): Option<Parts> {
    if |s| < 20 || s[10] != 'T' then None
    else
      var (fraction, zone) := SplitTail(s[19..]);
      var p := Parts(s[..10], s[11..19], fraction, zone);
      if Accepted(p) then Some(p) else None
  }

  function Tail(fraction: Digits, zone: string): string {
    (if fraction == "" then "" else "." + fraction) + zone
  }

  lemma TailSplits(fraction: Digits, zone: string)
    requires zone != "" && !IsDigit(zone[0]) && zone[0] != '.'
    ensures SplitTail(Tail(fraction, zone)) == (fraction, zone)
  {
    if fraction != "" {
      DigitRunOf(fraction, zone);
      assert Tail(fraction, zone)[1..] == fraction + zone;
      assert (fraction + zone)[..|fraction|] == fraction && (fraction + zone)[|fraction|..] == zone;
    } else {
      assert Tail(fraction, zone) == zone;
    }
  }

  lemma SplitTailComposes(tail: string)
    requires SplitTail(tail).1 != ""
    ensures Tail(SplitTail(tail).0, SplitTail(tail).1) == tail
  {
  }

  lemma DigitRunOf(f: Digits, tail: string)
    requires tail != "" && !IsDigit(tail[0])
    ensures DigitRun(f + tail) == |f|
  {
    var s := f + tail;
    assert forall i :: 0 <= i < |f| ==> s[i] == f[i];
    assert s[|f|] == tail[0];
  }

  /** Splitting accepts exactly the texts composed of accepted parts, and returns those parts. */
  lemma SplitExact(s: string, p: Parts)
    ensures Split(s) == Some(p) <==> Accepted(p) && Compose(p) == s
  {
    if Split(s) == Some(p) {
      SplitComposes(s);
    }
    if Accepted(p) && Compose(p) == s {
      ComposeSplits(p);
    }
  }

  lemma ZoneStart(zone: string)
    requires ZonePattern(zone)
    ensures zone != "" && !IsDigit(zone[0]) && zone[0] != '.'
  {
  }

  lemma PiecesJoin(s: string)
    requires |s| >= 20 && s[10] == 'T'
    ensures s == s[..10] + "T" + s[11..19] + s[19..]
  {
  }

  lemma ComposeWithTail(p: Parts)
    ensures Compose(p) == p.date + "T" + p.time + Tail(p.fraction, p.zone)
  {
  }

  lemma SplitComposes(s: string)
    requires Split(s).Some?
    ensures Compose(Split(s).value) == s
  {
    var p := Split(s).value;
    ZoneStart(p.zone);
    SplitTailComposes(s[19..]);
    PiecesJoin(s);
    ComposeWithTail(p);
  }

  lemma ComposeSplits(p: Parts)
    requires Accepted(p)
    ensures Split(Compose(p)) == Some(p)
  {
    ZoneStart(p.zone);
    TailSplits(p.fraction, p.zone);
    ComposeWithTail(p);
    PiecesOf(p.date, p.time, Tail(p.fraction, p.zone));
  }

  lemma PiecesOf(date: string, time: string, tail: string)
    requires |date| == 10 && |time| == 8
    ensures var s := date + "T" + time + tail;
            s[..10] == date && s[10] == 'T' && s[11..19] == time && s[19..] == tail
  {
    var s := date + "T" + time + tail;
    assert s[..10] == date;
    assert s[11..19] == time;
    assert s[19..] == tail;
  }

  // ---- reading the parts ----

  function Two(s: string, i: nat): (n: nat)
    requires i + 2 <= |s| && DigitsAt(s, i, 2)
    ensures n <= 99
  {
    10 * Digit(s[i]) + Digit(s[i + 1])
  }

  predicate DateShape(s: string) {
    |s| == 10 && DigitsAt(s, 0, 4) && s[4] == '-' && DigitsAt(s, 5, 2) && s[7] == '-' && DigitsAt(s, 8, 2)
  }

  function Year(s: string): (y: nat)
    requires DateShape(s)
    ensures y <= 9999
  {
    100 * Two(s, 0) + Two(s, 2)
  }

  predicate Leap(y: int) {
    y % 4 == 0 && (y % 100 != 0 || y % 400 == 0)
  }

  function DaysInMonth(y: int, m: int): int {
    if m == 2 then (if Leap(y) then 29 else 28)
    else if m in {4, 6, 9, 11} then 30
    else 31
  }

  /** A day that exists in the Gregorian calendar (section 5.7 and Appendix C of RFC 3339). */
  predicate GregorianDay(y: int, m: int, d: int) {
    1 <= m <= 12 && 1 <= d <= DaysInMonth(y, m)
  }

  lemma LeapDigits(a: nat, b: nat, c: nat, d: nat)
    requires a <= 9 && b <= 9 && c <= 9 && d <= 9
    ensures var y := 100 * (10 * a + b) + (10 * c + d);
            && (y % 4 == 0 <==> (2 * c + d) % 4 == 0)
            && (y % 100 == 0 <==> c == 0 && d == 0)
            && (y % 400 == 0 <==> c == 0 && d == 0 && (2 * a + b) % 4 == 0)
  {
    var h, l := 10 * a + b, 10 * c + d;
    Multiples(25 * h, l);
    Multiples(2 * c, 2 * c + d);
    Multiples(2 * a, 2 * a + b);
    Hundreds(h, l);
  }

  lemma Multiples(k: int, x: int)
    ensures (4 * k + x) % 4 == x % 4
  {
  }

  lemma Hundreds(h: nat, l: nat)
    requires l < 100
    ensures (100 * h + l) % 100 == l
    ensures (100 * h + l) % 400 == 0 <==> l == 0 && h % 4 == 0
  {
    var q, r := h / 4, h % 4;
    assert 100 * h + l == 400 * q + (100 * r + l);
    assert (100 * h + l) / 400 == q;
  }

  lemma LeapPairMeaning(a: char, b: char, zero: bool)
    requires IsDigit(a) && IsDigit(b)
    ensures LeapPair(a, b, zero) <==>
              (2 * Digit(a) + Digit(b)) % 4 == 0 && (zero || Digit(a) > 0 || Digit(b) > 0)
  {
  }

  lemma CommonDateMeaning(s: string)
    requires |s| == 10
    ensures CommonDate(s) <==>
              DateShape(s) && 1 <= Two(s, 5) <= 12 && 1 <= Two(s, 8) <= DaysInMonth(1, Two(s, 5))
  {
  }

  /** The year patterns of the 29th of February are the leap years. */
  lemma LeapPatternMeaning(a: char, b: char, c: char, d: char)
    requires IsDigit(a) && IsDigit(b) && IsDigit(c) && IsDigit(d)
    ensures LeapPair(c, d, false) || (LeapPair(a, b, true) && c == '0' && d == '0')
            <==> Leap(100 * (10 * Digit(a) + Digit(b)) + (10 * Digit(c) + Digit(d)))
  {
    LeapDigits(Digit(a), Digit(b), Digit(c), Digit(d));
    LeapPairMeaning(a, b, true);
    LeapPairMeaning(c, d, false);
  }

  lemma LeapDateMeaning(s: string)
    requires |s| == 10
    ensures LeapDate(s) <==> DateShape(s) && Two(s, 5) == 2 && Two(s, 8) == 29 && Leap(Year(s))
  {
    assert s[4..] == "-02-29" <==>
      s[4] == '-' && s[5] == '0' && s[6] == '2' && s[7] == '-' && s[8] == '2' && s[9] == '9';
    if DigitsAt(s, 0, 4) {
      LeapPatternMeaning(s[0], s[1], s[2], s[3]);
    } else {
      assert !LeapDate(s);
    }
  }

  /** The date part of the pattern accepts exactly the days that exist. */
  lemma DatePatternIsGregorian(s: string)
    ensures DatePattern(s) <==> DateShape(s) && GregorianDay(Year(s), Two(s, 5), Two(s, 8))
  {
    if |s| == 10 {
      CommonDateMeaning(s);
      LeapDateMeaning(s);
    }
  }

  // ---- the calendar and the instant ----

  /** Days from the epoch to the first day of a year (section 21.4.1.4 of ECMA-262). */
  function DaysBeforeYear(y: int): int {
    365 * (y - 1970) + (y - 1969) / 4 - (y - 1901) / 100 + (y - 1601) / 400
  }

  function DaysBeforeMonth(y: int, m: int): int
    requires 1 <= m <= 12
  {
    [0, 31, 59, 90, 120, 151, 181, 212, 243, 273, 304, 334][m - 1] + (if m > 2 && Leap(y) then 1 else 0)
  }

  function DayNumber(y: int, m: int, d: int): int
    requires 1 <= m <= 12
  {
    DaysBeforeYear(y) + DaysBeforeMonth(y, m) + d - 1
  }

  function NextDay(y: int, m: int, d: int): (int, int, int) {
    if d < DaysInMonth(y, m) then (y, m, d + 1)
    else if m < 12 then (y, m + 1, 1)
    else (y + 1, 1, 1)
  }

  lemma YearLength(y: int)
    ensures DaysBeforeYear(y + 1) == DaysBeforeYear(y) + (if Leap(y) then 366 else 365)
  {
    FourthYear(y - 1969);
    HundredthYear(y - 1901);
    FourHundredthYear(y - 1601);
    CenturiesNest(y);
  }

  lemma CenturiesNest(y: int)
    ensures (y % 400 == 0 ==> y % 100 == 0) && (y % 100 == 0 ==> y % 4 == 0)
  {
  }

  lemma FourthYear(x: int)
    ensures (x + 1) / 4 == x / 4 + (if (x + 1969) % 4 == 0 then 1 else 0)
  {
  }

  lemma HundredthYear(x: int)
    ensures (x + 1) / 100 == x / 100 + (if (x + 1901) % 100 == 0 then 1 else 0)
  {
  }

  lemma FourHundredthYear(x: int)
    ensures (x + 1) / 400 == x / 400 + (if (x + 1601) % 400 == 0 then 1 else 0)
  {
  }

  lemma MonthLength(y: int, m: int)
    requires 1 <= m <= 12
    ensures m < 12 ==> DaysBeforeMonth(y, m + 1) == DaysBeforeMonth(y, m) + DaysInMonth(y, m)
    ensures m == 12 ==> DaysBeforeMonth(y, m) + DaysInMonth(y, m) == if Leap(y) then 366 else 365
  {
  }

  /** The day number counts calendar days: the epoch is day 0 and each next day adds one. */
  lemma DayNumberCounts(y: int, m: int, d: int)
    requires GregorianDay(y, m, d)
    ensures DayNumber(1970, 1, 1) == 0
    ensures var (y', m', d') := NextDay(y, m, d);
            GregorianDay(y', m', d') && DayNumber(y', m', d') == DayNumber(y, m, d) + 1
  {
    EpochIsZero();
    if d < DaysInMonth(y, m) {
    } else if m < 12 {
      MonthLength(y, m);
    } else {
      YearEnd(y);
    }
  }

  lemma EpochIsZero()
    ensures DayNumber(1970, 1, 1) == 0
  {
  }

  lemma YearEnd(y: int)
    ensures DayNumber(y + 1, 1, 1) == DayNumber(y, 12, 31) + 1
  {
    YearLength(y);
  }

  lemma {:induction false} YearsGrow(y: int, z: int)
    requires y < z
    ensures DaysBeforeYear(y + 1) <= DaysBeforeYear(z)
    decreases z - y
  {
    if y + 1 < z {
      YearsGrow(y, z - 1);
      YearLength(z - 1);
    }
  }

  predicate DateLess(y: int, m: int, d: int, y': int, m': int, d': int) {
    y < y' || (y == y' && (m < m' || (m == m' && d < d')))
  }

  lemma EarlierDate(y: int, m: int, d: int, y': int, m': int, d': int)
    requires GregorianDay(y, m, d) && GregorianDay(y', m', d') && DateLess(y, m, d, y', m', d')
    ensures DayNumber(y, m, d) < DayNumber(y', m', d')
  {
    if y < y' {
      YearLength(y);
      YearsGrow(y, y');
    }
  }

  function Hour(p: Parts): (n: nat)
    requires TimePattern(p.time)
    ensures n <= 23
  {
    Two(p.time, 0)
  }

  function Minute(p: Parts): (n: nat)
    requires TimePattern(p.time)
    ensures n <= 59
  {
    Two(p.time, 3)
  }

  function Second(p: Parts): (n: nat)
    requires TimePattern(p.time)
    ensures n <= 59
  {
    Two(p.time, 6)
  }

  /** Minutes the zone is ahead of UTC. */
  function OffsetMinutes(zone: string): (n: int)
    requires ZonePattern(zone)
    ensures -840 <= n <= 840
  {
    if zone == "Z" then 0
    else
      var size := 60 * Two(zone, 1) + Two(zone, 4);
      if zone[0] == '-' then -size else size
  }

  function Day(p: Parts): int
    requires Accepted(p)
  {
    DatePatternIsGregorian(p.date);
    DayNumber(Year(p.date), Two(p.date, 5), Two(p.date, 8))
  }

  function SecondOfDay(p: Parts): (n: nat)
    requires TimePattern(p.time)
    ensures n < 86400
  {
    (Hour(p) * 60 + Minute(p)) * 60 + Second(p)
  }

  /** `Date.parse` of the text without its fraction. */
  function EpochMilliseconds(p: Parts): int
    requires Accepted(p)
  {
    (Day(p) * 86400 + SecondOfDay(p) - OffsetMinutes(p.zone) * 60) * 1000
  }

  lemma NineZeros()
    ensures Pow10(9) == 1_000_000_000
  {
    assert Pow10(4) == 10_000;
    Pow10Add(4, 5);
    assert Pow10(5) == 10 * Pow10(4);
  }

  function FractionNanos(p: Parts): (n: nat)
    requires |p.fraction| <= 9
    ensures n < 1_000_000_000
  {
    PadScales(p.fraction, 9);
    ValBound(PadZeros(p.fraction, 9));
    NineZeros();
    Val(PadZeros(p.fraction, 9))
  }

  function ParseNanoseconds(s: string): Option<int> {
    match Split(s)
    case None => None
    case Some(p) =>
      var ms := EpochMilliseconds(p);
      if !SafeInteger(ms) then None else Some(ms * NANOS_PER_MILLISECOND + FractionNanos(p))
  }

  lemma DayBounds(p: Parts)
    requires Accepted(p)
    ensures -719528 <= Day(p) <= 2932896
  {
    DatePatternIsGregorian(p.date);
    var y, m, d := Year(p.date), Two(p.date, 5), Two(p.date, 8);
    if DateLess(0, 1, 1, y, m, d) {
      EarlierDate(0, 1, 1, y, m, d);
    }
    if DateLess(y, m, d, 9999, 12, 31) {
      EarlierDate(y, m, d, 9999, 12, 31);
    }
  }

  /** The instant written by accepted parts. */
  function Instant(p: Parts): int
    requires Accepted(p)
  {
    (Day(p) * 86400 + SecondOfDay(p) - OffsetMinutes(p.zone) * 60) * 1_000_000_000 + FractionNanos(p)
  }

  /** Parsing fails only on texts the pattern refuses: an accepted instant is never too large to hold. */
  lemma ParseIsInstant(s: string)
    ensures ParseNanoseconds(s) == if Split(s).Some? then Some(Instant(Split(s).value)) else None
    ensures Split(s).Some? ==>
              -63_000_000_000 * 1_000_000_000 < Instant(Split(s).value) < 254_000_000_000 * 1_000_000_000
  {
    if Split(s).Some? {
      DayBounds(Split(s).value);
    }
  }

  // ---- order ----

  datatype Fields = Fields(year: int, month: int, day: int, hour: int, minute: int, second: int, nanos: int)

  function FieldsOf(p: Parts): Fields
    requires Accepted(p)
  {
    DatePatternIsGregorian(p.date);
    Fields(Year(p.date), Two(p.date, 5), Two(p.date, 8), Hour(p), Minute(p), Second(p), FractionNanos(p))
  }

  predicate Before(f: Fields, g: Fields) {
    || f.year < g.year
    || (f.year == g.year && (|| f.month < g.month
                             || (f.month == g.month && (f.day < g.day || (f.day == g.day && TimeBefore(f, g))))))
  }

  predicate TimeBefore(f: Fields, g: Fields) {
    || f.hour < g.hour
    || (f.hour == g.hour && (|| f.minute < g.minute
                             || (f.minute == g.minute && (|| f.second < g.second
                                                          || (f.second == g.second && f.nanos < g.nanos)))))
  }

  lemma EarlierInstant(p: Parts, q: Parts)
    requires Accepted(p) && Accepted(q) && OffsetMinutes(p.zone) == OffsetMinutes(q.zone)
    requires Before(FieldsOf(p), FieldsOf(q))
    ensures Instant(p) < Instant(q)
  {
    var f, g := FieldsOf(p), FieldsOf(q);
    DatePatternIsGregorian(p.date);
    DatePatternIsGregorian(q.date);
    if DateLess(f.year, f.month, f.day, g.year, g.month, g.day) {
      EarlierDate(f.year, f.month, f.day, g.year, g.month, g.day);
      assert Day(p) * 86400 + 86400 <= Day(q) * 86400;
    }
  }

  /** With equal offsets the instants are ordered exactly as the written fields are. */
  lemma OrderIsLexicographic(p: Parts, q: Parts)
    requires Accepted(p) && Accepted(q) && OffsetMinutes(p.zone) == OffsetMinutes(q.zone)
    ensures Instant(p) < Instant(q) <==> Before(FieldsOf(p), FieldsOf(q))
    ensures Instant(p) == Instant(q) <==> FieldsOf(p) == FieldsOf(q)
  {
    var f, g := FieldsOf(p), FieldsOf(q);
    if Before(f, g) {
      EarlierInstant(p, q);
    } else if Before(g, f) {
      EarlierInstant(q, p);
    } else {
      assert f == g;
    }
  }

  lemma {:induction false} PadKeepsFraction(f: Digits, width: nat)
    ensures Fraction(PadZeros(f, width)) == Fraction(f)
    decreases width - |f|
  {
    if |f| < width {
      TrailingZero(f);
      PadKeepsFraction(f + "0", width);
    }
  }

  lemma PaddedScales(f: Digits, width: nat)
    requires |f| <= width
    ensures Scaled(Fraction(f), Pow10(width), Val(PadZeros(f, width)))
  {
    assert |PadZeros(f, width)| == width by { PadScales(f, width); }
    PadKeepsFraction(f, width);
    FractionScaled(PadZeros(f, width));
  }

  /** The nanoseconds are the written fraction exactly. */
  lemma NanosAreExact(p: Parts)
    requires |p.fraction| <= 9
    ensures FractionNanos(p) as real == Fraction(p.fraction) * 1_000_000_000.0
  {
    PaddedScales(p.fraction, 9);
    NineZeros();
    assert Scaled(Fraction(p.fraction), 1_000_000_000, FractionNanos(p));
  }

  /** Two fractions of equal value, such as .5 and .500, give the same instant, and only such fractions do. */
  lemma EqualFractionsEqualInstants(p: Parts, fraction: Digits)
    requires Accepted(p) && |fraction| <= 9
    ensures Accepted(p.(fraction := fraction))
    ensures Instant(p.(fraction := fraction)) == Instant(p) <==> Fraction(fraction) == Fraction(p.fraction)
  {
    NanosAreExact(p);
    NanosAreExact(p.(fraction := fraction));
  }

  /** Writing the same local time in another zone moves the instant by exactly the zone's offset. */
  lemma OffsetShifts(p: Parts, zone: string)
    requires Accepted(p) && ZonePattern(zone)
    ensures Accepted(p.(zone := zone))
    ensures Instant(p.(zone := zone))
            == Instant(p) + (OffsetMinutes(p.zone) - OffsetMinutes(zone)) * 60 * 1_000_000_000
  {
  }

  // ---- what the written digits mean ----

  /** The number that two written digits make. */
  function Pair(a: char, b: char): int
    requires IsDigit(a) && IsDigit(b)
  {
    10 * (a as int - '0' as int) + (b as int - '0' as int)
  }

  /** The seconds since the epoch that a date and a time write in UTC, digit by digit. */
  function WrittenSeconds(date: string, time: string): int
    requires DatePattern(date) && TimePattern(time)
  {
    DatePatternIsGregorian(date);
    var year := 100 * Pair(date[0], date[1]) + Pair(date[2], date[3]);
    DayNumber(year, Pair(date[5], date[6]), Pair(date[8], date[9])) * 86400
    + 3600 * Pair(time[0], time[1]) + 60 * Pair(time[3], time[4]) + Pair(time[6], time[7])
  }

  /** The seconds that a zone takes off the written time, digit by digit: east of Greenwich noon comes earlier. */
  function ZoneSeconds(zone: string): int
    requires ZonePattern(zone)
  {
    if zone == "Z" then 0
    else
      var minutes := 60 * Pair(zone[1], zone[2]) + Pair(zone[4], zone[5]);
      if zone[0] == '+' then 60 * minutes else -60 * minutes
  }

  /** What is parsed from a composed text: the written time in UTC, the zone taken off, and the fraction added. */
  lemma ParseMeansWritten(p: Parts)
    requires Accepted(p)
    ensures var seconds := WrittenSeconds(p.date, p.time) - ZoneSeconds(p.zone);
            && ParseNanoseconds(Compose(p)).Some?
            && ParseNanoseconds(Compose(p)).value as real
               == (seconds as real + Fraction(p.fraction)) * 1_000_000_000.0
  {
    ComposeSplits(p);
    ParseIsInstant(Compose(p));
    NanosAreExact(p);
    ZoneMeansWritten(p.zone);
    TimeMeansWritten(p);
    InNanoseconds(WrittenSeconds(p.date, p.time) - ZoneSeconds(p.zone), FractionNanos(p), Fraction(p.fraction));
  }

  lemma InNanoseconds(seconds: int, nanos: int, fraction: real)
    requires nanos as real == fraction * 1_000_000_000.0
    ensures (seconds * 1_000_000_000 + nanos) as real == (seconds as real + fraction) * 1_000_000_000.0
  {
    assert (seconds * 1_000_000_000) as real == seconds as real * 1_000_000_000.0;
  }

  lemma ZoneMeansWritten(zone: string)
    requires ZonePattern(zone)
    ensures OffsetMinutes(zone) * 60 == ZoneSeconds(zone)
  {
  }

  lemma TimeMeansWritten(p: Parts)
    requires Accepted(p)
    ensures Day(p) * 86400 + SecondOfDay(p) == WrittenSeconds(p.date, p.time)
  {
    DatePatternIsGregorian(p.date);
  }

  lemma EpochText()
    ensures Compose(Parts("1970-01-01", "00:00:00", "", "Z")) == "1970-01-01T00:00:00Z"
  {
  }

  lemma EpochDigits()
    ensures DatePattern("1970-01-01") && TimePattern("00:00:00")
    ensures WrittenSeconds("1970-01-01", "00:00:00") == 0
  {
    var date := "1970-01-01";
    assert date[0] == '1' && date[1] == '9' && date[2] == '7' && date[3] == '0' && date[4] == '-';
    assert CommonDate(date);
    EpochIsZero();
  }

  /** The epoch's own text is instant 0. */
  lemma EpochTextIsZero()
    ensures ParseNanoseconds("1970-01-01T00:00:00Z") == Some(0)
  {
    var p := Parts("1970-01-01", "00:00:00", "", "Z");
    EpochText();
    EpochDigits();
    ParseMeansWritten(p);
    assert ParseNanoseconds(Compose(p)).value as real == 0.0;
  }

  /** A time of day: six digits in pairs, up to 23 hours, 59 minutes and 59 seconds. */
  lemma TimePatternExactly(s: string)
    ensures TimePattern(s) <==>
              && |s| == 8 && DigitsAt(s, 0, 2) && s[2] == ':' && DigitsAt(s, 3, 2) && s[5] == ':' && DigitsAt(s, 6, 2)
              && Pair(s[0], s[1]) <= 23 && Pair(s[3], s[4]) <= 59 && Pair(s[6], s[7]) <= 59
  {
  }

  /** A zone: Z, or hours and minutes east or west, at most fourteen hours in all. */
  lemma ZonePatternExactly(s: string)
    ensures ZonePattern(s) <==>
              || s == "Z"
              || (&& |s| == 6 && s[0] in "+-" && DigitsAt(s, 1, 2) && s[3] == ':' && DigitsAt(s, 4, 2)
                  && Pair(s[4], s[5]) <= 59 && 60 * Pair(s[1], s[2]) + Pair(s[4], s[5]) <= 14 * 60)
  {
    if |s| == 6 {
      assert s[1..] == "14:00" <==> s[1] == '1' && s[2] == '4' && s[3] == ':' && s[4] == '0' && s[5] == '0';
    }
  }
}
