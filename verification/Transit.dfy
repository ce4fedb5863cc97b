/** Sailing durations: apps/console/maritime-query.js and `transitRange` in apps/console/maritime.js. */
module Transit {
  import opened Decimals
  import opened Lists

  /** A source's total duration; a missing or null total is None. */
  datatype Transit = Transit(days: Option<string>, hours: Option<string>, minutes: Option<string>)

  const UNKNOWN := "未提供"
  const RANGE_PENDING := "航程待确认"

  function DaysText(days: string): string {
    days + " 天"
  }

  function HoursText(hours: string): string {
    hours + " 小时"
  }

  function BothText(days: string, hours: string): string {
    DaysText(days) + " " + HoursText(hours)
  }

  /** Days, hours or both, as the two quantities call for. */
  function Joined(days: string, rest: string, someDays: bool, someRest: bool): string {
    if !someDays then HoursText(rest) else if someRest then BothText(days, rest) else DaysText(days)
  }

  /** The branch of the label that splits hours into days and a remainder. */
  function HoursLabel(d: Decimal): string {
    var days, remainder, fraction := Val(d.whole) / 24, Val(d.whole) % 24, StripZeros(d.fraction);
    Joined(Show(days), DecimalText(Decimal(Show(remainder), fraction)), days > 0, remainder > 0 || fraction != "")
  }

  function TransitLabel(t: Transit): string {
    if t.days.Some? then DaysText(t.days.value)
    else if t.hours.None? then (if t.minutes.Some? then t.minutes.value + " 分钟" else UNKNOWN)
    else
      match ParseDecimal(t.hours.value)
      case None => HoursText(t.hours.value)
      case Some(d) => HoursLabel(d)
  }

  function HoursOnly(hours: string): Transit {
    Transit(None, Some(hours), None)
  }

  // ---- reading a label back ----

  /** The words of a label, split at single spaces. */
  function Words(s: string): (w: seq<string>)
    ensures |w| >= 1
  {
    if s == "" then [""]
    else
      var rest := Words(s[1..]);
      if s[0] == ' ' then [""] + rest else [[s[0]] + rest[0]] + rest[1..]
  }

  /** What a reader takes "3 天", "3 天 5.5 小时" and "5.5 小时" to mean, in hours. */
  function ReadLabel(text: string): Option<real> {
    ReadWords(Words(text))
  }

  function ReadWords(w: seq<string>): Option<real> {
    if |w| == 2 && w[1] == "小时" then ReadNumber(w[0])
    else if |w| == 2 && w[1] == "天" then Scale(ReadNumber(w[0]), 24.0, Some(0.0))
    else if |w| == 4 && w[1] == "天" && w[3] == "小时" then Scale(ReadNumber(w[0]), 24.0, ReadNumber(w[2]))
    else None
  }

  function ReadNumber(s: string): Option<real> {
    match ParseDecimal(s) case None => None case Some(d) => Some(Number(d))
  }

  function Scale(x: Option<real>, factor: real, y: Option<real>): Option<real> {
    if x.Some? && y.Some? then Some(x.value * factor + y.value) else None
  }

  predicate NoSpace(s: string) {
    forall i :: 0 <= i < |s| ==> s[i] != ' '
  }

  lemma {:induction false} WordsOf(a: string)
    requires NoSpace(a)
    ensures Words(a) == [a]
  {
    if a != "" {
      WordsOf(a[1..]);
      assert [a[0]] + a[1..] == a;
    }
  }

  lemma {:induction false} WordsSplit(a: string, b: string)
    requires NoSpace(a)
    ensures Words(a + " " + b) == [a] + Words(b)
  {
    var s := a + " " + b;
    if a == "" {
      assert s[1..] == b;
    } else {
      WordsSplit(a[1..], b);
      assert s[1..] == a[1..] + " " + b;
      assert [a[0]] + a[1..] == a;
    }
  }

  lemma DecimalTextReads(d: Decimal)
    requires Decimals.WellFormed(d)
    ensures ReadNumber(DecimalText(d)) == Some(Number(d)) && NoSpace(DecimalText(d))
  {
    ParseDecimalExact(DecimalText(d), d);
  }

  lemma ReadShown(n: nat, fraction: Digits)
    ensures ReadNumber(DecimalText(Decimal(Show(n), fraction))) == Some(n as real + Fraction(fraction))
    ensures NoSpace(DecimalText(Decimal(Show(n), fraction)))
  {
    DecimalTextReads(Decimal(Show(n), fraction));
    ShowReadsBack(n);
  }

  lemma ReadShownWhole(n: nat)
    ensures ReadNumber(Show(n)) == Some(n as real) && NoSpace(Show(n))
  {
    ReadShown(n, "");
    assert DecimalText(Decimal(Show(n), "")) == Show(n);
  }

  lemma WordsOfDays(days: string)
    requires NoSpace(days)
    ensures Words(DaysText(days)) == [days, "天"]
  {
    WordsOf("天");
    WordsSplit(days, "天");
    assert DaysText(days) == days + " " + "天";
  }

  lemma WordsOfHours(hours: string)
    requires NoSpace(hours)
    ensures Words(HoursText(hours)) == [hours, "小时"]
  {
    WordsOf("小时");
    WordsSplit(hours, "小时");
    assert HoursText(hours) == hours + " " + "小时";
  }

  lemma WordsOfBoth(days: string, hours: string)
    requires NoSpace(days) && NoSpace(hours)
    ensures Words(BothText(days, hours)) == [days, "天", hours, "小时"]
  {
    WordsOfHours(hours);
    WordsSplit("天", HoursText(hours));
    WordsSplit(days, "天" + " " + HoursText(hours));
    assert BothText(days, hours) == days + " " + ("天" + " " + HoursText(hours));
  }

  lemma JoinedReads(text: string, days: string, rest: string, someDays: bool, someRest: bool, x: real, y: real)
    requires text == Joined(days, rest, someDays, someRest)
    requires NoSpace(days) && NoSpace(rest)
    requires ReadNumber(days) == Some(x) && ReadNumber(rest) == Some(y)
    requires (!someDays ==> x == 0.0) && (!someRest ==> y == 0.0)
    ensures ReadLabel(text) == Some(x * 24.0 + y)
  {
    if !someDays {
      WordsOfHours(rest);
    } else if someRest {
      WordsOfBoth(days, rest);
    } else {
      WordsOfDays(days);
    }
  }

  lemma ReadDays(n: nat)
    ensures ReadLabel(DaysText(Show(n))) == Some(n as real * 24.0)
  {
    ReadShownWhole(n);
    WordsOfDays(Show(n));
  }

  lemma SplitHours(w: Digits, f: Digits)
    ensures var days, remainder, fraction := Val(w) / 24, Val(w) % 24, StripZeros(f);
            && Number(Decimal(w, f)) == days as real * 24.0 + (remainder as real + Fraction(fraction))
            && (remainder == 0 && fraction == "" ==> remainder as real + Fraction(fraction) == 0.0)
  {
    StripKeepsFraction(f);
    assert Val(w) == 24 * (Val(w) / 24) + Val(w) % 24;
  }

  /** The label is exact: reading the printed days and hours back gives the hours of the source. */
  lemma LabelIsExact(hours: string, d: Decimal)
    requires ParseDecimal(hours) == Some(d)
    ensures ReadLabel(TransitLabel(HoursOnly(hours))) == Some(Number(d))
  {
    HoursLabelIsExact(d);
  }

  lemma LabelParts(d: Decimal) returns (days: string, rest: string, someDays: bool, someRest: bool, x: real, y: real)
    ensures HoursLabel(d) == Joined(days, rest, someDays, someRest)
    ensures NoSpace(days) && ReadNumber(days) == Some(x) && (!someDays ==> x == 0.0)
    ensures NoSpace(rest) && ReadNumber(rest) == Some(y) && (!someRest ==> y == 0.0)
    ensures Number(d) == x * 24.0 + y
  {
    var n, remainder, fraction := Val(d.whole) / 24, Val(d.whole) % 24, StripZeros(d.fraction);
    SplitHours(d.whole, d.fraction);
    ReadShownWhole(n);
    ReadShown(remainder, fraction);
    days, rest := Show(n), DecimalText(Decimal(Show(remainder), fraction));
    someDays, someRest := n > 0, remainder > 0 || fraction != "";
    x, y := n as real, remainder as real + Fraction(fraction);
  }

  lemma HoursLabelIsExact(d: Decimal)
    ensures ReadLabel(HoursLabel(d)) == Some(Number(d))
  {
    var days, rest, someDays, someRest, x, y := LabelParts(d);
    JoinedReads(HoursLabel(d), days, rest, someDays, someRest, x, y);
  }

  /** Labels print no zero days, no remainder of a day or more, and no zeros at the end of a fraction. */
  lemma LabelIsNormal(d: Decimal)
    ensures var days, remainder, fraction := Val(d.whole) / 24, Val(d.whole) % 24, StripZeros(d.fraction);
            var rest := DecimalText(Decimal(Show(remainder), fraction));
            && remainder < 24 && (fraction != "" ==> fraction[|fraction| - 1] != '0')
            && (Number(d) < 24.0 ==> HoursLabel(d) == HoursText(rest))
            && (Number(d) >= 24.0 ==>
                  HoursLabel(d) == DaysText(Show(days)) || HoursLabel(d) == BothText(Show(days), rest))
            && (HoursLabel(d) == DaysText(Show(days)) <== Number(d) == days as real * 24.0 && days > 0)
  {
    StripKeepsFraction(d.fraction);
    SplitHours(d.whole, d.fraction);
  }

  // ---- whole days for the rate detail ----

  /** `Number.isInteger(days) && days >= 1 && days <= 180 ? days : null`. */
  function WholeDays(x: real): Option<int> {
    if x == x.Floor as real && 1.0 <= x <= 180.0 then Some(x.Floor) else None
  }

  /** `transit_days` of a rate detail. number is JavaScript's Number(), with None for NaN. */
  function TransitDays(t: Transit, number: string -> Option<real>): Option<int> {
    if t.days.Some? then Divided(number(t.days.value), 1.0)
    else if t.hours.Some? then (if t.hours.value == "" then None else Divided(number(t.hours.value), 24.0))
    else if t.minutes.Some? then (if t.minutes.value == "" then None else Divided(number(t.minutes.value), 1440.0))
    else None
  }

  function Divided(x: Option<real>, unit: real): Option<int>
    requires unit > 0.0
  {
    match x case None => None case Some(v) => WholeDays(v / unit)
  }

  /** Number() reads every decimal text exactly. */
  ghost predicate ReadsDecimals(number: string -> Option<real>) {
    forall s :: ParseDecimal(s).Some? ==> number(s) == Some(Number(ParseDecimal(s).value))
  }

  /** `transit_days` is k exactly when the label is "k 天" with k from 1 to 180. */
  ghost predicate DaysAgreeWithLabel(t: Transit, number: string -> Option<real>) {
    forall k: nat :: TransitDays(t, number) == Some(k) <==> 1 <= k <= 180 && TransitLabel(t) == DaysText(Show(k))
  }

  lemma WholeNumber(d: Decimal, n: nat)
    requires Number(d) == n as real
    ensures Val(d.whole) == n && Fraction(d.fraction) == 0.0
  {
  }

  lemma WholeLabel(hours: string, d: Decimal, k: nat)
    requires ParseDecimal(hours) == Some(d) && k >= 1
    ensures TransitLabel(HoursOnly(hours)) == DaysText(Show(k)) <==> Number(d) == k as real * 24.0
  {
    HoursLabelIsExact(d);
    ReadDays(k);
    if Number(d) == k as real * 24.0 {
      WholeHours(d, k);
    }
  }

  lemma WholeHours(d: Decimal, k: nat)
    requires k >= 1 && Number(d) == k as real * 24.0
    ensures HoursLabel(d) == DaysText(Show(k))
  {
    assert k as real * 24.0 == (24 * k) as real;
    WholeNumber(d, 24 * k);
    StripKeepsFraction(d.fraction);
  }

  lemma WholeDaysOf(x: real, k: nat)
    ensures WholeDays(x / 24.0) == Some(k) <==> 1 <= k <= 180 && x == k as real * 24.0
  {
    if x == k as real * 24.0 {
      assert x / 24.0 == k as real;
    }
  }

  /** x hours are k whole days that a rate detail can hold. */
  predicate HoursOfDays(x: real, k: nat) {
    1 <= k <= 180 && x == k as real * 24.0
  }

  /** A text that Number() reads as whole days although it is written in another form, such as "2.4e1". */
  ghost predicate OtherWholeDays(hours: string, number: string -> Option<real>) {
    && ParseDecimal(hours).None? && hours != "" && number(hours).Some?
    && exists k: nat :: HoursOfDays(number(hours).value, k)
  }

  /**
   When only hours are given the rate detail never rounds: it agrees with the label for every
   text but those that write whole days in another form than a decimal text.
   */
  lemma DaysNeverRound(hours: string, number: string -> Option<real>)
    requires ReadsDecimals(number)
    ensures DaysAgreeWithLabel(HoursOnly(hours), number) <==> !OtherWholeDays(hours, number)
  {
    var t := HoursOnly(hours);
    match ParseDecimal(hours)
    case Some(d) =>
      forall k: nat
        ensures TransitDays(t, number) == Some(k) <==> 1 <= k <= 180 && TransitLabel(t) == DaysText(Show(k))
      {
        WholeDaysOf(Number(d), k);
        if k >= 1 {
          WholeLabel(hours, d, k);
        }
      }
    case None =>
      OtherLabel(hours);
      OtherDays(hours, number);
      if OtherWholeDays(hours, number) {
        var k: nat :| TransitDays(t, number) == Some(k);
        assert !(TransitDays(t, number) == Some(k) <==> 1 <= k <= 180 && TransitLabel(t) == DaysText(Show(k)));
      }
  }

  lemma OtherLabel(hours: string)
    requires ParseDecimal(hours).None?
    ensures forall k: nat :: TransitLabel(HoursOnly(hours)) != DaysText(Show(k))
  {
    forall k: nat ensures TransitLabel(HoursOnly(hours)) != DaysText(Show(k)) {
      var a, b := HoursText(hours), DaysText(Show(k));
      assert a[|a| - 1] == '时' && b[|b| - 1] == '天';
    }
  }

  lemma OtherDays(hours: string, number: string -> Option<real>)
    requires ParseDecimal(hours).None?
    ensures OtherWholeDays(hours, number) <==> exists k: nat :: TransitDays(HoursOnly(hours), number) == Some(k)
    ensures OtherWholeDays(hours, number) <==> TransitDays(HoursOnly(hours), number).Some?
  {
    var t := HoursOnly(hours);
    if hours != "" && number(hours).Some? {
      forall k: nat ensures TransitDays(t, number) == Some(k) <==> HoursOfDays(number(hours).value, k) {
        WholeDaysOf(number(hours).value, k);
      }
      if TransitDays(t, number).Some? {
        var k: nat := TransitDays(t, number).value;
        assert TransitDays(t, number) == Some(k);
      }
    }
  }

  /** JavaScript reads "2.4e1" as 24, and then the rate detail holds one day while the label repeats the text. */
  lemma ExponentHasDaysButNoLabel(number: string -> Option<real>)
    requires ReadsDecimals(number) && number("2.4e1") == Some(24.0)
    ensures !DaysAgreeWithLabel(HoursOnly("2.4e1"), number)
  {
    var s := "2.4e1";
    assert ParseDecimal(s).None? by {
      assert s[1] == '.' && s[3] == 'e';
    }
    assert HoursOfDays(24.0, 1);
    DaysNeverRound(s, number);
  }

  /** Days come before hours and hours before minutes, and each unit is printed after its number as it was written. */
  lemma LabelByUnit(t: Transit)
    ensures t.days.Some? ==> TransitLabel(t) == t.days.value + " 天"
    ensures t.days.None? && t.hours.Some? && ParseDecimal(t.hours.value).None? ==>
              TransitLabel(t) == t.hours.value + " 小时"
    ensures t.days.None? && t.hours.Some? ==> TransitLabel(t) == TransitLabel(HoursOnly(t.hours.value))
    ensures t.days.None? && t.hours.None? && t.minutes.Some? ==> TransitLabel(t) == t.minutes.value + " 分钟"
    ensures t.days.None? && t.hours.None? && t.minutes.None? ==> TransitLabel(t) == "未提供"
  {
  }
}
