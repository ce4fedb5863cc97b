/** `transitRange`: the shortest and longest duration of a service, apps/console/maritime.js. */
module TransitRange {
  import opened Decimals
  import opened Lists
  import opened Sorting
  import opened Transit

  type pos = x: int | x > 0 witness 1

  /** A duration as a quotient of integers, with the label it is shown by. */
  datatype Scored = Scored(n: int, d: pos, text: string)

  /** The first total the source gives: days, else hours, else minutes. */
  function Source(t: Transit): Option<string> {
    if t.days.Some? then t.days else if t.hours.Some? then t.hours else t.minutes
  }

  function MinutesPerUnit(t: Transit): nat {
    if t.days.Some? then 1440 else if t.hours.Some? then 60 else 1
  }

  function Parsed(t: Transit): Option<Decimal> {
    if Source(t).Some? then ParseDecimal(Source(t).value) else None
  }

  function Score(t: Transit): Option<Scored> {
    match Parsed(t)
    case None => None
    case Some(d) =>
      NumberScaled(d);
      Some(Scored(Val(d.whole + d.fraction) * MinutesPerUnit(t), Pow10(|d.fraction|), TransitLabel(t)))
  }

  function Scores(ts: seq<Transit>): seq<Scored> {
    if ts == [] then []
    else if Score(ts[0]).Some? then [Score(ts[0]).value] + Scores(ts[1..])
    else Scores(ts[1..])
  }

  function CompareScores(a: Scored, b: Scored): int {
    if a.n * b.d < b.n * a.d then -1 else if a.n * b.d > b.n * a.d then 1 else 0
  }

  function Ranked(ts: seq<Transit>): seq<Scored> {
    Sort(Scores(ts), CompareScores)
  }

  function RangeText(scored: seq<Scored>): string {
    if scored == [] then RANGE_PENDING
    else
      var first, last := scored[0], scored[|scored| - 1];
      if first.n * last.d == last.n * first.d then first.text else first.text + " — " + last.text
  }

  function TransitRange(ts: seq<Transit>): string {
    RangeText(Ranked(ts))
  }

  // ---- cross multiplication compares the quotients ----

  ghost function Quotient(a: Scored): real {
    a.n as real / a.d as real
  }

  lemma CrossMultiplication(a: Scored, b: Scored)
    ensures CompareScores(a, b) < 0 <==> Quotient(a) < Quotient(b)
    ensures CompareScores(a, b) == 0 <==> Quotient(a) == Quotient(b)
  {
    CrossLess(a.n, a.d, b.n, b.d);
    CrossLess(b.n, b.d, a.n, a.d);
  }

  lemma CrossLess(n: int, d: pos, m: int, e: pos)
    ensures n * e < m * d <==> n as real / d as real < m as real / e as real
  {
    var x, y := n as real / d as real, m as real / e as real;
    var p, q := d as real, e as real;
    assert x * p == n as real && y * q == m as real;
    assert (n * e) as real == n as real * q && (m * d) as real == m as real * p;
    assert n as real * q == x * (p * q) && m as real * p == y * (p * q);
    assert p * q > 0.0;
    ScaleOrder(x, y, p * q);
  }

  lemma ScaleOrder(x: real, y: real, c: real)
    requires c > 0.0
    ensures x < y <==> x * c < y * c
  {
    assert (y - x) * c == y * c - x * c;
  }

  /** The comparator is a total preorder on all quotients with a positive denominator. */
  lemma CompareScoresConsistent()
    ensures Consistent(CompareScores)
  {
    forall a, b, c | CompareScores(a, b) <= 0 && CompareScores(b, c) <= 0 ensures CompareScores(a, c) <= 0 {
      CrossMultiplication(b, a);
      CrossMultiplication(c, b);
      CrossMultiplication(c, a);
    }
    forall a, b ensures CompareScores(a, b) < 0 <==> CompareScores(b, a) > 0 {
    }
  }

  // ---- what the printed range means ----

  predicate Parsable(t: Transit) {
    Parsed(t).Some?
  }

  /** The duration in minutes. */
  function Minutes(t: Transit): real
    requires Parsable(t)
  {
    Number(Parsed(t).value) * MinutesPerUnit(t) as real
  }

  lemma ScoreIsMinutes(t: Transit)
    requires Parsable(t)
    ensures Score(t).Some? && Score(t).value.text == TransitLabel(t) && Quotient(Score(t).value) == Minutes(t)
  {
    var d := Parsed(t).value;
    NumberScaled(d);
    QuotientOf(Number(d), Pow10(|d.fraction|), Val(d.whole + d.fraction), MinutesPerUnit(t));
  }

  lemma QuotientOf(x: real, p: nat, v: nat, unit: nat)
    requires p > 0 && Scaled(x, p, v)
    ensures (v * unit) as real / p as real == x * unit as real
  {
    assert (v * unit) as real == x * p as real * unit as real;
    assert x * p as real * unit as real == x * unit as real * p as real;
  }

  /** Every score comes from a parsable duration, and every parsable duration is scored. */
  lemma {:induction false} ScoredIndex(ts: seq<Transit>, s: Scored) returns (k: nat)
    requires s in Scores(ts)
    ensures k < |ts| && Parsable(ts[k]) && Score(ts[k]) == Some(s)
    ensures forall i :: 0 <= i < k ==> Score(ts[i]) != Some(s)
  {
    if Score(ts[0]) == Some(s) {
      k := 0;
    } else {
      var rest := ScoredIndex(ts[1..], s);
      k := rest + 1;
    }
  }

  lemma {:induction false} EveryParsableScored(ts: seq<Transit>, i: nat)
    requires i < |ts| && Parsable(ts[i])
    ensures Score(ts[i]).Some? && Score(ts[i]).value in Scores(ts)
  {
    if i > 0 {
      EveryParsableScored(ts[1..], i - 1);
    }
  }

  /** A duration no parsable one of the list is shorter (longer) than. */
  ghost predicate Shortest(ts: seq<Transit>, lo: nat) {
    && lo < |ts| && Parsable(ts[lo])
    && forall i :: 0 <= i < |ts| && Parsable(ts[i]) ==> Minutes(ts[lo]) <= Minutes(ts[i])
  }

  ghost predicate Longest(ts: seq<Transit>, hi: nat) {
    && hi < |ts| && Parsable(ts[hi])
    && forall i :: 0 <= i < |ts| && Parsable(ts[i]) ==> Minutes(ts[i]) <= Minutes(ts[hi])
  }

  ghost predicate AllEqual(ts: seq<Transit>) {
    forall i, j :: 0 <= i < |ts| && 0 <= j < |ts| && Parsable(ts[i]) && Parsable(ts[j]) ==>
      Minutes(ts[i]) == Minutes(ts[j])
  }

  lemma RankedIsStable(ts: seq<Transit>)
    ensures StableSort(Scores(ts), Ranked(ts), CompareScores)
    ensures forall s :: s in Ranked(ts) <==> s in Scores(ts)
  {
    CompareScoresConsistent();
    SortIsStableSort(Scores(ts), CompareScores);
    forall s ensures s in Ranked(ts) <==> s in Scores(ts) {
      assert s in Ranked(ts) <==> s in multiset(Ranked(ts));
      assert s in Scores(ts) <==> s in multiset(Scores(ts));
    }
  }

  lemma RankedBounds(ts: seq<Transit>, i: nat)
    requires i < |ts| && Parsable(ts[i])
    ensures var r := Ranked(ts);
            r != [] && Quotient(r[0]) <= Minutes(ts[i]) <= Quotient(r[|r| - 1])
  {
    var r, s := Ranked(ts), Score(ts[i]).value;
    RankedIsStable(ts);
    EveryParsableScored(ts, i);
    ScoreIsMinutes(ts[i]);
    OrderedEnds(r, s, CompareScores);
    CrossMultiplication(s, r[0]);
    CrossMultiplication(r[|r| - 1], s);
  }

  lemma RankedElement(ts: seq<Transit>, k: nat) returns (i: nat)
    requires k < |Ranked(ts)|
    ensures i < |ts| && Parsable(ts[i]) && Score(ts[i]) == Some(Ranked(ts)[k])
    ensures Minutes(ts[i]) == Quotient(Ranked(ts)[k])
  {
    RankedIsStable(ts);
    i := ScoredIndex(ts, Ranked(ts)[k]);
    ScoreIsMinutes(ts[i]);
  }

  /** Nothing parsable: the range is pending. Otherwise it runs from an exact minimum to an exact maximum. */
  lemma RangeIsMinToMax(ts: seq<Transit>) returns (lo: nat, hi: nat)
    ensures (exists i :: 0 <= i < |ts| && Parsable(ts[i])) <==> Ranked(ts) != []
    ensures Ranked(ts) == [] ==> TransitRange(ts) == RANGE_PENDING
    ensures Ranked(ts) != [] ==> Shortest(ts, lo) && Longest(ts, hi)
    ensures Ranked(ts) != [] ==>
              TransitRange(ts) == if AllEqual(ts) then TransitLabel(ts[lo])
                                  else TransitLabel(ts[lo]) + " — " + TransitLabel(ts[hi])
  {
    var r := Ranked(ts);
    forall i | 0 <= i < |ts| && Parsable(ts[i])
      ensures r != [] && Quotient(r[0]) <= Minutes(ts[i]) <= Quotient(r[|r| - 1])
    {
      RankedBounds(ts, i);
    }
    lo, hi := 0, 0;
    if r != [] {
      lo := RankedElement(ts, 0);
      hi := RankedElement(ts, |r| - 1);
      ScoreIsMinutes(ts[lo]);
      ScoreIsMinutes(ts[hi]);
      CrossMultiplication(r[0], r[|r| - 1]);
    }
  }

  // ---- which of several equal durations gives the label ----

  /** Among equally short durations the one listed first gives the label. */
  lemma ShortestListedFirst(ts: seq<Transit>, k: nat)
    requires k < |Scores(ts)|
    requires forall i :: 0 <= i < |Scores(ts)| ==> CompareScores(Scores(ts)[k], Scores(ts)[i]) <= 0
    requires forall i :: 0 <= i < k ==> CompareScores(Scores(ts)[i], Scores(ts)[k]) != 0
    ensures Ranked(ts) != [] && Ranked(ts)[0] == Scores(ts)[k]
  {
    RankedIsStable(ts);
    FirstLeastLeads(Scores(ts), Ranked(ts), k, CompareScores);
  }

  // ---- the rate detail's whole days ----

  /**
   Whatever unit a source uses, the rate detail's `transit_days` is k exactly when the duration that
   `transitRange` compares is k whole days, for k from 1 to 180.
   */
  lemma TransitDaysAreExact(t: Transit, number: string -> Option<real>, k: nat)
    requires ReadsDecimals(number) && Parsable(t)
    ensures TransitDays(t, number) == Some(k) <==> 1 <= k <= 180 && Minutes(t) == k as real * 1440.0
  {
    var x := Number(Parsed(t).value);
    assert number(Source(t).value) == Some(x);
    assert Source(t).value != "";
    if t.days.Some? {
      WholeDaysIs(x / 1.0, k);
    } else if t.hours.Some? {
      WholeDaysIs(x / 24.0, k);
    } else {
      WholeDaysIs(x / 1440.0, k);
    }
  }

  lemma WholeDaysIs(x: real, k: nat)
    ensures WholeDays(x) == Some(k) <==> 1 <= k <= 180 && x == k as real
  {
  }

  /** The minutes that a source's total writes: of its days, if it gives them, else of its hours, else its minutes. */
  function WrittenMinutes(t: Transit): Option<real> {
    match (t.days, t.hours, t.minutes)
    case (Some(days), _, _) => Times(ParseDecimal(days), 24.0 * 60.0)
    case (None, Some(hours), _) => Times(ParseDecimal(hours), 60.0)
    case (None, None, Some(minutes)) => Times(ParseDecimal(minutes), 1.0)
    case (None, None, None) => None
  }

  function Times(d: Option<Decimal>, unit: real): Option<real> {
    match d case None => None case Some(number) => Some(Number(number) * unit)
  }

  lemma MinutesAreWritten(t: Transit)
    ensures Parsable(t) <==> WrittenMinutes(t).Some?
    ensures Parsable(t) ==> Minutes(t) == WrittenMinutes(t).value
  {
  }

  /** A duration takes part in the range exactly if its total is a decimal text, and with the minutes that it writes. */
  lemma ScoredExactly(t: Transit)
    ensures Score(t).Some? <==> WrittenMinutes(t).Some?
    ensures Score(t).Some? ==>
              Quotient(Score(t).value) == WrittenMinutes(t).value && Score(t).value.text == TransitLabel(t)
  {
    MinutesAreWritten(t);
    if Parsable(t) {
      ScoreIsMinutes(t);
    }
  }
}
