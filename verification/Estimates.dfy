/** Ordering of FCL estimates: apps/console/fcl-operations.js. */
module Estimates {
  import opened Lists
  import opened Sorting

  datatype Line = Line(category: string, costAmount: Option<real>, currency: string)

  /** The part of one estimate's `calculation` that ordering reads. */
  datatype Estimate = Estimate(carrier: Option<string>, etd: Option<string>, transitDays: Option<real>,
                               lines: seq<Line>, totals: map<string, real>)

  datatype SortKey = Carrier | Etd | TransitDays | Ocean | Total(name: string)

  datatype Direction = Asc | Desc

  datatype Value = Text(text: string) | Amount(amount: real)

  function OceanLine(lines: seq<Line>): Option<Line> {
    if lines == [] then None
    else if lines[0].category == "ocean" then Some(lines[0])
    else OceanLine(lines[1..])
  }

  function AsAmount(x: Option<real>): Option<Value> {
    match x case None => None case Some(v) => Some(Amount(v))
  }

  function AsText(x: Option<string>): Option<Value> {
    match x case None => None case Some(v) => Some(Text(v))
  }

  /** null and undefined are both None. */
  function ValueOf(e: Estimate, key: SortKey): Option<Value> {
    match key
    case Carrier => AsText(e.carrier)
    case Etd => AsText(e.etd)
    case TransitDays => AsAmount(e.transitDays)
    case Ocean =>
      (match OceanLine(e.lines) case None => None case Some(line) => AsAmount(line.costAmount))
    case Total(name) => if name in e.totals then Some(Amount(e.totals[name])) else None
  }

  function Currency(e: Estimate): string {
    match OceanLine(e.lines) case None => "" case Some(line) => line.currency
  }

  /** One key never mixes text and amounts; the last two cases only make the order total. */
  function CompareValues(v: Value, w: Value, locale: (string, string) -> int): int {
    match (v, w)
    case (Text(s), Text(t)) => locale(s, t)
    case (Amount(x), Amount(y)) => if x < y then -1 else if x > y then 1 else 0
    case (Text(_), Amount(_)) => -1
    case (Amount(_), Text(_)) => 1
  }

  function Compare(a: Estimate, b: Estimate, key: SortKey, direction: Direction,
                   locale: (string, string) -> int): int
  {
    var left, right := ValueOf(a, key), ValueOf(b, key);
    if left.None? then (if right.None? then 0 else 1)
    else if right.None? then -1
    else if key.Ocean? && Currency(a) != Currency(b) then locale(Currency(a), Currency(b))
    else
      var order := CompareValues(left.value, right.value, locale);
      if direction.Desc? then -order else order
  }

  function Comparator(key: SortKey, direction: Direction, locale: (string, string) -> int)
    : (Estimate, Estimate) -> int
  {
    (a, b) => Compare(a, b, key, direction, locale)
  }

  function SortEstimates(items: seq<Estimate>, key: SortKey, direction: Direction,
                         locale: (string, string) -> int): seq<Estimate>
  {
    Sort(items, Comparator(key, direction, locale))
  }

  function ValueComparator(locale: (string, string) -> int, direction: Direction): (Value, Value) -> int {
    (v, w) => Directed(CompareValues(v, w, locale), direction)
  }

  /** What is asked of `localeCompare`: a consistent order that tells different texts apart. */
  ghost predicate TotalOrder(locale: (string, string) -> int) {
    Consistent(locale) && forall s, t :: locale(s, t) == 0 ==> s == t
  }

  lemma ValuesTotallyOrdered(locale: (string, string) -> int)
    requires TotalOrder(locale)
    ensures Consistent(ValueComparator(locale, Asc)) && Antisymmetric(ValueComparator(locale, Asc))
  {
  }

  /** The comparator is consistent, so that the language defines what the sort returns. */
  lemma ComparatorConsistent(key: SortKey, direction: Direction, locale: (string, string) -> int)
    requires TotalOrder(locale)
    ensures Consistent(Comparator(key, direction, locale))
  {
    var cmp := Comparator(key, direction, locale);
    forall a, b, c | cmp(a, b) <= 0 && cmp(b, c) <= 0 ensures cmp(a, c) <= 0 {
      CompareTransitive(a, b, c, key, direction, locale);
    }
    forall a, b ensures cmp(a, b) < 0 <==> cmp(b, a) > 0 {
    }
  }

  function OceanEstimate(amount: real, currency: string): Estimate {
    Estimate(None, None, None, [Line("ocean", Some(amount), currency)], map[])
  }

  /**
   The demand on the collation is needed: when it ties two different currencies, the ocean
   comparator is not consistent and the sort's result is not defined.
   */
  lemma TiedCurrenciesBreakOcean(s: string, t: string, direction: Direction, locale: (string, string) -> int)
    requires s != t && locale(s, t) == 0 && locale(t, s) == 0
    ensures !Consistent(Comparator(Ocean, direction, locale))
  {
    var cmp := Comparator(Ocean, direction, locale);
    var low, other, high := OceanEstimate(0.0, s), OceanEstimate(0.0, t), OceanEstimate(1.0, s);
    assert cmp(low, other) == 0 && cmp(other, high) == 0 && cmp(high, other) == 0 && cmp(other, low) == 0;
    assert cmp(low, high) != 0 && cmp(high, low) != 0;
  }

  lemma CompareTransitive(a: Estimate, b: Estimate, c: Estimate, key: SortKey, direction: Direction,
                          locale: (string, string) -> int)
    requires TotalOrder(locale)
    requires Compare(a, b, key, direction, locale) <= 0 && Compare(b, c, key, direction, locale) <= 0
    ensures Compare(a, c, key, direction, locale) <= 0
  {
    if ValueOf(a, key).Some? && ValueOf(b, key).Some? && ValueOf(c, key).Some? {
      if key.Ocean? {
        assert locale(Currency(a), Currency(b)) <= 0 && locale(Currency(b), Currency(c)) <= 0;
      }
      ValuesTotallyOrdered(locale);
    }
  }

  /** The group inside which values are compared: the currency for ocean freight, else one group. */
  function Block(e: Estimate, key: SortKey): string {
    if key.Ocean? then Currency(e) else ""
  }

  /** The values of the priced estimates of one block, in list order. */
  function Priced(s: seq<Estimate>, key: SortKey, block: string): seq<Value> {
    if s == [] then []
    else if ValueOf(s[0], key).Some? && Block(s[0], key) == block then
      [ValueOf(s[0], key).value] + Priced(s[1..], key, block)
    else Priced(s[1..], key, block)
  }

  function Unpriced(s: seq<Estimate>, key: SortKey): seq<Estimate> {
    if s == [] then []
    else if ValueOf(s[0], key).None? then [s[0]] + Unpriced(s[1..], key)
    else Unpriced(s[1..], key)
  }

  function Directed(order: int, direction: Direction): int {
    if direction.Desc? then -order else order
  }

  /** How two positions of a sorted list relate. */
  ghost predicate InPlace(e: Estimate, f: Estimate, key: SortKey, direction: Direction,
                          locale: (string, string) -> int)
  {
    && (ValueOf(e, key).None? ==> ValueOf(f, key).None?)
    && (ValueOf(e, key).Some? && ValueOf(f, key).Some? ==>
          && (Block(e, key) != Block(f, key) ==> locale(Block(e, key), Block(f, key)) < 0)
          && (Block(e, key) == Block(f, key) ==>
                Directed(CompareValues(ValueOf(e, key).value, ValueOf(f, key).value, locale), direction) <= 0))
  }

  /**
   The sorted list is the one stable answer, has every estimate without a value at the end in its
   old order, and puts currencies in ascending blocks in both directions.
   */
  lemma SortedEstimates(items: seq<Estimate>, key: SortKey, direction: Direction,
                        locale: (string, string) -> int)
    requires TotalOrder(locale)
    ensures var out := SortEstimates(items, key, direction, locale);
            && StableSort(items, out, Comparator(key, direction, locale))
            && (forall i, j :: 0 <= i < j < |out| ==> InPlace(out[i], out[j], key, direction, locale))
            && Unpriced(out, key) == Unpriced(items, key)
  {
    var out, cmp := SortEstimates(items, key, direction, locale), Comparator(key, direction, locale);
    ComparatorConsistent(key, direction, locale);
    SortIsStableSort(items, cmp);
    forall i, j | 0 <= i < j < |out| ensures InPlace(out[i], out[j], key, direction, locale) {
      assert cmp(out[i], out[j]) <= 0;
    }
    UnpricedKeepOrder(items, out, key, direction, locale);
  }

  lemma {:induction false} UnpricedAreTies(s: seq<Estimate>, x: Estimate, key: SortKey, direction: Direction,
                                           locale: (string, string) -> int)
    requires ValueOf(x, key).None?
    ensures Ties(s, x, Comparator(key, direction, locale)) == Unpriced(s, key)
  {
    if s != [] {
      UnpricedAreTies(s[1..], x, key, direction, locale);
    }
  }

  lemma UnpricedKeepOrder(items: seq<Estimate>, out: seq<Estimate>, key: SortKey, direction: Direction,
                          locale: (string, string) -> int)
    requires StableSort(items, out, Comparator(key, direction, locale))
    ensures Unpriced(out, key) == Unpriced(items, key)
  {
    var missing := Estimate(None, None, None, [], map[]);
    assert ValueOf(missing, key).None?;
    UnpricedAreTies(items, missing, key, direction, locale);
    UnpricedAreTies(out, missing, key, direction, locale);
  }

  /** A currency occupies one contiguous run of the priced estimates. */
  lemma BlocksAreContiguous(items: seq<Estimate>, key: SortKey, direction: Direction,
                            locale: (string, string) -> int, i: nat, j: nat, k: nat)
    requires TotalOrder(locale)
    requires i < j < k < |SortEstimates(items, key, direction, locale)|
    requires var out := SortEstimates(items, key, direction, locale);
             ValueOf(out[k], key).Some? && Block(out[i], key) == Block(out[k], key)
    ensures var out := SortEstimates(items, key, direction, locale);
            ValueOf(out[j], key).Some? && Block(out[j], key) == Block(out[i], key)
  {
    var out := SortEstimates(items, key, direction, locale);
    SortedEstimates(items, key, direction, locale);
    assert InPlace(out[i], out[j], key, direction, locale);
    assert InPlace(out[j], out[k], key, direction, locale);
    assert InPlace(out[i], out[k], key, direction, locale);
  }

  lemma PricedWithout(t: seq<Estimate>, k: nat, key: SortKey, block: string)
    requires k < |t|
    ensures multiset(Priced(t, key, block))
            == multiset(Priced([t[k]], key, block)) + multiset(Priced(t[..k] + t[k + 1..], key, block))
  {
    assert t == t[..k] + ([t[k]] + t[k + 1..]);
    PricedConcat(t[..k], [t[k]] + t[k + 1..], key, block);
    PricedConcat([t[k]], t[k + 1..], key, block);
    PricedConcat(t[..k], t[k + 1..], key, block);
  }

  lemma {:induction false} PricedCount(s: seq<Estimate>, t: seq<Estimate>, key: SortKey, block: string)
    requires multiset(s) == multiset(t)
    ensures multiset(Priced(s, key, block)) == multiset(Priced(t, key, block))
  {
    assert |t| == |multiset(t)| == |multiset(s)| == |s|;
    if s != [] {
      assert s[0] in multiset(t);
      var k :| 0 <= k < |t| && t[k] == s[0];
      var rest := t[..k] + t[k + 1..];
      RemoveOne(s, t, k);
      PricedCount(s[1..], rest, key, block);
      PricedWithout(t, k, key, block);
      PricedWithout(s, 0, key, block);
      assert s[..0] + s[1..] == s[1..];
    }
  }

  lemma RemoveOne(s: seq<Estimate>, t: seq<Estimate>, k: nat)
    requires multiset(s) == multiset(t) && s != [] && k < |t| && t[k] == s[0]
    ensures multiset(s[1..]) == multiset(t[..k] + t[k + 1..])
  {
    assert s == [s[0]] + s[1..] && t == t[..k] + ([t[k]] + t[k + 1..]);
    assert multiset(s[1..]) == multiset(s) - multiset{s[0]};
    assert multiset(t[..k] + t[k + 1..]) == multiset(t) - multiset{t[k]};
  }

  lemma PricedCons(e: Estimate, s: seq<Estimate>, key: SortKey, block: string)
    ensures Priced([e] + s, key, block) == Priced([e], key, block) + Priced(s, key, block)
  {
    assert ([e] + s)[1..] == s && [e][1..] == [];
  }

  lemma {:induction false} PricedConcat(s: seq<Estimate>, t: seq<Estimate>, key: SortKey, block: string)
    ensures Priced(s + t, key, block) == Priced(s, key, block) + Priced(t, key, block)
  {
    if s == [] {
      assert s + t == t;
    } else {
      var e, rest := s[0], s[1..];
      var a, b, c := Priced([e], key, block), Priced(rest, key, block), Priced(t, key, block);
      assert s == [e] + rest && s + t == [e] + (rest + t);
      PricedConcat(rest, t, key, block);
      PricedCons(e, rest, key, block);
      PricedCons(e, rest + t, key, block);
      assert Priced(s + t, key, block) == a + (b + c);
      assert a + (b + c) == a + b + c;
    }
  }

  lemma {:induction false} PricedElement(s: seq<Estimate>, key: SortKey, block: string, v: Value) returns (k: nat)
    requires v in Priced(s, key, block)
    ensures k < |s| && ValueOf(s[k], key) == Some(v) && Block(s[k], key) == block
  {
    if ValueOf(s[0], key) == Some(v) && Block(s[0], key) == block {
      k := 0;
    } else {
      var rest := PricedElement(s[1..], key, block, v);
      k := rest + 1;
    }
  }

  lemma {:induction false} PricedOrdered(s: seq<Estimate>, key: SortKey, block: string, direction: Direction,
                                         locale: (string, string) -> int)
    requires forall i, j :: 0 <= i < j < |s| ==> InPlace(s[i], s[j], key, direction, locale)
    ensures Ordered(Priced(s, key, block), ValueComparator(locale, direction))
  {
    if s != [] {
      PricedOrdered(s[1..], key, block, direction, locale);
      var rest := Priced(s[1..], key, block);
      if ValueOf(s[0], key).Some? && Block(s[0], key) == block {
        forall j | 0 <= j < |rest|
          ensures Directed(CompareValues(ValueOf(s[0], key).value, rest[j], locale), direction) <= 0
        {
          var k := PricedElement(s[1..], key, block, rest[j]);
          assert InPlace(s[0], s[k + 1], key, direction, locale);
        }
      }
    }
  }

  /** Inside every block the descending values are the ascending ones read backwards. */
  lemma DescendingMirrorsAscending(items: seq<Estimate>, key: SortKey, block: string,
                                   locale: (string, string) -> int)
    requires TotalOrder(locale)
    ensures Priced(SortEstimates(items, key, Desc, locale), key, block)
            == Reverse(Priced(SortEstimates(items, key, Asc, locale), key, block))
  {
    var up, down := SortEstimates(items, key, Asc, locale), SortEstimates(items, key, Desc, locale);
    var a, d := Priced(up, key, block), Priced(down, key, block);
    var cmp := ValueComparator(locale, Asc);
    SortedEstimates(items, key, Asc, locale);
    SortedEstimates(items, key, Desc, locale);
    PricedCount(up, down, key, block);
    PricedOrdered(up, key, block, Asc, locale);
    PricedOrdered(down, key, block, Desc, locale);
    ReverseMultiset(d);
    BackwardsOrdered(d, locale);
    ValuesTotallyOrdered(locale);
    OrderedIsUnique(a, Reverse(d), cmp);
    assert d == Reverse(a);
  }

  lemma BackwardsOrdered(d: seq<Value>, locale: (string, string) -> int)
    requires TotalOrder(locale) && Ordered(d, ValueComparator(locale, Desc))
    ensures Ordered(Reverse(d), ValueComparator(locale, Asc))
  {
    var r := Reverse(d);
    forall i, j | 0 <= i < j < |r| ensures CompareValues(r[i], r[j], locale) <= 0 {
      var v, w := d[|d| - 1 - j], d[|d| - 1 - i];
      assert ValueComparator(locale, Desc)(v, w) <= 0;
      assert CompareValues(v, w, locale) > 0 <==> CompareValues(w, v, locale) < 0;
      assert CompareValues(v, w, locale) < 0 <==> CompareValues(w, v, locale) > 0;
    }
  }

  // ---- what the order means for an estimate's own fields ----

  /** The line that stands for an estimate's ocean freight: the first of its category. */
  ghost predicate IsOceanLine(e: Estimate, line: Line) {
    && line.category == "ocean"
    && exists k: nat :: k < |e.lines| && e.lines[k] == line && forall h: nat :: h < k ==> e.lines[h].category != "ocean"
  }

  ghost predicate HasAmount(e: Estimate, key: SortKey, x: real) {
    match key
    case Carrier => false
    case Etd => false
    case TransitDays => e.transitDays == Some(x)
    case Ocean => exists line :: IsOceanLine(e, line) && line.costAmount == Some(x)
    case Total(name) => name in e.totals && e.totals[name] == x
  }

  ghost predicate HasText(e: Estimate, key: SortKey, text: string) {
    match key
    case Carrier => e.carrier == Some(text)
    case Etd => e.etd == Some(text)
    case _ => false
  }

  ghost predicate Missing(e: Estimate, key: SortKey) {
    (forall x :: !HasAmount(e, key, x)) && forall text :: !HasText(e, key, text)
  }

  lemma {:induction false} OceanLineMeaning(lines: seq<Line>, k: nat)
    requires k < |lines| && lines[k].category == "ocean" && forall h: nat :: h < k ==> lines[h].category != "ocean"
    ensures OceanLine(lines) == Some(lines[k])
    decreases k
  {
    if k > 0 {
      assert lines[0].category != "ocean";
      OceanLineMeaning(lines[1..], k - 1);
    }
  }

  lemma {:induction false} OceanLineFound(lines: seq<Line>) returns (k: nat)
    requires OceanLine(lines).Some?
    ensures k < |lines| && lines[k] == OceanLine(lines).value && lines[k].category == "ocean"
    ensures forall h: nat :: h < k ==> lines[h].category != "ocean"
  {
    k := 0;
    if lines[0].category != "ocean" {
      var rest := OceanLineFound(lines[1..]);
      k := rest + 1;
      assert forall h: nat :: 0 < h < k ==> lines[h] == lines[1..][h - 1];
    }
  }

  lemma IsOceanLineMeaning(e: Estimate, line: Line)
    ensures IsOceanLine(e, line) <==> OceanLine(e.lines) == Some(line)
  {
    if IsOceanLine(e, line) {
      var k: nat :| k < |e.lines| && e.lines[k] == line && forall h: nat :: h < k ==> e.lines[h].category != "ocean";
      OceanLineMeaning(e.lines, k);
    }
    if OceanLine(e.lines) == Some(line) {
      var k := OceanLineFound(e.lines);
    }
  }

  lemma ValueMeaning(e: Estimate, key: SortKey)
    ensures forall x :: HasAmount(e, key, x) <==> ValueOf(e, key) == Some(Amount(x))
    ensures forall text :: HasText(e, key, text) <==> ValueOf(e, key) == Some(Text(text))
    ensures Missing(e, key) <==> ValueOf(e, key).None?
  {
    forall line ensures IsOceanLine(e, line) <==> OceanLine(e.lines) == Some(line) {
      IsOceanLineMeaning(e, line);
    }
    forall x ensures HasAmount(e, key, x) <==> ValueOf(e, key) == Some(Amount(x)) {
      if key.Ocean? && ValueOf(e, key) == Some(Amount(x)) {
        assert IsOceanLine(e, OceanLine(e.lines).value);
      }
    }
    if ValueOf(e, key).Some? {
      match ValueOf(e, key).value
      case Amount(x) => assert HasAmount(e, key, x);
      case Text(text) => assert HasText(e, key, text);
    }
  }

  /** Amounts rise when ascending and fall when descending, for ocean freight inside one currency. */
  lemma AmountsInOrder(items: seq<Estimate>, key: SortKey, direction: Direction, locale: (string, string) -> int,
                       i: nat, j: nat, x: real, y: real)
    requires TotalOrder(locale) && i < j < |SortEstimates(items, key, direction, locale)|
    requires var out := SortEstimates(items, key, direction, locale);
             && HasAmount(out[i], key, x) && HasAmount(out[j], key, y)
             && (key.Ocean? ==>
                   exists l, m :: IsOceanLine(out[i], l) && IsOceanLine(out[j], m) && l.currency == m.currency)
    ensures if direction.Asc? then x <= y else x >= y
  {
    var out := SortEstimates(items, key, direction, locale);
    SortedEstimates(items, key, direction, locale);
    ValueMeaning(out[i], key);
    ValueMeaning(out[j], key);
    assert InPlace(out[i], out[j], key, direction, locale);
    if key.Ocean? {
      var l, m :| IsOceanLine(out[i], l) && IsOceanLine(out[j], m) && l.currency == m.currency;
      IsOceanLineMeaning(out[i], l);
      IsOceanLineMeaning(out[j], m);
    }
  }

  /** Currencies rise in both directions. */
  lemma CurrenciesInOrder(items: seq<Estimate>, direction: Direction, locale: (string, string) -> int,
                          i: nat, j: nat, l: Line, m: Line)
    requires TotalOrder(locale) && i < j < |SortEstimates(items, Ocean, direction, locale)|
    requires var out := SortEstimates(items, Ocean, direction, locale);
             && IsOceanLine(out[i], l) && l.costAmount.Some?
             && IsOceanLine(out[j], m) && m.costAmount.Some?
    ensures locale(l.currency, m.currency) <= 0
  {
    var out := SortEstimates(items, Ocean, direction, locale);
    SortedEstimates(items, Ocean, direction, locale);
    IsOceanLineMeaning(out[i], l);
    IsOceanLineMeaning(out[j], m);
    assert InPlace(out[i], out[j], Ocean, direction, locale);
  }

  /** Carriers and departure dates stand in the order of the collation, or against it. */
  lemma TextsInOrder(items: seq<Estimate>, key: SortKey, direction: Direction, locale: (string, string) -> int,
                     i: nat, j: nat, s: string, t: string)
    requires TotalOrder(locale) && i < j < |SortEstimates(items, key, direction, locale)|
    requires var out := SortEstimates(items, key, direction, locale);
             HasText(out[i], key, s) && HasText(out[j], key, t)
    ensures if direction.Asc? then locale(s, t) <= 0 else locale(s, t) >= 0
  {
    var out := SortEstimates(items, key, direction, locale);
    SortedEstimates(items, key, direction, locale);
    ValueMeaning(out[i], key);
    ValueMeaning(out[j], key);
    assert InPlace(out[i], out[j], key, direction, locale);
  }

  /** Nothing with a value stands behind an estimate without one. */
  lemma MissingLast(items: seq<Estimate>, key: SortKey, direction: Direction, locale: (string, string) -> int,
                    i: nat, j: nat)
    requires TotalOrder(locale) && i < j < |SortEstimates(items, key, direction, locale)|
    ensures var out := SortEstimates(items, key, direction, locale);
            Missing(out[i], key) ==> Missing(out[j], key)
  {
    var out := SortEstimates(items, key, direction, locale);
    SortedEstimates(items, key, direction, locale);
    ValueMeaning(out[i], key);
    ValueMeaning(out[j], key);
    assert InPlace(out[i], out[j], key, direction, locale);
  }
}
