/** The 24-hour, 60-entry, de-duplicated port cache: apps/console/maritime-locations.js. */
module PortCache {
  import opened Lists

  datatype Row = Row(text: string, zh: string, en: string, country: string, id: string, at: int)

  const CACHE_AGE := 24 * 60 * 60 * 1000
  const CAPACITY := 60
  const MAX_TEXT := 200

  predicate UpperCase(c: char) {
    'A' <= c <= 'Z'
  }

  /** /^(?:[A-Z]{2})?$/ */
  predicate CountryCode(s: string) {
    s == "" || (|s| == 2 && UpperCase(s[0]) && UpperCase(s[1]))
  }

  predicate WellFormed(r: Row) {
    && |r.text| <= MAX_TEXT && |r.zh| <= MAX_TEXT && |r.en| <= MAX_TEXT && |r.country| <= MAX_TEXT
    && |r.id| <= MAX_TEXT && CountryCode(r.country)
  }

  predicate Alive(r: Row, now: int) {
    r.at <= now && now - r.at < CACHE_AGE
  }

  function Take<T>(s: seq<T>, n: nat): seq<T> {
    if |s| <= n then s else s[..n]
  }

  function Readable(s: seq<Row>, now: int): seq<Row> {
    if s == [] then []
    else if Alive(s[0], now) && WellFormed(s[0]) then [s[0]] + Readable(s[1..], now)
    else Readable(s[1..], now)
  }

  /** `readLocationCache` */
  function Read(stored: seq<Row>, now: int): seq<Row> {
    Take(Readable(stored, now), CAPACITY)
  }

  function Stamp(rows: seq<Row>, now: int): (r: seq<Row>)
    ensures |r| == |rows| && forall i :: 0 <= i < |r| ==> r[i] == rows[i].(at := now)
  {
    seq(|rows|, i requires 0 <= i < |rows| => rows[i].(at := now))
  }

  function JoinedKey(r: Row): string {
    r.id + "|" + r.country
  }

  /** The filter of `remember`: first rows of every joined key, blank identifiers dropped. */
  function Unseen(rows: seq<Row>, seen: set<string>): seq<Row> {
    if rows == [] then []
    else if JoinedKey(rows[0]) in seen then Unseen(rows[1..], seen)
    else
      var rest := Unseen(rows[1..], seen + {JoinedKey(rows[0])});
      if rows[0].id != "" then [rows[0]] + rest else rest
  }

  /** The storage after `remember`. */
  function Remembered(stored: seq<Row>, rows: seq<Row>, now: int): seq<Row> {
    Take(Unseen(Stamp(rows, now) + Read(stored, now), {}), CAPACITY)
  }

  /** The entry of local storage that the picker reads and writes. */
  class PortStorage {
    var stored: seq<Row>

    constructor ()
      ensures stored == []
    {
      stored := [];
    }

    method Remember(rows: seq<Row>, now: int)
      modifies this
      ensures stored == Remembered(old(stored), rows, now)
    {
      var merged := Stamp(rows, now) + Read(stored, now);
      var seen: set<string> := {};
      var keep: seq<Row> := [];
      var i := 0;
      while i < |merged|
        invariant 0 <= i <= |merged|
        invariant keep + Unseen(merged[i..], seen) == Unseen(merged, {})
      {
        var key := JoinedKey(merged[i]);
        assert merged[i..][1..] == merged[i + 1..];
        if key !in seen {
          seen := seen + {key};
          if merged[i].id != "" {
            keep := keep + [merged[i]];
          }
        }
        i := i + 1;
      }
      stored := Take(keep, CAPACITY);
    }
  }

  // ---- the specification: what the whole history says ----

  function Port(r: Row): (string, string) {
    (r.id, r.country)
  }

  function Without(s: seq<Row>, ports: set<(string, string)>): seq<Row> {
    if s == [] then []
    else if Port(s[0]) in ports then Without(s[1..], ports)
    else [s[0]] + Without(s[1..], ports)
  }

  /** The first row of every port with an identifier. */
  function FirstSeen(history: seq<Row>): seq<Row> {
    if history == [] then []
    else if history[0].id == "" then FirstSeen(history[1..])
    else [history[0]] + Without(FirstSeen(history[1..]), {Port(history[0])})
  }

  function Living(s: seq<Row>, now: int): seq<Row> {
    if s == [] then []
    else if Alive(s[0], now) then [s[0]] + Living(s[1..], now)
    else Living(s[1..], now)
  }

  /** The first 60 living entries of everything ever seen, newest batch first. */
  function Wanted(history: seq<Row>, now: int): seq<Row> {
    Take(Living(FirstSeen(history), now), CAPACITY)
  }

  datatype Batch = Batch(rows: seq<Row>, now: int)

  /** The storage after a run of batches, oldest batch first. */
  function StoredAfter(batches: seq<Batch>): seq<Row> {
    if batches == [] then []
    else
      var last := batches[|batches| - 1];
      Remembered(StoredAfter(batches[..|batches| - 1]), last.rows, last.now)
  }

  /** Every stamped row of a run, newest batch first. */
  function History(batches: seq<Batch>): seq<Row> {
    if batches == [] then []
    else
      var last := batches[|batches| - 1];
      Stamp(last.rows, last.now) + History(batches[..|batches| - 1])
  }

  predicate AllWellFormed(s: seq<Row>) {
    forall i :: 0 <= i < |s| ==> WellFormed(s[i])
  }

  /** Well-formed rows, observed at times that never go back. */
  predicate Orderly(batches: seq<Batch>) {
    && (forall i :: 0 <= i < |batches| ==> AllWellFormed(batches[i].rows))
    && forall i, j :: 0 <= i < j < |batches| ==> batches[i].now <= batches[j].now
  }

  // ---- keys ----

  lemma JoinedKeyInjective(r: Row, q: Row)
    requires CountryCode(r.country) && CountryCode(q.country)
    ensures JoinedKey(r) == JoinedKey(q) <==> Port(r) == Port(q)
  {
    var a, b := JoinedKey(r), JoinedKey(q);
    if a == b {
      assert a[|r.id|] == '|' && b[|q.id|] == '|';
      assert forall i :: |r.id| < i < |a| ==> a[i] == r.country[i - |r.id| - 1];
      assert forall i :: |q.id| < i < |b| ==> b[i] == q.country[i - |q.id| - 1];
      assert |r.id| == |q.id|;
      assert a[..|r.id|] == r.id && b[..|q.id|] == q.id;
      assert a[|r.id| + 1..] == r.country && b[|q.id| + 1..] == q.country;
    }
  }

  // ---- filters ----

  lemma WithoutCons(r: Row, s: seq<Row>, ports: set<(string, string)>)
    ensures Without([r] + s, ports) == if Port(r) in ports then Without(s, ports) else [r] + Without(s, ports)
  {
    assert ([r] + s)[1..] == s;
  }

  lemma LivingCons(r: Row, s: seq<Row>, now: int)
    ensures Living([r] + s, now) == if Alive(r, now) then [r] + Living(s, now) else Living(s, now)
  {
    assert ([r] + s)[1..] == s;
  }

  lemma {:induction false} WithoutMembers(s: seq<Row>, ports: set<(string, string)>)
    ensures forall r :: r in Without(s, ports) <==> r in s && Port(r) !in ports
  {
    if s != [] {
      WithoutMembers(s[1..], ports);
      assert s == [s[0]] + s[1..];
    }
  }

  lemma {:induction false} WithoutTwice(s: seq<Row>, a: set<(string, string)>, b: set<(string, string)>)
    ensures Without(Without(s, a), b) == Without(s, a + b)
  {
    if s != [] {
      WithoutTwice(s[1..], a, b);
      WithoutCons(s[0], Without(s[1..], a), b);
    }
  }

  lemma {:induction false} WithoutConcat(s: seq<Row>, t: seq<Row>, ports: set<(string, string)>)
    ensures Without(s + t, ports) == Without(s, ports) + Without(t, ports)
  {
    if s == [] {
      assert s + t == t;
    } else {
      assert (s + t)[1..] == s[1..] + t;
      WithoutConcat(s[1..], t, ports);
    }
  }

  lemma {:induction false} WithoutNothing(s: seq<Row>, ports: set<(string, string)>)
    requires forall r :: r in s ==> Port(r) !in ports
    ensures Without(s, ports) == s
  {
    if s != [] {
      WithoutNothing(s[1..], ports);
      assert s == [s[0]] + s[1..];
    }
  }

  lemma {:induction false} LivingConcat(s: seq<Row>, t: seq<Row>, now: int)
    ensures Living(s + t, now) == Living(s, now) + Living(t, now)
  {
    if s == [] {
      assert s + t == t;
    } else {
      assert (s + t)[1..] == s[1..] + t;
      LivingConcat(s[1..], t, now);
    }
  }

  lemma {:induction false} LivingWithout(s: seq<Row>, ports: set<(string, string)>, now: int)
    ensures Living(Without(s, ports), now) == Without(Living(s, now), ports)
  {
    if s != [] {
      LivingWithout(s[1..], ports, now);
      LivingCons(s[0], Without(s[1..], ports), now);
      WithoutCons(s[0], Living(s[1..], now), ports);
    }
  }

  lemma {:induction false} LivingMembers(s: seq<Row>, now: int)
    ensures forall r :: r in Living(s, now) <==> r in s && Alive(r, now)
  {
    if s != [] {
      LivingMembers(s[1..], now);
      assert s == [s[0]] + s[1..];
    }
  }

  lemma {:induction false} LivingLater(s: seq<Row>, now: int, later: int)
    requires now <= later && forall r :: r in s ==> r.at <= now
    ensures Living(Living(s, now), later) == Living(s, later)
  {
    if s != [] {
      assert s == [s[0]] + s[1..];
      LivingLater(s[1..], now, later);
      LivingCons(s[0], Living(s[1..], now), later);
    }
  }

  lemma {:induction false} ReadableIsLiving(s: seq<Row>, now: int)
    requires AllWellFormed(s)
    ensures Readable(s, now) == Living(s, now)
  {
    if s != [] {
      ReadableIsLiving(s[1..], now);
    }
  }

  // ---- first occurrences ----

  function Ports(s: seq<Row>): set<(string, string)> {
    set r | r in s :: Port(r)
  }

  /** No port twice, and none without an identifier. */
  predicate Deduplicated(s: seq<Row>) {
    && (forall i :: 0 <= i < |s| ==> s[i].id != "")
    && forall i, j :: 0 <= i < j < |s| ==> Port(s[i]) != Port(s[j])
  }

  /** A head stays the first of its port in front of any part of its list's rest. */
  lemma DeduplicatedCons(r: Row, rest: seq<Row>, s: seq<Row>)
    requires s != [] && s[0] == r && Deduplicated(s)
    requires Deduplicated(rest) && forall q :: q in rest ==> q in s[1..]
    ensures Deduplicated([r] + rest)
  {
    forall j | 0 <= j < |rest| ensures Port(rest[j]) != Port(r) {
      assert rest[j] in s[1..];
    }
  }

  lemma {:induction false} WithoutDeduplicated(s: seq<Row>, ports: set<(string, string)>)
    requires Deduplicated(s)
    ensures Deduplicated(Without(s, ports))
  {
    if s != [] {
      WithoutDeduplicated(s[1..], ports);
      WithoutMembers(s[1..], ports);
      DeduplicatedCons(s[0], Without(s[1..], ports), s);
    }
  }

  lemma {:induction false} LivingDeduplicated(s: seq<Row>, now: int)
    requires Deduplicated(s)
    ensures Deduplicated(Living(s, now))
  {
    if s != [] {
      LivingDeduplicated(s[1..], now);
      LivingMembers(s[1..], now);
      DeduplicatedCons(s[0], Living(s[1..], now), s);
    }
  }

  lemma {:induction false} FirstSeenMembers(h: seq<Row>)
    ensures forall r :: r in FirstSeen(h) ==> r in h && r.id != ""
  {
    if h != [] {
      FirstSeenMembers(h[1..]);
      assert h == [h[0]] + h[1..];
      WithoutMembers(FirstSeen(h[1..]), {Port(h[0])});
    }
  }

  lemma {:induction false} FirstSeenDeduplicated(h: seq<Row>)
    ensures Deduplicated(FirstSeen(h))
    ensures forall r :: r in FirstSeen(h) ==> r in h
  {
    FirstSeenMembers(h);
    if h != [] {
      FirstSeenDeduplicated(h[1..]);
      var rest := FirstSeen(h[1..]);
      WithoutDeduplicated(rest, {Port(h[0])});
      WithoutMembers(rest, {Port(h[0])});
    }
  }

  lemma {:induction false} FirstSeenOfDeduplicated(s: seq<Row>)
    requires Deduplicated(s)
    ensures FirstSeen(s) == s
  {
    if s != [] {
      FirstSeenOfDeduplicated(s[1..]);
      assert s == [s[0]] + s[1..];
      forall r | r in s[1..] ensures Port(r) !in {Port(s[0])} {
      }
      WithoutNothing(s[1..], {Port(s[0])});
    }
  }

  lemma {:induction false} FirstSeenConcat(b: seq<Row>, h: seq<Row>)
    ensures FirstSeen(b + h) == FirstSeen(b) + Without(FirstSeen(h), Ports(FirstSeen(b)))
  {
    if b == [] {
      assert b + h == h;
      WithoutNothing(FirstSeen(h), Ports(FirstSeen(b)));
    } else {
      assert (b + h)[1..] == b[1..] + h;
      FirstSeenConcat(b[1..], h);
      if b[0].id != "" {
        var rest, port := FirstSeen(b[1..]), {Port(b[0])};
        WithoutConcat(rest, Without(FirstSeen(h), Ports(rest)), port);
        WithoutTwice(FirstSeen(h), Ports(rest), port);
        WithoutMembers(rest, port);
        assert Ports(rest) + port == Ports(FirstSeen(b));
      }
    }
  }

  /** The ports whose joined keys are in a set. */
  ghost predicate Marks(seen: set<string>, ports: set<(string, string)>, rows: seq<Row>) {
    forall r :: r in rows && r.id != "" ==> (JoinedKey(r) in seen <==> Port(r) in ports)
  }

  lemma MarksAfterBlank(r: Row, rest: seq<Row>, seen: set<string>, ports: set<(string, string)>)
    requires AllWellFormed([r] + rest) && r.id == "" && Marks(seen, ports, rest)
    ensures Marks(seen + {JoinedKey(r)}, ports, rest)
  {
    forall q | q in rest && q.id != "" ensures JoinedKey(q) != JoinedKey(r) {
      MemberWellFormed([r] + rest, q);
      MemberWellFormed([r] + rest, r);
      JoinedKeyInjective(q, r);
    }
  }

  lemma MarksAfterRow(r: Row, rest: seq<Row>, seen: set<string>, ports: set<(string, string)>)
    requires AllWellFormed([r] + rest) && Marks(seen, ports, rest)
    ensures Marks(seen + {JoinedKey(r)}, {Port(r)} + ports, rest)
  {
    forall q | q in rest && q.id != "" ensures JoinedKey(q) == JoinedKey(r) <==> Port(q) == Port(r) {
      MemberWellFormed([r] + rest, q);
      MemberWellFormed([r] + rest, r);
      JoinedKeyInjective(q, r);
    }
  }

  lemma MemberWellFormed(s: seq<Row>, r: Row)
    requires AllWellFormed(s) && r in s
    ensures WellFormed(r)
  {
  }

  /** The code's filter over joined texts is first occurrence over ports. */
  lemma {:induction false} UnseenIsFirstSeen(rows: seq<Row>, seen: set<string>, ports: set<(string, string)>)
    requires AllWellFormed(rows) && Marks(seen, ports, rows)
    ensures Unseen(rows, seen) == Without(FirstSeen(rows), ports)
    decreases |rows|
  {
    if rows != [] {
      var r, rest := rows[0], rows[1..];
      assert rows == [r] + rest;
      if r.id == "" {
        MarksAfterBlank(r, rest, seen, ports);
        UnseenIsFirstSeen(rest, seen, ports);
        UnseenIsFirstSeen(rest, seen + {JoinedKey(r)}, ports);
      } else {
        WithoutCons(r, Without(FirstSeen(rest), {Port(r)}), ports);
        WithoutTwice(FirstSeen(rest), {Port(r)}, ports);
        if JoinedKey(r) in seen {
          UnseenIsFirstSeen(rest, seen, ports);
          assert {Port(r)} + ports == ports;
        } else {
          MarksAfterRow(r, rest, seen, ports);
          UnseenIsFirstSeen(rest, seen + {JoinedKey(r)}, {Port(r)} + ports);
        }
      }
    }
  }

  // ---- truncating loses nothing ----

  /** Newest first. */
  predicate NewestFirst(s: seq<Row>) {
    forall i, j :: 0 <= i < j < |s| ==> s[i].at >= s[j].at
  }

  lemma {:induction false} DeadTail(s: seq<Row>, now: int)
    requires NewestFirst(s) && (forall i :: 0 <= i < |s| ==> s[i].at <= now) && s != [] && !Alive(s[0], now)
    ensures Living(s, now) == []
  {
    if |s| > 1 {
      assert s[1].at <= s[0].at;
      DeadTail(s[1..], now);
    }
  }

  /** Where rows are newest first, cutting before dropping the dead is harmless. */
  lemma {:induction false} CutThenLive(s: seq<Row>, n: nat, now: int)
    requires NewestFirst(s) && forall i :: 0 <= i < |s| ==> s[i].at <= now
    ensures Take(Living(Take(s, n), now), n) == Take(Living(s, now), n)
  {
    if |s| > n {
      if n == 0 {
      } else if Alive(s[0], now) {
        CutThenLive(s[1..], n - 1, now);
        assert s[..n][1..] == s[1..][..n - 1];
        TakeHead(s[0], Living(s[1..n], now), n);
        TakeHead(s[0], Living(s[1..], now), n);
        assert s[1..n] == s[1..][..n - 1];
      } else {
        DeadTail(s, now);
        DeadTail(s[..n], now);
      }
    }
  }

  lemma TakeHead<T>(x: T, s: seq<T>, n: nat)
    requires n > 0
    ensures Take([x] + s, n) == [x] + Take(s, n - 1)
  {
  }

  lemma PortsOfTail(y: seq<Row>, ports: set<(string, string)>)
    requires Deduplicated(y) && y != []
    ensures |ports * Ports(y)| == |ports * Ports(y[1..])| + (if Port(y[0]) in ports then 1 else 0)
  {
    var port, rest := Port(y[0]), Ports(y[1..]);
    assert y == [y[0]] + y[1..];
    assert Ports(y) == rest + {port};
    forall r | r in y[1..] ensures Port(r) != port {
    }
    AddToIntersection(ports, rest, port);
  }

  lemma AddToIntersection<T>(a: set<T>, b: set<T>, x: T)
    requires x !in b
    ensures |a * (b + {x})| == |a * b| + (if x in a then 1 else 0)
  {
    if x in a {
      assert a * (b + {x}) == a * b + {x};
    } else {
      assert a * (b + {x}) == a * b;
    }
  }

  lemma CutStep(y: seq<Row>, n: nat, ports: set<(string, string)>, m: nat)
    requires n > 0 && y != []
    requires Port(y[0]) in ports ==>
               Take(Without(Take(y[1..], n - 1), ports), m) == Take(Without(y[1..], ports), m)
    requires Port(y[0]) !in ports ==>
               m > 0 && Take(Without(Take(y[1..], n - 1), ports), m - 1) == Take(Without(y[1..], ports), m - 1)
    ensures Take(Without(Take(y, n), ports), m) == Take(Without(y, ports), m)
  {
    var x, rest := y[0], y[1..];
    assert y == [x] + rest && Take(y, n) == [x] + Take(rest, n - 1);
    WithoutCons(x, rest, ports);
    WithoutCons(x, Take(rest, n - 1), ports);
    if Port(x) !in ports {
      TakeHead(x, Without(Take(rest, n - 1), ports), m);
      TakeHead(x, Without(rest, ports), m);
    }
  }

  /** Cutting a list to n before removing some ports leaves the first m alone if at most n - m ports go. */
  lemma {:induction false} CutThenRemove(y: seq<Row>, n: nat, ports: set<(string, string)>, m: nat)
    requires Deduplicated(y) && |ports * Ports(y)| + m <= n
    ensures Take(Without(Take(y, n), ports), m) == Take(Without(y, ports), m)
    decreases |y|
  {
    if |y| <= n || m == 0 {
      CutNothing(y, n, ports, m);
    } else {
      PortsOfTail(y, ports);
      TailDeduplicated(y);
      CutThenRemove(y[1..], n - 1, ports, if Port(y[0]) in ports then m else m - 1);
      CutStep(y, n, ports, m);
    }
  }

  lemma CutNothing(y: seq<Row>, n: nat, ports: set<(string, string)>, m: nat)
    requires |y| <= n || m == 0
    ensures Take(Without(Take(y, n), ports), m) == Take(Without(y, ports), m)
  {
    if |y| <= n {
      assert Take(y, n) == y;
    } else {
      assert Take(Without(Take(y, n), ports), 0) == [] == Take(Without(y, ports), 0);
    }
  }

  lemma TailDeduplicated(y: seq<Row>)
    requires Deduplicated(y) && y != []
    ensures Deduplicated(y[1..])
  {
  }

  lemma PortsOfCons(s: seq<Row>)
    requires s != []
    ensures Ports(s) == {Port(s[0])} + Ports(s[1..])
  {
    assert s == [s[0]] + s[1..];
  }

  lemma HeadPortIsNew(s: seq<Row>)
    requires Deduplicated(s) && s != []
    ensures Port(s[0]) !in Ports(s[1..])
  {
    forall r | r in s[1..] ensures Port(r) != Port(s[0]) {
      var j :| 0 <= j < |s[1..]| && s[1..][j] == r;
      assert s[j + 1] == r;
    }
  }

  lemma {:induction false} PortCount(s: seq<Row>)
    requires Deduplicated(s)
    ensures |Ports(s)| == |s|
  {
    if s != [] {
      TailDeduplicated(s);
      PortCount(s[1..]);
      PortsOfCons(s);
      HeadPortIsNew(s);
    }
  }

  lemma TakeConcat<T>(a: seq<T>, b: seq<T>, c: seq<T>, n: nat)
    requires |a| <= n ==> Take(b, n - |a|) == Take(c, n - |a|)
    ensures Take(a + b, n) == Take(a + c, n)
  {
    if |a| <= n {
      assert Take(a + b, n) == a + Take(b, n - |a|);
      assert Take(a + c, n) == a + Take(c, n - |a|);
    } else {
      assert Take(a + b, n) == a[..n] == Take(a + c, n);
    }
  }

  /** A batch pushes out at most as many old entries as it brings itself, so a cut list serves as well. */
  lemma CutBehindBatch(d: seq<Row>, y: seq<Row>, n: nat)
    requires Deduplicated(d) && Deduplicated(y)
    ensures Take(d + Without(Take(y, n), Ports(d)), n) == Take(d + Without(y, Ports(d)), n)
  {
    if |d| <= n {
      PortCount(d);
      SubsetSize(Ports(d) * Ports(y), Ports(d));
      CutThenRemove(y, n, Ports(d), n - |d|);
    }
    TakeConcat(d, Without(Take(y, n), Ports(d)), Without(y, Ports(d)), n);
  }

  // ---- the cache refines the history ----

  lemma {:induction false} HistoryShape(batches: seq<Batch>, t: int)
    requires Orderly(batches) && forall i :: 0 <= i < |batches| ==> batches[i].now <= t
    ensures AllWellFormed(History(batches)) && NewestFirst(History(batches))
    ensures forall r :: r in History(batches) ==> r.at <= t
  {
    if batches != [] {
      var front, last := batches[..|batches| - 1], batches[|batches| - 1];
      HistoryShape(front, last.now);
      var stamped, older := Stamp(last.rows, last.now), History(front);
      assert forall i :: 0 <= i < |older| ==> older[i] in older;
      assert forall i :: 0 <= i < |stamped| ==> WellFormed(last.rows[i]) && stamped[i].at == last.now;
    }
  }

  lemma {:induction false} WithoutKeepsShape(s: seq<Row>, ports: set<(string, string)>)
    requires AllWellFormed(s) && NewestFirst(s)
    ensures AllWellFormed(Without(s, ports)) && NewestFirst(Without(s, ports))
  {
    if s != [] {
      WithoutKeepsShape(s[1..], ports);
      WithoutMembers(s[1..], ports);
      HeadKeepsShape(s, Without(s[1..], ports));
    }
  }

  lemma HeadKeepsShape(s: seq<Row>, kept: seq<Row>)
    requires s != [] && AllWellFormed(s) && NewestFirst(s) && AllWellFormed(kept) && NewestFirst(kept)
    requires forall r :: r in kept ==> r in s[1..]
    ensures AllWellFormed([s[0]] + kept) && NewestFirst([s[0]] + kept)
  {
    forall j | 0 <= j < |kept| ensures s[0].at >= kept[j].at {
      assert kept[j] in s[1..];
      var i :| 0 <= i < |s[1..]| && s[1..][i] == kept[j];
      assert s[i + 1] == kept[j];
    }
  }

  lemma {:induction false} FirstSeenKeepsShape(h: seq<Row>)
    requires AllWellFormed(h) && NewestFirst(h)
    ensures AllWellFormed(FirstSeen(h)) && NewestFirst(FirstSeen(h))
  {
    if h != [] {
      FirstSeenKeepsShape(h[1..]);
      if h[0].id != "" {
        var rest := FirstSeen(h[1..]);
        FirstSeenDeduplicated(h[1..]);
        WithoutKeepsShape(rest, {Port(h[0])});
        WithoutMembers(rest, {Port(h[0])});
        HeadKeepsShape(h, Without(rest, {Port(h[0])}));
      }
    }
  }

  lemma {:induction false} LivingKeepsShape(s: seq<Row>, now: int)
    requires AllWellFormed(s) && NewestFirst(s)
    ensures AllWellFormed(Living(s, now)) && NewestFirst(Living(s, now))
  {
    if s != [] {
      LivingKeepsShape(s[1..], now);
      LivingMembers(s[1..], now);
      HeadKeepsShape(s, Living(s[1..], now));
    }
  }

  lemma {:induction false} LivingAll(s: seq<Row>, now: int)
    requires forall r :: r in s ==> Alive(r, now)
    ensures Living(s, now) == s
  {
    if s != [] {
      LivingAll(s[1..], now);
      assert s == [s[0]] + s[1..];
    }
  }

  /** A batch stamped with the time of the write stands in front of what was still alive then. */
  lemma BatchBeforeLiving(b: seq<Row>, h: seq<Row>, t: int)
    requires forall r :: r in b ==> r.at == t
    ensures FirstSeen(b) + Without(Living(FirstSeen(h), t), Ports(FirstSeen(b))) == Living(FirstSeen(b + h), t)
  {
    var d, x := FirstSeen(b), FirstSeen(h);
    FirstSeenDeduplicated(b);
    FirstSeenConcat(b, h);
    LivingAll(d, t);
    LivingConcat(d, Without(x, Ports(d)), t);
    LivingWithout(x, Ports(d), t);
  }

  lemma TakeDeduplicated(s: seq<Row>, n: nat)
    requires Deduplicated(s)
    ensures Deduplicated(Take(s, n))
  {
  }

  /** What a write stores: the first 60 of everything ever seen that is alive at the write. */
  lemma WriteStoresLiving(b: seq<Row>, h: seq<Row>, t: int)
    requires forall r :: r in b ==> r.at == t
    ensures Take(FirstSeen(b + Wanted(h, t)), CAPACITY) == Take(Living(FirstSeen(b + h), t), CAPACITY)
  {
    var y := Living(FirstSeen(h), t);
    FirstSeenDeduplicated(b);
    FirstSeenDeduplicated(h);
    LivingDeduplicated(FirstSeen(h), t);
    TakeDeduplicated(y, CAPACITY);
    FirstSeenOfDeduplicated(Wanted(h, t));
    FirstSeenConcat(b, Wanted(h, t));
    CutBehindBatch(FirstSeen(b), y, CAPACITY);
    BatchBeforeLiving(b, h, t);
  }

  /** Reading back what a write stored loses nothing that the whole history would show. */
  lemma ReadAfterWrite(whole: seq<Row>, t: int, now: int)
    requires AllWellFormed(whole) && NewestFirst(whole) && t <= now
    requires forall r :: r in whole ==> r.at <= t
    ensures Read(Take(Living(FirstSeen(whole), t), CAPACITY), now) == Wanted(whole, now)
  {
    var x := FirstSeen(whole);
    var living := Living(x, t);
    FirstSeenKeepsShape(whole);
    FirstSeenDeduplicated(whole);
    LivingKeepsShape(x, t);
    LivingMembers(x, t);
    assert forall i :: 0 <= i < |living| ==> living[i] in living;
    ReadableIsLiving(Take(living, CAPACITY), now);
    CutThenLive(living, CAPACITY, now);
    LivingLater(x, t, now);
  }

  lemma WantedShape(h: seq<Row>, now: int)
    requires AllWellFormed(h) && NewestFirst(h)
    ensures AllWellFormed(Wanted(h, now))
  {
    FirstSeenKeepsShape(h);
    LivingKeepsShape(FirstSeen(h), now);
  }

  /** What the last write of a run leaves behind, if it has read what the history before it says. */
  lemma WrittenIsLiving(batches: seq<Batch>)
    requires Orderly(batches) && batches != []
    requires var front, t := batches[..|batches| - 1], batches[|batches| - 1].now;
             Read(StoredAfter(front), t) == Wanted(History(front), t)
    ensures StoredAfter(batches)
            == Take(Living(FirstSeen(History(batches)), batches[|batches| - 1].now), CAPACITY)
  {
    var front, last := batches[..|batches| - 1], batches[|batches| - 1];
    var t, b, h := last.now, Stamp(last.rows, last.now), History(front);
    HistoryShape(front, t);
    WantedShape(h, t);
    StampWellFormed(last.rows, t);
    UnseenIsFirstSeen(b + Wanted(h, t), {}, {});
    WithoutNothing(FirstSeen(b + Wanted(h, t)), {});
    WriteStoresLiving(b, h, t);
  }

  lemma StampWellFormed(rows: seq<Row>, now: int)
    requires AllWellFormed(rows)
    ensures AllWellFormed(Stamp(rows, now))
  {
    assert forall i :: 0 <= i < |rows| ==> WellFormed(rows[i]);
  }

  /**
   After any run of writes with well-formed rows at times that never go back, a later reading shows
   exactly the first 60 living entries of everything ever seen: cutting to 60 at every write loses nothing.
   */
  lemma {:induction false} CacheRefinesHistory(batches: seq<Batch>, now: int)
    requires Orderly(batches) && forall i :: 0 <= i < |batches| ==> batches[i].now <= now
    ensures Read(StoredAfter(batches), now) == Wanted(History(batches), now)
  {
    if batches != [] {
      var front, t := batches[..|batches| - 1], batches[|batches| - 1].now;
      CacheRefinesHistory(front, t);
      WrittenIsLiving(batches);
      HistoryShape(batches, t);
      ReadAfterWrite(History(batches), t, now);
    }
  }

  // ---- without well-formed rows ----

  function Plain(id: string, country: string, at: int): Row {
    Row("Port", "", "Port", country, id, at)
  }

  /**
   With a malformed country the joined keys of two ports can collide: the malformed row hides the
   good one when written and is itself dropped when read.
   */
  lemma MalformedCountryHidesPort()
    ensures var bad, good := Plain("A", "B|CA", 0), Plain("A|B", "CA", 0);
            && !WellFormed(bad) && WellFormed(good) && Port(bad) != Port(good)
            && Read(Remembered([], [bad, good], 0), 0) == []
            && Read(Remembered([], [good], 0), 0) == [good]
  {
    var bad, good := Plain("A", "B|CA", 0), Plain("A|B", "CA", 0);
    assert JoinedKey(bad) == "A" + "|" + "B|CA" == "A|B" + "|" + "CA" == JoinedKey(good);
    assert bad.country[0] == 'B' && |bad.country| == 4;
    assert Stamp([bad, good], 0) + Read([], 0) == [bad, good];
    assert [bad, good][1..] == [good] && [good][1..] == [];
    assert Unseen([good], {JoinedKey(bad)}) == [];
    assert Unseen([bad, good], {}) == [bad] + Unseen([good], {JoinedKey(bad)}) by {
      assert {} + {JoinedKey(bad)} == {JoinedKey(bad)};
    }
    assert Readable([bad], 0) == [];
    assert Stamp([good], 0) + Read([], 0) == [good];
    assert Unseen([good], {}) == [good];
    assert Readable([good], 0) == [good];
  }

  // ---- what a reading lets through ----

  /** A row that a reading shows: less than a day old, no text over 200 characters, a country of two capitals or "". */
  ghost predicate Showable(r: Row, now: int) {
    && 0 <= now - r.at < 86_400_000
    && |r.text| <= 200 && |r.zh| <= 200 && |r.en| <= 200 && |r.country| <= 200 && |r.id| <= 200
    && (r.country == "" || exists a: char, b: char :: 'A' <= a <= 'Z' && 'A' <= b <= 'Z' && r.country == [a, b])
  }

  lemma ShowableMeaning(r: Row, now: int)
    ensures Alive(r, now) && WellFormed(r) <==> Showable(r, now)
  {
    if |r.country| == 2 {
      assert r.country == [r.country[0], r.country[1]];
    }
  }

  /** A reading shows the first 60 showable rows, in their order: of one row it shows that row exactly if it may. */
  lemma {:induction false} ReadableExactly(s: seq<Row>, t: seq<Row>, now: int)
    ensures Readable(s + t, now) == Readable(s, now) + Readable(t, now)
    ensures |s| == 1 ==> Readable(s, now) == if Showable(s[0], now) then s else []
    ensures Read(s, now) == if |Readable(s, now)| <= 60 then Readable(s, now) else Readable(s, now)[..60]
  {
    if s == [] {
      assert s + t == t;
    } else {
      ShowableMeaning(s[0], now);
      ReadableExactly(s[1..], t, now);
      assert (s + t)[1..] == s[1..] + t;
    }
  }
}
