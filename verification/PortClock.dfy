/** The port cache when the clock goes back between two writes. */
module PortClock {
  import opened Lists
  import opened PortCache

  // ---- back before all earlier writes ----

  lemma {:induction false} UnseenMembers(rows: seq<Row>, seen: set<string>)
    ensures forall r :: r in Unseen(rows, seen) ==> r in rows
  {
    if rows != [] {
      UnseenMembers(rows[1..], seen);
      UnseenMembers(rows[1..], seen + {JoinedKey(rows[0])});
    }
  }

  lemma {:induction false} ReadableMembers(s: seq<Row>, now: int)
    ensures forall r :: r in Readable(s, now) ==> r in s && Alive(r, now)
  {
    if s != [] {
      ReadableMembers(s[1..], now);
    }
  }

  lemma {:induction false} NoneReadable(s: seq<Row>, now: int)
    requires forall r :: r in s ==> !Alive(r, now)
    ensures Readable(s, now) == [] && Living(s, now) == []
  {
    if s != [] {
      NoneReadable(s[1..], now);
    }
  }

  lemma TakeMembers<T>(s: seq<T>, n: nat)
    ensures forall x :: x in Take(s, n) ==> x in s
  {
  }

  /** Rows that a write stores are its own or were readable. */
  lemma RememberedMembers(stored: seq<Row>, rows: seq<Row>, now: int)
    ensures forall r :: r in Remembered(stored, rows, now) ==> r.at == now || r in stored
  {
    var merged := Stamp(rows, now) + Read(stored, now);
    UnseenMembers(merged, {});
    TakeMembers(Unseen(merged, {}), CAPACITY);
    ReadableMembers(stored, now);
    TakeMembers(Readable(stored, now), CAPACITY);
  }

  /** Every stored row bears the time of a write, so none is from before all of them. */
  lemma {:induction false} StoredAfterTime(batches: seq<Batch>, t: int)
    requires forall i :: 0 <= i < |batches| ==> batches[i].now > t
    ensures forall r :: r in StoredAfter(batches) ==> r.at > t
  {
    if batches != [] {
      var front, last := batches[..|batches| - 1], batches[|batches| - 1];
      StoredAfterTime(front, t);
      RememberedMembers(StoredAfter(front), last.rows, last.now);
    }
  }

  /** A write before all earlier ones drops everything they have stored. */
  lemma EarlierWriteForgets(front: seq<Batch>, rows: seq<Row>, t: int)
    requires AllWellFormed(rows) && forall i :: 0 <= i < |front| ==> front[i].now > t
    ensures StoredAfter(front + [Batch(rows, t)]) == Take(FirstSeen(Stamp(rows, t)), CAPACITY)
  {
    var all, b := front + [Batch(rows, t)], Stamp(rows, t);
    assert all[..|all| - 1] == front;
    StoredAfterTime(front, t);
    NoneReadable(StoredAfter(front), t);
    assert b + [] == b;
    StampWellFormed(rows, t);
    UnseenIsFirstSeen(b, {}, {});
    WithoutNothing(FirstSeen(b), {});
  }

  lemma ReadOfOneTime(d: seq<Row>, t: int, now: int)
    requires AllWellFormed(d) && forall r :: r in d ==> r.at == t
    ensures Read(Take(d, CAPACITY), now) == Take(Living(d, now), CAPACITY)
  {
    TakeMembers(d, CAPACITY);
    if t <= now && now - t < CACHE_AGE {
      ReadableIsLiving(Take(d, CAPACITY), now);
      LivingAll(Take(d, CAPACITY), now);
      LivingAll(d, now);
    } else {
      NoneReadable(Take(d, CAPACITY), now);
      NoneReadable(d, now);
    }
  }

  lemma FirstSeenOfOneTime(rows: seq<Row>, t: int)
    requires AllWellFormed(rows)
    ensures AllWellFormed(FirstSeen(Stamp(rows, t))) && forall r :: r in FirstSeen(Stamp(rows, t)) ==> r.at == t
  {
    StampWellFormed(rows, t);
    FirstSeenMembers(Stamp(rows, t));
    FirstSeenKeepsShape(Stamp(rows, t));
  }

  /** What the earlier writes could still add when the last one's entries stand first. */
  function Lost(front: seq<Batch>, rows: seq<Row>, t: int, now: int): seq<Row> {
    Without(Living(FirstSeen(History(front)), now), Ports(FirstSeen(Stamp(rows, t))))
  }

  lemma WantedWithLast(front: seq<Batch>, rows: seq<Row>, t: int, now: int)
    ensures Wanted(History(front + [Batch(rows, t)]), now)
            == Take(Living(FirstSeen(Stamp(rows, t)), now) + Lost(front, rows, t, now), CAPACITY)
  {
    var all, d, h := front + [Batch(rows, t)], FirstSeen(Stamp(rows, t)), History(front);
    assert all[..|all| - 1] == front;
    FirstSeenConcat(Stamp(rows, t), h);
    LivingConcat(d, Without(FirstSeen(h), Ports(d)), now);
    LivingWithout(FirstSeen(h), Ports(d), now);
  }

  /**
   When the clock goes back, and a write comes before all earlier ones, a later reading shows that write's entries
   alone. It is what the whole history says exactly if the earlier writes have nothing living to
   add, or the last one fills the cache by itself.
   */
  lemma ClockGoingBackForgets(front: seq<Batch>, rows: seq<Row>, t: int, now: int)
    requires AllWellFormed(rows) && forall i :: 0 <= i < |front| ==> front[i].now > t
    ensures var batches, d := front + [Batch(rows, t)], Living(FirstSeen(Stamp(rows, t)), now);
            && Read(StoredAfter(batches), now) == Take(d, CAPACITY)
            && (Read(StoredAfter(batches), now) == Wanted(History(batches), now)
                <==> Lost(front, rows, t, now) == [] || |d| >= CAPACITY)
  {
    EarlierWriteForgets(front, rows, t);
    FirstSeenOfOneTime(rows, t);
    ReadOfOneTime(FirstSeen(Stamp(rows, t)), t, now);
    WantedWithLast(front, rows, t, now);
    TakeMore(Living(FirstSeen(Stamp(rows, t)), now), Lost(front, rows, t, now), CAPACITY);
  }

  lemma TakeMore<T>(a: seq<T>, b: seq<T>, n: nat)
    ensures Take(a, n) == Take(a + b, n) <==> b == [] || |a| >= n
  {
    if b == [] {
      assert a + b == a;
    } else if |a| >= n {
      assert Take(a + b, n) == a[..n];
    } else {
      assert |Take(a + b, n)| > |a|;
    }
  }

  /** When the clock goes back between two writes, the older entry is lost for good. */
  lemma ClockGoingBackLosesEntry()
    ensures var first, second := Plain("A", "CA", 10), Plain("B", "CA", 5);
            && Read(StoredAfter([Batch([first], 10), Batch([second], 5)]), 10) == [second]
            && Wanted(History([Batch([first], 10), Batch([second], 5)]), 10) == [second, first]
  {
    var first, second := Plain("A", "CA", 10), Plain("B", "CA", 5);
    var one, two := [Batch([first], 10)], [Batch([first], 10), Batch([second], 5)];
    assert two[..1] == one && one[..0] == [];
    assert Stamp([first], 10) + Read([], 10) == [first];
    assert Unseen([first], {}) == [first];
    assert StoredAfter([]) == [] && StoredAfter(one) == [first];
    assert Readable([first], 5) == [];
    assert Stamp([second], 5) + Read([first], 5) == [second];
    assert Unseen([second], {}) == [second];
    assert StoredAfter(two) == [second];
    assert Readable([second], 10) == [second];
    assert History(one) == [first] && History(two) == [second, first];
    assert [second, first][1..] == [first];
    assert FirstSeen([first]) == [first];
    assert Without([first], {Port(second)}) == [first];
    assert FirstSeen([second, first]) == [second, first];
    assert Living([first], 10) == [first] && Living([second, first], 10) == [second, first];
  }

  // ---- back before some of the earlier writes ----

  /** The rows that a reading at t does not take for rows of the future. */
  function Known(s: seq<Row>, t: int): seq<Row> {
    if s == [] then []
    else if s[0].at <= t then [s[0]] + Known(s[1..], t)
    else Known(s[1..], t)
  }

  lemma {:induction false} KnownMembers(s: seq<Row>, t: int)
    ensures forall r :: r in Known(s, t) <==> r in s && r.at <= t
  {
    if s != [] {
      KnownMembers(s[1..], t);
      assert s == [s[0]] + s[1..];
    }
  }

  /** Living at t and still living later: living later, and not of the future at t. */
  lemma {:induction false} LivingTwice(s: seq<Row>, t: int, now: int)
    requires t <= now
    ensures Living(Living(s, t), now) == Known(Living(s, now), t)
  {
    if s != [] {
      LivingTwice(s[1..], t, now);
      LivingCons(s[0], Living(s[1..], t), now);
      KnownCons(s[0], Living(s[1..], now), t);
    }
  }

  lemma KnownCons(r: Row, s: seq<Row>, t: int)
    ensures Known([r] + s, t) == if r.at <= t then [r] + Known(s, t) else Known(s, t)
  {
    assert ([r] + s)[1..] == s;
  }

  /** If the rows of other ports are all known, cutting out the unknown ones changes nothing for them. */
  lemma {:induction false} WithoutKnown(s: seq<Row>, ports: set<(string, string)>, t: int)
    requires forall r :: r in s && Port(r) !in ports ==> r.at <= t
    ensures Without(Known(s, t), ports) == Without(s, ports)
  {
    if s != [] {
      assert s == [s[0]] + s[1..];
      WithoutKnown(s[1..], ports, t);
      WithoutCons(s[0], Known(s[1..], t), ports);
    }
  }

  /** After a run of writes in order, what the last one stored is what a reading at its time would show. */
  lemma StoredIsLiving(front: seq<Batch>)
    requires Orderly(front) && front != []
    ensures StoredAfter(front) == Take(Living(FirstSeen(History(front)), front[|front| - 1].now), CAPACITY)
  {
    CacheRefinesHistory(front[..|front| - 1], front[|front| - 1].now);
    WrittenIsLiving(front);
  }

  lemma CutIsAtMost<T>(s: seq<T>, n: nat)
    ensures |Take(s, n)| <= n && (|s| <= n ==> Take(s, n) == s)
  {
  }

  lemma {:induction false} LivingIsAtMost(s: seq<Row>, now: int)
    ensures |Living(s, now)| <= |s|
  {
    if s != [] {
      LivingIsAtMost(s[1..], now);
    }
  }

  /** What is stored, seen at a time after all of its writes. */
  lemma StoredLaterLiving(front: seq<Batch>, now: int)
    requires Orderly(front) && forall i :: 0 <= i < |front| ==> front[i].now <= now
    ensures var stored, y := StoredAfter(front), Living(FirstSeen(History(front)), now);
            && AllWellFormed(stored) && NewestFirst(stored) && Deduplicated(stored) && |stored| <= CAPACITY
            && Living(stored, now) == Take(y, CAPACITY)
            && AllWellFormed(y) && NewestFirst(y) && Deduplicated(y)
  {
    HistoryShape(front, now);
    var x := FirstSeen(History(front));
    FirstSeenKeepsShape(History(front));
    FirstSeenDeduplicated(History(front));
    LivingKeepsShape(x, now);
    LivingDeduplicated(x, now);
    if front != [] {
      var t := front[|front| - 1].now;
      StoredIsLiving(front);
      HistoryShape(front, t);
      LivingKeepsShape(x, t);
      LivingDeduplicated(x, t);
      LivingMembers(x, t);
      TakeDeduplicated(Living(x, t), CAPACITY);
      assert forall i :: 0 <= i < |Living(x, t)| ==> Living(x, t)[i] in Living(x, t);
      CutThenLive(Living(x, t), CAPACITY, now);
      LivingLater(x, t, now);
      LivingIsAtMost(StoredAfter(front), now);
      CutIsAtMost(Living(x, t), CAPACITY);
      CutIsAtMost(Living(StoredAfter(front), now), CAPACITY);
    }
  }

  /** What a write at any time leaves behind such a run, and what a later reading shows of it. */
  lemma ReadAfterStep(front: seq<Batch>, rows: seq<Row>, t: int, now: int)
    requires Orderly(front) && AllWellFormed(rows) && t <= now
    requires forall i :: 0 <= i < |front| ==> front[i].now <= now
    ensures var d, seen := FirstSeen(Stamp(rows, t)), Known(Living(StoredAfter(front), now), t);
            Read(StoredAfter(front + [Batch(rows, t)]), now)
            == Take(Living(d, now) + Without(seen, Ports(d)), CAPACITY)
  {
    var stored, all, b := StoredAfter(front), front + [Batch(rows, t)], Stamp(rows, t);
    var d, l := FirstSeen(b), Living(stored, t);
    assert all[..|all| - 1] == front;
    StoredLaterLiving(front, now);
    StepStores(stored, rows, t);
    var z := d + Without(l, Ports(d));
    StepShape(stored, rows, t);
    CutThenLive(z, CAPACITY, now);
    TakeKeepsShape(z, CAPACITY);
    ReadableIsLiving(Take(z, CAPACITY), now);
    LivingConcat(d, Without(l, Ports(d)), now);
    LivingWithout(l, Ports(d), now);
    LivingTwice(stored, t, now);
  }

  lemma TakeKeepsShape(s: seq<Row>, n: nat)
    requires AllWellFormed(s)
    ensures AllWellFormed(Take(s, n))
  {
  }

  lemma StepStores(stored: seq<Row>, rows: seq<Row>, t: int)
    requires AllWellFormed(stored) && Deduplicated(stored) && |stored| <= CAPACITY && AllWellFormed(rows)
    ensures var d := FirstSeen(Stamp(rows, t));
            Remembered(stored, rows, t) == Take(d + Without(Living(stored, t), Ports(d)), CAPACITY)
  {
    var b, l := Stamp(rows, t), Living(stored, t);
    ReadableIsLiving(stored, t);
    LivingIsAtMost(stored, t);
    CutIsAtMost(l, CAPACITY);
    LivingDeduplicated(stored, t);
    StampWellFormed(rows, t);
    LivingMembers(stored, t);
    assert AllWellFormed(b + l) by {
      forall i | 0 <= i < |l| ensures WellFormed(l[i]) {
        MemberWellFormed(stored, l[i]);
      }
    }
    UnseenIsFirstSeen(b + l, {}, {});
    WithoutNothing(FirstSeen(b + l), {});
    FirstSeenOfDeduplicated(l);
    FirstSeenConcat(b, l);
  }

  lemma StepShape(stored: seq<Row>, rows: seq<Row>, t: int)
    requires AllWellFormed(stored) && NewestFirst(stored) && AllWellFormed(rows)
    ensures var d := FirstSeen(Stamp(rows, t));
            var z := d + Without(Living(stored, t), Ports(d));
            AllWellFormed(z) && NewestFirst(z) && forall i :: 0 <= i < |z| ==> z[i].at <= t
  {
    var d, l := FirstSeen(Stamp(rows, t)), Living(stored, t);
    FirstSeenOfOneTime(rows, t);
    LivingKeepsShape(stored, t);
    LivingMembers(stored, t);
    WithoutKeepsShape(l, Ports(d));
    WithoutMembers(l, Ports(d));
    assert forall i :: 0 <= i < |d| ==> d[i] in d;
    assert forall i :: 0 <= i < |Without(l, Ports(d))| ==> Without(l, Ports(d))[i] in Without(l, Ports(d));
  }

  /** With nothing lost, what the cut list shows behind the last batch is what the whole one would. */
  lemma NothingLost(d: seq<Row>, y: seq<Row>, t: int, now: int)
    requires Deduplicated(d) && Deduplicated(y) && (forall r :: r in d ==> r.at == t) && t <= now
    requires (forall r :: r in y ==> Alive(r, now)) && forall r :: r in Without(y, Ports(d)) ==> r.at <= t
    ensures Take(Living(d, now) + Without(Known(Take(y, CAPACITY), t), Ports(d)), CAPACITY)
            == Take(Living(d, now) + Without(y, Ports(d)), CAPACITY)
  {
    WithoutMembers(y, Ports(d));
    TakeMembers(y, CAPACITY);
    WithoutKnown(Take(y, CAPACITY), Ports(d), t);
    if now - t < CACHE_AGE {
      LivingAll(d, now);
      CutBehindBatch(d, y, CAPACITY);
    } else {
      NoneReadable(d, now);
      WithoutMembers(Take(y, CAPACITY), Ports(d));
      NoMembers(Without(y, Ports(d)));
      NoMembers(Without(Take(y, CAPACITY), Ports(d)));
    }
  }

  lemma NoMembers<T>(s: seq<T>)
    ensures s != [] ==> exists x :: x in s
  {
    if s != [] {
      assert s[0] in s;
    }
  }

  /** With something lost, the first thing lost is missing, or the last batch fills the cache. */
  lemma SomethingLost(a: seq<Row>, kept: seq<Row>, wanted: seq<Row>, t: int)
    requires (forall r :: r in kept ==> r.at <= t) && NewestFirst(wanted)
    requires exists r :: r in wanted && r.at > t
    ensures Take(a + kept, CAPACITY) == Take(a + wanted, CAPACITY) <==> |a| >= CAPACITY
  {
    var i :| 0 <= i < |wanted| && wanted[i].at > t;
    assert wanted[0].at > t;
    if |a| < CAPACITY {
      assert Take(a + wanted, CAPACITY)[|a|] == wanted[0];
      if kept != [] {
        assert kept[0] in kept;
        assert Take(a + kept, CAPACITY)[|a|] == kept[0];
      }
    } else {
      assert Take(a + kept, CAPACITY) == a[..CAPACITY] == Take(a + wanted, CAPACITY);
    }
  }

  /**
   The exact cost of one step back, to any time: after writes in order and then one at any time, a later reading is
   what the whole history says exactly if every living row of another port than the last batch's was observed
   no later than that batch, or the last batch fills the cache by itself.
   */
  lemma ClockStepBack(front: seq<Batch>, rows: seq<Row>, t: int, now: int)
    requires Orderly(front) && AllWellFormed(rows) && t <= now
    requires forall i :: 0 <= i < |front| ==> front[i].now <= now
    ensures var batches, d := front + [Batch(rows, t)], Living(FirstSeen(Stamp(rows, t)), now);
            Read(StoredAfter(batches), now) == Wanted(History(batches), now)
            <==> (forall r :: r in Lost(front, rows, t, now) ==> r.at <= t) || |d| >= CAPACITY
  {
    var d, y := FirstSeen(Stamp(rows, t)), Living(FirstSeen(History(front)), now);
    var kept := Without(Known(Take(y, CAPACITY), t), Ports(d));
    StoredLaterLiving(front, now);
    ReadAfterStep(front, rows, t, now);
    WantedWithLast(front, rows, t, now);
    LivingMembers(FirstSeen(History(front)), now);
    FirstSeenDeduplicated(Stamp(rows, t));
    FirstSeenOfOneTime(rows, t);
    if forall r :: r in Lost(front, rows, t, now) ==> r.at <= t {
      NothingLost(d, y, t, now);
    } else {
      KnownMembers(Take(y, CAPACITY), t);
      WithoutMembers(Known(Take(y, CAPACITY), t), Ports(d));
      WithoutKeepsShape(y, Ports(d));
      SomethingLost(Living(d, now), kept, Without(y, Ports(d)), t);
    }
  }
}
