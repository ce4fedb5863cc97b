/** Grouping of sailings into services: `serviceGroups` in apps/console/maritime.js. */
module ServiceGroups {
  import opened Lists

  /** A sailing: its operating carrier ("" when absent) and the other texts that make its group key. */
  datatype Record = Record(operatingCarrier: string, signature: string)

  type Key = (string, string)

  datatype Group = Group(key: Key, records: seq<Record>, index: nat)

  function KeyOf(r: Record, fallback: string): Key {
    (if r.operatingCarrier != "" then r.operatingCarrier else fallback, r.signature)
  }

  /** The position of a key among the groups, or their number. */
  function Position(groups: seq<Group>, key: Key): (k: nat)
    ensures k <= |groups| && forall i :: 0 <= i < k ==> groups[i].key != key
    ensures k < |groups| ==> groups[k].key == key
  {
    if groups == [] || groups[0].key == key then 0 else 1 + Position(groups[1..], key)
  }

  function Add(groups: seq<Group>, r: Record, fallback: string): seq<Group> {
    var key := KeyOf(r, fallback);
    var k := Position(groups, key);
    if k == |groups| then groups + [Group(key, [r], |groups|)]
    else groups[k := groups[k].(records := groups[k].records + [r])]
  }

  function Groups(records: seq<Record>, fallback: string): seq<Group> {
    if records == [] then []
    else Add(Groups(records[..|records| - 1], fallback), records[|records| - 1], fallback)
  }

  /** The loop, with the insertion-ordered map as its list of entries. */
  method GroupServices(records: seq<Record>, fallback: string) returns (groups: seq<Group>)
    ensures groups == Groups(records, fallback)
  {
    groups := [];
    var i := 0;
    while i < |records|
      invariant 0 <= i <= |records|
      invariant groups == Groups(records[..i], fallback)
    {
      var record := records[i];
      var key := KeyOf(record, fallback);
      var k := Position(groups, key);
      assert records[..i + 1][..i] == records[..i];
      if k == |groups| {
        groups := groups + [Group(key, [], |groups|)];
        assert [] + [record] == [record];
      }
      groups := groups[k := groups[k].(records := groups[k].records + [record])];
      i := i + 1;
    }
    assert records[..|records|] == records;
  }

  function WithKey(records: seq<Record>, key: Key, fallback: string): seq<Record> {
    if records == [] then []
    else
      var front, last := records[..|records| - 1], records[|records| - 1];
      if KeyOf(last, fallback) == key then WithKey(front, key, fallback) + [last] else WithKey(front, key, fallback)
  }

  /** Positions as indexes, no empty group, no key twice. */
  ghost predicate Numbered(groups: seq<Group>) {
    && (forall k :: 0 <= k < |groups| ==> groups[k].index == k && groups[k].records != [])
    && (forall j, k :: 0 <= j < k < |groups| ==> groups[j].key != groups[k].key)
  }

  lemma AddNumbers(groups: seq<Group>, r: Record, fallback: string)
    requires Numbered(groups)
    ensures Numbered(Add(groups, r, fallback))
  {
    var k, after := Position(groups, KeyOf(r, fallback)), Add(groups, r, fallback);
    forall i | 0 <= i < |groups| ensures after[i].key == groups[i].key && after[i].index == groups[i].index {
    }
  }

  lemma {:induction false} GroupsNumbered(records: seq<Record>, fallback: string)
    ensures Numbered(Groups(records, fallback))
  {
    if records != [] {
      GroupsNumbered(records[..|records| - 1], fallback);
      AddNumbers(Groups(records[..|records| - 1], fallback), records[|records| - 1], fallback);
    }
  }

  ghost predicate Covered(groups: seq<Group>, key: Key) {
    exists k :: 0 <= k < |groups| && groups[k].key == key
  }

  lemma AddCovers(groups: seq<Group>, r: Record, fallback: string, key: Key)
    ensures Covered(Add(groups, r, fallback), key) <==> Covered(groups, key) || key == KeyOf(r, fallback)
  {
    var after, p := Add(groups, r, fallback), Position(groups, KeyOf(r, fallback));
    assert after[p].key == KeyOf(r, fallback);
    if Covered(groups, key) {
      var k :| 0 <= k < |groups| && groups[k].key == key;
      assert after[k].key == key;
    }
  }

  lemma {:induction false} GroupsCover(records: seq<Record>, fallback: string, key: Key)
    ensures Covered(Groups(records, fallback), key) <==>
              exists i :: 0 <= i < |records| && KeyOf(records[i], fallback) == key
  {
    if records != [] {
      var front, last := records[..|records| - 1], records[|records| - 1];
      GroupsCover(front, fallback, key);
      AddCovers(Groups(front, fallback), last, fallback, key);
      assert forall i :: 0 <= i < |front| ==> records[i] == front[i];
    }
  }

  lemma {:induction false} GroupsFilter(records: seq<Record>, fallback: string, k: nat)
    requires k < |Groups(records, fallback)|
    ensures Groups(records, fallback)[k].records == WithKey(records, Groups(records, fallback)[k].key, fallback)
  {
    var front, last := records[..|records| - 1], records[|records| - 1];
    var before, key := Groups(front, fallback), KeyOf(last, fallback);
    GroupsNumbered(front, fallback);
    if k < |before| {
      GroupsFilter(front, fallback, k);
    } else {
      GroupsCover(front, fallback, key);
      NothingWithKey(front, key, fallback);
    }
  }

  /** The groups partition the records by key, in order, and carry their own positions. */
  lemma GroupsPartition(records: seq<Record>, fallback: string)
    ensures var groups := Groups(records, fallback);
            && Numbered(groups)
            && (forall k :: 0 <= k < |groups| ==>
                  groups[k].records == WithKey(records, groups[k].key, fallback))
            && (forall i :: 0 <= i < |records| ==> Covered(groups, KeyOf(records[i], fallback)))
  {
    var groups := Groups(records, fallback);
    GroupsNumbered(records, fallback);
    forall k | 0 <= k < |groups| ensures groups[k].records == WithKey(records, groups[k].key, fallback) {
      GroupsFilter(records, fallback, k);
    }
    forall i | 0 <= i < |records| ensures Covered(groups, KeyOf(records[i], fallback)) {
      GroupsCover(records, fallback, KeyOf(records[i], fallback));
    }
  }

  lemma {:induction false} NothingWithKey(records: seq<Record>, key: Key, fallback: string)
    requires forall i :: 0 <= i < |records| ==> KeyOf(records[i], fallback) != key
    ensures WithKey(records, key, fallback) == []
  {
    if records != [] {
      NothingWithKey(records[..|records| - 1], key, fallback);
    }
  }

  lemma {:induction false} WithKeyMembers(records: seq<Record>, key: Key, fallback: string)
    ensures forall r :: r in WithKey(records, key, fallback) <==> r in records && KeyOf(r, fallback) == key
  {
    if records != [] {
      var front, last := records[..|records| - 1], records[|records| - 1];
      WithKeyMembers(front, key, fallback);
      assert records == front + [last];
    }
  }

  /** The carrier that a sailing is shown under. */
  function ShownCarrier(r: Record, fallback: string): string {
    if r.operatingCarrier == "" then fallback else r.operatingCarrier
  }

  /** Some service holds both sailings. */
  ghost predicate Together(groups: seq<Group>, r: Record, q: Record) {
    exists k :: 0 <= k < |groups| && r in groups[k].records && q in groups[k].records
  }

  /** Two sailings stand in one service exactly if they are shown under one carrier and agree in the rest of the key. */
  lemma TogetherExactly(records: seq<Record>, fallback: string, r: Record, q: Record)
    requires r in records && q in records
    ensures Together(Groups(records, fallback), r, q)
            <==> ShownCarrier(r, fallback) == ShownCarrier(q, fallback) && r.signature == q.signature
  {
    var groups := Groups(records, fallback);
    GroupsPartition(records, fallback);
    forall k | 0 <= k < |groups|
      ensures forall x :: x in groups[k].records <==> x in records && KeyOf(x, fallback) == groups[k].key
    {
      WithKeyMembers(records, groups[k].key, fallback);
    }
    var i :| 0 <= i < |records| && records[i] == r;
    var k :| 0 <= k < |groups| && groups[k].key == KeyOf(r, fallback);
    assert r in groups[k].records;
  }
}
