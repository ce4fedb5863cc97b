/** Fitting an approval chain to the five release stages: `deriveApprovalLifecycle` in apps/admin/app.js. */
module Lifecycle {
  import opened Lists
  import opened Sorting

  datatype Stage = Draft | Validate | Approval | Publish | Readback

  /** A chain entry; an entry that is no record, or has no text as its name, has the empty name. */
  datatype Entry = Entry(name: string)

  /** The stage patterns; nothing below depends on which they are. */
  type Patterns = (Stage, string) -> bool

  const STAGES: seq<Stage> := [Draft, Validate, Approval, Publish, Readback]

  /** The comparator that moves the readback stage to the front. */
  function CompareStages(left: Stage, right: Stage): int {
    if left == Readback then -1 else if right == Readback then 1 else 0
  }

  /**
   An order in which stages choose: any arrangement of the five. `Array.prototype.sort` yields some arrangement
   of its items, and with this comparator the standard does not say which.
   */
  ghost predicate IsOrder(order: seq<Stage>) {
    |order| == 5 && Distinct(order)
  }

  lemma ComparatorInconsistent()
    ensures !Consistent(CompareStages)
  {
    assert CompareStages(Readback, Readback) != 0;
  }

  /** The order that stable insertion makes of the comparator, with readback first. */
  const ORDER: seq<Stage> := [Readback, Draft, Validate, Approval, Publish]

  lemma OrderIsSorted()
    ensures Sort(STAGES, CompareStages) == ORDER && IsOrder(ORDER)
  {
    assert STAGES[1..] == [Validate, Approval, Publish, Readback];
    assert STAGES[1..][1..] == [Approval, Publish, Readback];
    assert STAGES[1..][1..][1..] == [Publish, Readback];
    assert STAGES[1..][1..][1..][1..] == [Readback];
    assert STAGES[1..][1..][1..][1..][1..] == [];
    assert Sort([Readback], CompareStages) == [Readback];
    assert Sort([Publish, Readback], CompareStages) == [Readback, Publish];
    assert [Readback, Publish][1..] == [Publish];
    assert Sort([Approval, Publish, Readback], CompareStages) == [Readback, Approval, Publish];
    assert [Readback, Approval, Publish][1..] == [Approval, Publish];
    assert Sort([Validate, Approval, Publish, Readback], CompareStages) == [Readback, Validate, Approval, Publish];
    assert [Readback, Validate, Approval, Publish][1..] == [Validate, Approval, Publish];
  }

  /** No stage before position k has taken entry i. */
  ghost predicate Free(order: seq<Stage>, k: nat, i: nat, matched: map<Stage, nat>)
    requires k <= |order|
  {
    forall j :: 0 <= j < k ==> !Takes(order[j], i, matched)
  }

  predicate Takes(s: Stage, i: nat, matched: map<Stage, nat>) {
    s in matched && matched[s] == i
  }

  /** Entry i is the first that fits stage k of the order and is left by the stages before it. */
  ghost predicate FirstFit(order: seq<Stage>, k: nat, i: nat, chain: seq<Entry>, fits: Patterns,
                           matched: map<Stage, nat>)
    requires k < |order| && i < |chain|
  {
    && Free(order, k, i, matched) && fits(order[k], chain[i].name)
    && forall h: nat :: h < i && Free(order, k, h, matched) ==> !fits(order[k], chain[h].name)
  }

  ghost predicate Chosen(order: seq<Stage>, k: nat, chain: seq<Entry>, fits: Patterns, matched: map<Stage, nat>)
    requires k < |order|
  {
    forall i: nat :: i < |chain| ==> (Takes(order[k], i, matched) <==> FirstFit(order, k, i, chain, fits, matched))
  }

  /** The first k stages of the order have each taken their first fit; no other stage has anything. */
  ghost predicate Matching(order: seq<Stage>, k: nat, chain: seq<Entry>, fits: Patterns, matched: map<Stage, nat>)
    requires k <= |order|
  {
    && (forall s :: s in matched ==> s in order[..k] && matched[s] < |chain|)
    && (forall j: nat :: j < k ==> Chosen(order, j, chain, fits, matched))
  }

  lemma OrderDistinct(order: seq<Stage>, j: nat, k: nat)
    requires IsOrder(order)
    requires j < k < |order|
    ensures order[j] != order[k]
  {
  }

  /** What a stage takes does not touch the choices before it. */
  lemma EarlierUntouched(order: seq<Stage>, k: nat, i: nat, matched: map<Stage, nat>, j: nat, h: nat)
    requires IsOrder(order)
    requires j <= k < |order|
    ensures Free(order, j, h, matched[order[k] := i]) <==> Free(order, j, h, matched)
  {
    forall l | 0 <= l < j ensures Takes(order[l], h, matched[order[k] := i]) <==> Takes(order[l], h, matched) {
      OrderDistinct(order, l, k);
    }
  }

  lemma TakeStep(order: seq<Stage>, k: nat, i: nat, chain: seq<Entry>, fits: Patterns, matched: map<Stage, nat>)
    requires IsOrder(order)
    requires k < |order| && i < |chain|
    requires Matching(order, k, chain, fits, matched) && FirstFit(order, k, i, chain, fits, matched)
    ensures Matching(order, k + 1, chain, fits, matched[order[k] := i])
  {
    var after := matched[order[k] := i];
    assert order[..k + 1] == order[..k] + [order[k]];
    forall j: nat, h: nat | j <= k ensures Free(order, j, h, after) <==> Free(order, j, h, matched) {
      EarlierUntouched(order, k, i, matched, j, h);
    }
    forall j: nat | j <= k ensures Chosen(order, j, chain, fits, after) {
      forall h: nat | h < |chain| ensures Takes(order[j], h, after) <==> FirstFit(order, j, h, chain, fits, after) {
        if j < k {
          OrderDistinct(order, j, k);
          assert Chosen(order, j, chain, fits, matched);
          assert FirstFit(order, j, h, chain, fits, after) <==> FirstFit(order, j, h, chain, fits, matched);
        } else {
          assert Free(order, k, h, after) <==> Free(order, k, h, matched);
        }
      }
    }
  }

  lemma NothingYet(order: seq<Stage>, k: nat, chain: seq<Entry>, fits: Patterns, matched: map<Stage, nat>)
    requires IsOrder(order)
    requires k < |order| && Matching(order, k, chain, fits, matched)
    ensures order[k] !in matched
  {
    assert order[k] !in order[..k];
  }

  lemma SkipStep(order: seq<Stage>, k: nat, chain: seq<Entry>, fits: Patterns, matched: map<Stage, nat>)
    requires IsOrder(order)
    requires k < |order| && Matching(order, k, chain, fits, matched)
    requires forall h: nat :: h < |chain| && Free(order, k, h, matched) ==> !fits(order[k], chain[h].name)
    ensures Matching(order, k + 1, chain, fits, matched)
  {
    assert order[..k + 1] == order[..k] + [order[k]];
    NothingYet(order, k, chain, fits, matched);
    assert Chosen(order, k, chain, fits, matched);
  }

  /** `chain.findIndex` over the entries that are not taken; the length of the chain if there is none. */
  method FindEntry(stage: Stage, chain: seq<Entry>, fits: Patterns, taken: set<nat>) returns (i: nat)
    ensures i <= |chain| && forall h: nat :: h < i ==> h in taken || !fits(stage, chain[h].name)
    ensures i < |chain| ==> i !in taken && fits(stage, chain[i].name)
  {
    i := 0;
    while i < |chain| && (i in taken || !fits(stage, chain[i].name))
      invariant i <= |chain| && forall h: nat :: h < i ==> h in taken || !fits(stage, chain[h].name)
    {
      i := i + 1;
    }
  }

  /** The greedy loop over the stages. */
  method MatchStages(order: seq<Stage>, chain: seq<Entry>, fits: Patterns) returns (matched: map<Stage, nat>)
    requires IsOrder(order)
    ensures Matching(order, |order|, chain, fits, matched)
  {
    matched := map[];
    var matchedIndexes: set<nat> := {};
    var k: nat := 0;
    while k < |order|
      invariant k <= |order|
      invariant Matching(order, k, chain, fits, matched)
      invariant forall i: nat :: i in matchedIndexes <==> !Free(order, k, i, matched)
    {
      var i := FindEntry(order[k], chain, fits, matchedIndexes);
      if i < |chain| {
        assert FirstFit(order, k, i, chain, fits, matched);
        TakeStep(order, k, i, chain, fits, matched);
        TakenAfter(order, k, i, matched);
        matchedIndexes := matchedIndexes + {i};
        matched := matched[order[k] := i];
      } else {
        SkipStep(order, k, chain, fits, matched);
        NothingTaken(order, k, chain, fits, matched);
      }
      k := k + 1;
    }
  }

  lemma TakenAfter(order: seq<Stage>, k: nat, i: nat, matched: map<Stage, nat>)
    requires IsOrder(order)
    requires k < |order|
    ensures forall h: nat :: Free(order, k + 1, h, matched[order[k] := i]) <==> Free(order, k, h, matched) && h != i
  {
    forall h: nat ensures Free(order, k + 1, h, matched[order[k] := i]) <==> Free(order, k, h, matched) && h != i {
      EarlierUntouched(order, k, i, matched, k, h);
      assert Takes(order[k], h, matched[order[k] := i]) <==> h == i;
    }
  }

  lemma NothingTaken(order: seq<Stage>, k: nat, chain: seq<Entry>, fits: Patterns, matched: map<Stage, nat>)
    requires IsOrder(order)
    requires k < |order| && Matching(order, k, chain, fits, matched)
    ensures forall h: nat :: Free(order, k + 1, h, matched) <==> Free(order, k, h, matched)
  {
    NothingYet(order, k, chain, fits, matched);
    forall h: nat ensures Free(order, k + 1, h, matched) <==> Free(order, k, h, matched) {
      assert !Takes(order[k], h, matched);
    }
  }

  // ---- what the matching promises ----

  /** One-to-one, every pair fits, and no free entry fits a free stage. */
  ghost predicate MaximalMatching(chain: seq<Entry>, fits: Patterns, matched: map<Stage, nat>) {
    && (forall s :: s in matched ==> matched[s] < |chain| && fits(s, chain[matched[s]].name))
    && (forall s, t :: s in matched && t in matched && matched[s] == matched[t] ==> s == t)
    && (forall s: Stage, i: nat :: s !in matched && i < |chain| && i !in matched.Values ==> !fits(s, chain[i].name))
  }

  lemma PositionInOrder(order: seq<Stage>, s: Stage) returns (k: nat)
    requires IsOrder(order)
    ensures k < |order| && order[k] == s
  {
    var all := {Draft, Validate, Approval, Publish, Readback};
    SizeTestIsDistinct(order);
    assert Elements(order) <= all by {
      forall t: Stage ensures t in all {
        match t case Draft => case Validate => case Approval => case Publish => case Readback =>
      }
    }
    assert |all| == 5;
    SubsetOfSameSize(Elements(order), all);
    assert s in Elements(order);
    k :| 0 <= k < |order| && order[k] == s;
  }

  lemma MatchingIsMaximal(order: seq<Stage>, chain: seq<Entry>, fits: Patterns, matched: map<Stage, nat>)
    requires IsOrder(order)
    requires Matching(order, |order|, chain, fits, matched)
    ensures MaximalMatching(chain, fits, matched)
  {
    forall s | s in matched ensures matched[s] < |chain| && fits(s, chain[matched[s]].name) {
      var k := PositionInOrder(order, s);
      assert Chosen(order, k, chain, fits, matched) && Takes(order[k], matched[s], matched);
    }
    forall s, t | s in matched && t in matched && matched[s] == matched[t] ensures s == t {
      var j := PositionInOrder(order, s);
      var k := PositionInOrder(order, t);
      var i := matched[s];
      assert Takes(order[j], i, matched) && Takes(order[k], i, matched);
      assert Chosen(order, j, chain, fits, matched) && Chosen(order, k, chain, fits, matched);
      assert Free(order, j, i, matched) && Free(order, k, i, matched);
    }
    forall s: Stage, i: nat | s !in matched && i < |chain| && i !in matched.Values ensures !fits(s, chain[i].name) {
      var k := PositionInOrder(order, s);
      UnmatchedFitsNothing(order, chain, fits, matched, k, i);
      NeverTaken(order, k, i, matched);
    }
  }

  lemma NeverTaken(order: seq<Stage>, k: nat, i: nat, matched: map<Stage, nat>)
    requires IsOrder(order)
    requires k <= |order| && i !in matched.Values
    ensures Free(order, k, i, matched)
  {
    forall j | 0 <= j < k ensures !Takes(order[j], i, matched) {
      if order[j] in matched {
        assert matched[order[j]] in matched.Values;
      }
    }
  }

  lemma {:induction false} UnmatchedFitsNothing(order: seq<Stage>, chain: seq<Entry>, fits: Patterns,
                                                matched: map<Stage, nat>, k: nat, i: nat)
    requires IsOrder(order)
    requires Matching(order, |order|, chain, fits, matched)
    requires k < |order| && order[k] !in matched && i < |chain|
    ensures Free(order, k, i, matched) ==> !fits(order[k], chain[i].name)
    decreases i
  {
    assert Chosen(order, k, chain, fits, matched);
    forall h: nat | h < i ensures Free(order, k, h, matched) ==> !fits(order[k], chain[h].name) {
      UnmatchedFitsNothing(order, chain, fits, matched, k, h);
    }
    assert !Takes(order[k], i, matched) && !FirstFit(order, k, i, chain, fits, matched);
  }

  /** The greedy rule leaves only one answer. */
  lemma MatchingIsUnique(order: seq<Stage>, chain: seq<Entry>, fits: Patterns, a: map<Stage, nat>, b: map<Stage, nat>)
    requires IsOrder(order)
    requires Matching(order, |order|, chain, fits, a) && Matching(order, |order|, chain, fits, b)
    ensures a == b
  {
    AgreeUpTo(order, chain, fits, a, b, |order|);
    forall s: Stage ensures (s in a <==> s in b) && (s in a ==> a[s] == b[s]) {
      var k := PositionInOrder(order, s);
    }
  }

  lemma {:induction false} AgreeUpTo(order: seq<Stage>, chain: seq<Entry>, fits: Patterns,
                                     a: map<Stage, nat>, b: map<Stage, nat>, k: nat)
    requires IsOrder(order)
    requires k <= |order|
    requires Matching(order, |order|, chain, fits, a) && Matching(order, |order|, chain, fits, b)
    ensures forall j :: 0 <= j < k ==>
              (order[j] in a <==> order[j] in b) && (order[j] in a ==> a[order[j]] == b[order[j]])
  {
    if k > 0 {
      AgreeUpTo(order, chain, fits, a, b, k - 1);
      var s := order[k - 1];
      assert Chosen(order, k - 1, chain, fits, a) && Chosen(order, k - 1, chain, fits, b);
      forall i: nat | i < |chain| ensures Takes(s, i, a) <==> Takes(s, i, b) {
        SameFreeSameFit(order, k - 1, i, chain, fits, a, b);
      }
      assert s in a ==> Takes(s, a[s], a);
      assert s in b ==> Takes(s, b[s], b);
    }
  }

  lemma SameFreeSameFit(order: seq<Stage>, k: nat, i: nat, chain: seq<Entry>, fits: Patterns,
                        a: map<Stage, nat>, b: map<Stage, nat>)
    requires IsOrder(order)
    requires k < |order| && i < |chain|
    requires forall j :: 0 <= j < k ==>
               (order[j] in a <==> order[j] in b) && (order[j] in a ==> a[order[j]] == b[order[j]])
    ensures FirstFit(order, k, i, chain, fits, a) <==> FirstFit(order, k, i, chain, fits, b)
  {
    forall h: nat | h <= i ensures Free(order, k, h, a) <==> Free(order, k, h, b) {
      assert forall j :: 0 <= j < k ==> (Takes(order[j], h, a) <==> Takes(order[j], h, b));
    }
  }

  // ---- the two lists that are shown ----

  /** A shown step: a stage with the entry it stands for, if any, or an entry without a stage. */
  datatype Node = Node(stage: Option<Stage>, source: Option<nat>)

  datatype Shown = Shown(lifecycle: seq<Node>, unmapped: seq<Node>)

  function StageNode(s: Stage, matched: map<Stage, nat>): Node {
    Node(Some(s), if s in matched then Some(matched[s]) else None)
  }

  function UnmappedFrom(n: nat, matched: map<Stage, nat>): seq<Node> {
    if n == 0 then []
    else UnmappedFrom(n - 1, matched) + (if n - 1 in matched.Values then [] else [Node(None, Some(n - 1))])
  }

  /** `deriveApprovalLifecycle`; an empty chain shows nothing at all. */
  method DeriveLifecycle(order: seq<Stage>, chain: seq<Entry>, fits: Patterns)
    returns (shown: Shown, matched: map<Stage, nat>)
    requires IsOrder(order)
    ensures chain == [] ==> shown == Shown([], []) && matched == map[]
    ensures chain != [] ==> Matching(order, |order|, chain, fits, matched)
    ensures chain != [] ==> shown == ShownFor(|chain|, matched)
  {
    if |chain| == 0 {
      return Shown([], []), map[];
    }
    matched := MatchStages(order, chain, fits);
    var lifecycle: seq<Node> := [];
    for k := 0 to |STAGES|
      invariant lifecycle == seq(k, i requires 0 <= i < |STAGES| => StageNode(STAGES[i], matched))
    {
      lifecycle := lifecycle + [StageNode(STAGES[k], matched)];
    }
    var unmapped: seq<Node> := [];
    for i := 0 to |chain|
      invariant unmapped == UnmappedFrom(i, matched)
    {
      if i !in matched.Values {
        unmapped := unmapped + [Node(None, Some(i))];
      }
    }
    shown := Shown(lifecycle, unmapped);
  }

  function ShownFor(n: nat, matched: map<Stage, nat>): Shown {
    Shown(seq(|STAGES|, i requires 0 <= i < |STAGES| => StageNode(STAGES[i], matched)), UnmappedFrom(n, matched))
  }

  /** How often an entry is shown. */
  function Count(nodes: seq<Node>, i: nat): nat {
    if nodes == [] then 0 else (if nodes[0].source == Some(i) then 1 else 0) + Count(nodes[1..], i)
  }

  lemma {:induction false} CountConcat(a: seq<Node>, b: seq<Node>, i: nat)
    ensures Count(a + b, i) == Count(a, i) + Count(b, i)
  {
    if a == [] {
      assert a + b == b;
    } else {
      CountConcat(a[1..], b, i);
      assert (a + b)[1..] == a[1..] + b;
    }
  }

  lemma {:induction false} CountUnmapped(n: nat, matched: map<Stage, nat>, i: nat)
    ensures Count(UnmappedFrom(n, matched), i) == if i < n && i !in matched.Values then 1 else 0
  {
    if n > 0 {
      CountUnmapped(n - 1, matched, i);
      var last := if n - 1 in matched.Values then [] else [Node(None, Some(n - 1))];
      CountConcat(UnmappedFrom(n - 1, matched), last, i);
    }
  }

  lemma {:induction false} CountNodes(stages: seq<Stage>, matched: map<Stage, nat>, i: nat, nodes: seq<Node>)
    requires |nodes| == |stages| && forall k :: 0 <= k < |nodes| ==> nodes[k] == StageNode(stages[k], matched)
    requires Distinct(stages)
    requires forall s, t :: s in matched && t in matched && matched[s] == matched[t] ==> s == t
    ensures Count(nodes, i) <= 1
    ensures Count(nodes, i) == 1 <==> exists k :: 0 <= k < |stages| && stages[k] in matched && matched[stages[k]] == i
  {
    if stages != [] {
      CountNodes(stages[1..], matched, i, nodes[1..]);
      var hit := stages[0] in matched && matched[stages[0]] == i;
      if exists k :: 0 <= k < |stages[1..]| && stages[1..][k] in matched && matched[stages[1..][k]] == i {
        var k :| 0 <= k < |stages[1..]| && stages[1..][k] in matched && matched[stages[1..][k]] == i;
        assert stages[k + 1] == stages[1..][k] && stages[0] != stages[k + 1];
      }
      assert Count(nodes, i) == (if hit then 1 else 0) + Count(nodes[1..], i);
      if hit {
        assert stages[0] in matched && matched[stages[0]] == i;
      } else if k :| 0 <= k < |stages| && stages[k] in matched && matched[stages[k]] == i {
        assert stages[1..][k - 1] == stages[k];
      }
    }
  }

  /**
   On a chain with entries, every entry is shown exactly once: under one stage, whose pattern it
   fits, or as unmapped; and no unmapped entry fits a stage that is left empty.
   */
  lemma EveryEntryShownOnce(order: seq<Stage>, chain: seq<Entry>, fits: Patterns, matched: map<Stage, nat>, i: nat)
    requires IsOrder(order)
    requires Matching(order, |order|, chain, fits, matched) && i < |chain|
    ensures var shown := ShownFor(|chain|, matched);
            && |shown.lifecycle| == 5
            && Count(shown.lifecycle, i) + Count(shown.unmapped, i) == 1
            && (Count(shown.lifecycle, i) == 1
                <==> exists s :: s in matched && matched[s] == i && fits(s, chain[i].name))
            && (Count(shown.unmapped, i) == 1 ==> forall s: Stage :: s !in matched ==> !fits(s, chain[i].name))
  {
    var shown := ShownFor(|chain|, matched);
    MatchingIsMaximal(order, chain, fits, matched);
    CountUnmapped(|chain|, matched, i);
    CountNodes(STAGES, matched, i, shown.lifecycle);
    if s :| s in matched && matched[s] == i {
      var k := match s case Draft => 0 case Validate => 1 case Approval => 2 case Publish => 3 case Readback => 4;
      assert STAGES[k] == s;
    }
  }

  /** The five stages are shown in their own order, each with the entry it has taken, then the rest in chain order. */
  lemma ShownInOrder(order: seq<Stage>, chain: seq<Entry>, fits: Patterns, matched: map<Stage, nat>)
    requires IsOrder(order) && Matching(order, |order|, chain, fits, matched)
    ensures var shown := ShownFor(|chain|, matched);
            && (forall k :: 0 <= k < 5 ==>
                  var stage := [Draft, Validate, Approval, Publish, Readback][k];
                  && |shown.lifecycle| == 5 && shown.lifecycle[k].stage == Some(stage)
                  && (shown.lifecycle[k].source.Some? <==> stage in matched)
                  && (stage in matched ==> shown.lifecycle[k].source == Some(matched[stage])))
            && Rising(shown.unmapped, |chain|)
  {
    UnmappedRise(|chain|, matched);
  }

  predicate UnmappedBelow(node: Node, n: nat) {
    node.stage.None? && node.source.Some? && node.source.value < n
  }

  ghost predicate Rising(nodes: seq<Node>, n: nat) {
    && (forall k :: 0 <= k < |nodes| ==> UnmappedBelow(nodes[k], n))
    && forall j, k :: 0 <= j < k < |nodes| ==> nodes[j].source.value < nodes[k].source.value
  }

  lemma {:induction false} UnmappedRise(n: nat, matched: map<Stage, nat>)
    ensures Rising(UnmappedFrom(n, matched), n)
  {
    if n > 0 {
      UnmappedRise(n - 1, matched);
      RisingMore(UnmappedFrom(n - 1, matched), n - 1);
    }
  }

  lemma RisingMore(nodes: seq<Node>, n: nat)
    requires Rising(nodes, n)
    ensures Rising(nodes + [], n + 1) && Rising(nodes + [Node(None, Some(n))], n + 1)
  {
    assert nodes + [] == nodes;
    assert forall k :: 0 <= k < |nodes| ==> UnmappedBelow(nodes[k], n) && UnmappedBelow(nodes[k], n + 1);
  }
}
