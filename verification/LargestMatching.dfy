/** How large the matching of an approval chain to the release stages is. */
module LargestMatching {
  import opened Lifecycle
  import opened Lists

  /** Some choice of different entries for some of the stages, each fitting. */
  ghost predicate FittingMatching(chain: seq<Entry>, fits: Patterns, other: map<Stage, nat>) {
    && (forall s :: s in other ==> other[s] < |chain| && fits(s, chain[other[s]].name))
    && (forall s, t :: s in other && t in other && other[s] == other[t] ==> s == t)
  }

  /** If no entry fits two stages, no choice fills a stage that the greedy one leaves empty. */
  lemma LargestIfPatternsDisjoint(chain: seq<Entry>, fits: Patterns, matched: map<Stage, nat>, other: map<Stage, nat>)
    requires MaximalMatching(chain, fits, matched) && FittingMatching(chain, fits, other)
    requires forall i: nat, s: Stage, t: Stage ::
               i < |chain| && fits(s, chain[i].name) && fits(t, chain[i].name) ==> s == t
    ensures other.Keys <= matched.Keys
  {
    forall s | s in other ensures s in matched {
      assert fits(s, chain[other[s]].name);
    }
  }

  lemma {:induction false} OneToOneSize(other: map<Stage, nat>, keys: set<Stage>, values: set<nat>)
    requires keys <= other.Keys && forall s :: s in keys ==> other[s] in values
    requires forall s, t :: s in keys && t in keys && other[s] == other[t] ==> s == t
    ensures |keys| <= |values|
    decreases |keys|
  {
    if keys != {} {
      var s :| s in keys;
      OneToOneSize(other, keys - {s}, values - {other[s]});
    }
  }

  lemma {:induction false} ValuesAtMostKeys(m: map<Stage, nat>, keys: set<Stage>, values: set<nat>)
    requires keys <= m.Keys && forall i :: i in values ==> exists s :: s in keys && m[s] == i
    ensures |values| <= |keys|
    decreases |keys|
  {
    if keys != {} {
      var s :| s in keys;
      ValuesAtMostKeys(m, keys - {s}, values - {m[s]});
      assert |values - {m[s]}| >= |values| - 1;
    } else {
      assert values == {};
    }
  }

  /** Whatever the patterns and the order, the greedy choice fills at least half as many stages as any other. */
  lemma AtLeastHalfOfAny(chain: seq<Entry>, fits: Patterns, matched: map<Stage, nat>, other: map<Stage, nat>)
    requires MaximalMatching(chain, fits, matched) && FittingMatching(chain, fits, other)
    ensures |other| <= 2 * |matched|
  {
    var shared := other.Keys * matched.Keys;
    var rest := other.Keys - matched.Keys;
    assert other.Keys == shared + rest;
    SubsetSize(shared, matched.Keys);
    forall s | s in rest ensures other[s] in matched.Values {
      assert fits(s, chain[other[s]].name);
    }
    OneToOneSize(other, rest, matched.Values);
    ValuesAtMostKeys(matched, matched.Keys, matched.Values);
    assert |other| == |other.Keys| && |matched| == |matched.Keys|;
  }

  /**
   A chain of stages that starts at a free one: each but the last could take the entry of the next, and the last one
   the free entry i.
   */
  ghost predicate Alternating(chain: seq<Entry>, fits: Patterns, m: map<Stage, nat>, path: seq<Stage>, i: nat) {
    && path != [] && Distinct(path) && path[0] !in m
    && (forall k :: 1 <= k < |path| ==>
          path[k] in m && m[path[k]] < |chain| && fits(path[k - 1], chain[m[path[k]]].name))
    && i < |chain| && i !in m.Values && fits(path[|path| - 1], chain[i].name)
  }

  /** Giving a stage a fitting entry that no other stage has. */
  lemma AssignedFits(chain: seq<Entry>, fits: Patterns, m: map<Stage, nat>, s: Stage, i: nat)
    requires FittingMatching(chain, fits, m) && i < |chain| && fits(s, chain[i].name)
    requires forall t :: t in m && t != s ==> m[t] != i
    ensures FittingMatching(chain, fits, m[s := i])
  {
  }

  lemma AssignedSize(m: map<Stage, nat>, s: Stage, i: nat)
    ensures |m[s := i]| == |m| + (if s in m then 0 else 1)
  {
    assert |m| == |m.Keys| && |m[s := i]| == |m[s := i].Keys|;
    assert m[s := i].Keys == m.Keys + {s};
  }

  lemma ShiftedChain(chain: seq<Entry>, fits: Patterns, m: map<Stage, nat>, path: seq<Stage>, i: nat)
    requires FittingMatching(chain, fits, m) && Alternating(chain, fits, m, path, i) && |path| > 1
    ensures var n := |path| - 1; Alternating(chain, fits, m[path[n] := i], path[..n], m[path[n]])
  {
    var n := |path| - 1;
    var s, front, shifted := path[n], path[..n], m[path[n] := i];
    assert forall k :: 0 <= k < n ==> front[k] == path[k] && path[k] != s;
    assert m[s] in m.Values;
    assert m[s] !in shifted.Values by {
      forall t | t in shifted ensures shifted[t] != m[s] {
        assert t != s ==> shifted[t] == m[t];
      }
    }
  }

  /** Shifting the entries along such a chain fills one more stage. */
  lemma {:induction false} Augment(chain: seq<Entry>, fits: Patterns, m: map<Stage, nat>, path: seq<Stage>, i: nat)
    returns (other: map<Stage, nat>)
    requires FittingMatching(chain, fits, m) && Alternating(chain, fits, m, path, i)
    ensures FittingMatching(chain, fits, other) && |other| == |m| + 1
    decreases |path|
  {
    var n := |path| - 1;
    forall t | t in m ensures m[t] != i {
      assert m[t] in m.Values;
    }
    AssignedFits(chain, fits, m, path[n], i);
    AssignedSize(m, path[n], i);
    if n == 0 {
      other := m[path[n] := i];
    } else {
      ShiftedChain(chain, fits, m, path, i);
      other := Augment(chain, fits, m[path[n] := i], path[..n], m[path[n]]);
    }
  }

  /** The stages of other for which m has another entry or none. */
  ghost function Disagreements(m: map<Stage, nat>, other: map<Stage, nat>): set<Stage> {
    set s | s in other && !(s in m && m[s] == other[s])
  }

  lemma StageLeftFree(m: map<Stage, nat>, other: map<Stage, nat>) returns (s: Stage)
    requires |other| > |m|
    ensures s in other && s !in m
  {
    assert |other| == |other.Keys| && |m| == |m.Keys|;
    assert !(other.Keys <= m.Keys) by {
      if other.Keys <= m.Keys {
        SubsetSize(other.Keys, m.Keys);
      }
    }
    s :| s in other.Keys && s !in m.Keys;
  }

  /** Giving stage s the entry that t has in m. */
  function Moved(m: map<Stage, nat>, s: Stage, t: Stage): map<Stage, nat>
    requires t in m
  {
    (m - {t})[s := m[t]]
  }

  lemma MovedFits(chain: seq<Entry>, fits: Patterns, m: map<Stage, nat>, s: Stage, t: Stage)
    requires FittingMatching(chain, fits, m) && s !in m && t in m && fits(s, chain[m[t]].name)
    ensures FittingMatching(chain, fits, Moved(m, s, t)) && |Moved(m, s, t)| == |m|
  {
    var rest := m - {t};
    assert rest.Keys == m.Keys - {t} && |rest| == |rest.Keys| && |m| == |m.Keys|;
    AssignedFits(chain, fits, rest, s, m[t]);
    AssignedSize(rest, s, m[t]);
  }

  lemma MovedValues(m: map<Stage, nat>, s: Stage, t: Stage)
    requires s !in m && t in m
    ensures Moved(m, s, t).Values == m.Values
  {
    var moved := Moved(m, s, t);
    forall i ensures i in moved.Values <==> i in m.Values {
      if i in m.Values {
        var r :| r in m && m[r] == i;
        assert if r == t then moved[s] == i else moved[r] == i;
      }
    }
  }

  lemma MovedAgreesMore(chain: seq<Entry>, fits: Patterns, m: map<Stage, nat>, other: map<Stage, nat>,
                        s: Stage, t: Stage)
    requires FittingMatching(chain, fits, other) && s in other && s !in m && t in m && m[t] == other[s]
    ensures Disagreements(Moved(m, s, t), other) < Disagreements(m, other)
  {
    var moved := Moved(m, s, t);
    assert s in Disagreements(m, other) && s !in Disagreements(moved, other);
    forall r | r in Disagreements(moved, other) ensures r in Disagreements(m, other) {
      assert r in m && r != t ==> moved[r] == m[r];
    }
  }

  /** A chain for the moved choice yields one for the original: its part from s on, or with s in front, or itself. */
  lemma MovedBack(chain: seq<Entry>, fits: Patterns, m: map<Stage, nat>, s: Stage, t: Stage, path: seq<Stage>, i: nat)
    returns (back: seq<Stage>)
    requires s !in m && t in m && m[t] < |chain| && fits(s, chain[m[t]].name)
    requires Alternating(chain, fits, Moved(m, s, t), path, i)
    ensures Alternating(chain, fits, m, back, i)
  {
    var moved := Moved(m, s, t);
    MovedValues(m, s, t);
    if s in path {
      var j :| 0 <= j < |path| && path[j] == s;
      back := path[j..];
      forall k | 1 <= k < |back|
        ensures back[k] in m && m[back[k]] < |chain| && fits(back[k - 1], chain[m[back[k]]].name)
      {
        assert back[k] == path[j + k] && back[k - 1] == path[j + k - 1];
      }
    } else if path[0] == t {
      back := [s] + path;
      forall k | 1 <= k < |back|
        ensures back[k] in m && m[back[k]] < |chain| && fits(back[k - 1], chain[m[back[k]]].name)
      {
        assert back[k] == path[k - 1] && (k > 1 ==> back[k - 1] == path[k - 2]);
      }
    } else {
      back := path;
      assert forall k :: 1 <= k < |path| ==> path[k] in moved && path[k] != s && path[k] != t;
    }
  }

  lemma {:induction false} FindAlternating(chain: seq<Entry>, fits: Patterns, m: map<Stage, nat>,
                                           other: map<Stage, nat>)
    returns (path: seq<Stage>, i: nat)
    requires FittingMatching(chain, fits, m) && FittingMatching(chain, fits, other) && |other| > |m|
    ensures Alternating(chain, fits, m, path, i)
    decreases |Disagreements(m, other)|
  {
    var s := StageLeftFree(m, other);
    var e := other[s];
    if e in m.Values {
      var t :| t in m && m[t] == e;
      MovedFits(chain, fits, m, s, t);
      MovedAgreesMore(chain, fits, m, other, s, t);
      StrictSubsetSize(Disagreements(Moved(m, s, t), other), Disagreements(m, other));
      path, i := FindAlternating(chain, fits, Moved(m, s, t), other);
      path := MovedBack(chain, fits, m, s, t, path, i);
    } else {
      path, i := [s], e;
    }
  }

  lemma StrictSubsetSize<T>(a: set<T>, b: set<T>)
    requires a < b
    ensures |a| < |b|
  {
    assert b == a + (b - a);
    assert b - a != {};
  }

  ghost predicate CanFillMore(chain: seq<Entry>, fits: Patterns, m: map<Stage, nat>) {
    exists other: map<Stage, nat> :: FittingMatching(chain, fits, other) && |other| > |m|
  }

  ghost predicate HasAlternating(chain: seq<Entry>, fits: Patterns, m: map<Stage, nat>) {
    exists path: seq<Stage>, i: nat :: Alternating(chain, fits, m, path, i)
  }

  /** Exactly when a fitting choice is not the largest: some chain leads from a stage it leaves free to a free entry. */
  lemma LargerExactlyIfAlternating(chain: seq<Entry>, fits: Patterns, m: map<Stage, nat>)
    requires FittingMatching(chain, fits, m)
    ensures CanFillMore(chain, fits, m) <==> HasAlternating(chain, fits, m)
  {
    if CanFillMore(chain, fits, m) {
      var other: map<Stage, nat> :| FittingMatching(chain, fits, other) && |other| > |m|;
      var path, i := FindAlternating(chain, fits, m, other);
    }
    if HasAlternating(chain, fits, m) {
      var path: seq<Stage>, i: nat :| Alternating(chain, fits, m, path, i);
      var other := Augment(chain, fits, m, path, i);
    }
  }

  /** So the greedy choice misses the largest exactly if such a chain exists, and then it has at least two stages. */
  lemma GreedyMissesLargestExactly(order: seq<Stage>, chain: seq<Entry>, fits: Patterns, matched: map<Stage, nat>)
    requires IsOrder(order) && Matching(order, |order|, chain, fits, matched)
    ensures CanFillMore(chain, fits, matched) <==> HasAlternating(chain, fits, matched)
    ensures forall path, i :: Alternating(chain, fits, matched, path, i) ==> |path| >= 2
  {
    MatchingIsMaximal(order, chain, fits, matched);
    LargerExactlyIfAlternating(chain, fits, matched);
  }

  /**
   It need not be the largest where an entry fits two stages: the source's draft pattern matches "validate draft" and
   "draft", its validate pattern only the first, and no other pattern either of them.
   */
  lemma GreedyMayMissLargest(fits: Patterns)
    requires forall s :: fits(s, "validate draft") <==> s == Draft || s == Validate
    requires forall s :: fits(s, "draft") <==> s == Draft
    ensures var chain := [Entry("validate draft"), Entry("draft")];
            && Matching(ORDER, |ORDER|, chain, fits, map[Draft := 0])
            && FittingMatching(chain, fits, map[Draft := 1, Validate := 0])
  {
    var chain := [Entry("validate draft"), Entry("draft")];
    var m: map<Stage, nat> := map[Draft := 0];
    assert ORDER[1] == Draft;
    forall k: nat | 2 <= k < 5 ensures !Free(ORDER, k, 0, m) {
      assert Takes(ORDER[1], 0, m);
    }
    assert FirstFit(ORDER, 1, 0, chain, fits, m);
    forall k: nat | k < 5 ensures Chosen(ORDER, k, chain, fits, m) {
    }
    assert Draft in ORDER[..5];
  }
}
