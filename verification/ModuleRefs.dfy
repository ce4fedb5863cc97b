/** Module references, their keys and the draft difference: apps/admin/control-plane.js. */
module ModuleRefs {
  import opened Lists

  /** A reference as it arrives; its texts need not be well formed. */
  datatype Ref = Ref(moduleId: string, version: string, digest: string)

  predicate AlphaNumeric(c: char) {
    '0' <= c <= '9' || 'a' <= c <= 'z' || 'A' <= c <= 'Z'
  }

  /** ^[A-Za-z0-9][A-Za-z0-9 and extra]{0,127}$ */
  predicate Token(s: string, extra: set<char>) {
    && 1 <= |s| <= 128 && AlphaNumeric(s[0])
    && forall i :: 1 <= i < |s| ==> AlphaNumeric(s[i]) || s[i] in extra
  }

  predicate Identifier(s: string) {
    Token(s, {'.', '_', ':', '-'})
  }

  predicate Version(s: string) {
    Token(s, {'.', '_', ':', '@', '/', '-'})
  }

  predicate Digest(s: string) {
    && |s| == 71 && s[..7] == "sha256:"
    && forall i :: 7 <= i < 71 ==> '0' <= s[i] <= '9' || 'a' <= s[i] <= 'f'
  }

  predicate WellFormed(m: Ref) {
    Identifier(m.moduleId) && Version(m.version) && Digest(m.digest)
  }

  const NUL := "\0"

  predicate NoNul(s: string) {
    '\0' !in s
  }

  lemma PatternsExcludeNul(m: Ref)
    requires WellFormed(m)
    ensures NoNul(m.moduleId) && NoNul(m.version) && NoNul(m.digest)
  {
    assert forall i :: 0 <= i < 7 ==> m.digest[i] == m.digest[..7][i];
  }

  /** `moduleExactKey`; None is null. */
  function ExactKey(m: Ref): (key: Option<string>)
    ensures key.Some? ==> '\0' in key.value
  {
    if WellFormed(m) then
      var key := m.moduleId + NUL + m.version + NUL + m.digest;
      assert key[|m.moduleId|] == '\0';
      Some(key)
    else None
  }

  /** `s.lastIndexOf("\0")` */
  function LastNul(s: string): (k: nat)
    requires '\0' in s
    ensures k < |s| && s[k] == '\0' && forall i :: k < i < |s| ==> s[i] != '\0'
  {
    if s[|s| - 1] == '\0' then |s| - 1
    else
      assert s == s[..|s| - 1] + [s[|s| - 1]];
      LastNul(s[..|s| - 1])
  }

  /** `moduleLogicalKey`: the exact key up to its last NUL. */
  function LogicalKey(m: Ref): Option<string> {
    match ExactKey(m) case None => None case Some(key) => Some(key[..LastNul(key)])
  }

  /** `moduleKey`, which does not look at the patterns. */
  function ModuleKey(m: Ref): string {
    m.moduleId + NUL + m.version
  }

  /** The logical identity of a reference. */
  function Name(m: Ref): (string, string) {
    (m.moduleId, m.version)
  }

  /** Cutting the exact key at its last NUL recovers the identifier and the version. */
  lemma LogicalKeyIsName(m: Ref)
    ensures LogicalKey(m) == if WellFormed(m) then Some(ModuleKey(m)) else None
  {
    if WellFormed(m) {
      PatternsExcludeNul(m);
      var head := m.moduleId + NUL + m.version;
      var key := head + NUL + m.digest;
      var k := LastNul(key);
      assert key[|head|] == '\0';
      assert forall i :: |head| < i < |key| ==> key[i] == m.digest[i - |head| - 1];
      assert key[..k] == head;
    }
  }

  lemma JoinInjective(a: string, b: string, c: string, d: string)
    requires NoNul(a) && NoNul(c) && a + NUL + b == c + NUL + d
    ensures a == c && b == d
  {
    var s := a + NUL + b;
    assert s[|a|] == '\0' && s[|c|] == '\0';
    assert forall i :: 0 <= i < |a| ==> s[i] == a[i];
    assert forall i :: 0 <= i < |c| ==> s[i] == c[i];
    assert s[..|a|] == a && s[..|c|] == c;
    assert s[|a| + 1..] == b && s[|c| + 1..] == d;
  }

  /** The joined keys are injective: equal exact keys mean equal references. */
  lemma ExactKeyInjective(m: Ref, n: Ref)
    requires ExactKey(m).Some? && ExactKey(m) == ExactKey(n)
    ensures m == n
  {
    PatternsExcludeNul(m);
    PatternsExcludeNul(n);
    assert m.moduleId + NUL + m.version + NUL + m.digest == m.moduleId + NUL + (m.version + NUL + m.digest);
    assert n.moduleId + NUL + n.version + NUL + n.digest == n.moduleId + NUL + (n.version + NUL + n.digest);
    JoinInjective(m.moduleId, m.version + NUL + m.digest, n.moduleId, n.version + NUL + n.digest);
    JoinInjective(m.version, m.digest, n.version, n.digest);
  }

  lemma ModuleKeyInjective(m: Ref, n: Ref)
    requires WellFormed(m) && WellFormed(n)
    ensures ModuleKey(m) == ModuleKey(n) <==> Name(m) == Name(n)
  {
    PatternsExcludeNul(m);
    PatternsExcludeNul(n);
    if ModuleKey(m) == ModuleKey(n) {
      JoinInjective(m.moduleId, m.version, n.moduleId, n.version);
    }
  }

  // ---- lists of references ----

  /** Well formed throughout, and no identifier and version twice. */
  predicate Closed(s: seq<Ref>) {
    && (forall i :: 0 <= i < |s| ==> WellFormed(s[i]))
    && forall i, j :: 0 <= i < j < |s| ==> Name(s[i]) != Name(s[j])
  }

  function ExactKeys(s: seq<Ref>): (keys: seq<Option<string>>)
    ensures |keys| == |s| && forall i :: 0 <= i < |s| ==> keys[i] == ExactKey(s[i])
  {
    seq(|s|, i requires 0 <= i < |s| => ExactKey(s[i]))
  }

  function LogicalKeys(s: seq<Ref>): (keys: seq<Option<string>>)
    ensures |keys| == |s| && forall i :: 0 <= i < |s| ==> keys[i] == LogicalKey(s[i])
  {
    seq(|s|, i requires 0 <= i < |s| => LogicalKey(s[i]))
  }

  /** `moduleRefSetsEqual` */
  predicate RefSetsEqual(left: seq<Ref>, right: seq<Ref>) {
    && |left| == |right|
    && None !in ExactKeys(left) && None !in ExactKeys(right)
    && |Elements(ExactKeys(left))| == |left| && |Elements(ExactKeys(right))| == |right|
    && |Elements(LogicalKeys(left))| == |left| && |Elements(LogicalKeys(right))| == |right|
    && forall key :: key in ExactKeys(left) ==> key in ExactKeys(right)
  }

  lemma ClosedIsDistinctKeys(s: seq<Ref>)
    ensures Closed(s) <==> None !in ExactKeys(s) && Distinct(LogicalKeys(s))
    ensures Closed(s) ==> Distinct(s) && Distinct(ExactKeys(s))
  {
    var exact, logical := ExactKeys(s), LogicalKeys(s);
    assert None in exact <==> exists i :: 0 <= i < |s| && !WellFormed(s[i]) by {
      if i :| 0 <= i < |s| && !WellFormed(s[i]) {
        assert exact[i] == None;
      }
    }
    if None !in exact {
      forall i, j | 0 <= i < j < |s|
        ensures logical[i] == logical[j] <==> Name(s[i]) == Name(s[j])
        ensures exact[i] == exact[j] ==> Name(s[i]) == Name(s[j])
      {
        assert exact[i] != None && exact[j] != None;
        LogicalKeyIsName(s[i]);
        LogicalKeyIsName(s[j]);
        ModuleKeyInjective(s[i], s[j]);
        if exact[i] == exact[j] {
          ExactKeyInjective(s[i], s[j]);
        }
      }
    }
  }

  /** Two lists pass exactly when both are closed and one is a permutation of the other. */
  lemma RefSetsEqualIsPermutation(left: seq<Ref>, right: seq<Ref>)
    ensures RefSetsEqual(left, right) <==> Closed(left) && Closed(right) && multiset(left) == multiset(right)
  {
    ClosedIsDistinctKeys(left);
    ClosedIsDistinctKeys(right);
    SizeTestIsDistinct(LogicalKeys(left));
    SizeTestIsDistinct(LogicalKeys(right));
    SizeTestIsDistinct(ExactKeys(left));
    SizeTestIsDistinct(ExactKeys(right));
    if Closed(left) && Closed(right) {
      if multiset(left) == multiset(right) {
        assert |left| == |multiset(left)| == |multiset(right)| == |right|;
        forall key | key in ExactKeys(left) ensures key in ExactKeys(right) {
          KeyOfMember(left, key, right);
        }
      }
      if |left| == |right| && (forall key :: key in ExactKeys(left) ==> key in ExactKeys(right)) {
        forall m | m in left ensures m in right {
          MemberOfKey(left, m, right);
        }
        SameSizeInclusion(left, right);
      }
    }
  }

  lemma KeyOfMember(left: seq<Ref>, key: Option<string>, right: seq<Ref>)
    requires multiset(left) == multiset(right) && key in ExactKeys(left)
    ensures key in ExactKeys(right)
  {
    var i :| 0 <= i < |left| && ExactKeys(left)[i] == key;
    assert left[i] in multiset(right);
    var j :| 0 <= j < |right| && right[j] == left[i];
    assert ExactKeys(right)[j] == key;
  }

  lemma MemberOfKey(left: seq<Ref>, m: Ref, right: seq<Ref>)
    requires m in left && Closed(left) && forall key :: key in ExactKeys(left) ==> key in ExactKeys(right)
    ensures m in right
  {
    var i :| 0 <= i < |left| && left[i] == m;
    assert ExactKeys(left)[i] in ExactKeys(left);
    var j :| 0 <= j < |right| && ExactKeys(right)[j] == ExactKeys(left)[i];
    ExactKeyInjective(m, right[j]);
  }

  // ---- validation ----

  datatype RefsError = BadLength | BadItem(index: nat) | DuplicateItem(index: nat)

  const MAX_REFS := 64

  /** What `validateModuleRefs` lets through. */
  predicate ValidRefs(s: seq<Ref>, allowEmpty: bool) {
    (allowEmpty || s != []) && |s| <= MAX_REFS && Closed(s)
  }

  /** Refuses at the first item that is malformed or repeats an earlier module. */
  method ValidateModuleRefs(value: seq<Ref>, allowEmpty: bool) returns (error: Option<RefsError>)
    ensures error.None? <==> ValidRefs(value, allowEmpty)
    ensures error == Some(BadLength) <==> |value| > MAX_REFS || (!allowEmpty && value == [])
    ensures error.Some? && !error.value.BadLength? ==>
              && error.value.index < |value| && Closed(value[..error.value.index])
              && (error.value.BadItem? <==> !WellFormed(value[error.value.index]))
  {
    if (!allowEmpty && |value| == 0) || |value| > MAX_REFS {
      return Some(BadLength);
    }
    var logicalKeys: set<string> := {};
    var i := 0;
    while i < |value|
      invariant 0 <= i <= |value| <= MAX_REFS && (allowEmpty || value != [])
      invariant Closed(value[..i])
      invariant logicalKeys == set m | m in value[..i] :: ModuleKey(m)
    {
      if !WellFormed(value[i]) {
        return Some(BadItem(i));
      }
      var logicalKey := ModuleKey(value[i]);
      forall j | 0 <= j < i ensures ModuleKey(value[j]) == logicalKey <==> Name(value[j]) == Name(value[i]) {
        assert WellFormed(value[..i][j]);
        ModuleKeyInjective(value[j], value[i]);
      }
      if logicalKey in logicalKeys {
        var m :| m in value[..i] && ModuleKey(m) == logicalKey;
        var j :| 0 <= j < i && value[j] == m;
        return Some(DuplicateItem(i));
      }
      assert forall j :: 0 <= j < i ==> value[j] in value[..i];
      assert value[..i + 1] == value[..i] + [value[i]];
      logicalKeys := logicalKeys + {logicalKey};
      i := i + 1;
    }
    assert value[..|value|] == value;
    return None;
  }

  // ---- the difference between what runs and what is wanted ----

  datatype Diff = Diff(added: seq<Ref>, removed: seq<Ref>, retained: seq<Ref>)

  function KeySet(s: seq<Ref>): set<string> {
    set m | m in s :: ModuleKey(m)
  }

  /** The items whose key is in (or, with keep false, not in) a key set, in order. */
  function ByKey(s: seq<Ref>, keys: set<string>, keep: bool): seq<Ref> {
    if s == [] then []
    else if (ModuleKey(s[0]) in keys) == keep then [s[0]] + ByKey(s[1..], keys, keep)
    else ByKey(s[1..], keys, keep)
  }

  /** `deriveDesiredDraftDiff`: refuses unless both lists are valid. */
  function DeriveDraftDiff(current: seq<Ref>, desired: seq<Ref>): Option<Diff> {
    if ValidRefs(current, true) && ValidRefs(desired, true) then Some(DraftDiff(current, desired)) else None
  }

  function DraftDiff(current: seq<Ref>, desired: seq<Ref>): Diff {
    Diff(ByKey(desired, KeySet(current), false), ByKey(current, KeySet(desired), false),
         ByKey(desired, KeySet(current), true))
  }

  /** `previewDiffIsClosed` */
  predicate DiffIsClosed(desired: seq<Ref>, diff: Diff) {
    var logicalKeys := LogicalKeys(diff.added) + LogicalKeys(diff.removed) + LogicalKeys(diff.retained);
    && None !in logicalKeys
    && |Elements(logicalKeys)| == |logicalKeys|
    && RefSetsEqual(desired, diff.added + diff.retained)
  }

  lemma LogicalKeysConcat(s: seq<Ref>, t: seq<Ref>)
    ensures LogicalKeys(s + t) == LogicalKeys(s) + LogicalKeys(t)
  {
  }

  /** A diff is closed exactly when its three groups name no module twice and rebuild the desired list. */
  lemma DiffIsClosedMeaning(desired: seq<Ref>, diff: Diff)
    ensures DiffIsClosed(desired, diff) <==>
              && Closed(diff.added + diff.removed + diff.retained)
              && multiset(desired) == multiset(diff.added + diff.retained)
  {
    var all := diff.added + diff.removed + diff.retained;
    LogicalKeysConcat(diff.added + diff.removed, diff.retained);
    LogicalKeysConcat(diff.added, diff.removed);
    SizeTestIsDistinct(LogicalKeys(all));
    ClosedIsDistinctKeys(all);
    NoneLogicalIsNoneExact(all);
    RefSetsEqualIsPermutation(desired, diff.added + diff.retained);
    if Closed(all) && multiset(desired) == multiset(diff.added + diff.retained) {
      ClosedWithoutMiddle(diff.added, diff.removed, diff.retained);
      ClosedPermutation(diff.added + diff.retained, desired);
    }
  }

  lemma NoneLogicalIsNoneExact(s: seq<Ref>)
    ensures None in LogicalKeys(s) <==> None in ExactKeys(s)
  {
    assert forall i :: 0 <= i < |s| ==> (LogicalKeys(s)[i] == None <==> ExactKeys(s)[i] == None);
  }

  lemma ClosedWithoutMiddle(a: seq<Ref>, b: seq<Ref>, c: seq<Ref>)
    requires Closed(a + b + c)
    ensures Closed(a + c)
  {
    var all, s := a + b + c, a + c;
    assert forall i :: 0 <= i < |s| ==> s[i] == all[if i < |a| then i else i + |b|];
  }

  lemma ClosedNames(s: seq<Ref>, m: Ref, n: Ref)
    requires Closed(s) && m in s && n in s && m != n
    ensures Name(m) != Name(n)
  {
  }

  /** Being closed does not depend on the order. */
  lemma ClosedPermutation(s: seq<Ref>, t: seq<Ref>)
    requires Closed(s) && multiset(s) == multiset(t)
    ensures Closed(t)
  {
    ClosedIsDistinctKeys(s);
    DistinctOfPermutation(s, t);
    forall m | m in t ensures m in s {
      assert m in multiset(t) && m in multiset(s);
    }
    forall i | 0 <= i < |t| ensures WellFormed(t[i]) {
      assert t[i] in t;
    }
    forall i, j | 0 <= i < j < |t| ensures Name(t[i]) != Name(t[j]) {
      ClosedNames(s, t[i], t[j]);
    }
  }

  lemma {:induction false} ByKeyMembers(s: seq<Ref>, keys: set<string>, keep: bool)
    ensures forall m :: m in ByKey(s, keys, keep) <==> m in s && ((ModuleKey(m) in keys) == keep)
    ensures Closed(s) ==> Closed(ByKey(s, keys, keep))
  {
    if s != [] {
      ByKeyMembers(s[1..], keys, keep);
      assert s == [s[0]] + s[1..];
      if Closed(s) {
        assert Closed(s[1..]);
        var rest := ByKey(s[1..], keys, keep);
        forall j | 0 <= j < |rest| ensures Name(rest[j]) != Name(s[0]) {
          assert rest[j] in s[1..];
        }
      }
    }
  }

  lemma {:induction false} ByKeySplits(s: seq<Ref>, keys: set<string>)
    ensures multiset(ByKey(s, keys, false)) + multiset(ByKey(s, keys, true)) == multiset(s)
    ensures |ByKey(s, keys, false)| + |ByKey(s, keys, true)| == |s|
  {
    if s != [] {
      ByKeySplits(s[1..], keys);
      assert s == [s[0]] + s[1..];
    }
  }

  lemma ClosedConcat(s: seq<Ref>, t: seq<Ref>)
    requires Closed(s) && Closed(t)
    requires forall m, n :: m in s && n in t ==> ModuleKey(m) != ModuleKey(n)
    ensures Closed(s + t)
  {
    forall i, j | 0 <= i < |s| && 0 <= j < |t| ensures Name(s[i]) != Name(t[j]) {
      ModuleKeyInjective(s[i], t[j]);
    }
  }

  lemma {:induction false} SharedKeysCountAlike(s: seq<Ref>, t: seq<Ref>)
    requires Closed(s) && Closed(t)
    ensures |ByKey(s, KeySet(t), true)| == |ByKey(t, KeySet(s), true)|
  {
    var a, b := ByKey(s, KeySet(t), true), ByKey(t, KeySet(s), true);
    ByKeyMembers(s, KeySet(t), true);
    ByKeyMembers(t, KeySet(s), true);
    KeyCount(a);
    KeyCount(b);
    assert KeySet(a) == KeySet(s) * KeySet(t) == KeySet(b);
  }

  lemma KeyIsNew(s: seq<Ref>)
    requires Closed(s) && s != []
    ensures ModuleKey(s[0]) !in KeySet(s[1..]) && KeySet(s) == KeySet(s[1..]) + {ModuleKey(s[0])}
  {
    assert s == [s[0]] + s[1..];
    forall m | m in s[1..] ensures ModuleKey(m) != ModuleKey(s[0]) {
      ModuleKeyInjective(m, s[0]);
    }
  }

  lemma {:induction false} KeyCount(s: seq<Ref>)
    requires Closed(s)
    ensures |KeySet(s)| == |s|
  {
    if s != [] {
      KeyIsNew(s);
      KeyCount(s[1..]);
    }
  }

  /**
   The difference that the page derives satisfies the closure test it applies to the server's
   differences; its groups add up to both lists and never remove what is wanted.
   */
  lemma DraftDiffIsClosed(current: seq<Ref>, desired: seq<Ref>)
    requires DeriveDraftDiff(current, desired).Some?
    ensures var diff := DeriveDraftDiff(current, desired).value;
            && DiffIsClosed(desired, diff)
            && |diff.added| + |diff.retained| == |desired|
            && |diff.removed| + |diff.retained| == |current|
            && KeySet(diff.removed) !! KeySet(desired)
            && KeySet(diff.added) !! KeySet(current)
            && (forall m :: m in diff.retained ==> m in desired && ModuleKey(m) in KeySet(current))
  {
    var diff := DraftDiff(current, desired);
    ByKeyMembers(desired, KeySet(current), false);
    ByKeyMembers(desired, KeySet(current), true);
    ByKeyMembers(current, KeySet(desired), false);
    ByKeySplits(desired, KeySet(current));
    ByKeySplits(current, KeySet(desired));
    SharedKeysCountAlike(desired, current);
    ClosedConcat(diff.added, diff.removed);
    ClosedConcat(diff.added + diff.removed, diff.retained);
    assert multiset(diff.added + diff.retained) == multiset(desired);
    DiffIsClosedMeaning(desired, diff);
  }

  // ---- the patterns by code point ----

  /** A decimal digit or a basic Latin letter. */
  predicate IsAlphaNumericCode(n: int) {
    48 <= n <= 57 || 65 <= n <= 90 || 97 <= n <= 122
  }

  /** An identifier: 1 to 128 letters, digits, and from the second on full stops, underscores, colons and hyphens. */
  lemma IdentifierExactly(s: string)
    ensures Identifier(s) <==>
              && 0 < |s| < 129 && IsAlphaNumericCode(s[0] as int)
              && forall i :: 1 <= i < |s| ==> IsAlphaNumericCode(s[i] as int) || s[i] as int in {46, 95, 58, 45}
  {
  }

  /** A version may hold signs for addresses and paths as well. */
  lemma VersionExactly(s: string)
    ensures Version(s) <==>
              && 0 < |s| < 129 && IsAlphaNumericCode(s[0] as int)
              && forall i :: 1 <= i < |s| ==>
                   IsAlphaNumericCode(s[i] as int) || s[i] as int in {46, 95, 58, 64, 47, 45}
  {
  }

  /** A digest: the name of the algorithm and 64 small hexadecimal digits. */
  lemma DigestExactly(s: string)
    ensures Digest(s) <==>
              exists hex: string :: |hex| == 64 && s == "sha256:" + hex
                          && forall i :: 0 <= i < 64 ==> 48 <= hex[i] as int <= 57 || 97 <= hex[i] as int <= 102
  {
    if Digest(s) {
      assert s == "sha256:" + s[7..];
      assert forall i :: 0 <= i < 64 ==> s[7..][i] == s[i + 7];
    }
    if hex: string :| |hex| == 64 && s == "sha256:" + hex
                      && forall i :: 0 <= i < 64 ==> 48 <= hex[i] as int <= 57 || 97 <= hex[i] as int <= 102 {
      assert s[..7] == "sha256:";
      assert forall i :: 7 <= i < 71 ==> s[i] == hex[i - 7];
    }
  }
}
