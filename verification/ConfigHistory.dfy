/** What a configuration announcement rests on: the history of the workspace's requests and answers. */
module ConfigHistory {
  import opened Lists
  import opened Timestamps

  datatype Status =
    | ReadbackVerified | ActiveVerified | Waiting | Validated | Previewed | Approved | PublishedPendingApply
    | Restarting | ManualReview | Blocked | Unavailable | NeedsInput | Unknown | Succeeded

  predicate Verified(s: Status) {
    s.ReadbackVerified? || s.ActiveVerified?
  }

  /** What a release is recognised by. */
  datatype Identity = Identity(revision: int, configDigest: string, moduleGeneration: string)

  datatype ConfigState = ConfigState(moduleId: string, current: Identity, status: Status, reasonCodes: seq<string>,
                                     releaseId: Option<string>)

  predicate ValidIdentity(id: Identity) {
    SafeInteger(id.revision) && id.revision >= 0
  }

  /** `hasExactConfigReadback` */
  predicate Exact(expected: Identity, observed: ConfigState) {
    && ValidIdentity(expected) && observed.current == expected
    && Verified(observed.status) && observed.reasonCodes == []
  }

  /** The state has the expected revision, digest and generation, is verified, and names no reason. */
  predicate Matches(expected: Identity, observed: ConfigState) {
    && 0 <= expected.revision <= 9007199254740991
    && observed.current.revision == expected.revision
    && observed.current.configDigest == expected.configDigest
    && observed.current.moduleGeneration == expected.moduleGeneration
    && observed.status in {ReadbackVerified, ActiveVerified} && |observed.reasonCodes| == 0
  }

  lemma ExactlyMatches(expected: Identity, observed: ConfigState)
    ensures Exact(expected, observed) <==> Matches(expected, observed)
  {
  }

  datatype Kind = ValidateDraft | CreatePreview | Approve | Publish | Reconcile

  predicate ReadsBack(kind: Kind) {
    kind.Publish? || kind.Reconcile?
  }

  /**
   The history, oldest entry first; entries refer to one another by position. An operation is sent over
   the state adopted at `over`. A load is asked for, and its answer adopted. The selection changes
   with a reset of the state, or drifts without one. An announcement belongs to an answer and to the
   load that checked it, and is made over the state adopted at `shown`.
   */
  datatype Entry =
    | Sent(kind: Kind, moduleId: string, over: nat)
    | Answered(sent: nat, identity: Option<Identity>)
    | Asked(loadedId: string)
    | Adopted(asked: nat, state: ConfigState)
    | Chose(selection: Option<string>, drifted: bool)
    | Announced(answered: nat, checked: nat, shown: nat)

  /** The selection before entry k. */
  ghost function SelectionAt(log: seq<Entry>, k: nat): Option<string>
    requires k <= |log|
  {
    if k == 0 then None
    else if log[k - 1].Chose? then log[k - 1].selection
    else SelectionAt(log, k - 1)
  }

  /** The state adopted at a is still the page's before entry k. */
  ghost predicate StillShown(log: seq<Entry>, a: nat, k: nat) {
    && a < k <= |log| && log[a].Adopted?
    && forall j :: a < j < k ==> !log[j].Adopted? && (log[j].Chose? ==> log[j].drifted)
  }

  /** The entry at k is backed by what stands before it. */
  ghost predicate Backed(log: seq<Entry>, k: nat)
    requires k < |log|
  {
    match log[k]
    case Sent(_, moduleId, over) => StillShown(log, over, k) && log[over].state.moduleId == moduleId
    case Answered(sent, identity) =>
      sent < k && log[sent].Sent? && (identity.Some? <==> ReadsBack(log[sent].kind))
    case Adopted(asked, state) =>
      asked < k && log[asked] == Asked(state.moduleId) && SelectionAt(log, k) == Some(state.moduleId)
    case Announced(answered, checked, shown) =>
      && StillShown(log, shown, k) && checked <= shown && log[checked].Adopted?
      && answered < log[checked].asked < checked
      && log[answered].Answered? && log[answered].identity.Some? && log[answered].sent < answered
      && log[log[answered].sent].Sent? && ReadsBack(log[log[answered].sent].kind)
      && Exact(log[answered].identity.value, log[shown].state)
    case _ => true
  }

  ghost predicate AllBacked(log: seq<Entry>) {
    forall k :: 0 <= k < |log| ==> Backed(log, k)
  }

  /** The send of the operation announced at k. */
  ghost function Origin(log: seq<Entry>, k: nat): (sent: nat)
    requires AllBacked(log) && k < |log| && log[k].Announced?
    ensures sent < log[k].answered < k && log[sent].Sent?
  {
    assert Backed(log, k);
    log[log[k].answered].sent
  }

  /** The announcement at k is made over a state of its operation's own module. */
  ghost predicate OverOwnModule(log: seq<Entry>, k: nat)
    requires AllBacked(log) && k < |log| && log[k].Announced?
  {
    assert Backed(log, k);
    log[log[k].shown].state.moduleId == log[Origin(log, k)].moduleId
  }

  // ---- growing ----

  lemma {:induction false} SelectionOfPrefix(log: seq<Entry>, e: Entry, k: nat)
    requires k <= |log|
    ensures SelectionAt(log + [e], k) == SelectionAt(log, k)
  {
    if k > 0 {
      SelectionOfPrefix(log, e, k - 1);
    }
  }

  lemma StillShownOfPrefix(log: seq<Entry>, e: Entry, a: nat, k: nat)
    requires k <= |log|
    ensures StillShown(log + [e], a, k) <==> StillShown(log, a, k)
  {
    assert forall j :: 0 <= j < |log| ==> (log + [e])[j] == log[j];
  }

  lemma BackedOfPrefix(log: seq<Entry>, e: Entry, k: nat)
    requires k < |log|
    ensures Backed(log, k) ==> Backed(log + [e], k)
  {
    var after := log + [e];
    assert forall j :: 0 <= j < |log| ==> after[j] == log[j];
    match log[k]
    case Sent(_, _, over) => StillShownOfPrefix(log, e, over, k);
    case Adopted(_, _) => SelectionOfPrefix(log, e, k);
    case Announced(_, _, shown) => StillShownOfPrefix(log, e, shown, k);
    case _ =>
  }

  lemma AppendBacked(log: seq<Entry>, e: Entry)
    requires AllBacked(log) && Backed(log + [e], |log|)
    ensures AllBacked(log + [e])
  {
    forall k | 0 <= k < |log + [e]| ensures Backed(log + [e], k) {
      if k < |log| {
        BackedOfPrefix(log, e, k);
      }
    }
  }

  // ---- what an announcement is made over ----

  /**
   Between its check's load and the announcement, the state of a load that was out already when the
   answer arrived was adopted, and nothing after it.
   */
  ghost predicate Overtaken(log: seq<Entry>, k: nat)
    requires k < |log| && log[k].Announced?
  {
    exists r :: log[k].checked < r && StillShown(log, r, k) && log[r].asked < log[k].answered
  }

  lemma OneStillShown(log: seq<Entry>, a: nat, b: nat, k: nat)
    requires StillShown(log, a, k) && StillShown(log, b, k)
    ensures a == b
  {
  }

  /** An announcement's state was asked for after the answer it confirms, unless an older load overtook the check. */
  lemma FreshUnlessOvertaken(log: seq<Entry>, k: nat)
    requires AllBacked(log) && k < |log| && log[k].Announced?
    ensures var shown := log[k].shown;
            && shown < k && log[shown].Adopted?
            && (log[shown].asked > log[k].answered <==> !Overtaken(log, k))
  {
    assert Backed(log, k);
    var shown, answered := log[k].shown, log[k].answered;
    assert Backed(log, shown);
    if Overtaken(log, k) {
      var r :| log[k].checked < r && StillShown(log, r, k) && log[r].asked < answered;
      OneStillShown(log, r, shown, k);
    }
    if log[shown].asked < answered {
      assert shown != log[k].checked;
    }
  }

  /** Nothing is chosen from entry a on, up to k. */
  ghost predicate NothingChosen(log: seq<Entry>, a: nat, k: nat) {
    forall j :: a <= j < k && j < |log| ==> !log[j].Chose?
  }

  ghost predicate NoDrift(log: seq<Entry>, a: nat, k: nat) {
    forall j :: a <= j < k && j < |log| ==> !(log[j].Chose? && log[j].drifted)
  }

  lemma {:induction false} SelectionKept(log: seq<Entry>, a: nat, k: nat)
    requires a <= k <= |log| && NothingChosen(log, a, k)
    ensures SelectionAt(log, k) == SelectionAt(log, a)
  {
    if a < k {
      SelectionKept(log, a, k - 1);
    }
  }

  /** The module announced over is the one selected when its state was adopted. */
  lemma OwnIfSelectedWhenAdopted(log: seq<Entry>, k: nat)
    requires AllBacked(log) && k < |log| && log[k].Announced?
    ensures log[k].shown < k
    ensures OverOwnModule(log, k) <==> SelectionAt(log, log[k].shown) == Some(log[Origin(log, k)].moduleId)
  {
    assert Backed(log, k);
    assert Backed(log, log[k].shown);
  }

  /** Unless the selection drifts meanwhile, that is the one still selected at the announcement. */
  lemma OwnIfStillSelected(log: seq<Entry>, k: nat)
    requires AllBacked(log) && k < |log| && log[k].Announced? && NoDrift(log, log[k].shown, k)
    ensures OverOwnModule(log, k) <==> SelectionAt(log, k) == Some(log[Origin(log, k)].moduleId)
  {
    assert Backed(log, k);
    OwnIfSelectedWhenAdopted(log, k);
    SelectionKept(log, log[k].shown, k);
  }

  /**
   With no change of selection between the start of an operation and its announcement, and no drift between
   the adoption of the state that it was started over and its start, it is announced over its own module.
   */
  lemma OwnIfSelectionKept(log: seq<Entry>, k: nat)
    requires AllBacked(log) && k < |log| && log[k].Announced? && NothingChosen(log, Origin(log, k), k)
    requires NoDrift(log, log[Origin(log, k)].over, Origin(log, k))
    ensures OverOwnModule(log, k)
  {
    var sent := Origin(log, k);
    assert Backed(log, k) && Backed(log, sent);
    var over, shown := log[sent].over, log[k].shown;
    assert Backed(log, over);
    SelectionKept(log, over, sent);
    SelectionKept(log, sent, shown);
    OwnIfSelectedWhenAdopted(log, k);
  }
}
