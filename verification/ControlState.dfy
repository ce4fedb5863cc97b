/** The control state the page accepts, and the stages and actions it derives from it: apps/admin/control-plane.js. */
module ControlState {
  import opened Lists
  import opened ModuleRefs
  import opened Previews
  import opened Timestamps

  datatype Activation = Inactive | Active(releaseId: string, revision: int, activeModules: seq<Ref>)

  datatype InventoryModule = InventoryModule(ref: Ref, registered: bool)

  datatype Approval = Approval(approvalId: string, previewRef: string, approves: bool, consumed: bool)

  datatype ReadbackStatus = Pending | Verified | Mismatch | Unknown

  datatype Readback = Readback(releaseId: string, revision: int, appliedModules: seq<Ref>,
                               status: ReadbackStatus, reasonCodes: seq<string>)

  datatype ReleaseStatus = PublishedPendingReadback | ReviewedManually | ActiveVerified | Superseded

  datatype Release = Release(releaseId: string, revision: int, desiredModules: seq<Ref>, status: ReleaseStatus)

  datatype State = State(activation: Activation, inventory: seq<InventoryModule>, latestPreview: Option<Preview>,
                         latestApproval: Option<Approval>, latestReadback: Option<Readback>, history: seq<Release>)

  // ---- validation ----

  predicate PositiveRevision(n: int) {
    SafeInteger(n) && n > 0
  }

  predicate ValidActivation(a: Activation) {
    a.Active? ==> Identifier(a.releaseId) && PositiveRevision(a.revision) && ValidRefs(a.activeModules, false)
  }

  function InventoryRefs(s: seq<InventoryModule>): (r: seq<Ref>)
    ensures |r| == |s| && forall i :: 0 <= i < |s| ==> r[i] == s[i].ref
  {
    seq(|s|, i requires 0 <= i < |s| => s[i].ref)
  }

  predicate ValidPreview(p: Preview) {
    && Identifier(p.previewRef) && ValidRefs(p.desiredModules, false)
    && ValidRefs(p.diff.added, true) && ValidRefs(p.diff.removed, true) && ValidRefs(p.diff.retained, true)
    && ReasonCodes(p.validation.reasonCodes) && Identifier(p.creatorActorRef)
    && Split(p.createdAt).Some? && Split(p.expiresAt).Some?
  }

  predicate ValidApproval(a: Approval) {
    Identifier(a.approvalId) && Identifier(a.previewRef) && (!a.approves ==> !a.consumed)
  }

  predicate ValidReadback(r: Readback) {
    && Identifier(r.releaseId) && PositiveRevision(r.revision)
    && ValidRefs(r.appliedModules, !r.status.Verified?)
    && ReasonCodes(r.reasonCodes)
    && (r.status.Pending? || r.status.Verified? <==> r.reasonCodes == [])
  }

  predicate ValidRelease(r: Release) {
    Identifier(r.releaseId) && PositiveRevision(r.revision) && ValidRefs(r.desiredModules, false)
  }

  /** `hasExactVerifiedReadback` */
  predicate ExactVerifiedReadback(s: State) {
    && s.activation.Active? && s.latestReadback.Some?
    && var a, r := s.activation, s.latestReadback.value;
       && Identifier(a.releaseId) && PositiveRevision(a.revision) && a.activeModules != []
       && r.status.Verified? && r.reasonCodes == []
       && r.releaseId == a.releaseId && r.revision == a.revision
       && RefSetsEqual(r.appliedModules, a.activeModules)
  }

  /** What `validateControlState` accepts. */
  predicate Valid(s: State) {
    && ValidActivation(s.activation)
    && |s.inventory| <= MAX_REFS && Closed(InventoryRefs(s.inventory))
    && (s.latestPreview.Some? ==> ValidPreview(s.latestPreview.value))
    && (s.latestApproval.Some? ==> ValidApproval(s.latestApproval.value))
    && (s.latestReadback.Some? ==> ValidReadback(s.latestReadback.value))
    && (s.latestReadback.Some? && s.latestReadback.value.status.Verified? ==> ExactVerifiedReadback(s))
    && |s.history| <= 128 && (forall i :: 0 <= i < |s.history| ==> ValidRelease(s.history[i]))
  }

  /** An exact readback does not depend on the order in which either side lists its modules. */
  lemma ReadbackIgnoresOrder(s: State, applied: seq<Ref>, active: seq<Ref>)
    requires s.activation.Active? && s.latestReadback.Some?
    requires multiset(applied) == multiset(s.latestReadback.value.appliedModules)
    requires multiset(active) == multiset(s.activation.activeModules)
    ensures ExactVerifiedReadback(s) <==>
              ExactVerifiedReadback(s.(activation := s.activation.(activeModules := active),
                                       latestReadback := Some(s.latestReadback.value.(appliedModules := applied))))
  {
    var a, r := s.activation.activeModules, s.latestReadback.value.appliedModules;
    RefSetsEqualIsPermutation(r, a);
    RefSetsEqualIsPermutation(applied, active);
    assert |active| == |multiset(active)| == |multiset(a)| == |a|;
    if Closed(a) || Closed(active) {
      ClosedBothWays(a, active);
    }
    if Closed(r) || Closed(applied) {
      ClosedBothWays(r, applied);
    }
  }

  lemma ClosedBothWays(s: seq<Ref>, t: seq<Ref>)
    requires multiset(s) == multiset(t)
    ensures Closed(s) <==> Closed(t)
  {
    if Closed(s) {
      ClosedPermutation(s, t);
    }
    if Closed(t) {
      ClosedPermutation(t, s);
    }
  }

  // ---- stages ----

  datatype Stage = Empty | Waiting | Complete | Stopped | Review | Absent

  predicate ApprovalMatches(preview: Option<Preview>, approval: Option<Approval>) {
    preview.Some? && approval.Some? && preview.value.previewRef == approval.value.previewRef
  }

  /** `derivePreviewPresentation` */
  function PreviewStage(s: State): Stage {
    if s.latestPreview.None? then Empty
    else if s.latestPreview.value.consumed then (if ExactVerifiedReadback(s) then Complete else Stopped)
    else if !ApprovalMatches(s.latestPreview, s.latestApproval) then Waiting
    else if s.latestApproval.value.approves then Complete
    else Stopped
  }

  predicate Registered(target: Ref, inventory: seq<InventoryModule>) {
    exists i :: 0 <= i < |inventory| && inventory[i].ref == target && inventory[i].registered
  }

  predicate AllRegistered(targets: seq<Ref>, inventory: seq<InventoryModule>) {
    forall i :: 0 <= i < |targets| ==> Registered(targets[i], inventory)
  }

  function RegistrationTargets(s: State): seq<Ref> {
    if s.latestPreview.Some? then s.latestPreview.value.desiredModules
    else if s.activation.Active? then s.activation.activeModules
    else InventoryRefs(s.inventory)
  }

  datatype Stages = Stages(registration: Stage, preview: Stage, approval: Stage, readback: Stage)

  /** `deriveReleaseStages` */
  function ReleaseStages(s: State): Stages {
    var targets := RegistrationTargets(s);
    Stages(
      if s.inventory == [] || targets == [] then Empty
      else if AllRegistered(targets, s.inventory) then Complete
      else Waiting,
      PreviewStage(s),
      if s.latestApproval.None? then Empty
      else if !ApprovalMatches(s.latestPreview, s.latestApproval) then Review
      else if s.latestApproval.value.approves then Complete
      else Stopped,
      if ExactVerifiedReadback(s) then Complete
      else if s.latestReadback.None? then Empty
      else
        match s.latestReadback.value.status
        case Verified => Review
        case Mismatch => Review
        case Pending => Waiting
        case Unknown => Absent)
  }

  /** With nothing previewed or active, registration is complete exactly when every inventory module is registered. */
  lemma RegistrationOfInventory(s: State)
    requires Valid(s) && s.latestPreview.None? && s.activation.Inactive? && s.inventory != []
    ensures ReleaseStages(s).registration == Complete
            <==> forall i :: 0 <= i < |s.inventory| ==> s.inventory[i].registered
    ensures ReleaseStages(s).registration in {Complete, Waiting}
  {
    var refs := InventoryRefs(s.inventory);
    forall i | 0 <= i < |s.inventory| ensures Registered(refs[i], s.inventory) <==> s.inventory[i].registered {
      if j :| 0 <= j < |s.inventory| && s.inventory[j].ref == refs[i] && s.inventory[j].registered {
        assert Name(refs[i]) == Name(refs[j]);
      }
    }
  }

  // ---- selectors and actions ----

  /** `selectReconcileReleaseId` */
  function ReconcileTarget(s: State): Option<string> {
    if s.latestReadback.None? || !(s.latestReadback.value.status.Mismatch? || s.latestReadback.value.status.Unknown?)
    then None
    else if s.history == [] then None
    else
      var release, readback := s.history[0], s.latestReadback.value;
      if release.status.ReviewedManually? && release.releaseId == readback.releaseId
         && release.revision == readback.revision && Identifier(release.releaseId)
      then Some(release.releaseId) else None
  }

  /** Only the newest release can be reconciled, and only while its own readback has failed. */
  lemma ReconcileTargetsFailedReadback(s: State)
    requires Valid(s)
    ensures ReconcileTarget(s).Some? <==>
              && s.latestReadback.Some? && !s.latestReadback.value.status.Verified?
              && s.latestReadback.value.reasonCodes != []
              && s.history != [] && s.history[0].status.ReviewedManually?
              && (s.history[0].releaseId, s.history[0].revision)
                 == (s.latestReadback.value.releaseId, s.latestReadback.value.revision)
    ensures ReconcileTarget(s).Some? ==> ReconcileTarget(s).value == s.latestReadback.value.releaseId
  {
  }

  predicate Eligible(s: State, release: Release)
    requires s.activation.Active?
  {
    && (release.status.ActiveVerified? || release.status.Superseded?)
    && PositiveRevision(release.revision) && release.revision < s.activation.revision
    && AllRegistered(release.desiredModules, s.inventory)
  }

  /** The first release of a history that may be rolled back to. */
  function FirstEligible(s: State, history: seq<Release>): Option<string>
    requires s.activation.Active?
  {
    if history == [] then None
    else if Eligible(s, history[0]) && Identifier(history[0].releaseId) then Some(history[0].releaseId)
    else FirstEligible(s, history[1..])
  }

  function RollbackTarget(s: State): Option<string> {
    if s.activation.Active? then FirstEligible(s, s.history) else None
  }

  /** `selectRollbackReleaseId`, as the loop over the history that it is. */
  method SelectRollback(s: State) returns (target: Option<string>)
    ensures target == RollbackTarget(s)
  {
    if !s.activation.Active? {
      return None;
    }
    var i := 0;
    while i < |s.history|
      invariant 0 <= i <= |s.history|
      invariant FirstEligible(s, s.history) == FirstEligible(s, s.history[i..])
    {
      var release := s.history[i];
      assert s.history[i..][1..] == s.history[i + 1..];
      if !Eligible(s, release) {
        i := i + 1;
        continue;
      }
      if Identifier(release.releaseId) {
        return Some(release.releaseId);
      }
      i := i + 1;
    }
    return None;
  }

  lemma {:induction false} FirstEligibleMeaning(s: State, history: seq<Release>) returns (k: nat)
    requires s.activation.Active? && forall i :: 0 <= i < |history| ==> ValidRelease(history[i])
    ensures k <= |history| && forall i :: 0 <= i < k ==> !Eligible(s, history[i])
    ensures k == |history| <==> FirstEligible(s, history).None?
    ensures k < |history| ==> Eligible(s, history[k]) && FirstEligible(s, history) == Some(history[k].releaseId)
  {
    if history == [] || Eligible(s, history[0]) {
      k := 0;
    } else {
      var rest := FirstEligibleMeaning(s, history[1..]);
      k := rest + 1;
    }
  }

  /** Who acts, in which environment, and who created the preview. */
  datatype Actor = Actor(role: string, environment: string, ref: Option<string>, creatorRef: Option<string>)

  datatype Actions = Actions(register: bool, generatePreview: bool, submitApproval: bool, publish: bool,
                             reconcile: bool, rollback: bool)

  /** `actionAvailability` on a valid state and a valid draft; None is a thrown error. */
  function ActionAvailability(s: State, draft: seq<Ref>, actor: Actor, now: Clock): Option<Actions> {
    if !Valid(s) || !ValidRefs(draft, true) then None
    else
      var localWrite := actor.environment == "local" || actor.environment == "fixture";
      var may := actor.role == "admin" && localWrite;
      var usable := IsPreviewUsable(s.latestPreview, now);
      var decided := ApprovalMatches(s.latestPreview, s.latestApproval);
      var publishable := decided && s.latestApproval.value.approves && !s.latestApproval.value.consumed;
      var distinct := && actor.ref.Some? && Identifier(actor.ref.value)
                      && actor.creatorRef.Some? && Identifier(actor.creatorRef.value)
                      && actor.ref.value != actor.creatorRef.value;
      Some(Actions(may, may && draft != [] && AllRegistered(draft, s.inventory),
                   may && usable && distinct && !decided, may && usable && publishable,
                   may && ReconcileTarget(s).Some?, may && RollbackTarget(s).Some?))
  }

  /** What an offered action says about the stages shown beside it. */
  lemma ActionsAgreeWithStages(s: State, draft: seq<Ref>, actor: Actor, now: Clock)
    requires ActionAvailability(s, draft, actor, now).Some?
    ensures var may, stages := ActionAvailability(s, draft, actor, now).value, ReleaseStages(s);
            && !(may.submitApproval && may.publish)
            && (may.publish ==> stages.preview == Complete && stages.approval == Complete
                                && !s.latestPreview.value.consumed && !s.latestApproval.value.consumed)
            && (may.submitApproval ==> stages.preview == Waiting && stages.approval in {Empty, Review})
            && (may.reconcile ==> stages.readback in {Review, Absent} && !ExactVerifiedReadback(s))
            && (may.generatePreview ==>
                  draft != [] && forall i :: 0 <= i < |draft| ==> Registered(draft[i], s.inventory))
            && (s.latestReadback.Some? && s.latestReadback.value.status.Verified? ==>
                  stages.readback == Complete && !may.reconcile)
            && (stages.readback == Complete ==>
                  s.latestReadback.Some? && s.activation.Active?
                  && multiset(s.latestReadback.value.appliedModules) == multiset(s.activation.activeModules))
  {
    if ExactVerifiedReadback(s) {
      RefSetsEqualIsPermutation(s.latestReadback.value.appliedModules, s.activation.activeModules);
    }
  }

  /** Every one of these modules is in the inventory, with the same digest, and registered there. */
  ghost predicate AllInInventory(targets: seq<Ref>, inventory: seq<InventoryModule>) {
    forall target :: target in targets ==> InventoryModule(target, true) in inventory
  }

  lemma AllRegisteredMeaning(targets: seq<Ref>, inventory: seq<InventoryModule>)
    ensures AllRegistered(targets, inventory) <==> AllInInventory(targets, inventory)
  {
    forall target ensures Registered(target, inventory) <==> InventoryModule(target, true) in inventory {
      if InventoryModule(target, true) in inventory {
        var i :| 0 <= i < |inventory| && inventory[i] == InventoryModule(target, true);
      }
      if i :| 0 <= i < |inventory| && inventory[i].ref == target && inventory[i].registered {
        assert inventory[i] == InventoryModule(target, true);
      }
    }
  }

  /** An administrator who works on the local machine. */
  predicate LocalAdmin(actor: Actor) {
    actor.role == "admin" && actor.environment in {"local", "fixture"}
  }

  /** The actor and the creator of the preview are both known, and they are two persons. */
  predicate TwoPersons(actor: Actor) {
    match (actor.ref, actor.creatorRef)
    case (Some(a), Some(b)) => Identifier(a) && Identifier(b) && a != b
    case _ => false
  }

  /** The latest approval is about the latest preview. */
  predicate Decided(s: State) {
    match (s.latestPreview, s.latestApproval)
    case (Some(p), Some(a)) => p.previewRef == a.previewRef
    case _ => false
  }

  /** Which actions are offered: each exactly under its own conditions on role, environment, state, draft and clock. */
  lemma ActionsOfferedExactly(s: State, draft: seq<Ref>, actor: Actor, now: Clock)
    ensures ActionAvailability(s, draft, actor, now).Some? <==> Valid(s) && ValidRefs(draft, true)
    ensures ActionAvailability(s, draft, actor, now).Some? ==>
              var may := ActionAvailability(s, draft, actor, now).value;
              && (may.register <==> LocalAdmin(actor))
              && (may.generatePreview <==> LocalAdmin(actor) && draft != [] && AllInInventory(draft, s.inventory))
              && (may.submitApproval <==>
                    LocalAdmin(actor) && TwoPersons(actor) && !Decided(s)
                    && s.latestPreview.Some? && UsableNow(s.latestPreview.value, now))
              && (may.publish <==>
                    LocalAdmin(actor) && Decided(s) && UsableNow(s.latestPreview.value, now)
                    && s.latestApproval.value.approves && !s.latestApproval.value.consumed)
              && (may.reconcile <==> LocalAdmin(actor) && ReconcileTarget(s).Some?)
              && (may.rollback <==> LocalAdmin(actor) && RollbackTarget(s).Some?)
  {
    AllRegisteredMeaning(draft, s.inventory);
    if s.latestPreview.Some? {
      UsableExactlyNow(s.latestPreview.value, now);
    }
  }

  /** A release that may be rolled back to: it has been active, is older, and all its modules are still registered. */
  ghost predicate RollbackCandidate(s: State, release: Release) {
    && s.activation.Active? && release.revision < s.activation.revision
    && release.status in {ReleaseStatus.ActiveVerified, Superseded}
    && AllInInventory(release.desiredModules, s.inventory)
  }

  lemma EligibleMeaning(s: State, release: Release)
    requires s.activation.Active? && ValidRelease(release)
    ensures Eligible(s, release) <==> RollbackCandidate(s, release)
  {
    AllRegisteredMeaning(release.desiredModules, s.inventory);
  }

  /** Rollback is offered for the first candidate of the history, and for none only if there is none. */
  lemma RollbackIsFirstEligible(s: State)
    requires Valid(s)
    ensures RollbackTarget(s).None? <==> forall i :: 0 <= i < |s.history| ==> !RollbackCandidate(s, s.history[i])
    ensures RollbackTarget(s).Some? ==>
              exists k :: 0 <= k < |s.history| && RollbackCandidate(s, s.history[k])
                          && RollbackTarget(s) == Some(s.history[k].releaseId)
                          && forall i :: 0 <= i < k ==> !RollbackCandidate(s, s.history[i])
  {
    if s.activation.Active? {
      var k := FirstEligibleMeaning(s, s.history);
      forall i | 0 <= i < |s.history| ensures Eligible(s, s.history[i]) <==> RollbackCandidate(s, s.history[i]) {
        EligibleMeaning(s, s.history[i]);
      }
    }
  }

  /** A verified readback is never shown as needing review: validation has ruled that case out. */
  lemma VerifiedIsComplete(s: State)
    requires Valid(s) && s.latestReadback.Some?
    ensures ReleaseStages(s).readback == Complete <==> s.latestReadback.value.status.Verified?
    ensures ReleaseStages(s).readback == Review <==> s.latestReadback.value.status.Mismatch?
  {
  }

  // ---- the same, in the state's own fields ----

  /** The readback and the active release are the same release, with the same modules, read back without reserve. */
  ghost predicate ReadsBackActive(s: State) {
    match (s.activation, s.latestReadback)
    case (Active(releaseId, revision, modules), Some(r)) =>
      && r.status == Verified && |r.reasonCodes| == 0
      && r.releaseId == releaseId && r.revision == revision
      && Identifier(releaseId) && 1 <= revision <= 9007199254740991
      && |modules| > 0 && Closed(modules) && multiset(r.appliedModules) == multiset(modules)
    case _ => false
  }

  lemma ExactReadbackMeaning(s: State)
    ensures ExactVerifiedReadback(s) <==> ReadsBackActive(s)
  {
    if s.activation.Active? && s.latestReadback.Some? {
      var a, r := s.activation.activeModules, s.latestReadback.value.appliedModules;
      RefSetsEqualIsPermutation(r, a);
      if Closed(a) && multiset(r) == multiset(a) {
        ClosedPermutation(a, r);
      }
    }
  }

  /** The modules whose registration is asked for: those of the preview, else the active ones, else the inventory. */
  ghost predicate IsTarget(s: State, m: Ref) {
    match (s.latestPreview, s.activation)
    case (Some(p), _) => m in p.desiredModules
    case (None, Active(_, _, modules)) => m in modules
    case (None, Inactive) => exists i :: 0 <= i < |s.inventory| && s.inventory[i].ref == m
  }

  lemma PreviewStageExactly(s: State)
    requires Valid(s)
    ensures var stage, p, a := ReleaseStages(s).preview, s.latestPreview, s.latestApproval;
            && (stage == Empty <==> p.None?)
            && (stage == Waiting <==> p.Some? && !p.value.consumed && !Decided(s))
            && (stage == Complete <==>
                  p.Some? && if p.value.consumed then ReadsBackActive(s) else Decided(s) && a.value.approves)
            && stage in {Empty, Waiting, Complete, Stopped}
  {
    ExactReadbackMeaning(s);
  }

  lemma ApprovalStageExactly(s: State)
    ensures var stage, a := ReleaseStages(s).approval, s.latestApproval;
            && (stage == Empty <==> a.None?)
            && (stage == Review <==> a.Some? && !Decided(s))
            && (stage == Complete <==> Decided(s) && a.value.approves)
            && stage in {Empty, Review, Complete, Stopped}
  {
  }

  lemma ReadbackStageExactly(s: State)
    requires Valid(s)
    ensures var stage, r := ReleaseStages(s).readback, s.latestReadback;
            && (stage == Empty <==> r.None?)
            && (stage == Waiting <==> r.Some? && r.value.status == Pending)
            && (stage == Absent <==> r.Some? && r.value.status == Unknown)
            && (stage == Review <==> r.Some? && r.value.status == Mismatch)
            && (stage == Complete <==> r.Some? && r.value.status == Verified)
            && (stage == Complete ==> ReadsBackActive(s))
  {
    ExactReadbackMeaning(s);
  }

  lemma RegistrationExactly(s: State)
    ensures var r := ReleaseStages(s).registration;
            && (r == Empty <==> s.inventory == [] || forall m :: !IsTarget(s, m))
            && (r == Complete <==>
                  s.inventory != [] && (exists m :: IsTarget(s, m))
                  && forall m :: IsTarget(s, m) ==> InventoryModule(m, true) in s.inventory)
            && r in {Empty, Waiting, Complete}
  {
    var targets := RegistrationTargets(s);
    AllRegisteredMeaning(targets, s.inventory);
    forall m ensures IsTarget(s, m) <==> m in targets {
      if s.latestPreview.None? && s.activation.Inactive? {
        if i :| 0 <= i < |s.inventory| && s.inventory[i].ref == m {
          assert targets[i] == m;
        }
      }
    }
    if targets != [] {
      assert IsTarget(s, targets[0]);
    }
  }

  /** What the page demands of a preview, a readback and a release in a state that it accepts. */
  ghost predicate PresentablePreview(p: Preview) {
    && Identifier(p.previewRef) && Identifier(p.creatorActorRef)
    && 1 <= |p.desiredModules| <= 64 && Closed(p.desiredModules)
    && |p.diff.added| <= 64 && Closed(p.diff.added)
    && |p.diff.removed| <= 64 && Closed(p.diff.removed)
    && |p.diff.retained| <= 64 && Closed(p.diff.retained)
    && |p.validation.reasonCodes| <= 32 && (forall code :: code in p.validation.reasonCodes ==> Identifier(code))
    && Written(p.createdAt) && Written(p.expiresAt)
  }

  ghost predicate Written(text: string) {
    exists q :: Accepted(q) && Compose(q) == text
  }

  ghost predicate PresentableReadback(s: State, r: Readback) {
    && Identifier(r.releaseId) && 1 <= r.revision <= 9007199254740991
    && |r.appliedModules| <= 64 && Closed(r.appliedModules)
    && |r.reasonCodes| <= 32 && (forall code :: code in r.reasonCodes ==> Identifier(code))
    && (r.reasonCodes == [] <==> r.status in {Pending, Verified})
    && (r.status == Verified ==> ReadsBackActive(s))
  }

  ghost predicate PresentableRelease(releaseId: string, revision: int, modules: seq<Ref>) {
    Identifier(releaseId) && 1 <= revision <= 9007199254740991 && 1 <= |modules| <= 64 && Closed(modules)
  }

  ghost predicate Presentable(s: State) {
    && (match s.activation
        case Inactive => true
        case Active(releaseId, revision, modules) => PresentableRelease(releaseId, revision, modules))
    && |s.inventory| <= 64 && Closed(InventoryRefs(s.inventory))
    && (s.latestPreview.Some? ==> PresentablePreview(s.latestPreview.value))
    && (match s.latestApproval
        case None => true
        case Some(a) => Identifier(a.approvalId) && Identifier(a.previewRef) && !(a.consumed && !a.approves))
    && (s.latestReadback.Some? ==> PresentableReadback(s, s.latestReadback.value))
    && |s.history| <= 128
    && forall i :: 0 <= i < |s.history| ==>
         PresentableRelease(s.history[i].releaseId, s.history[i].revision, s.history[i].desiredModules)
  }

  lemma WrittenInstant(text: string)
    ensures Split(text).Some? <==> Written(text)
  {
    if Split(text).Some? {
      SplitExact(text, Split(text).value);
    }
    if Written(text) {
      var q :| Accepted(q) && Compose(q) == text;
      SplitExact(text, q);
    }
  }

  lemma CodesMeaning(codes: seq<string>)
    ensures ReasonCodes(codes) <==> |codes| <= 32 && forall code :: code in codes ==> Identifier(code)
  {
  }

  lemma PreviewMeaning(p: Preview)
    ensures ValidPreview(p) <==> PresentablePreview(p)
  {
    WrittenInstant(p.createdAt);
    WrittenInstant(p.expiresAt);
    CodesMeaning(p.validation.reasonCodes);
  }

  lemma VerifiedHasModules(s: State)
    requires ReadsBackActive(s)
    ensures s.latestReadback.value.appliedModules != []
  {
    var a, r := s.activation.activeModules, s.latestReadback.value.appliedModules;
    assert |r| == |multiset(r)| == |multiset(a)| == |a|;
  }

  lemma ReadbackMeaning(s: State)
    requires s.latestReadback.Some?
    ensures var r := s.latestReadback.value;
            ValidReadback(r) && (r.status == Verified ==> ExactVerifiedReadback(s)) <==> PresentableReadback(s, r)
  {
    ExactReadbackMeaning(s);
    CodesMeaning(s.latestReadback.value.reasonCodes);
    if ReadsBackActive(s) {
      VerifiedHasModules(s);
    }
  }

  lemma ReleaseMeaning(r: Release)
    ensures ValidRelease(r) <==> PresentableRelease(r.releaseId, r.revision, r.desiredModules)
  {
  }

  lemma ActivationMeaning(a: Activation)
    requires a.Active?
    ensures ValidActivation(a) <==> PresentableRelease(a.releaseId, a.revision, a.activeModules)
  {
  }

  lemma ApprovalMeaning(a: Approval)
    ensures ValidApproval(a) <==> Identifier(a.approvalId) && Identifier(a.previewRef) && !(a.consumed && !a.approves)
  {
  }

  /** The page accepts exactly the presentable states. */
  lemma ValidExactly(s: State)
    ensures Valid(s) <==> Presentable(s)
  {
    if s.activation.Active? {
      ActivationMeaning(s.activation);
    }
    if s.latestPreview.Some? {
      PreviewMeaning(s.latestPreview.value);
    }
    if s.latestApproval.Some? {
      ApprovalMeaning(s.latestApproval.value);
    }
    if s.latestReadback.Some? {
      ReadbackMeaning(s);
    }
    forall i | 0 <= i < |s.history|
      ensures ValidRelease(s.history[i])
              <==> PresentableRelease(s.history[i].releaseId, s.history[i].revision, s.history[i].desiredModules)
    {
      ReleaseMeaning(s.history[i]);
    }
  }
}
