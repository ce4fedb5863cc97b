/** The plugin configuration workspace: apps/admin/app.js, with the client of apps/admin/plugin-config.js. */
module ConfigWorkspace {
  import opened ConfigHistory
  import opened Lists

  // ---- failures ----

  /** How a request fails: refused by an answer, answered in a wrong format, or not answered. */
  datatype Failure = Refused(envelope: Status, responseOk: bool) | BadFormat(responseOk: bool) | NoAnswer

  /** `actionStatus` */
  function ActionStatus(value: Status, fallback: Status): Status {
    if value.Succeeded? || value.NeedsInput? || value.ManualReview? || value.Blocked? || value.Unavailable?
    then value else fallback
  }

  /** The status `configErrorNotice` shows for a failure; it knows no plain success. */
  function FailureStatus(f: Failure): Status {
    match f
    case Refused(envelope, responseOk) =>
      var status := ActionStatus(envelope, if responseOk then Succeeded else Blocked);
      if status.Succeeded? then Unavailable else status
    case BadFormat(responseOk) => if responseOk then Unavailable else Blocked
    case NoAnswer => Unavailable
  }

  // ---- the page ----

  /** An operation, the module whose state was shown when it was started, and its send in the history. */
  datatype Operation = Operation(kind: Kind, moduleId: string, sent: nat)

  /** Why a state is being loaded: on its own, to check an answer to an operation, or after one failed. */
  datatype Purpose = Alone(preserveNotice: bool) | Check(op: Operation, expected: Option<Identity>, answered: nat)
                   | Recover(op: Operation, failure: Status)

  datatype Load = Load(moduleId: string, purpose: Purpose, asked: nat)

  /** An operation about to go on after its load, whose state was adopted at adopted if it loaded one. */
  datatype Resumption = Resumption(purpose: Purpose, loaded: bool, adopted: nat)

  /** shown is where the history adopts the page's state, if there is one. */
  datatype Page = Page(bound: bool, selection: Option<string>, configState: Option<ConfigState>, loading: bool,
                       status: Status, dirty: bool, expected: Option<Identity>, notice: Option<Status>,
                       releaseId: Option<string>, loads: seq<Load>, operations: seq<Operation>,
                       resumptions: seq<Resumption>, shown: nat, log: seq<Entry>)

  datatype LoadAnswer = StateAnswer(state: ConfigState) | LoadFailure(failure: Failure)

  datatype Result = Released(identity: Identity, release: string) | Plain | Failing(failure: Failure)

  datatype Event =
    | Select(moduleId: string)
    | SelectionMoved(selection: Option<string>)
    | Bind
    | Clear
    | Refresh(preserveNotice: bool)
    | LoadAnswered(i: nat, answer: LoadAnswer)
    | Start(kind: Kind)
    | TurnedAway(status: Status)
    | Denied
    | OperationAnswered(i: nat, result: Result)
    | Resumed(i: nat)
    | EditField

  const START := Page(false, None, None, false, NeedsInput, false, None, None, None, [], [], [], 0, [])

  function Logged(p: Page, e: Entry): Page {
    p.(log := p.log + [e])
  }

  /** `resetPluginConfigState` */
  function ResetTo(p: Page, status: Status): Page {
    p.(configState := None, loading := false, status := status, dirty := false, expected := None, releaseId := None)
  }

  predicate Preserves(purpose: Purpose) {
    !purpose.Alone? || purpose.preserveNotice
  }

  function WithNotice(p: Page, purpose: Purpose): Page {
    if Preserves(purpose) then p else p.(notice := None)
  }

  /** `loadPluginConfigState` up to its request; without one the load has already failed. */
  function StartLoad(p: Page, purpose: Purpose): Page {
    if !p.bound then WithNotice(ResetTo(p, NeedsInput), purpose)
    else if p.selection.None? then WithNotice(ResetTo(p, Unavailable), purpose)
    else Logged(p.(loading := true, loads := p.loads + [Load(p.selection.value, purpose, |p.log|)]),
                Asked(p.selection.value))
  }

  /** The failure of a load, if it failed; a state of another module, or for a selection left meanwhile, is one. */
  function LoadProblem(p: Page, load: Load, answer: LoadAnswer): Option<Status> {
    match answer
    case LoadFailure(failure) => Some(FailureStatus(failure))
    case StateAnswer(state) =>
      if state.moduleId != load.moduleId || p.selection != Some(load.moduleId) then Some(ManualReview) else None
  }

  function TakenOver(p: Page, state: ConfigState, asked: nat): Page {
    Logged(p.(configState := Some(state), status := state.status, expected := None, loading := false,
              releaseId := if state.releaseId.Some? then state.releaseId else p.releaseId, shown := |p.log|),
           Adopted(asked, state))
  }

  function Queue(p: Page, purpose: Purpose, loaded: bool): Page {
    if purpose.Alone? then p else p.(resumptions := p.resumptions + [Resumption(purpose, loaded, p.shown)])
  }

  function AfterLoadAnswered(p: Page, i: nat, answer: LoadAnswer): Page {
    if i >= |p.loads| then p
    else
      var load, problem := p.loads[i], LoadProblem(p, p.loads[i], answer);
      var q := p.(loads := RemoveAt(p.loads, i));
      match problem
      case Some(status) => Queue(ResetTo(q, status), load.purpose, false)
      case None => Queue(WithNotice(TakenOver(q, answer.state, load.asked), load.purpose), load.purpose, true)
  }

  function AfterStart(p: Page, kind: Kind): Page {
    if p.configState.None? || !p.bound || p.loading then p
    else
      var moduleId := p.configState.value.moduleId;
      Logged(p.(loading := true, status := Waiting, notice := Some(Waiting),
                operations := p.operations + [Operation(kind, moduleId, |p.log|)]),
             Sent(kind, moduleId, p.shown))
  }

  /** What the client makes of an answer: the data must be of the operation's own kind. */
  function ClientResult(kind: Kind, result: Result): Result {
    if result.Failing? then result
    else if ReadsBack(kind) then
      (if result.Released? && ValidIdentity(result.identity) then result else Failing(BadFormat(true)))
    else if result.Plain? then result
    else Failing(BadFormat(true))
  }

  /** The load that checks an answer naming this identity, or none. */
  function StartCheck(p: Page, op: Operation, identity: Option<Identity>): Page {
    StartLoad(Logged(p, Answered(op.sent, identity)), Check(op, identity, |p.log|))
  }

  /** An answer of the operation's own kind: an identity of a safe revision to read back, or none for other kinds. */
  predicate IsOwnAnswer(kind: Kind, result: Result) {
    match kind
    case Publish => result.Released? && 0 <= result.identity.revision <= 9007199254740991
    case Reconcile => result.Released? && 0 <= result.identity.revision <= 9007199254740991
    case _ => result.Plain?
  }

  function IdentityOf(result: Result): Option<Identity> {
    if result.Released? then Some(result.identity) else None
  }

  function AfterFailure(p: Page, op: Operation, status: Status): Page {
    var q := p.(status := status, notice := Some(status));
    if status.ManualReview? || status.Blocked? then StartLoad(q, Recover(op, status)) else q.(loading := false)
  }

  function AfterOperationAnswered(p: Page, i: nat, result: Result): Page {
    if i >= |p.operations| then p
    else
      var op, q := p.operations[i], p.(operations := RemoveAt(p.operations, i));
      match ClientResult(op.kind, result)
      case Released(identity, release) => StartCheck(q.(releaseId := Some(release)), op, Some(identity))
      case Plain => StartCheck(q, op, None)
      case Failing(failure) => AfterFailure(q, op, FailureStatus(failure))
  }

  /** The end of an operation whose check has loaded a state. */
  function Checked(p: Page, check: Purpose, adopted: nat, state: ConfigState): Page
    requires check.Check?
  {
    var expected := check.expected;
    if expected.None? then p.(status := state.status, notice := Some(state.status))
    else if Exact(expected.value, state) then
      Logged(p.(dirty := p.dirty && !check.op.kind.Publish?, expected := expected, status := ReadbackVerified,
                notice := Some(ReadbackVerified)),
             Announced(check.answered, adopted, p.shown))
    else if state.status.PublishedPendingApply? || state.status.Restarting? || state.status.Waiting? then
      p.(expected := expected, status := state.status, notice := Some(state.status))
    else p.(expected := expected, status := ManualReview, notice := Some(ManualReview))
  }

  function AfterResumed(p: Page, i: nat): Page {
    if i >= |p.resumptions| then p
    else
      var resumption, q := p.resumptions[i], p.(resumptions := RemoveAt(p.resumptions, i), loading := false);
      match resumption.purpose
      case Alone(_) => q
      case Check(_, _, _) =>
        if !resumption.loaded || p.configState.None? then q
        else Checked(q, resumption.purpose, resumption.adopted, p.configState.value)
      case Recover(_, failure) => if resumption.loaded then q.(status := failure) else q
  }

  function Choose(p: Page, selection: Option<string>, drifted: bool): Page {
    Logged(p.(selection := selection), Chose(selection, drifted))
  }

  function AfterSelect(p: Page, moduleId: string): Page {
    StartLoad(Choose(ResetTo(p, Waiting).(notice := None), Some(moduleId), false), Alone(false))
  }

  function AfterClear(p: Page): Page {
    Choose(ResetTo(p, NeedsInput).(bound := false, notice := None), None, false)
  }

  function Step(p: Page, e: Event): Page {
    match e
    case Select(moduleId) => AfterSelect(p, moduleId)
    case SelectionMoved(selection) => if selection == p.selection then p else Choose(p, selection, true)
    case Bind => ResetTo(p, Waiting).(bound := true, notice := None)
    case Clear => AfterClear(p)
    case Refresh(preserveNotice) => StartLoad(p, Alone(preserveNotice))
    case LoadAnswered(i, answer) => AfterLoadAnswered(p, i, answer)
    case Start(kind) => AfterStart(p, kind)
    case TurnedAway(status) => if Verified(status) then p else p.(status := status, notice := Some(status))
    case Denied => p.(notice := Some(Blocked))
    case OperationAnswered(i, result) => AfterOperationAnswered(p, i, result)
    case Resumed(i) => AfterResumed(p, i)
    case EditField => p.(dirty := true)
  }

  /** The page's state object, updated field by field between the awaits of the load and run functions. */
  class ConfigPage {
    var bound: bool
    var selection: Option<string>
    var configState: Option<ConfigState>
    var configStateLoading: bool
    var configStatus: Status
    var configDraftDirty: bool
    var configExpectedReadback: Option<Identity>
    var configNotice: Option<Status>
    var configReleaseId: Option<string>
    var loads: seq<Load>
    var operations: seq<Operation>
    var resumptions: seq<Resumption>
    var shown: nat
    var log: seq<Entry>

    ghost function View(): Page
      reads this
    {
      Page(bound, selection, configState, configStateLoading, configStatus, configDraftDirty, configExpectedReadback,
           configNotice, configReleaseId, loads, operations, resumptions, shown, log)
    }

    constructor ()
      ensures View() == START
      ensures !bound && selection.None? && configState.None? && !configStateLoading && configStatus == NeedsInput
      ensures !configDraftDirty && configExpectedReadback.None? && configNotice.None? && configReleaseId.None?
      ensures loads == [] && operations == [] && resumptions == []
    {
      bound, selection, configState, configStateLoading := false, None, None, false;
      configStatus, configDraftDirty, configExpectedReadback := NeedsInput, false, None;
      configNotice, configReleaseId := None, None;
      loads, operations, resumptions, shown, log := [], [], [], 0, [];
    }

    /** The page has no state to show, and nothing that belonged to one. */
    ghost predicate IsReset(status: Status)
      reads this
    {
      && configState.None? && !configStateLoading && configStatus == status
      && !configDraftDirty && configExpectedReadback.None? && configReleaseId.None?
    }

    method ResetPluginConfigState(status: Status)
      modifies `configState, `configStateLoading, `configStatus, `configDraftDirty, `configExpectedReadback,
               `configReleaseId
      ensures View() == ResetTo(old(View()), status)
      ensures IsReset(status)
    {
      configState := None;
      configStateLoading := false;
      configStatus := status;
      configDraftDirty := false;
      configExpectedReadback := None;
      configReleaseId := None;
    }

    /** `loadPluginConfigState` up to its request. */
    method LoadPluginConfigState(purpose: Purpose)
      modifies this
      ensures View() == StartLoad(old(View()), purpose)
      ensures selection == old(selection) && bound == old(bound)
      ensures bound && selection.Some? ==>
                && configStateLoading && loads == old(loads) + [Load(selection.value, purpose, |old(log)|)]
                && configState == old(configState) && configStatus == old(configStatus)
                && configDraftDirty == old(configDraftDirty) && configNotice == old(configNotice)
      ensures !bound || selection.None? ==>
                && IsReset(if bound then Unavailable else NeedsInput) && loads == old(loads)
                && configNotice == if purpose == Alone(false) then None else old(configNotice)
    {
      if !bound {
        ResetPluginConfigState(NeedsInput);
        if !Preserves(purpose) {
          configNotice := None;
        }
        return;
      }
      if selection.None? {
        ResetPluginConfigState(Unavailable);
        if !Preserves(purpose) {
          configNotice := None;
        }
        return;
      }
      configStateLoading := true;
      loads := loads + [Load(selection.value, purpose, |log|)];
      log := log + [Asked(selection.value)];
    }

    method Adopt(state: ConfigState, asked: nat)
      modifies `configState, `configStatus, `configReleaseId, `configExpectedReadback, `configStateLoading, `shown, `log
      ensures View() == TakenOver(old(View()), state, asked)
      ensures configState == Some(state) && configStatus == state.status && !configStateLoading
      ensures configExpectedReadback.None?
      ensures configReleaseId == if state.releaseId.None? then old(configReleaseId) else state.releaseId
      ensures shown == |old(log)| && log == old(log) + [Adopted(asked, state)]
    {
      configState := Some(state);
      configStatus := state.status;
      if state.releaseId.Some? {
        configReleaseId := state.releaseId;
      }
      configExpectedReadback := None;
      configStateLoading := false;
      shown := |log|;
      log := log + [Adopted(asked, state)];
    }

    method Enqueue(purpose: Purpose, loaded: bool)
      modifies `resumptions
      ensures View() == Queue(old(View()), purpose, loaded)
      ensures resumptions == old(resumptions) + if purpose.Alone? then [] else [Resumption(purpose, loaded, shown)]
    {
      if !purpose.Alone? {
        resumptions := resumptions + [Resumption(purpose, loaded, shown)];
      }
    }

    /** `loadPluginConfigState` when its request has come back. */
    method OnLoadAnswered(i: nat, answer: LoadAnswer)
      requires i < |loads|
      modifies this
      ensures View() == AfterLoadAnswered(old(View()), i, answer)
      ensures loads == RemoveAt(old(loads), i)
      ensures var load := old(loads)[i];
              var taken := answer.StateAnswer? && answer.state.moduleId == load.moduleId
                           && old(selection) == Some(load.moduleId);
              && (taken ==> configState == Some(answer.state) && configStatus == answer.state.status
                            && configDraftDirty == old(configDraftDirty) && !configStateLoading)
              && (!taken && answer.StateAnswer? ==> IsReset(ManualReview))
              && (answer.LoadFailure? ==> IsReset(FailureStatus(answer.failure)))
              && configNotice == (if taken && load.purpose == Alone(false) then None else old(configNotice))
              && resumptions == old(resumptions)
                                + (if load.purpose.Alone? then [] else [Resumption(load.purpose, taken, shown)])
    {
      var load := loads[i];
      loads := RemoveAt(loads, i);
      if answer.LoadFailure? {
        ResetPluginConfigState(FailureStatus(answer.failure));
      } else if answer.state.moduleId != load.moduleId || selection != Some(load.moduleId) {
        ResetPluginConfigState(ManualReview);
      } else {
        Adopt(answer.state, load.asked);
        if !Preserves(load.purpose) {
          configNotice := None;
        }
        Enqueue(load.purpose, true);
        return;
      }
      Enqueue(load.purpose, false);
    }

    /** Another selection, or none: nothing of the old one stays. */
    method Leave(next: Option<string>, status: Status)
      modifies this
      ensures View() == Choose(ResetTo(old(View()), status).(notice := None), next, false)
      ensures selection == next && IsReset(status) && configNotice.None? && bound == old(bound)
      ensures loads == old(loads) && log == old(log) + [Chose(next, false)]
    {
      selection := next;
      log := log + [Chose(next, false)];
      ResetPluginConfigState(status);
      configNotice := None;
    }

    method OnSelect(moduleId: string)
      modifies this
      ensures View() == AfterSelect(old(View()), moduleId)
      ensures selection == Some(moduleId) && configState.None? && !configDraftDirty && configNotice.None?
      ensures if bound then configStateLoading && configStatus == Waiting
                            && loads == old(loads) + [Load(moduleId, Alone(false), |old(log)| + 1)]
              else IsReset(NeedsInput) && loads == old(loads)
    {
      Leave(Some(moduleId), Waiting);
      LoadPluginConfigState(Alone(false));
    }

    method OnBind()
      modifies this
      ensures View() == Step(old(View()), Bind)
      ensures bound && IsReset(Waiting) && configNotice.None? && selection == old(selection)
    {
      bound := true;
      ResetPluginConfigState(Waiting);
      configNotice := None;
    }

    method OnClear()
      modifies this
      ensures View() == AfterClear(old(View()))
      ensures !bound && selection.None? && IsReset(NeedsInput) && configNotice.None?
      ensures log == old(log) + [Chose(None, false)] && loads == old(loads)
    {
      bound := false;
      Leave(None, NeedsInput);
    }

    /** `runPluginConfigOperation` up to its request. */
    method OnStart(kind: Kind)
      modifies `configStateLoading, `configStatus, `configNotice, `operations, `log
      ensures View() == AfterStart(old(View()), kind)
      ensures configState.Some? && bound && !old(configStateLoading) ==>
                && configStateLoading && configStatus == Waiting && configNotice == Some(Waiting)
                && operations == old(operations) + [Operation(kind, configState.value.moduleId, |old(log)|)]
      ensures configState.None? || !bound || old(configStateLoading) ==> View() == old(View())
    {
      if configState.None? || !bound || configStateLoading {
        return;
      }
      configStateLoading := true;
      configStatus := Waiting;
      configNotice := Some(Waiting);
      operations := operations + [Operation(kind, configState.value.moduleId, |log|)];
      log := log + [Sent(kind, configState.value.moduleId, shown)];
    }

    method CheckAnswer(op: Operation, identity: Option<Identity>)
      modifies this
      ensures View() == StartCheck(old(View()), op, identity)
      ensures selection == old(selection) && bound == old(bound)
      ensures bound && selection.Some? ==>
                configStateLoading
                && loads == old(loads) + [Load(selection.value, Check(op, identity, |old(log)|), |old(log)| + 1)]
                && configState == old(configState) && configReleaseId == old(configReleaseId)
    {
      log := log + [Answered(op.sent, identity)];
      LoadPluginConfigState(Check(op, identity, |log| - 1));
    }

    /** `runPluginConfigOperation` when its request has come back. */
    method OnOperationAnswered(i: nat, result: Result)
      requires i < |operations|
      modifies this
      ensures View() == AfterOperationAnswered(old(View()), i, result)
      ensures operations == RemoveAt(old(operations), i)
      ensures var op := old(operations)[i];
              && (bound && selection.Some? && IsOwnAnswer(op.kind, result) ==>
                    && configStateLoading
                    && loads == old(loads)
                                + [Load(selection.value, Check(op, IdentityOf(result), |old(log)|), |old(log)| + 1)]
                    && (result.Released? ==> configReleaseId == Some(result.release)))
              && (!IsOwnAnswer(op.kind, result) ==>
                    var status := if result.Failing? then FailureStatus(result.failure) else Unavailable;
                    && configNotice == Some(status)
                    && (status in {ManualReview, Blocked} && bound && selection.Some? ==>
                          configStateLoading
                          && loads == old(loads) + [Load(selection.value, Recover(op, status), |old(log)|)])
                    && (status !in {ManualReview, Blocked} ==>
                          !configStateLoading && configStatus == status && loads == old(loads)))
    {
      var op := operations[i];
      operations := RemoveAt(operations, i);
      match ClientResult(op.kind, result)
      case Released(identity, release) => CheckRelease(op, identity, release);
      case Plain => CheckAnswer(op, None);
      case Failing(failure) => Fail(op, FailureStatus(failure));
    }

    method CheckRelease(op: Operation, identity: Identity, release: string)
      modifies this
      ensures View() == StartCheck(old(View()).(releaseId := Some(release)), op, Some(identity))
      ensures selection == old(selection) && bound == old(bound)
      ensures bound && selection.Some? ==>
                && configStateLoading && configReleaseId == Some(release)
                && loads == old(loads) + [Load(selection.value, Check(op, Some(identity), |old(log)|), |old(log)| + 1)]
    {
      configReleaseId := Some(release);
      CheckAnswer(op, Some(identity));
    }

    method Fail(op: Operation, status: Status)
      modifies this
      ensures View() == AfterFailure(old(View()), op, status)
      ensures selection == old(selection) && bound == old(bound) && configNotice == Some(status)
      ensures status in {ManualReview, Blocked} && bound && selection.Some? ==>
                configStateLoading && loads == old(loads) + [Load(selection.value, Recover(op, status), |old(log)|)]
      ensures status !in {ManualReview, Blocked} ==>
                !configStateLoading && configStatus == status && loads == old(loads)
    {
      configStatus := status;
      configNotice := Some(status);
      if status.ManualReview? || status.Blocked? {
        LoadPluginConfigState(Recover(op, status));
      } else {
        configStateLoading := false;
      }
    }

    /** `runPluginConfigOperation` behind its load. */
    method OnResumed(i: nat)
      requires i < |resumptions|
      modifies `resumptions, `configStateLoading, `configStatus, `configDraftDirty, `configExpectedReadback,
               `configNotice, `log
      ensures View() == AfterResumed(old(View()), i)
      ensures !configStateLoading && resumptions == RemoveAt(old(resumptions), i)
      ensures var r := old(resumptions)[i];
              && (!r.loaded || r.purpose.Alone? ==>
                    configStatus == old(configStatus) && configNotice == old(configNotice))
              && (r.loaded && r.purpose.Recover? ==>
                    configStatus == r.purpose.failure && configNotice == old(configNotice))
              && (r.loaded && r.purpose.Check? && configState.Some? ==>
                    ShowsOutcome(r.purpose.op.kind, r.purpose.expected, configState.value, old(configDraftDirty)))
    {
      var resumption := resumptions[i];
      resumptions := RemoveAt(resumptions, i);
      configStateLoading := false;
      if !resumption.loaded {
        return;
      }
      match resumption.purpose
      case Alone(_) =>
      case Recover(_, failure) => configStatus := failure;
      case Check(_, _, _) =>
        if configState.Some? {
          FinishCheck(resumption.purpose, resumption.adopted, configState.value);
        }
    }

    /** What stands on the page after an operation has been checked against the state. */
    ghost predicate ShowsOutcome(kind: Kind, expected: Option<Identity>, state: ConfigState, dirty: bool)
      reads this
    {
      var exact := expected.Some? && Exact(expected.value, state);
      && configNotice == Some(configStatus)
      && (expected.Some? ==> configExpectedReadback == expected)
      && configDraftDirty == (dirty && !(exact && kind.Publish?))
      && (exact ==> configStatus == ReadbackVerified)
      && (expected.None? || (!exact && state.status in {PublishedPendingApply, Restarting, Waiting}) ==>
            configStatus == state.status)
      && (expected.Some? && !exact && state.status !in {PublishedPendingApply, Restarting, Waiting} ==>
            configStatus == ManualReview)
    }

    method FinishCheck(check: Purpose, adopted: nat, state: ConfigState)
      requires check.Check?
      modifies `configDraftDirty, `configExpectedReadback, `configStatus, `configNotice, `log
      ensures View() == Checked(old(View()), check, adopted, state)
      ensures ShowsOutcome(check.op.kind, check.expected, state, old(configDraftDirty))
      ensures log == old(log) + (if check.expected.Some? && Exact(check.expected.value, state)
                                 then [Announced(check.answered, adopted, shown)] else [])
    {
      if check.expected.None? {
        configStatus := state.status;
        configNotice := Some(state.status);
      } else if Exact(check.expected.value, state) {
        if check.op.kind.Publish? {
          configDraftDirty := false;
        }
        configExpectedReadback := check.expected;
        configStatus := ReadbackVerified;
        configNotice := Some(ReadbackVerified);
        log := log + [Announced(check.answered, adopted, shown)];
      } else if state.status.PublishedPendingApply? || state.status.Restarting? || state.status.Waiting? {
        configExpectedReadback := check.expected;
        configStatus := state.status;
        configNotice := Some(state.status);
      } else {
        configStatus := ManualReview;
        configExpectedReadback := check.expected;
        configNotice := Some(ManualReview);
      }
    }

    method OnTurnedAway(status: Status)
      requires !Verified(status)
      modifies `configStatus, `configNotice
      ensures View() == Step(old(View()), TurnedAway(status))
      ensures configStatus == status && configNotice == Some(status)
    {
      configStatus := status;
      configNotice := Some(status);
    }

    /** An action that the shown state does not allow: the notice says so, and the status stays. */
    method OnDenied()
      modifies `configNotice
      ensures View() == Step(old(View()), Denied)
      ensures configNotice == Some(Blocked)
    {
      configNotice := Some(Blocked);
    }

    method OnEditField()
      modifies `configDraftDirty
      ensures View() == Step(old(View()), EditField)
      ensures configDraftDirty
    {
      configDraftDirty := true;
    }
  }

  // ---- every run ----

  function Run(p: Page, events: seq<Event>): Page
    decreases |events|
  {
    if events == [] then p else Run(Step(p, events[0]), events[1..])
  }

  // ---- what the page shows ----

  predicate SoundPurpose(purpose: Purpose) {
    && (purpose.Recover? ==> !Verified(purpose.failure))
    && (purpose.Check? ==> (ReadsBack(purpose.op.kind) <==> purpose.expected.Some?))
  }

  /** A verified status is shown only over a loaded state that is itself verified. */
  predicate HonestStatus(p: Page) {
    Verified(p.status) ==> p.configState.Some? && Verified(p.configState.value.status)
  }

  ghost predicate StatusInv(p: Page) {
    && HonestStatus(p)
    && (forall i :: 0 <= i < |p.loads| ==> SoundPurpose(p.loads[i].purpose))
    && (forall i :: 0 <= i < |p.resumptions| ==> SoundPurpose(p.resumptions[i].purpose))
  }

  /** No failure is ever shown as a verified configuration, whatever status the server's answer named. */
  lemma FailureIsNeverVerified(f: Failure)
    ensures !Verified(FailureStatus(f)) && !FailureStatus(f).Succeeded?
  {
  }

  /** The five statuses that an answer may name are kept, any other becomes what the answer's success leaves open. */
  lemma FailureStatusExactly(f: Failure)
    ensures FailureStatus(f) == ManualReview <==> f.Refused? && f.envelope == ManualReview
    ensures FailureStatus(f) == NeedsInput <==> f.Refused? && f.envelope == NeedsInput
    ensures FailureStatus(f) == Blocked <==>
              || (f.Refused? && f.envelope == Blocked)
              || (f.Refused? && !f.responseOk && f.envelope !in {Succeeded, NeedsInput, ManualReview, Unavailable})
              || (f.BadFormat? && !f.responseOk)
    ensures FailureStatus(f) in {ManualReview, NeedsInput, Blocked, Unavailable}
  {
  }

  lemma StartLoadKeepsStatus(p: Page, purpose: Purpose)
    requires StatusInv(p) && SoundPurpose(purpose)
    ensures StatusInv(StartLoad(p, purpose))
  {
  }

  lemma LoadAnsweredKeepsStatus(p: Page, i: nat, answer: LoadAnswer)
    requires StatusInv(p)
    ensures StatusInv(AfterLoadAnswered(p, i, answer))
  {
    if i < |p.loads| {
      assert SoundPurpose(p.loads[i].purpose);
      if answer.LoadFailure? {
        FailureIsNeverVerified(answer.failure);
      }
    }
  }

  lemma ResumedKeepsStatus(p: Page, i: nat)
    requires StatusInv(p)
    ensures StatusInv(AfterResumed(p, i))
  {
    if i < |p.resumptions| {
      var resumption, q := p.resumptions[i], p.(resumptions := RemoveAt(p.resumptions, i), loading := false);
      assert SoundPurpose(resumption.purpose) && StatusInv(q);
      if resumption.purpose.Check? && resumption.loaded && p.configState.Some? {
        CheckedKeepsStatus(q, resumption.purpose, resumption.adopted, p.configState.value);
      }
    }
  }

  lemma CheckedKeepsStatus(p: Page, check: Purpose, adopted: nat, state: ConfigState)
    requires StatusInv(p) && check.Check? && p.configState == Some(state)
    ensures StatusInv(Checked(p, check, adopted, state))
  {
  }

  lemma OperationAnsweredKeepsStatus(p: Page, i: nat, result: Result)
    requires StatusInv(p)
    ensures StatusInv(AfterOperationAnswered(p, i, result))
  {
    if i < |p.operations| {
      var op, q := p.operations[i], p.(operations := RemoveAt(p.operations, i));
      match ClientResult(op.kind, result)
      case Released(identity, release) =>
        var r := Logged(q.(releaseId := Some(release)), Answered(op.sent, Some(identity)));
        StartLoadKeepsStatus(r, Check(op, Some(identity), |q.log|));
      case Plain => StartLoadKeepsStatus(Logged(q, Answered(op.sent, None)), Check(op, None, |q.log|));
      case Failing(failure) =>
        FailureIsNeverVerified(failure);
        var status := FailureStatus(failure);
        StartLoadKeepsStatus(q.(status := status, notice := Some(status)), Recover(op, status));
    }
  }

  lemma StepKeepsStatus(p: Page, e: Event)
    requires StatusInv(p)
    ensures StatusInv(Step(p, e))
  {
    match e
    case Select(moduleId) =>
      StartLoadKeepsStatus(Choose(ResetTo(p, Waiting).(notice := None), Some(moduleId), false), Alone(false));
    case Refresh(preserveNotice) => StartLoadKeepsStatus(p, Alone(preserveNotice));
    case LoadAnswered(i, answer) => LoadAnsweredKeepsStatus(p, i, answer);
    case OperationAnswered(i, result) => OperationAnsweredKeepsStatus(p, i, result);
    case Resumed(i) => ResumedKeepsStatus(p, i);
    case _ =>
  }

  // ---- what the history says ----

  ghost predicate BackedOperation(log: seq<Entry>, op: Operation) {
    op.sent < |log| && log[op.sent].Sent? && log[op.sent].kind == op.kind && log[op.sent].moduleId == op.moduleId
  }

  /** A check comes from an answer that its own operation got. */
  ghost predicate BackedPurpose(log: seq<Entry>, purpose: Purpose, asked: nat) {
    purpose.Check? ==>
      && BackedOperation(log, purpose.op) && purpose.op.sent < purpose.answered < asked <= |log|
      && log[purpose.answered] == Answered(purpose.op.sent, purpose.expected)
      && (purpose.expected.Some? ==> ReadsBack(purpose.op.kind) && ValidIdentity(purpose.expected.value))
  }

  ghost predicate BackedLoad(log: seq<Entry>, load: Load) {
    && load.asked < |log| && log[load.asked] == Asked(load.moduleId)
    && BackedPurpose(log, load.purpose, load.asked)
  }

  ghost predicate BackedResumption(log: seq<Entry>, r: Resumption) {
    r.loaded ==>
      && r.adopted < |log| && log[r.adopted].Adopted? && log[r.adopted].asked < r.adopted
      && BackedPurpose(log, r.purpose, log[r.adopted].asked)
  }

  ghost predicate BackedState(p: Page) {
    p.configState.Some? ==>
      StillShown(p.log, p.shown, |p.log|) && p.log[p.shown].state == p.configState.value
  }

  ghost predicate LogInv(p: Page) {
    && AllBacked(p.log) && SelectionAt(p.log, |p.log|) == p.selection && BackedState(p)
    && (forall l :: l in p.loads ==> BackedLoad(p.log, l))
    && (forall op :: op in p.operations ==> BackedOperation(p.log, op))
    && (forall r :: r in p.resumptions ==> BackedResumption(p.log, r))
  }

  lemma PurposeOfPrefix(log: seq<Entry>, e: Entry, purpose: Purpose, asked: nat)
    requires BackedPurpose(log, purpose, asked)
    ensures BackedPurpose(log + [e], purpose, asked)
  {
  }

  /** A step that adds nothing to the history. */
  lemma QuietKeepsLog(p: Page, q: Page)
    requires LogInv(p) && q.log == p.log && q.selection == p.selection
    requires q.configState.None? || (q.configState == p.configState && q.shown == p.shown)
    requires forall l :: l in q.loads ==> l in p.loads
    requires forall op :: op in q.operations ==> op in p.operations
    requires forall r :: r in q.resumptions ==> r in p.resumptions || BackedResumption(p.log, r)
    ensures LogInv(q)
  {
  }

  /** A step that adds one backed entry, and with it perhaps a load or an operation. */
  lemma EntryKeepsLog(p: Page, q: Page, e: Entry)
    requires LogInv(p) && q.log == p.log + [e] && Backed(q.log, |p.log|)
    requires q.selection == if e.Chose? then e.selection else p.selection
    requires || q.configState.None?
             || (q.configState == p.configState && q.shown == p.shown && !e.Adopted? && (e.Chose? ==> e.drifted))
             || (e.Adopted? && q.configState == Some(e.state) && q.shown == |p.log|)
    requires forall l :: l in q.loads ==> l in p.loads || BackedLoad(q.log, l)
    requires forall op :: op in q.operations ==> op in p.operations || BackedOperation(q.log, op)
    requires q.resumptions == p.resumptions
    ensures LogInv(q)
  {
    AppendBacked(p.log, e);
    SelectionOfPrefix(p.log, e, |p.log|);
    StillShownOfPrefix(p.log, e, p.shown, |p.log|);
    forall l | l in q.loads ensures BackedLoad(q.log, l) {
      if l in p.loads {
        PurposeOfPrefix(p.log, e, l.purpose, l.asked);
      }
    }
    forall r | r in q.resumptions ensures BackedResumption(q.log, r) {
      if r.loaded {
        PurposeOfPrefix(p.log, e, r.purpose, p.log[r.adopted].asked);
      }
    }
  }

  lemma StartLoadKeepsLog(p: Page, purpose: Purpose)
    requires LogInv(p) && BackedPurpose(p.log, purpose, |p.log|)
    ensures LogInv(StartLoad(p, purpose))
  {
    var q := StartLoad(p, purpose);
    if p.bound && p.selection.Some? {
      var e := Asked(p.selection.value);
      PurposeOfPrefix(p.log, e, purpose, |p.log|);
      EntryKeepsLog(p, q, e);
    } else {
      QuietKeepsLog(p, q);
    }
  }

  lemma LoadAnsweredKeepsLog(p: Page, i: nat, answer: LoadAnswer)
    requires LogInv(p)
    ensures LogInv(AfterLoadAnswered(p, i, answer))
  {
    if i < |p.loads| {
      var load, q := p.loads[i], p.(loads := RemoveAt(p.loads, i));
      assert BackedLoad(p.log, load);
      QuietKeepsLog(p, q);
      if LoadProblem(p, load, answer).Some? {
        QuietKeepsLog(q, AfterLoadAnswered(p, i, answer));
      } else {
        TakenOverKeepsLog(q, load, answer.state);
      }
    }
  }

  lemma TakenOverKeepsLog(p: Page, load: Load, state: ConfigState)
    requires LogInv(p) && BackedLoad(p.log, load)
    requires state.moduleId == load.moduleId && p.selection == Some(load.moduleId)
    ensures LogInv(Queue(WithNotice(TakenOver(p, state, load.asked), load.purpose), load.purpose, true))
  {
    var e := Adopted(load.asked, state);
    var q := WithNotice(TakenOver(p, state, load.asked), load.purpose);
    SelectionOfPrefix(p.log, e, |p.log|);
    EntryKeepsLog(p, q, e);
    PurposeOfPrefix(p.log, e, load.purpose, load.asked);
    QuietKeepsLog(q, Queue(q, load.purpose, true));
  }

  lemma StartKeepsLog(p: Page, kind: Kind)
    requires LogInv(p)
    ensures LogInv(AfterStart(p, kind))
  {
    if p.configState.Some? && p.bound && !p.loading {
      var e := Sent(kind, p.configState.value.moduleId, p.shown);
      StillShownOfPrefix(p.log, e, p.shown, |p.log|);
      EntryKeepsLog(p, AfterStart(p, kind), e);
    }
  }

  lemma StartCheckKeepsLog(p: Page, op: Operation, identity: Option<Identity>)
    requires LogInv(p) && BackedOperation(p.log, op)
    requires identity.Some? <==> ReadsBack(op.kind)
    requires identity.Some? ==> ValidIdentity(identity.value)
    ensures LogInv(StartCheck(p, op, identity))
  {
    var e := Answered(op.sent, identity);
    EntryKeepsLog(p, Logged(p, e), e);
    StartLoadKeepsLog(Logged(p, e), Check(op, identity, |p.log|));
  }

  lemma OperationAnsweredKeepsLog(p: Page, i: nat, result: Result)
    requires LogInv(p)
    ensures LogInv(AfterOperationAnswered(p, i, result))
  {
    if i < |p.operations| {
      var op, q := p.operations[i], p.(operations := RemoveAt(p.operations, i));
      QuietKeepsLog(p, q);
      match ClientResult(op.kind, result)
      case Released(identity, release) =>
        QuietKeepsLog(q, q.(releaseId := Some(release)));
        StartCheckKeepsLog(q.(releaseId := Some(release)), op, Some(identity));
      case Plain => StartCheckKeepsLog(q, op, None);
      case Failing(failure) =>
        var status := FailureStatus(failure);
        var r := q.(status := status, notice := Some(status));
        QuietKeepsLog(q, r);
        StartLoadKeepsLog(r, Recover(op, status));
        QuietKeepsLog(r, r.(loading := false));
    }
  }

  /** A state that a check adopted may have been replaced since, but never by an earlier one. */
  lemma CheckedKeepsLog(p: Page, check: Purpose, adopted: nat, state: ConfigState)
    requires LogInv(p) && check.Check? && BackedResumption(p.log, Resumption(check, true, adopted))
    requires p.configState == Some(state)
    ensures LogInv(Checked(p, check, adopted, state))
  {
    var q := Checked(p, check, adopted, state);
    if check.expected.Some? && Exact(check.expected.value, state) {
      var e := Announced(check.answered, adopted, p.shown);
      StillShownOfPrefix(p.log, e, p.shown, |p.log|);
      EntryKeepsLog(p, q, e);
    } else {
      QuietKeepsLog(p, q);
    }
  }

  lemma ResumedKeepsLog(p: Page, i: nat)
    requires LogInv(p)
    ensures LogInv(AfterResumed(p, i))
  {
    if i < |p.resumptions| {
      var resumption, q := p.resumptions[i], p.(resumptions := RemoveAt(p.resumptions, i), loading := false);
      assert BackedResumption(p.log, resumption);
      QuietKeepsLog(p, q);
      if resumption.purpose.Check? && resumption.loaded && p.configState.Some? {
        CheckedKeepsLog(q, resumption.purpose, resumption.adopted, p.configState.value);
      } else {
        QuietKeepsLog(q, AfterResumed(p, i));
      }
    }
  }

  lemma ChooseKeepsLog(p: Page, selection: Option<string>, drifted: bool)
    requires LogInv(p) && (p.configState.Some? ==> drifted)
    ensures LogInv(Choose(p, selection, drifted))
  {
    EntryKeepsLog(p, Choose(p, selection, drifted), Chose(selection, drifted));
  }

  lemma StepKeepsLog(p: Page, e: Event)
    requires LogInv(p)
    ensures LogInv(Step(p, e))
  {
    match e
    case Select(moduleId) =>
      var q := ResetTo(p, Waiting).(notice := None);
      QuietKeepsLog(p, q);
      ChooseKeepsLog(q, Some(moduleId), false);
      StartLoadKeepsLog(Choose(q, Some(moduleId), false), Alone(false));
    case SelectionMoved(selection) => ChooseKeepsLog(p, selection, true);
    case Clear =>
      var q := ResetTo(p, NeedsInput).(bound := false, notice := None);
      QuietKeepsLog(p, q);
      ChooseKeepsLog(q, None, false);
    case Refresh(preserveNotice) => StartLoadKeepsLog(p, Alone(preserveNotice));
    case LoadAnswered(i, answer) => LoadAnsweredKeepsLog(p, i, answer);
    case Start(kind) => StartKeepsLog(p, kind);
    case OperationAnswered(i, result) => OperationAnsweredKeepsLog(p, i, result);
    case Resumed(i) => ResumedKeepsLog(p, i);
    case _ => QuietKeepsLog(p, Step(p, e));
  }

  // ---- every run ----

  lemma {:induction false} RunKeepsInv(p: Page, events: seq<Event>)
    requires StatusInv(p) && LogInv(p)
    ensures StatusInv(Run(p, events)) && LogInv(Run(p, events))
    decreases |events|
  {
    if events != [] {
      StepKeepsStatus(p, events[0]);
      StepKeepsLog(p, events[0]);
      RunKeepsInv(Step(p, events[0]), events[1..]);
    }
  }

  lemma FromStart(events: seq<Event>)
    ensures StatusInv(Run(START, events)) && LogInv(Run(START, events))
  {
    RunKeepsInv(START, events);
  }

  /** Every run, with answers arriving in any order: a verified status stands over a loaded verified state. */
  lemma EveryRunIsHonest(events: seq<Event>)
    ensures HonestStatus(Run(START, events))
  {
    FromStart(events);
  }

  /**
   Every run: an announcement confirms the identity in an answer to an operation that reads back; the check was
   asked for after that answer, it adopted a state, and the state shown is that one or a later one, and matches exactly.
   */
  lemma EveryAnnouncementIsChecked(events: seq<Event>, k: nat)
    requires k < |Run(START, events).log| && Run(START, events).log[k].Announced?
    ensures var log := Run(START, events).log;
            var answered, checked, shown := log[k].answered, log[k].checked, log[k].shown;
            && answered < checked <= shown < k
            && log[answered].Answered? && log[checked].Adopted? && log[shown].Adopted?
            && log[answered].sent < answered < log[checked].asked < checked
            && log[log[answered].sent].Sent? && ReadsBack(log[log[answered].sent].kind)
            && log[log[checked].asked] == Asked(log[checked].state.moduleId)
            && log[answered].identity.Some? && Matches(log[answered].identity.value, log[shown].state)
            && (forall j :: shown < j < k ==> !log[j].Adopted?)
            && (log[shown].asked > answered <==> !Overtaken(log, k))
  {
    FromStart(events);
    var log := Run(START, events).log;
    assert Backed(log, k);
    assert Backed(log, log[k].checked);
    ExactlyMatches(log[log[k].answered].identity.value, log[log[k].shown].state);
    FreshUnlessOvertaken(log, k);
  }

  // ---- which module an announcement is over ----

  /** Whenever the selection moves by itself, no state is shown. */
  predicate Settled(p: Page, events: seq<Event>)
    decreases |events|
  {
    events == [] || (&& (events[0].SelectionMoved? ==> p.configState.None? || events[0].selection == p.selection)
                     && Settled(Step(p, events[0]), events[1..]))
  }

  /** An entry made over an adopted state: nothing drifted from its adoption on. */
  ghost predicate CalmEntry(log: seq<Entry>, k: nat)
    requires k < |log|
  {
    && (log[k].Announced? ==> NoDrift(log, log[k].shown, k))
    && (log[k].Sent? ==> NoDrift(log, log[k].over, k))
  }

  ghost predicate Calm(p: Page) {
    && (p.configState.Some? ==> NoDrift(p.log, p.shown, |p.log|))
    && forall k :: 0 <= k < |p.log| ==> CalmEntry(p.log, k)
  }

  lemma NoDriftOfPrefix(log: seq<Entry>, e: Entry, a: nat, k: nat)
    requires k <= |log|
    ensures NoDrift(log + [e], a, k) <==> NoDrift(log, a, k)
  {
    assert forall j :: 0 <= j < |log| ==> (log + [e])[j] == log[j];
  }

  lemma QuietKeepsCalm(p: Page, q: Page)
    requires Calm(p) && q.log == p.log
    requires q.configState.None? || (q.configState == p.configState && q.shown == p.shown)
    ensures Calm(q)
  {
  }

  lemma EntryKeepsCalm(p: Page, q: Page, e: Entry)
    requires Calm(p) && q.log == p.log + [e]
    requires e.Announced? ==> p.configState.Some? && e.shown == p.shown
    requires e.Sent? ==> p.configState.Some? && e.over == p.shown
    requires || q.configState.None?
             || (q.configState == p.configState && q.shown == p.shown && (e.Chose? ==> !e.drifted))
             || (e.Adopted? && q.shown == |p.log|)
    ensures Calm(q)
  {
    NoDriftOfPrefix(p.log, e, p.shown, |p.log|);
    forall k | 0 <= k < |q.log| ensures CalmEntry(q.log, k) {
      if k < |p.log| {
        assert CalmEntry(p.log, k) && q.log[k] == p.log[k];
        if p.log[k].Announced? {
          NoDriftOfPrefix(p.log, e, p.log[k].shown, k);
        } else if p.log[k].Sent? {
          NoDriftOfPrefix(p.log, e, p.log[k].over, k);
        }
      }
    }
  }

  lemma StartLoadKeepsCalm(p: Page, purpose: Purpose)
    requires Calm(p)
    ensures Calm(StartLoad(p, purpose))
  {
    if p.bound && p.selection.Some? {
      EntryKeepsCalm(p, StartLoad(p, purpose), Asked(p.selection.value));
    } else {
      QuietKeepsCalm(p, StartLoad(p, purpose));
    }
  }

  lemma LoadAnsweredKeepsCalm(p: Page, i: nat, answer: LoadAnswer)
    requires Calm(p)
    ensures Calm(AfterLoadAnswered(p, i, answer))
  {
    if i < |p.loads| {
      if LoadProblem(p, p.loads[i], answer).Some? {
        QuietKeepsCalm(p, AfterLoadAnswered(p, i, answer));
      } else {
        EntryKeepsCalm(p, AfterLoadAnswered(p, i, answer), Adopted(p.loads[i].asked, answer.state));
      }
    }
  }

  lemma OperationAnsweredKeepsCalm(p: Page, i: nat, result: Result)
    requires Calm(p) && i < |p.operations|
    ensures Calm(AfterOperationAnswered(p, i, result))
  {
    var op, q := p.operations[i], p.(operations := RemoveAt(p.operations, i));
    QuietKeepsCalm(p, q);
    match ClientResult(op.kind, result)
    case Released(identity, release) => StartCheckKeepsCalm(q.(releaseId := Some(release)), op, Some(identity));
    case Plain => StartCheckKeepsCalm(q, op, None);
    case Failing(failure) =>
      var status := FailureStatus(failure);
      StartLoadKeepsCalm(q.(status := status, notice := Some(status)), Recover(op, status));
  }

  lemma StartCheckKeepsCalm(p: Page, op: Operation, identity: Option<Identity>)
    requires Calm(p)
    ensures Calm(StartCheck(p, op, identity))
  {
    var e := Answered(op.sent, identity);
    EntryKeepsCalm(p, Logged(p, e), e);
    StartLoadKeepsCalm(Logged(p, e), Check(op, identity, |p.log|));
  }

  lemma ResumedKeepsCalm(p: Page, i: nat)
    requires Calm(p) && i < |p.resumptions|
    ensures Calm(AfterResumed(p, i))
  {
    var q, r := AfterResumed(p, i), p.resumptions[i];
    if q.log == p.log {
      QuietKeepsCalm(p, q);
    } else {
      EntryKeepsCalm(p, q, Announced(r.purpose.answered, r.adopted, p.shown));
    }
  }

  lemma StepKeepsCalm(p: Page, e: Event)
    requires Calm(p) && (e.SelectionMoved? ==> p.configState.None? || e.selection == p.selection)
    ensures Calm(Step(p, e))
  {
    match e
    case Select(moduleId) =>
      var q := ResetTo(p, Waiting).(notice := None);
      EntryKeepsCalm(p, Choose(q, Some(moduleId), false), Chose(Some(moduleId), false));
      StartLoadKeepsCalm(Choose(q, Some(moduleId), false), Alone(false));
    case SelectionMoved(selection) =>
      if selection != p.selection {
        EntryKeepsCalm(p, Step(p, e), Chose(selection, true));
      }
    case Clear => EntryKeepsCalm(p, Step(p, e), Chose(None, false));
    case Refresh(preserveNotice) => StartLoadKeepsCalm(p, Alone(preserveNotice));
    case LoadAnswered(i, answer) => LoadAnsweredKeepsCalm(p, i, answer);
    case Start(kind) =>
      if Step(p, e) != p {
        EntryKeepsCalm(p, Step(p, e), Sent(kind, p.configState.value.moduleId, p.shown));
      }
    case OperationAnswered(i, result) =>
      if i < |p.operations| {
        OperationAnsweredKeepsCalm(p, i, result);
      }
    case Resumed(i) =>
      if i < |p.resumptions| {
        ResumedKeepsCalm(p, i);
      }
    case _ => QuietKeepsCalm(p, Step(p, e));
  }

  lemma {:induction false} SettledKeepsCalm(p: Page, events: seq<Event>)
    requires Calm(p) && Settled(p, events)
    ensures Calm(Run(p, events))
    decreases |events|
  {
    if events != [] {
      StepKeepsCalm(p, events[0]);
      SettledKeepsCalm(Step(p, events[0]), events[1..]);
    }
  }

  /**
   Every run in which the selection never moves by itself while a state is shown: an announcement is over its
   operation's own module exactly if that module is still selected, and always if nothing was selected since the start.
   */
  lemma OwnExactlyIfStillSelected(events: seq<Event>, k: nat)
    requires Settled(START, events) && k < |Run(START, events).log| && Run(START, events).log[k].Announced?
    ensures var log := Run(START, events).log;
            && AllBacked(log) && SelectionAt(log, |log|) == Run(START, events).selection
            && (OverOwnModule(log, k) <==> SelectionAt(log, k) == Some(log[Origin(log, k)].moduleId))
            && (NothingChosen(log, Origin(log, k), k) ==> OverOwnModule(log, k))
  {
    FromStart(events);
    SettledKeepsCalm(START, events);
    var log := Run(START, events).log;
    assert CalmEntry(log, k) && CalmEntry(log, Origin(log, k));
    OwnIfStillSelected(log, k);
    if NothingChosen(log, Origin(log, k), k) {
      OwnIfSelectionKept(log, k);
    }
  }

  /** Every run at all: it is over its own module exactly if that was selected when the state shown was adopted. */
  lemma OwnExactlyIfSelectedAtAdoption(events: seq<Event>, k: nat)
    requires k < |Run(START, events).log| && Run(START, events).log[k].Announced?
    ensures var log := Run(START, events).log;
            && AllBacked(log) && log[k].shown < k
            && (OverOwnModule(log, k) <==>
                  SelectionAt(log, log[k].shown) == Some(log[Origin(log, k)].moduleId))
  {
    FromStart(events);
    OwnIfSelectedWhenAdopted(Run(START, events).log, k);
  }

  /**
   A draft's edits are given up only together with the loaded state, or by a publish whose revision,
   digest and generation match the reloaded verified state, which has no reason codes.
   */
  lemma EditsGivenUpOnlyWhenVerified(p: Page, e: Event)
    requires StatusInv(p) && p.dirty && !Step(p, e).dirty
    ensures || Step(p, e).configState.None?
            || (&& e.Resumed? && e.i < |p.resumptions| && p.resumptions[e.i].purpose.Check?
                && p.resumptions[e.i].purpose.op.kind.Publish? && p.configState.Some?
                && Matches(p.resumptions[e.i].purpose.expected.value, p.configState.value)
                && Step(p, e).configState == p.configState)
  {
  }

  /** A finished publish announces a verified configuration exactly when the reloaded state reads it back exactly. */
  lemma PublishAnnouncesExactly(p: Page, i: nat)
    requires StatusInv(p) && i < |p.resumptions| && p.resumptions[i].loaded && p.configState.Some?
    requires p.resumptions[i].purpose.Check? && p.resumptions[i].purpose.op.kind.Publish?
    ensures var q, expected := Step(p, Resumed(i)), p.resumptions[i].purpose.expected;
            && expected.Some?
            && (q.notice.Some? && Verified(q.notice.value) <==> Matches(expected.value, p.configState.value))
            && (Verified(q.status) <==> Matches(expected.value, p.configState.value))
            && (!q.dirty <==> !p.dirty || Matches(expected.value, p.configState.value))
            && (|q.log| > |p.log| <==> Matches(expected.value, p.configState.value))
  {
  }
}
