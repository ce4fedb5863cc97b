/** Runs of the configuration workspace in which an announcement says less than it seems to. */
module ConfigRaces {
  import opened ConfigHistory
  import opened ConfigWorkspace
  import opened Lists

  /** Nothing is out, and the state of module a is shown while a is selected. */
  predicate AtRest(p: Page, a: string) {
    && p.bound && !p.loading && p.loads == [] && p.operations == [] && p.resumptions == []
    && p.configState.Some? && p.configState.value.moduleId == a && p.selection == Some(a)
  }

  function VerifiedState(moduleId: string, id: Identity): ConfigState {
    ConfigState(moduleId, id, ActiveVerified, [], None)
  }

  function Loaded(i: nat, moduleId: string, id: Identity): Event {
    LoadAnswered(i, StateAnswer(VerifiedState(moduleId, id)))
  }

  lemma RunStep(p: Page, e: Event, rest: seq<Event>)
    ensures Run(p, [e] + rest) == Run(Step(p, e), rest)
  {
    assert ([e] + rest)[1..] == rest;
  }

  lemma RunTwo(p: Page, a: Event, b: Event, rest: seq<Event>)
    ensures Run(p, [a, b] + rest) == Run(Step(Step(p, a), b), rest)
  {
    assert [a, b] + rest == [a] + ([b] + rest);
    RunStep(p, a, [b] + rest);
    RunStep(Step(p, a), b, rest);
  }

  /** What an answer, a load and a resumption do while module m stays selected. */
  lemma ReleasedNext(p: Page, op: Operation, id: Identity, release: string, m: string)
    requires p.operations == [op] && op.kind.Publish? && ValidIdentity(id) && p.bound && p.selection == Some(m)
    ensures var q := Step(p, OperationAnswered(0, Released(id, release)));
            && q.loads == p.loads + [Load(m, Check(op, Some(id), |p.log|), |p.log| + 1)]
            && q.log == p.log + [Answered(op.sent, Some(id)), Asked(m)]
            && q.selection == p.selection && q.resumptions == p.resumptions
  {
  }

  lemma LoadedNext(p: Page, i: nat, m: string, id: Identity)
    requires i < |p.loads| && p.loads[i].moduleId == m && p.selection == Some(m)
    ensures var q, load := Step(p, Loaded(i, m, id)), p.loads[i];
            && q.loads == RemoveAt(p.loads, i) && q.selection == p.selection
            && q.log == p.log + [Adopted(load.asked, VerifiedState(m, id))]
            && q.configState == Some(VerifiedState(m, id)) && q.shown == |p.log|
            && q.resumptions == if load.purpose.Alone? then p.resumptions
                                else p.resumptions + [Resumption(load.purpose, true, |p.log|)]
  {
  }

  lemma ResumedNext(p: Page, check: Purpose, adopted: nat, state: ConfigState)
    requires check.Check? && p.resumptions == [Resumption(check, true, adopted)] && p.configState == Some(state)
    requires check.expected.Some? && Exact(check.expected.value, state)
    ensures Step(p, Resumed(0)).log == p.log + [Announced(check.answered, adopted, p.shown)]
  {
  }

  /** A check alone: its load lands, and the check goes on. */
  lemma CheckLands(p: Page, check: Load, id: Identity)
    requires p.loads == [check] && p.resumptions == [] && check.purpose.Check?
    requires p.selection == Some(check.moduleId) && ValidIdentity(id) && check.purpose.expected == Some(id)
    ensures var n, m := |p.log|, check.moduleId;
            Run(p, [Loaded(0, m, id), Resumed(0)] + []).log
            == p.log + [Adopted(check.asked, VerifiedState(m, id))] + [Announced(check.purpose.answered, n, n)]
  {
    var m := check.moduleId;
    LoadedNext(p, 0, m, id);
    ResumedNext(Step(p, Loaded(0, m, id)), check.purpose, |p.log|, VerifiedState(m, id));
    RunTwo(p, Loaded(0, m, id), Resumed(0), []);
  }

  /** The check's load lands behind one that was out before it. */
  lemma CheckLandsLast(p: Page, other: Load, check: Load, id: Identity)
    requires p.loads == [other, check] && p.resumptions == [] && other.purpose.Alone? && check.purpose.Check?
    requires other.moduleId == check.moduleId && p.selection == Some(check.moduleId)
    requires ValidIdentity(id) && check.purpose.expected == Some(id)
    ensures var n, m := |p.log|, check.moduleId;
            Run(p, [Loaded(0, m, id)] + ([Loaded(0, m, id), Resumed(0)] + [])).log
            == p.log + [Adopted(other.asked, VerifiedState(m, id))] + [Adopted(check.asked, VerifiedState(m, id))]
               + [Announced(check.purpose.answered, n + 1, n + 1)]
  {
    var m := check.moduleId;
    LoadedNext(p, 0, m, id);
    CheckLands(Step(p, Loaded(0, m, id)), check, id);
    RunStep(p, Loaded(0, m, id), [Loaded(0, m, id), Resumed(0)] + []);
  }

  /** The check's load lands first, and the other one before the check goes on. */
  lemma CheckLandsFirst(p: Page, other: Load, check: Load, id: Identity)
    requires p.loads == [other, check] && p.resumptions == [] && other.purpose.Alone? && check.purpose.Check?
    requires other.moduleId == check.moduleId && p.selection == Some(check.moduleId)
    requires ValidIdentity(id) && check.purpose.expected == Some(id)
    ensures var n, m := |p.log|, check.moduleId;
            Run(p, [Loaded(1, m, id)] + ([Loaded(0, m, id), Resumed(0)] + [])).log
            == p.log + [Adopted(check.asked, VerifiedState(m, id))] + [Adopted(other.asked, VerifiedState(m, id))]
               + [Announced(check.purpose.answered, n, n + 1)]
  {
    var m := check.moduleId;
    LoadedNext(p, 1, m, id);
    OtherLands(Step(p, Loaded(1, m, id)), other, Resumption(check.purpose, true, |p.log|), id);
    RunStep(p, Loaded(1, m, id), [Loaded(0, m, id), Resumed(0)] + []);
  }

  lemma OtherLands(p: Page, other: Load, check: Resumption, id: Identity)
    requires p.loads == [other] && p.resumptions == [check] && other.purpose.Alone?
    requires check.purpose.Check? && check.loaded
    requires p.selection == Some(other.moduleId) && ValidIdentity(id) && check.purpose.expected == Some(id)
    ensures var n, m := |p.log|, other.moduleId;
            Run(p, [Loaded(0, m, id), Resumed(0)] + []).log
            == p.log + [Adopted(other.asked, VerifiedState(m, id))]
               + [Announced(check.purpose.answered, check.adopted, n)]
  {
    var m := other.moduleId;
    LoadedNext(p, 0, m, id);
    ResumedNext(Step(p, Loaded(0, m, id)), check.purpose, check.adopted, VerifiedState(m, id));
    RunTwo(p, Loaded(0, m, id), Resumed(0), []);
  }

  lemma StartedNext(p: Page, a: string)
    requires p.bound && !p.loading && p.operations == [] && p.configState.Some? && p.configState.value.moduleId == a
    ensures var q := Step(p, Start(Publish));
            && q.operations == [Operation(Publish, a, |p.log|)] && q.loads == p.loads
            && q.selection == p.selection && q.resumptions == p.resumptions && q.bound
            && q.log == p.log + [Sent(Publish, a, p.shown)]
  {
  }

  lemma RefreshedNext(p: Page, a: string)
    requires p.bound && p.selection == Some(a)
    ensures var q := Step(p, Refresh(true));
            && q.operations == p.operations && q.loads == p.loads + [Load(a, Alone(true), |p.log|)]
            && q.selection == p.selection && q.resumptions == p.resumptions && q.bound
            && q.log == p.log + [Asked(a)]
  {
  }

  lemma SelectedNext(p: Page, b: string)
    requires p.bound
    ensures var q := Step(p, Select(b));
            && q.operations == p.operations && q.loads == p.loads + [Load(b, Alone(false), |p.log| + 1)]
            && q.selection == Some(b) && q.resumptions == p.resumptions && q.bound
            && q.log == p.log + [Chose(Some(b), false)] + [Asked(b)]
  {
  }

  lemma MovedNext(p: Page, b: string)
    requires p.selection != Some(b)
    ensures var q := Step(p, SelectionMoved(Some(b)));
            && q == p.(selection := Some(b), log := q.log) && q.log == p.log + [Chose(Some(b), true)]
  {
  }

  lemma StartedThenSelected(p: Page, a: string, b: string)
    requires AtRest(p, a)
    ensures var q := Step(Step(p, Start(Publish)), Select(b));
            && q.operations == [Operation(Publish, a, |p.log|)] && q.loads == [Load(b, Alone(false), |p.log| + 2)]
            && q.selection == Some(b) && q.resumptions == [] && q.bound
            && q.log == p.log + [Sent(Publish, a, p.shown), Chose(Some(b), false), Asked(b)]
  {
    StartedNext(p, a);
    SelectedNext(Step(p, Start(Publish)), b);
  }

  lemma StartedThenRefreshed(p: Page, a: string)
    requires AtRest(p, a)
    ensures var q := Step(Step(p, Start(Publish)), Refresh(true));
            && q.operations == [Operation(Publish, a, |p.log|)] && q.loads == [Load(a, Alone(true), |p.log| + 1)]
            && q.selection == Some(a) && q.resumptions == [] && q.bound
            && q.log == p.log + [Sent(Publish, a, p.shown), Asked(a)]
  {
    StartedNext(p, a);
    RefreshedNext(Step(p, Start(Publish)), a);
  }

  lemma MovedThenStarted(p: Page, a: string, b: string)
    requires AtRest(p, a) && a != b
    ensures var q := Step(Step(p, SelectionMoved(Some(b))), Start(Publish));
            && q.operations == [Operation(Publish, a, |p.log| + 1)] && q.loads == []
            && q.selection == Some(b) && q.resumptions == [] && q.bound
            && q.log == p.log + [Chose(Some(b), true), Sent(Publish, a, p.shown)]
  {
    MovedNext(p, b);
    StartedNext(Step(p, SelectionMoved(Some(b))), a);
  }

  function Release(id: Identity, release: string): Event {
    OperationAnswered(0, Released(id, release))
  }

  function SelectedTail(b: string, id: Identity, release: string): seq<Event> {
    [Release(id, release)] + ([Loaded(0, b, id)] + ([Loaded(0, b, id), Resumed(0)] + []))
  }

  /** Another module is selected while the publish is out, and its state is loaded. */
  function SelectedRun(b: string, id: Identity, release: string): seq<Event> {
    [Start(Publish), Select(b)] + SelectedTail(b, id, release)
  }

  lemma SelectedTailLog(p: Page, op: Operation, other: Load, id: Identity, release: string)
    requires p.operations == [op] && op.kind.Publish? && ValidIdentity(id) && p.bound
    requires p.loads == [other] && other.purpose.Alone? && p.selection == Some(other.moduleId) && p.resumptions == []
    ensures var n, state := |p.log|, VerifiedState(other.moduleId, id);
            Run(p, SelectedTail(other.moduleId, id, release)).log
            == p.log + [Answered(op.sent, Some(id)), Asked(other.moduleId)] + [Adopted(other.asked, state)]
               + [Adopted(n + 1, state)] + [Announced(n, n + 3, n + 3)]
  {
    var b := other.moduleId;
    ReleasedNext(p, op, id, release, b);
    CheckLandsLast(Step(p, Release(id, release)), other, Load(b, Check(op, Some(id), |p.log|), |p.log| + 1), id);
    RunStep(p, Release(id, release), [Loaded(0, b, id)] + ([Loaded(0, b, id), Resumed(0)] + []));
  }

  lemma SelectedRunLog(p: Page, a: string, b: string, id: Identity, release: string)
    requires AtRest(p, a) && ValidIdentity(id)
    ensures var n, state := |p.log|, VerifiedState(b, id);
            Run(p, SelectedRun(b, id, release)).log
            == p.log + [Sent(Publish, a, p.shown), Chose(Some(b), false), Asked(b)]
               + [Answered(n, Some(id)), Asked(b)] + [Adopted(n + 2, state)]
               + [Adopted(n + 4, state)] + [Announced(n + 3, n + 6, n + 6)]
  {
    var n, q := |p.log|, Step(Step(p, Start(Publish)), Select(b));
    StartedThenSelected(p, a, b);
    SelectedTailLog(q, Operation(Publish, a, n), Load(b, Alone(false), n + 2), id, release);
    RunTwo(p, Start(Publish), Select(b), SelectedTail(b, id, release));
  }

  /**
   The readback names no module. When another module is selected while a publish is under way, and its state
   carries the same revision, digest and generation, the publish is announced as verified over it.
   */
  lemma AnnouncedOverOtherModule(p: Page, a: string, b: string, id: Identity, release: string)
    requires StatusInv(p) && LogInv(p) && AtRest(p, a) && a != b && ValidIdentity(id)
    ensures var log := Run(p, SelectedRun(b, id, release)).log;
            AllBacked(log) && log != [] && log[|log| - 1].Announced? && !OverOwnModule(log, |log| - 1)
  {
    SelectedRunLog(p, a, b, id, release);
    RunKeepsInv(p, SelectedRun(b, id, release));
    var n, log := |p.log|, Run(p, SelectedRun(b, id, release)).log;
    assert log[n] == Sent(Publish, a, p.shown) && log[n + 3] == Answered(n, Some(id));
    assert log[n + 6] == Adopted(n + 4, VerifiedState(b, id)) && log[|log| - 1] == Announced(n + 3, n + 6, n + 6);
  }

  function MovedTail(b: string, id: Identity, release: string): seq<Event> {
    [Release(id, release)] + ([Loaded(0, b, id), Resumed(0)] + [])
  }

  /** The selection moves under the shown state, and nothing is selected after that. */
  function MovedRun(b: string, id: Identity, release: string): seq<Event> {
    [SelectionMoved(Some(b)), Start(Publish)] + MovedTail(b, id, release)
  }

  lemma MovedTailLog(p: Page, op: Operation, b: string, id: Identity, release: string)
    requires p.operations == [op] && op.kind.Publish? && ValidIdentity(id) && p.bound
    requires p.loads == [] && p.selection == Some(b) && p.resumptions == []
    ensures var n := |p.log|;
            Run(p, MovedTail(b, id, release)).log
            == p.log + [Answered(op.sent, Some(id)), Asked(b)] + [Adopted(n + 1, VerifiedState(b, id))]
               + [Announced(n, n + 2, n + 2)]
  {
    ReleasedNext(p, op, id, release, b);
    CheckLands(Step(p, Release(id, release)), Load(b, Check(op, Some(id), |p.log|), |p.log| + 1), id);
    RunStep(p, Release(id, release), [Loaded(0, b, id), Resumed(0)] + []);
  }

  lemma MovedRunLog(p: Page, a: string, b: string, id: Identity, release: string)
    requires AtRest(p, a) && a != b && ValidIdentity(id)
    ensures var n := |p.log|;
            Run(p, MovedRun(b, id, release)).log
            == p.log + [Chose(Some(b), true), Sent(Publish, a, p.shown)] + [Answered(n + 1, Some(id)), Asked(b)]
               + [Adopted(n + 3, VerifiedState(b, id))] + [Announced(n + 2, n + 4, n + 4)]
  {
    var q := Step(Step(p, SelectionMoved(Some(b))), Start(Publish));
    MovedThenStarted(p, a, b);
    MovedTailLog(q, Operation(Publish, a, |p.log| + 1), b, id, release);
    RunTwo(p, SelectionMoved(Some(b)), Start(Publish), MovedTail(b, id, release));
  }

  /**
   What a selection that moves under a shown state costs: the operation is then started over the old module's
   state and checked over the new one's, so that it is announced over another module although nothing was
   selected between its start and its announcement.
   */
  lemma MovedSelectionMisleads(p: Page, a: string, b: string, id: Identity, release: string)
    requires StatusInv(p) && LogInv(p) && AtRest(p, a) && a != b && ValidIdentity(id)
    ensures var log := Run(p, MovedRun(b, id, release)).log;
            && AllBacked(log) && log != [] && log[|log| - 1].Announced?
            && !OverOwnModule(log, |log| - 1) && NothingChosen(log, Origin(log, |log| - 1), |log| - 1)
  {
    MovedRunLog(p, a, b, id, release);
    RunKeepsInv(p, MovedRun(b, id, release));
    var n, log := |p.log|, Run(p, MovedRun(b, id, release)).log;
    assert log[n + 1] == Sent(Publish, a, p.shown) && log[n + 2] == Answered(n + 1, Some(id));
    assert log[n + 4] == Adopted(n + 3, VerifiedState(b, id)) && log[|log| - 1] == Announced(n + 2, n + 4, n + 4);
  }

  function RefreshedTail(a: string, id: Identity, release: string): seq<Event> {
    [Release(id, release)] + ([Loaded(1, a, id)] + ([Loaded(0, a, id), Resumed(0)] + []))
  }

  /** The state is read again while the publish is out, and that answer comes after the check's. */
  function RefreshedRun(a: string, id: Identity, release: string): seq<Event> {
    [Start(Publish), Refresh(true)] + RefreshedTail(a, id, release)
  }

  lemma RefreshedTailLog(p: Page, op: Operation, other: Load, id: Identity, release: string)
    requires p.operations == [op] && op.kind.Publish? && ValidIdentity(id) && p.bound
    requires p.loads == [other] && other.purpose.Alone? && p.selection == Some(other.moduleId) && p.resumptions == []
    ensures var n, state := |p.log|, VerifiedState(other.moduleId, id);
            Run(p, RefreshedTail(other.moduleId, id, release)).log
            == p.log + [Answered(op.sent, Some(id)), Asked(other.moduleId)] + [Adopted(n + 1, state)]
               + [Adopted(other.asked, state)] + [Announced(n, n + 2, n + 3)]
  {
    var a := other.moduleId;
    ReleasedNext(p, op, id, release, a);
    CheckLandsFirst(Step(p, Release(id, release)), other, Load(a, Check(op, Some(id), |p.log|), |p.log| + 1), id);
    RunStep(p, Release(id, release), [Loaded(1, a, id)] + ([Loaded(0, a, id), Resumed(0)] + []));
  }

  lemma RefreshedRunLog(p: Page, a: string, id: Identity, release: string)
    requires AtRest(p, a) && ValidIdentity(id)
    ensures var n, state := |p.log|, VerifiedState(a, id);
            Run(p, RefreshedRun(a, id, release)).log
            == p.log + [Sent(Publish, a, p.shown), Asked(a)] + [Answered(n, Some(id)), Asked(a)]
               + [Adopted(n + 3, state)] + [Adopted(n + 1, state)] + [Announced(n + 2, n + 4, n + 5)]
  {
    var n, q := |p.log|, Step(Step(p, Start(Publish)), Refresh(true));
    StartedThenRefreshed(p, a);
    RefreshedTailLog(q, Operation(Publish, a, n), Load(a, Alone(true), n + 1), id, release);
    RunTwo(p, Start(Publish), Refresh(true), RefreshedTail(a, id, release));
  }

  /** A load asked for before the answer can overtake the check's own, and then its state is what is announced over. */
  lemma OlderLoadOvertakes(p: Page, a: string, id: Identity, release: string)
    requires AtRest(p, a) && ValidIdentity(id)
    ensures var log := Run(p, RefreshedRun(a, id, release)).log;
            log != [] && log[|log| - 1].Announced? && Overtaken(log, |log| - 1)
  {
    RefreshedRunLog(p, a, id, release);
    var n, log := |p.log|, Run(p, RefreshedRun(a, id, release)).log;
    assert log[n + 5] == Adopted(n + 1, VerifiedState(a, id)) && log[n + 6] == Announced(n + 2, n + 4, n + 5);
    assert StillShown(log, n + 5, n + 6);
  }
}
