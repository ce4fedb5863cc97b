/** The draft of wanted modules that the admin page edits: apps/admin/app.js. */
module DraftEditor {
  import opened ControlState
  import opened Lists
  import opened ModuleRefs

  /** The fields of the page's state that the draft depends on. */
  datatype Page = Page(controlState: Option<State>, draftModules: Option<seq<Ref>>, draftDirty: bool, bound: bool)

  datatype Event =
    | Bind
    | Clear
    | Loaded(state: State)
    | Toggle(moduleId: string, version: string)
    | SaveDraft
    | Published

  const START := Page(None, None, false, false)

  function ActiveModules(s: Option<State>): seq<Ref> {
    if s.Some? && s.value.activation.Active? then s.value.activation.activeModules else []
  }

  /** `controlDraftModules` */
  function Draft(p: Page): seq<Ref> {
    if p.draftModules.Some? then p.draftModules.value else ActiveModules(p.controlState)
  }

  /** `controlModuleFromKey` */
  function FindModule(inventory: seq<InventoryModule>, moduleId: string, version: string): Option<Ref> {
    if inventory == [] then None
    else if inventory[0].ref.moduleId == moduleId && inventory[0].ref.version == version then Some(inventory[0].ref)
    else FindModule(inventory[1..], moduleId, version)
  }

  /** The first module of this name is found, and none only if there is none. */
  lemma {:induction false} FindModuleMeaning(inventory: seq<InventoryModule>, moduleId: string, version: string)
    ensures FindModule(inventory, moduleId, version).None? <==>
              forall i :: 0 <= i < |inventory| ==> Name(inventory[i].ref) != (moduleId, version)
    ensures FindModule(inventory, moduleId, version).Some? ==>
              && Name(FindModule(inventory, moduleId, version).value) == (moduleId, version)
              && exists k :: 0 <= k < |inventory| && inventory[k].ref == FindModule(inventory, moduleId, version).value
                             && forall i :: 0 <= i < k ==> Name(inventory[i].ref) != (moduleId, version)
  {
    if inventory != [] && Name(inventory[0].ref) != (moduleId, version) {
      var rest, found := inventory[1..], FindModule(inventory[1..], moduleId, version);
      FindModuleMeaning(rest, moduleId, version);
      assert forall i :: 0 < i < |inventory| ==> inventory[i] == rest[i - 1];
      if found.Some? {
        var k :| 0 <= k < |rest| && rest[k].ref == found.value
                 && forall i :: 0 <= i < k ==> Name(rest[i].ref) != (moduleId, version);
        assert inventory[k + 1].ref == found.value;
      }
    }
  }

  function Target(p: Page, moduleId: string, version: string): Option<Ref> {
    if p.controlState.None? then None else FindModule(p.controlState.value.inventory, moduleId, version)
  }

  function Toggled(draft: seq<Ref>, m: Ref): seq<Ref> {
    if ModuleKey(m) in KeySet(draft) then ByKey(draft, {ModuleKey(m)}, false) else draft + [m]
  }

  /** One event; a state the validators refuse leaves the draft as it is. */
  function Step(p: Page, e: Event): Page {
    match e
    case Bind => p.(draftModules := None, draftDirty := false, bound := true)
    case Clear => START
    case Loaded(state) =>
      if !Valid(state) then p
      else p.(controlState := Some(state),
              draftModules := if p.draftDirty then p.draftModules else Some(ActiveModules(Some(state))))
    case Toggle(moduleId, version) =>
      (match Target(p, moduleId, version)
       case None => p
       case Some(m) => p.(draftModules := Some(Toggled(Draft(p), m)), draftDirty := true))
    case SaveDraft =>
      if p.controlState.None? || !p.bound then p else p.(draftModules := Some(Draft(p)), draftDirty := true)
    case Published => p.(draftDirty := false)
  }

  /** The page's state object, updated field by field. */
  class AdminPage {
    var controlState: Option<State>
    var controlDraftModules: Option<seq<Ref>>
    var controlDraftDirty: bool
    var bound: bool

    constructor ()
      ensures View() == START
    {
      controlState, controlDraftModules, controlDraftDirty, bound := None, None, false, false;
    }

    ghost function View(): Page
      reads this
    {
      Page(controlState, controlDraftModules, controlDraftDirty, bound)
    }

    /** The draft that the page shows: its own, or else the active modules. */
    ghost function ShownDraft(): seq<Ref>
      reads this
    {
      match (controlDraftModules, controlState)
      case (Some(draft), _) => draft
      case (None, Some(state)) => if state.activation.Active? then state.activation.activeModules else []
      case (None, None) => []
    }

    /** The inventory's reference of this name, if it has one. */
    ghost function InventoryRef(moduleId: string, version: string): Option<Ref>
      reads this
    {
      if controlState.None? then None else FindModule(controlState.value.inventory, moduleId, version)
    }

    method BindControlIdentity()
      modifies `bound, `controlDraftModules, `controlDraftDirty
      ensures View() == Step(old(View()), Bind)
      ensures bound && controlDraftModules.None? && !controlDraftDirty
    {
      bound := true;
      controlDraftModules := None;
      controlDraftDirty := false;
    }

    method ClearControlIdentity()
      modifies this
      ensures View() == Step(old(View()), Clear)
      ensures !bound && controlState.None? && controlDraftModules.None? && !controlDraftDirty
    {
      bound := false;
      controlState := None;
      controlDraftModules := None;
      controlDraftDirty := false;
    }

    method SetControlState(state: State) returns (accepted: bool)
      modifies `controlState, `controlDraftModules
      ensures accepted <==> Valid(state)
      ensures View() == Step(old(View()), Loaded(state))
      ensures controlState == if accepted then Some(state) else old(controlState)
      ensures !accepted || controlDraftDirty ==> controlDraftModules == old(controlDraftModules)
      ensures accepted && !controlDraftDirty ==>
                controlDraftModules == Some(if state.activation.Inactive? then [] else state.activation.activeModules)
    {
      accepted := Valid(state);
      if accepted {
        controlState := Some(state);
        if !controlDraftDirty {
          controlDraftModules := Some(ActiveModules(controlState));
        }
      }
    }

    method ToggleModule(moduleId: string, version: string)
      modifies `controlDraftModules, `controlDraftDirty
      ensures View() == Step(old(View()), Toggle(moduleId, version))
      ensures InventoryRef(moduleId, version).None? ==>
                controlDraftModules == old(controlDraftModules) && controlDraftDirty == old(controlDraftDirty)
      ensures InventoryRef(moduleId, version).Some? ==>
                var m, draft := InventoryRef(moduleId, version).value, old(ShownDraft());
                && controlDraftDirty && (m.moduleId, m.version) == (moduleId, version)
                && controlDraftModules == Some(if ModuleKey(m) in KeySet(draft)
                                               then ByKey(draft, {ModuleKey(m)}, false) else draft + [m])
    {
      var found := Target(Page(controlState, controlDraftModules, controlDraftDirty, bound), moduleId, version);
      if found.None? {
        return;
      }
      FindModuleMeaning(controlState.value.inventory, moduleId, version);
      var draft := if controlDraftModules.Some? then controlDraftModules.value else ActiveModules(controlState);
      controlDraftModules := Some(Toggled(draft, found.value));
      controlDraftDirty := true;
    }

    method SaveDraft()
      modifies `controlDraftModules, `controlDraftDirty
      ensures View() == Step(old(View()), Event.SaveDraft)
      ensures controlState.Some? && bound ==>
                controlDraftDirty && controlDraftModules == Some(old(ShownDraft()))
      ensures controlState.None? || !bound ==>
                controlDraftModules == old(controlDraftModules) && controlDraftDirty == old(controlDraftDirty)
    {
      if controlState.Some? && bound {
        if controlDraftModules.None? {
          controlDraftModules := Some(ActiveModules(controlState));
        }
        controlDraftDirty := true;
      }
    }

    method PublishSucceeded()
      modifies `controlDraftDirty
      ensures View() == Step(old(View()), Published)
      ensures !controlDraftDirty
    {
      controlDraftDirty := false;
    }
  }

  // ---- every run ----

  function Run(p: Page, events: seq<Event>): Page
    decreases |events|
  {
    if events == [] then p else Run(Step(p, events[0]), events[1..])
  }

  ghost predicate Inv(p: Page) {
    && (p.controlState.Some? ==> Valid(p.controlState.value))
    && Closed(Draft(p))
  }

  lemma {:induction false} FindModuleWellFormed(inventory: seq<InventoryModule>, moduleId: string, version: string)
    requires Closed(InventoryRefs(inventory))
    ensures var m := FindModule(inventory, moduleId, version);
            m.Some? ==> WellFormed(m.value) && Name(m.value) == (moduleId, version)
  {
    if inventory != [] {
      assert InventoryRefs(inventory)[0] == inventory[0].ref;
      assert InventoryRefs(inventory[1..]) == InventoryRefs(inventory)[1..];
      FindModuleWellFormed(inventory[1..], moduleId, version);
    }
  }

  lemma ToggledClosed(draft: seq<Ref>, m: Ref)
    requires Closed(draft) && WellFormed(m)
    ensures Closed(Toggled(draft, m))
    ensures KeySet(Toggled(draft, m)) == if ModuleKey(m) in KeySet(draft) then KeySet(draft) - {ModuleKey(m)}
                                         else KeySet(draft) + {ModuleKey(m)}
  {
    ByKeyMembers(draft, {ModuleKey(m)}, false);
    if ModuleKey(m) !in KeySet(draft) {
      assert forall n :: n in draft ==> ModuleKey(n) in KeySet(draft);
      ClosedConcat(draft, [m]);
      assert forall n :: n in draft + [m] <==> n in draft || n == m;
    }
  }

  lemma StepKeepsInv(p: Page, e: Event)
    requires Inv(p)
    ensures Inv(Step(p, e))
  {
    match e
    case Toggle(moduleId, version) =>
      if p.controlState.Some? {
        FindModuleWellFormed(p.controlState.value.inventory, moduleId, version);
        var m := Target(p, moduleId, version);
        if m.Some? {
          ToggledClosed(Draft(p), m.value);
        }
      }
    case _ =>
  }

  /** Whatever is done, and however often, the draft never names a module twice. */
  lemma {:induction false} RunKeepsDraftClosed(p: Page, events: seq<Event>)
    requires Inv(p)
    ensures Inv(Run(p, events))
    decreases |events|
  {
    if events != [] {
      StepKeepsInv(p, events[0]);
      RunKeepsDraftClosed(Step(p, events[0]), events[1..]);
    }
  }

  lemma DraftClosedFromStart(events: seq<Event>)
    ensures Closed(Draft(Run(START, events)))
  {
    RunKeepsDraftClosed(START, events);
  }

  // ---- toggling ----

  predicate Edits(events: seq<Event>) {
    forall i :: 0 <= i < |events| ==> events[i].Toggle? || events[i].SaveDraft?
  }

  /** The keys that a run of edits toggles an odd number of times; only inventory modules can be toggled. */
  function OddKeys(p: Page, events: seq<Event>): set<string> {
    if events == [] then {}
    else
      var rest := OddKeys(p, events[1..]);
      if !events[0].Toggle? || Target(p, events[0].moduleId, events[0].version).None? then rest
      else
        var key := ModuleKey(Target(p, events[0].moduleId, events[0].version).value);
        if key in rest then rest - {key} else rest + {key}
  }

  function SymmetricDifference<T>(a: set<T>, b: set<T>): set<T> {
    (a - b) + (b - a)
  }

  lemma {:induction false} OddKeysOnlyNeedInventory(p: Page, q: Page, events: seq<Event>)
    requires p.controlState == q.controlState
    ensures OddKeys(p, events) == OddKeys(q, events)
  {
    if events != [] {
      OddKeysOnlyNeedInventory(p, q, events[1..]);
    }
  }

  /** A run of edits changes exactly the modules that it toggles an odd number of times. */
  lemma {:induction false} EditsFlipOddKeys(p: Page, events: seq<Event>)
    requires Inv(p) && Edits(events)
    ensures Run(p, events).controlState == p.controlState
    ensures KeySet(Draft(Run(p, events))) == SymmetricDifference(KeySet(Draft(p)), OddKeys(p, events))
    decreases |events|
  {
    if events != [] {
      var q := Step(p, events[0]);
      StepKeepsInv(p, events[0]);
      EditsFlipOddKeys(q, events[1..]);
      OddKeysOnlyNeedInventory(p, q, events[1..]);
      if events[0].Toggle? && Target(p, events[0].moduleId, events[0].version).Some? {
        FindModuleWellFormed(p.controlState.value.inventory, events[0].moduleId, events[0].version);
        ToggledClosed(Draft(p), Target(p, events[0].moduleId, events[0].version).value);
      }
    }
  }

  /** In particular toggling a module twice restores the draft's modules. */
  lemma ToggleTwiceRestores(p: Page, moduleId: string, version: string)
    requires Inv(p)
    ensures var twice := [Toggle(moduleId, version), Toggle(moduleId, version)];
            KeySet(Draft(Run(p, twice))) == KeySet(Draft(p))
  {
    var twice := [Toggle(moduleId, version), Toggle(moduleId, version)];
    EditsFlipOddKeys(p, twice);
    var once := twice[1..];
    assert once == [Toggle(moduleId, version)] && once[1..] == [];
    assert OddKeys(p, once[1..]) == {};
    var m := Target(p, moduleId, version);
    assert OddKeys(p, once) == if m.Some? then {ModuleKey(m.value)} else {};
    assert OddKeys(p, twice) == {};
  }

  /**
   From a fresh load, the difference shown after any run of edits adds and removes exactly the
   modules toggled an odd number of times, provided the draft is not too long to be compared.
   */
  lemma DiffShowsOddToggles(p: Page, state: State, events: seq<Event>)
    requires Inv(p) && !p.draftDirty && Valid(state) && Edits(events)
    ensures var start := Step(p, Loaded(state));
            var current, draft := ActiveModules(Some(state)), Draft(Run(start, events));
            && (DeriveDraftDiff(current, draft).Some? <==> |draft| <= MAX_REFS)
            && (DeriveDraftDiff(current, draft).Some? ==>
                  var diff := DeriveDraftDiff(current, draft).value;
                  && KeySet(diff.added) + KeySet(diff.removed) == OddKeys(start, events)
                  && KeySet(diff.added) !! KeySet(diff.removed))
  {
    var start := Step(p, Loaded(state));
    var current, draft := ActiveModules(Some(state)), Draft(Run(start, events));
    StepKeepsInv(p, Loaded(state));
    RunKeepsDraftClosed(start, events);
    EditsFlipOddKeys(start, events);
    var diff := DraftDiff(current, draft);
    KeysOfByKey(draft, current);
    KeysOfByKey(current, draft);
    assert KeySet(diff.added) == KeySet(draft) - KeySet(current);
    assert KeySet(diff.removed) == KeySet(current) - KeySet(draft);
  }

  lemma KeysOfByKey(s: seq<Ref>, t: seq<Ref>)
    ensures KeySet(ByKey(s, KeySet(t), false)) == KeySet(s) - KeySet(t)
  {
    ByKeyMembers(s, KeySet(t), false);
  }

  // ---- a draft can outgrow the validator ----

  function Sample(n: nat): Ref {
    Ref(seq(n + 1, _ => 'm'), "1", "sha256:" + seq(64, _ => '0'))
  }

  function Samples(n: nat): (s: seq<Ref>)
    ensures |s| == n && forall i :: 0 <= i < n ==> s[i] == Sample(i)
  {
    seq(n, i requires 0 <= i => Sample(i))
  }

  lemma SamplesClosed(n: nat)
    requires n <= 128
    ensures Closed(Samples(n))
  {
    forall i | 0 <= i < n ensures WellFormed(Samples(n)[i]) {
    }
    forall i, j | 0 <= i < j < n ensures Name(Samples(n)[i]) != Name(Samples(n)[j]) {
      assert |Sample(i).moduleId| == i + 1 && |Sample(j).moduleId| == j + 1;
    }
  }

  /**
   The validators bound the active modules and the inventory by 64 each, but not the draft: with 64
   active modules, switching on one more from the inventory makes the page's own diff refuse the draft.
   */
  lemma DraftCanOutgrowValidator()
    ensures var state := State(Active("r", 1, Samples(64)), [InventoryModule(Sample(64), true)], None, None, None, []);
            var p := Run(START, [Bind, Loaded(state), Toggle(Sample(64).moduleId, "1")]);
            && Valid(state) && Closed(Draft(p)) && |Draft(p)| == 65
            && DeriveDraftDiff(ActiveModules(p.controlState), Draft(p)).None?
  {
    var m := Sample(64);
    var state := State(Active("r", 1, Samples(64)), [InventoryModule(m, true)], None, None, None, []);
    SamplesClosed(64);
    SamplesClosed(65);
    assert Samples(65)[64] == m;
    assert InventoryRefs(state.inventory) == [m];
    assert Valid(state);
    var events := [Bind, Loaded(state), Toggle(m.moduleId, "1")];
    var p1 := Step(START, Bind);
    var p2 := Step(p1, Loaded(state));
    var p3 := Step(p2, Toggle(m.moduleId, "1"));
    assert events[1..] == [Loaded(state), Toggle(m.moduleId, "1")];
    assert events[1..][1..] == [Toggle(m.moduleId, "1")];
    assert events[1..][1..][1..] == [];
    assert Run(p3, []) == p3;
    assert Run(p2, [Toggle(m.moduleId, "1")]) == Run(p3, []);
    assert Run(p1, events[1..]) == Run(p2, events[1..][1..]);
    assert Run(START, events) == p3;
    assert ModuleKey(m) !in KeySet(Samples(64)) by {
      forall n | n in Samples(64) ensures ModuleKey(n) != ModuleKey(m) {
        var i :| 0 <= i < 64 && Samples(64)[i] == n;
        ModuleKeyInjective(n, m);
        assert |n.moduleId| == i + 1 && |m.moduleId| == 65;
      }
    }
    assert Draft(p3) == Samples(64) + [m];
    RunKeepsDraftClosed(START, events);
  }
}
