/** The reviewed hand-off of a case to a linked quote: apps/console/cases.js. */
module CaseLink {
  import opened Lists

  /** A case and the reference of its latest customer supplement, if there is one. */
  datatype Context = Context(caseId: string, ref: Option<string>)

  /** `linkedConfirmation` */
  datatype Confirmation = Confirmation(context: Context, checked: bool)

  datatype CaseEvent = CaseEvent(id: string, customerVisible: bool)

  /** The reviewed snapshot of a case; NotReady while it is missing, failed, invalid or not manageable. */
  datatype Snapshot = NotReady | Ready(latestSupplement: Option<string>, events: seq<CaseEvent>)

  datatype Entry = Shown(context: Context) | Checked | Unchecked | HandedOff(context: Context) | Forgotten

  /** displayed is the context whose box and button the page has rendered last, if it has rendered them. */
  datatype Page = Page(scope: string, confirmation: Confirmation, displayed: Option<Context>, log: seq<Entry>)

  datatype Event =
    | Render(scope: string, caseId: string, snapshot: Snapshot)
    | Reset
    | Change(checked: bool)
    | Refresh
    | Click(caseId: string, ref: string, accepted: bool)

  const NOTHING := Confirmation(Context("", None), false)
  const START := Page("", NOTHING, None, [])

  /** The context a detail page shows: the supplement must be visible to the customer in the same snapshot. */
  function Derived(caseId: string, snapshot: Snapshot): Option<Context> {
    if snapshot.NotReady? then None
    else if snapshot.latestSupplement.None? then Some(Context(caseId, None))
    else if CaseEvent(snapshot.latestSupplement.value, true) in snapshot.events
    then Some(Context(caseId, snapshot.latestSupplement))
    else None
  }

  /** A context is ready exactly if it is the snapshot's case and latest supplement, and the customer can see that. */
  lemma DerivedExactly(caseId: string, snapshot: Snapshot, context: Context)
    ensures Derived(caseId, snapshot) == Some(context) <==>
              && snapshot.Ready? && context.caseId == caseId && context.ref == snapshot.latestSupplement
              && (context.ref.Some? ==>
                    exists i :: 0 <= i < |snapshot.events| && snapshot.events[i].customerVisible
                                && snapshot.events[i].id == context.ref.value)
  {
    if snapshot.Ready? && snapshot.latestSupplement.Some? {
      var id := snapshot.latestSupplement.value;
      if i :| 0 <= i < |snapshot.events| && snapshot.events[i].customerVisible && snapshot.events[i].id == id {
        assert snapshot.events[i] == CaseEvent(id, true);
      }
    }
  }

  /** What the button's two attributes stand for. */
  function Displayed(caseId: string, ref: string): Context {
    Context(caseId, if ref == "" then None else Some(ref))
  }

  function Forget(p: Page): Page {
    p.(confirmation := NOTHING, log := p.log + [Forgotten])
  }

  function AfterRender(p: Page, scope: string, caseId: string, snapshot: Snapshot): Page {
    var q := if scope != p.scope then Forget(p).(scope := scope) else p;
    match Derived(caseId, snapshot)
    case None => q.(displayed := None)
    case Some(context) =>
      q.(displayed := Some(context),
         confirmation := if q.confirmation.context != context then Confirmation(context, false) else q.confirmation,
         log := q.log + [Shown(context)])
  }

  function AfterClick(p: Page, caseId: string, ref: string, accepted: bool): Page {
    var context := Displayed(caseId, ref);
    if p.confirmation.context != context || !p.confirmation.checked || !accepted then p
    else p.(confirmation := NOTHING, log := p.log + [HandedOff(context)])
  }

  function Step(p: Page, e: Event): Page {
    match e
    case Render(scope, caseId, snapshot) => AfterRender(p, scope, caseId, snapshot)
    case Reset => Forget(p)
    case Change(checked) =>
      p.(confirmation := p.confirmation.(checked := checked), log := p.log + [if checked then Checked else Unchecked])
    case Refresh => p
    case Click(caseId, ref, accepted) => AfterClick(p, caseId, ref, accepted)
  }

  /** The value of the button's attribute for a reference. */
  function RefText(ref: Option<string>): string {
    match ref case None => "" case Some(text) => text
  }

  /** What the page offers: ticking the rendered box and clicking the rendered button, of a case with an identifier. */
  predicate Offered(p: Page, e: Event) {
    match e
    case Render(_, caseId, snapshot) => snapshot.Ready? ==> caseId != ""
    case Change(_) => p.displayed.Some?
    case Click(caseId, ref, _) =>
      p.displayed.Some? && caseId == p.displayed.value.caseId && ref == RefText(p.displayed.value.ref)
    case _ => true
  }

  /** The closure's variables, updated by `detail`, `change`, `action` and `reset`. */
  class CasesUi {
    var scope: string
    var linkedConfirmation: Confirmation
    ghost var displayed: Option<Context>
    ghost var log: seq<Entry>

    ghost function View(): Page
      reads this
    {
      Page(scope, linkedConfirmation, displayed, log)
    }

    constructor ()
      ensures View() == START
    {
      scope, linkedConfirmation, displayed, log := "", NOTHING, None, [];
    }

    method ResetAll()
      modifies this
      ensures View() == Step(old(View()), Reset)
      ensures linkedConfirmation == Confirmation(Context("", None), false) && scope == old(scope)
      ensures log == old(log) + [Forgotten] && displayed == old(displayed)
    {
      linkedConfirmation := NOTHING;
      log := log + [Forgotten];
    }

    /** `detail`, behind the `sync` of its first load; confirmed enables the button. */
    method Detail(next: string, caseId: string, snapshot: Snapshot) returns (confirmed: bool)
      modifies this
      ensures View() == Step(old(View()), Render(next, caseId, snapshot))
      ensures scope == next && displayed == Derived(caseId, snapshot)
      ensures log == old(log) + (if next == old(scope) then [] else [Forgotten])
                     + (match Derived(caseId, snapshot) case None => [] case Some(context) => [Shown(context)])
      ensures Derived(caseId, snapshot).Some? ==>
                && linkedConfirmation.context == Derived(caseId, snapshot).value
                && (next == old(scope) ==>
                      (linkedConfirmation.checked <==>
                         old(linkedConfirmation) == Confirmation(Derived(caseId, snapshot).value, true)))
                && (next != old(scope) ==> !linkedConfirmation.checked)
      ensures Derived(caseId, snapshot).None? ==>
                linkedConfirmation == if next == old(scope) then old(linkedConfirmation)
                                      else Confirmation(Context("", None), false)
      ensures confirmed <==> Derived(caseId, snapshot) == Some(linkedConfirmation.context) && linkedConfirmation.checked
    {
      if next != scope {
        scope := next;
        ResetAll();
      }
      var derived := Derived(caseId, snapshot);
      displayed := derived;
      confirmed := false;
      if derived.Some? {
        if linkedConfirmation.context != derived.value {
          linkedConfirmation := Confirmation(derived.value, false);
        }
        log := log + [Shown(derived.value)];
        confirmed := linkedConfirmation.checked;
      }
    }

    method OnChange(checked: bool)
      modifies this
      ensures View() == Step(old(View()), Change(checked))
      ensures linkedConfirmation == Confirmation(old(linkedConfirmation).context, checked) && scope == old(scope)
      ensures checked ==> log == old(log) + [Checked]
      ensures !checked ==> log == old(log) + [Unchecked]
    {
      linkedConfirmation := linkedConfirmation.(checked := checked);
      log := log + [if checked then Checked else Unchecked];
    }

    /** The case-linked-quote action; accepted says whether `openLinkedQuote` took the hand-off. */
    method OnLinkedQuote(caseId: string, ref: string, accepted: bool) returns (handedOff: bool)
      modifies this
      ensures View() == Step(old(View()), Click(caseId, ref, accepted))
      ensures handedOff <==> accepted && old(linkedConfirmation) == Confirmation(Displayed(caseId, ref), true)
      ensures linkedConfirmation == if handedOff then Confirmation(Context("", None), false)
                                    else old(linkedConfirmation)
      ensures scope == old(scope)
      ensures log == old(log) + (if handedOff then [HandedOff(Displayed(caseId, ref))] else [])
    {
      var displayed := Displayed(caseId, ref);
      if linkedConfirmation.context != displayed || !linkedConfirmation.checked {
        return false;
      }
      if !accepted {
        return false;
      }
      linkedConfirmation := NOTHING;
      log := log + [HandedOff(displayed)];
      return true;
    }
  }

  // ---- every run ----

  function Run(p: Page, events: seq<Event>): Page
    decreases |events|
  {
    if events == [] then p else Run(Step(p, events[0]), events[1..])
  }

  /** From its showing at position s on, a context stays the one under review. */
  ghost predicate UnderReview(log: seq<Entry>, context: Context, s: nat, end: nat) {
    && s < end <= |log| && log[s] == Shown(context)
    && forall m :: s < m < end ==> log[m] == Shown(context) || log[m] == Checked || log[m] == Unchecked
  }

  /** Checked after the context was shown and not unchecked again. */
  ghost predicate Reviewed(log: seq<Entry>, context: Context, end: nat) {
    exists s: nat, c: nat :: UnderReview(log, context, s, end) && s < c < end && log[c] == Checked
                   && forall m :: c < m < end ==> log[m] != Unchecked
  }

  ghost predicate Shows(log: seq<Entry>, context: Context, end: nat) {
    exists s: nat :: UnderReview(log, context, s, end)
  }

  ghost predicate Inv(p: Page) {
    && (p.confirmation.context.caseId != "" ==> Shows(p.log, p.confirmation.context, |p.log|))
    && (p.confirmation.context.caseId != "" && p.confirmation.checked ==>
          Reviewed(p.log, p.confirmation.context, |p.log|))
    && (forall j :: 0 <= j < |p.log| && p.log[j].HandedOff? && p.log[j].context.caseId != "" ==>
          Reviewed(p.log, p.log[j].context, j))
  }

  lemma PrefixReviewed(log: seq<Entry>, e: Entry, context: Context, end: nat)
    requires end <= |log|
    ensures Reviewed(log, context, end) ==> Reviewed(log + [e], context, end)
    ensures Shows(log, context, end) ==> Shows(log + [e], context, end)
  {
    var after := log + [e];
    assert forall m :: 0 <= m < |log| ==> after[m] == log[m];
    if Shows(log, context, end) {
      var s: nat :| UnderReview(log, context, s, end);
      assert UnderReview(after, context, s, end);
    }
    if Reviewed(log, context, end) {
      var s: nat, c: nat :| UnderReview(log, context, s, end) && s < c < end && log[c] == Checked
                  && forall m :: c < m < end ==> log[m] != Unchecked;
      assert UnderReview(after, context, s, end) && after[c] == Checked;
    }
  }

  /** Showing the same context again, or ticking the box, keeps a review going. */
  lemma ReviewGoesOn(log: seq<Entry>, e: Entry, context: Context)
    requires Shows(log, context, |log|) && (e == Shown(context) || e == Checked || e == Unchecked)
    ensures Shows(log + [e], context, |log| + 1)
    ensures e == Checked ==> Reviewed(log + [e], context, |log| + 1)
    ensures e == Shown(context) && Reviewed(log, context, |log|) ==> Reviewed(log + [e], context, |log| + 1)
  {
    var after := log + [e];
    assert forall m :: 0 <= m < |log| ==> after[m] == log[m];
    var s: nat :| UnderReview(log, context, s, |log|);
    assert UnderReview(after, context, s, |log| + 1);
    if e == Checked {
      assert after[|log|] == Checked;
    }
    if e == Shown(context) && Reviewed(log, context, |log|) {
      var s': nat, c: nat :| UnderReview(log, context, s', |log|) && s' < c < |log| && log[c] == Checked
                   && forall m :: c < m < |log| ==> log[m] != Unchecked;
      assert UnderReview(after, context, s', |log| + 1) && after[c] == Checked;
    }
  }

  lemma FirstShowing(log: seq<Entry>, context: Context)
    ensures Shows(log + [Shown(context)], context, |log| + 1)
  {
    assert UnderReview(log + [Shown(context)], context, |log|, |log| + 1);
  }

  lemma AppendKeepsPast(log: seq<Entry>, e: Entry)
    requires forall j :: 0 <= j < |log| && log[j].HandedOff? && log[j].context.caseId != "" ==>
               Reviewed(log, log[j].context, j)
    requires e.HandedOff? && e.context.caseId != "" ==> Reviewed(log, e.context, |log|)
    ensures forall j :: 0 <= j < |log| + 1 && (log + [e])[j].HandedOff? && (log + [e])[j].context.caseId != "" ==>
              Reviewed(log + [e], (log + [e])[j].context, j)
  {
    var after := log + [e];
    forall j | 0 <= j < |after| && after[j].HandedOff? && after[j].context.caseId != ""
      ensures Reviewed(after, after[j].context, j)
    {
      PrefixReviewed(log, e, after[j].context, j);
    }
  }

  lemma ForgetKeepsInv(p: Page)
    requires Inv(p)
    ensures Inv(Forget(p))
  {
    AppendKeepsPast(p.log, Forgotten);
  }

  lemma ShowKeepsInv(p: Page, context: Context)
    requires Inv(p)
    ensures Inv(p.(displayed := Some(context),
                   confirmation := if p.confirmation.context != context then Confirmation(context, false)
                                   else p.confirmation,
                   log := p.log + [Shown(context)]))
  {
    AppendKeepsPast(p.log, Shown(context));
    FirstShowing(p.log, context);
    if p.confirmation.context == context && context.caseId != "" {
      ReviewGoesOn(p.log, Shown(context), context);
    }
  }

  lemma StepKeepsInv(p: Page, e: Event)
    requires Inv(p)
    ensures Inv(Step(p, e))
  {
    match e
    case Render(scope, caseId, snapshot) =>
      ForgetKeepsInv(p);
      var q := if scope != p.scope then Forget(p).(scope := scope) else p;
      if Derived(caseId, snapshot).Some? {
        ShowKeepsInv(q, Derived(caseId, snapshot).value);
      }
    case Reset => ForgetKeepsInv(p);
    case Change(checked) =>
      var entry := if checked then Checked else Unchecked;
      AppendKeepsPast(p.log, entry);
      if p.confirmation.context.caseId != "" {
        ReviewGoesOn(p.log, entry, p.confirmation.context);
      }
    case Refresh =>
    case Click(caseId, ref, accepted) =>
      if AfterClick(p, caseId, ref, accepted) != p {
        AppendKeepsPast(p.log, HandedOff(Displayed(caseId, ref)));
      }
  }

  lemma {:induction false} RunKeepsInv(p: Page, events: seq<Event>)
    requires Inv(p)
    ensures Inv(Run(p, events))
    decreases |events|
  {
    if events != [] {
      StepKeepsInv(p, events[0]);
      RunKeepsInv(Step(p, events[0]), events[1..]);
    }
  }

  /**
   Every run of renders, scope changes, refreshes, ticks and clicks: a case is handed off with a
   supplement only if that pair was shown, the box was ticked after that, and since it was shown no
   other pair was shown, nothing was reset or handed off, and the tick was not taken back.
   */
  lemma EveryHandOffWasReviewed(events: seq<Event>)
    ensures var log := Run(START, events).log;
            forall j :: 0 <= j < |log| && log[j].HandedOff? && log[j].context.caseId != "" ==>
              Reviewed(log, log[j].context, j)
  {
    RunKeepsInv(START, events);
  }

  // ---- the empty identifier ----

  predicate AllOffered(p: Page, events: seq<Event>)
    decreases |events|
  {
    events == [] || (Offered(p, events[0]) && AllOffered(Step(p, events[0]), events[1..]))
  }

  ghost predicate Named(p: Page) {
    && (p.displayed.Some? ==> p.displayed.value.caseId != "")
    && forall j :: 0 <= j < |p.log| && p.log[j].HandedOff? ==> p.log[j].context.caseId != ""
  }

  lemma StepKeepsNamed(p: Page, e: Event)
    requires Named(p) && Offered(p, e)
    ensures Named(Step(p, e))
  {
  }

  lemma {:induction false} RunKeepsNamed(p: Page, events: seq<Event>)
    requires Named(p) && AllOffered(p, events)
    ensures Named(Run(p, events))
    decreases |events|
  {
    if events != [] {
      StepKeepsNamed(p, events[0]);
      RunKeepsNamed(Step(p, events[0]), events[1..]);
    }
  }

  /** Whatever the page offers, each of its hand-offs was reviewed. */
  lemma EveryOfferedHandOffWasReviewed(events: seq<Event>)
    requires AllOffered(START, events)
    ensures var log := Run(START, events).log;
            forall j :: 0 <= j < |log| && log[j].HandedOff? ==> Reviewed(log, log[j].context, j)
  {
    RunKeepsInv(START, events);
    RunKeepsNamed(START, events);
  }

  /**
   A page for the empty identifier would escape the rule, because the cleared confirmation names it: ticked
   right after a reset, it is handed off without having been ticked since it was shown.
   */
  lemma EmptyCaseIdEscapes(scope: string)
    ensures var show := Render(scope, "", Ready(None, []));
            var p := Run(START, [show, Reset, Change(true), show]);
            && p.displayed == Some(Context("", None))
            && Step(p, Click("", "", true)).log == p.log + [HandedOff(Context("", None))]
            && !Reviewed(p.log, Context("", None), |p.log|)
  {
    var show := Render(scope, "", Ready(None, []));
    var p1 := Step(START, show);
    var p2 := Step(p1, Reset);
    var p3 := Step(p2, Change(true));
    var p := Step(p3, show);
    assert p2.log[|p2.log| - 1] == Forgotten && p.log == p2.log + [Checked, Shown(Context("", None))];
    assert [show, Reset, Change(true), show] == [show] + ([Reset] + ([Change(true)] + ([show] + [])));
    RunStep(START, show, [Reset] + ([Change(true)] + ([show] + [])));
    RunStep(p1, Reset, [Change(true)] + ([show] + []));
    RunStep(p2, Change(true), [show] + []);
    RunStep(p3, show, []);
    assert !Reviewed(p.log, Context("", None), |p.log|) by {
      assert p.log[|p.log| - 3] == Forgotten;
    }
  }

  lemma RunStep(p: Page, e: Event, rest: seq<Event>)
    ensures Run(p, [e] + rest) == Run(Step(p, e), rest)
  {
    assert ([e] + rest)[1..] == rest;
  }

  // ---- what a change in the case forces ----

  /** Without a tick an unticked confirmation stays unticked, and nothing is handed off. */
  lemma {:induction false} UntickedHandsNothingOff(p: Page, events: seq<Event>)
    requires !p.confirmation.checked && Change(true) !in events
    ensures !Run(p, events).confirmation.checked
    ensures var log := Run(p, events).log;
            p.log <= log && forall j :: |p.log| <= j < |log| ==> !log[j].HandedOff?
    decreases |events|
  {
    if events != [] {
      assert events[0] in events;
      UntickedHandsNothingOff(Step(p, events[0]), events[1..]);
    }
  }

  /** A changed supplement always forces a new check: until the box is ticked anew, no run hands anything off. */
  lemma ChangedSupplementForcesCheck(p: Page, scope: string, caseId: string, snapshot: Snapshot, events: seq<Event>)
    requires Derived(caseId, snapshot).Some? && Derived(caseId, snapshot) != Some(p.confirmation.context)
    requires Change(true) !in events
    ensures var q := Step(p, Render(scope, caseId, snapshot));
            && !q.confirmation.checked && !Run(q, events).confirmation.checked
            && forall j :: |q.log| <= j < |Run(q, events).log| ==> !Run(q, events).log[j].HandedOff?
  {
    UntickedHandsNothingOff(Step(p, Render(scope, caseId, snapshot)), events);
  }

  /** A rendering of this context from a snapshot in which the customer can see the supplement. */
  predicate ShowsVisibly(e: Event, context: Context) {
    && e.Render? && e.caseId == context.caseId && e.snapshot.Ready? && e.snapshot.latestSupplement == context.ref
    && (context.ref.Some? ==> CaseEvent(context.ref.value, true) in e.snapshot.events)
  }

  lemma {:induction false} ShownWasVisible(p: Page, events: seq<Event>, k: nat)
    requires k < |Run(p, events).log| && Run(p, events).log[k].Shown?
    ensures || (k < |p.log| && p.log[k] == Run(p, events).log[k])
            || exists i :: 0 <= i < |events| && ShowsVisibly(events[i], Run(p, events).log[k].context)
    decreases |events|
  {
    if events != [] {
      var q, context := Step(p, events[0]), Run(p, events).log[k].context;
      ShownWasVisible(q, events[1..], k);
      if i :| 0 <= i < |events[1..]| && ShowsVisibly(events[1..][i], context) {
        assert events[i + 1] == events[1..][i];
      } else if k >= |p.log| {
        assert ShowsVisibly(events[0], context);
      }
    }
  }

  /** In every run, a supplement is handed off only if a rendered snapshot showed it to the customer as the latest. */
  lemma HandedOffWasVisible(events: seq<Event>, j: nat)
    requires j < |Run(START, events).log| && Run(START, events).log[j].HandedOff?
    requires Run(START, events).log[j].context.caseId != ""
    ensures exists i :: 0 <= i < |events| && ShowsVisibly(events[i], Run(START, events).log[j].context)
  {
    var log := Run(START, events).log;
    EveryHandOffWasReviewed(events);
    var s: nat, c: nat :| UnderReview(log, log[j].context, s, j) && s < c < j && log[c] == Checked
                && forall m :: c < m < j ==> log[m] != Unchecked;
    ShownWasVisible(START, events, s);
  }
}
