/** Where what a live search asks and shows comes from, event by event. */
module LiveAnswers {
  import opened Lists
  import opened LiveSearch
  import opened ServiceGroups

  // ---- a search that nobody disturbs ----

  /** What the service is asked after a submit of this form: its texts, and for each side the first identifier known. */
  function Asked(before: Query, form: Form, origin: string, destination: string): Query {
    Query(if form.carrier == "" then before.carrier else form.carrier,
          form.origin, form.originCountry, form.destination, form.destinationCountry, form.from, form.until,
          if form.routing == "" then "any" else form.routing,
          FirstKnown(form.originId, before.originId, origin),
          FirstKnown(form.destinationId, before.destinationId, destination))
  }

  /** Ticked in the form, else pinned before, else found. */
  function FirstKnown(ticked: string, pinned: string, found: string): string {
    if ticked != "" then ticked else if pinned != "" then pinned else found
  }

  /** A submitted search whose ports are found and whose answer comes in time shows that answer, to that question. */
  lemma UndisturbedSearchIsShown(p: Page, form: Form, origin: string, destination: string,
                                 carrierId: string, records: seq<Record>)
    ensures var i := |p.searches|;
            var q := Step(Step(p, Submit(form, true)), Resolved(i, Found(origin), Found(destination)));
            var r := Step(q, Answered(i, carrierId, records));
            var asked := Asked(p.live.query, form, origin, destination);
            && q.live.query == asked && i < |q.searches| && q.searches[i] == Searching(q.liveEpoch, asked)
            && r.live.query == asked && r.live.result == Some(Answer(asked, carrierId, records))
            && !r.live.pending && !r.live.error && r.selectedService.None? && r.weekday == "all"
            && r.searches == p.searches && r.live.carriers == p.live.carriers
  {
    var i := |p.searches|;
    var s := Step(p, Submit(form, true));
    var q := Step(s, Resolved(i, Found(origin), Found(destination)));
    assert s.searches[i] == Resolving(s.liveEpoch);
    assert q.searches == p.searches + [q.searches[i]];
    assert RemoveAt(q.searches, i) == p.searches;
  }

  /** A port that is not known and has several matches is asked back with exactly those, and the search ends. */
  lemma UnclearPortIsAskedBack(p: Page, form: Form, origin: Resolution, destination: Resolution)
    requires var known := Asked(p.live.query, form, "", "");
             || (origin.Choices? && known.originId == "") || (destination.Choices? && known.destinationId == "")
    ensures var i, known := |p.searches|, Asked(p.live.query, form, "", "");
            var q := Step(Step(p, Submit(form, true)), Resolved(i, origin, destination));
            && q.searches == p.searches && q.live.result.None? && !q.live.pending && q.live.error
            && q.live.originChoices == (if origin.Choices? && known.originId == "" then origin.ids else [])
            && q.live.destinationChoices
               == (if destination.Choices? && known.destinationId == "" then destination.ids else [])
  {
    var i, s := |p.searches|, Step(p, Submit(form, true));
    assert s.searches[i] == Resolving(s.liveEpoch) && RemoveAt(s.searches, i) == p.searches;
  }

  // ---- every run ----

  /** The page after the first n events. */
  function After(start: Page, events: seq<Event>, n: nat): Page
    requires n <= |events|
  {
    Run(start, events[..n])
  }

  lemma {:induction false} RunAppend(p: Page, events: seq<Event>, e: Event)
    ensures Run(p, events + [e]) == Step(Run(p, events), e)
    decreases |events|
  {
    if events == [] {
      assert [e][1..] == [] && [] + [e] == [e];
      assert Run(Step(p, e), []) == Step(p, e);
    } else {
      RunAppend(Step(p, events[0]), events[1..], e);
      assert (events + [e])[1..] == events[1..] + [e];
    }
  }

  lemma AfterStep(start: Page, events: seq<Event>, n: nat)
    requires n < |events|
    ensures After(start, events, n + 1) == Step(After(start, events, n), events[n])
  {
    assert events[..n + 1] == events[..n] + [events[n]];
    RunAppend(start, events[..n], events[n]);
  }

  datatype Side = Origin | Destination

  function Identifier(q: Query, side: Side): string {
    if side.Origin? then q.originId else q.destinationId
  }

  function Place(q: Query, side: Side): (string, string) {
    if side.Origin? then (q.originText, q.originCountry) else (q.destinationText, q.destinationCountry)
  }

  /** The event names this identifier for this side: a pick, a ticked choice, or a port found for the current search. */
  predicate Gives(p: Page, e: Event, side: Side, id: string) {
    match e
    case PickOrigin(_, _, picked) => side.Origin? && picked == id
    case PickDestination(_, _, picked) => side.Destination? && picked == id
    case Submit(form, canQuery) => canQuery && (if side.Origin? then form.originId else form.destinationId) == id
    case Resolved(i, origin, destination) =>
      && i < |p.searches| && p.searches[i] == Resolving(p.liveEpoch)
      && (if side.Origin? then origin else destination) == Found(id)
    case _ => false
  }

  /** The event makes an earlier identifier of this side void. */
  predicate Voids(e: Event, side: Side) {
    match e
    case PickOrigin(_, _, _) => side.Origin?
    case PickDestination(_, _, _) => side.Destination?
    case Reset(_, _, _) => true
    case Input(field, _) =>
      field.CarrierField?
      || (if side.Origin? then field.OriginField? || field.OriginCountryField?
          else field.DestinationField? || field.DestinationCountryField?)
    case _ => false
  }

  /** Among the first n events, one gave this identifier to this side, and none has voided it since. */
  ghost predicate GivenAt(start: Page, events: seq<Event>, n: nat, side: Side, id: string, m: nat)
    requires n <= |events|
  {
    m < n && Gives(After(start, events, m), events[m], side, id) && forall h :: m < h < n ==> !Voids(events[h], side)
  }

  ghost predicate Given(start: Page, events: seq<Event>, n: nat, side: Side, id: string)
    requires n <= |events|
  {
    exists m :: GivenAt(start, events, n, side, id, m)
  }

  lemma InputGives(p: Page, field: Field, form: Form, side: Side)
    ensures var id := Identifier(AfterInput(p, field, form).live.query, side);
            id == "" || (!Voids(Input(field, form), side) && id == Identifier(p.live.query, side))
  {
  }

  lemma SubmitGives(p: Page, form: Form, canQuery: bool, side: Side)
    ensures var id := Identifier(AfterSubmit(p, form, canQuery).live.query, side);
            Gives(p, Submit(form, canQuery), side, id) || id == Identifier(p.live.query, side)
  {
  }

  lemma ResolvedGives(p: Page, i: nat, origin: Resolution, destination: Resolution, side: Side)
    ensures var id := Identifier(AfterResolved(p, i, origin, destination).live.query, side);
            id == "" || Gives(p, Resolved(i, origin, destination), side, id) || id == Identifier(p.live.query, side)
  {
  }

  lemma StepGives(p: Page, e: Event, side: Side)
    requires Identifier(Step(p, e).live.query, side) != ""
    ensures || Gives(p, e, side, Identifier(Step(p, e).live.query, side))
            || (!Voids(e, side) && Identifier(Step(p, e).live.query, side) == Identifier(p.live.query, side))
  {
    match e
    case Input(field, form) => InputGives(p, field, form, side);
    case Submit(form, canQuery) => SubmitGives(p, form, canQuery, side);
    case Resolved(i, origin, destination) => ResolvedGives(p, i, origin, destination, side);
    case _ =>
  }

  lemma {:induction false} IdentifiersAreGiven(from: string, until: string, events: seq<Event>, n: nat, side: Side)
    requires n <= |events|
    ensures var start := Initial(from, until);
            var id := Identifier(After(start, events, n).live.query, side);
            id != "" ==> Given(start, events, n, side, id)
  {
    if n > 0 {
      var start := Initial(from, until);
      var p, q := After(start, events, n - 1), After(start, events, n);
      AfterStep(start, events, n - 1);
      IdentifiersAreGiven(from, until, events, n - 1, side);
      var id := Identifier(q.live.query, side);
      if id != "" {
        StepGives(p, events[n - 1], side);
        if Gives(p, events[n - 1], side, id) {
          assert GivenAt(start, events, n, side, id, n - 1);
        } else {
          var m :| GivenAt(start, events, n - 1, side, id, m);
          assert GivenAt(start, events, n, side, id, m);
        }
      }
    }
  }

  // ---- the answer shown ----

  /** The m-th event was the in-time answer to this question, and nothing has abandoned it since. */
  ghost predicate AnsweredAt(start: Page, events: seq<Event>, n: nat, answer: Answer, m: nat)
    requires n <= |events|
  {
    && m < n && events[m].Answered?
    && events[m].carrierId == answer.carrierId && events[m].records == answer.records
    && (var p, i := After(start, events, m), events[m].i;
        i < |p.searches| && p.searches[i] == Searching(p.liveEpoch, answer.asked))
    && forall h :: m < h <= n ==> After(start, events, h).liveEpoch == After(start, events, m).liveEpoch
  }

  lemma StepShows(p: Page, e: Event)
    requires Step(p, e).live.result.Some?
    ensures Step(p, e).liveEpoch == p.liveEpoch
    ensures || Step(p, e).live.result == p.live.result
            || (&& e.Answered? && e.i < |p.searches| && p.searches[e.i].Searching?
                && p.searches[e.i].generation == p.liveEpoch
                && Step(p, e).live.result == Some(Answer(p.searches[e.i].asked, e.carrierId, e.records)))
  {
  }

  lemma {:induction false} ShownWasAnswered(from: string, until: string, events: seq<Event>, n: nat)
    requires n <= |events|
    ensures var start := Initial(from, until);
            var result := After(start, events, n).live.result;
            result.Some? ==> exists m :: AnsweredAt(start, events, n, result.value, m)
  {
    if n > 0 {
      var start := Initial(from, until);
      var p, q := After(start, events, n - 1), After(start, events, n);
      AfterStep(start, events, n - 1);
      ShownWasAnswered(from, until, events, n - 1);
      if q.live.result.Some? {
        StepShows(p, events[n - 1]);
        if q.live.result == p.live.result {
          var m :| AnsweredAt(start, events, n - 1, p.live.result.value, m);
          assert AnsweredAt(start, events, n, q.live.result.value, m);
        } else {
          assert AnsweredAt(start, events, n, q.live.result.value, n - 1);
        }
      }
    }
  }

  // ---- the texts of the places ----

  /** The form shows what the page holds, but for the field that is being edited. */
  predicate Honest(p: Page, e: Event) {
    match e
    case Input(field, form) =>
      && (!field.OriginField? ==> form.origin == p.live.query.originText)
      && (!field.OriginField? && !field.OriginCountryField? ==> form.originCountry == p.live.query.originCountry)
      && (!field.DestinationField? ==> form.destination == p.live.query.destinationText)
      && (!field.DestinationField? && !field.DestinationCountryField? ==>
            form.destinationCountry == p.live.query.destinationCountry)
    case Submit(form, _) =>
      && (form.origin, form.originCountry) == Place(p.live.query, Origin)
      && (form.destination, form.destinationCountry) == Place(p.live.query, Destination)
    case _ => true
  }

  ghost predicate AllHonest(start: Page, events: seq<Event>, n: nat)
    requires n <= |events|
  {
    forall h :: 0 <= h < n ==> Honest(After(start, events, h), events[h])
  }

  lemma {:induction false} PlaceKept(start: Page, events: seq<Event>, m: nat, n: nat, side: Side)
    requires m <= n <= |events| && AllHonest(start, events, n)
    requires forall h :: m <= h < n ==> !Voids(events[h], side)
    ensures Place(After(start, events, n).live.query, side) == Place(After(start, events, m).live.query, side)
  {
    if m < n {
      PlaceKept(start, events, m, n - 1, side);
      AfterStep(start, events, n - 1);
      assert Honest(After(start, events, n - 1), events[n - 1]);
    }
  }

  /** An identifier that is held was given to its side, and honest forms have kept the place since. */
  lemma GivenUnderPlace(from: string, until: string, events: seq<Event>, n: nat, side: Side)
    requires n <= |events|
    ensures var start := Initial(from, until);
            var q := After(start, events, n).live.query;
            Identifier(q, side) != "" ==>
              exists m: nat :: GivenAt(start, events, n, side, Identifier(q, side), m)
                       && (AllHonest(start, events, n) ==>
                             Place(After(start, events, m + 1).live.query, side) == Place(q, side))
  {
    var start := Initial(from, until);
    var id := Identifier(After(start, events, n).live.query, side);
    IdentifiersAreGiven(from, until, events, n, side);
    if id != "" {
      var m: nat :| GivenAt(start, events, n, side, id, m);
      if AllHonest(start, events, n) {
        PlaceKept(start, events, m + 1, n, side);
      }
    }
  }

  /**
   Every run that the page offers: a shown result is the answer, carrier and records, to the search that was last
   asked; the question is the one now shown; and each identifier in it was picked, ticked or found for its own
   side and not made void since. If the form is honest, that was under the place that is shown for the side now.
   */
  lemma EveryAnswerAnswersWhatWasGiven(from: string, until: string, events: seq<Event>, side: Side)
    requires AllOffered(Initial(from, until), events)
    ensures var start, n := Initial(from, until), |events|;
            var p := Run(start, events);
            p.live.result.Some? ==>
              && var asked := p.live.result.value.asked;
                 && asked == p.live.query
                 && (exists m :: AnsweredAt(start, events, n, p.live.result.value, m))
                 && (Identifier(asked, side) != "" ==>
                       exists m: nat :: GivenAt(start, events, n, side, Identifier(asked, side), m)
                                && (AllHonest(start, events, n) ==>
                                      Place(After(start, events, m + 1).live.query, side) == Place(asked, side)))
  {
    var start, n := Initial(from, until), |events|;
    assert events[..n] == events;
    var p := After(start, events, n);
    EveryRunShowsCurrentAnswer(from, until, events);
    ShownWasAnswered(from, until, events, n);
    GivenUnderPlace(from, until, events, n, side);
  }

  /**
   Sailings of a shown result stand in one service exactly if they agree in carrier and the rest of the key, where a
   sailing without a carrier counts as the answer's carrier's, and without that as the carrier asked for.
   */
  lemma SailingsTogether(live: Live, r: Record, q: Record)
    requires live.result.Some? && r in live.result.value.records && q in live.result.value.records
    ensures var answer := live.result.value;
            Together(Services(live), r, q)
            <==> && FirstKnown(r.operatingCarrier, answer.carrierId, live.query.carrier)
                    == FirstKnown(q.operatingCarrier, answer.carrierId, live.query.carrier)
                 && r.signature == q.signature
  {
    TogetherExactly(live.result.value.records, Fallback(live), r, q);
  }
}
