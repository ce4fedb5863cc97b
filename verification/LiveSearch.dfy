/** The live schedule search, with any number of requests in flight: apps/console/maritime.js. */
module LiveSearch {
  import opened Lists
  import opened ServiceGroups

  /** The conditions a search is asked with. */
  datatype Query = Query(carrier: string, originText: string, originCountry: string, destinationText: string,
                         destinationCountry: string, from: string, until: string, routing: string,
                         originId: string, destinationId: string)

  /** The texts of the search form, trimmed; the two identifiers are "" unless a choice is ticked. */
  datatype Form = Form(carrier: string, origin: string, originCountry: string, destination: string,
                       destinationCountry: string, from: string, until: string, routing: string,
                       originId: string, destinationId: string)

  datatype Carrier = Carrier(id: string, verified: bool)

  /** What the service answered, and to which question. */
  datatype Answer = Answer(asked: Query, carrierId: string, records: seq<Record>)

  datatype Live = Live(query: Query, carriers: Option<seq<Carrier>>, carriersPending: bool, carriersRequested: bool,
                       result: Option<Answer>, pending: bool, error: bool,
                       originChoices: seq<string>, destinationChoices: seq<string>)

  /** A search in flight: still resolving its ports, or asked with a fixed query. */
  datatype Search = Resolving(generation: nat) | Searching(generation: nat, asked: Query)

  datatype Page = Page(live: Live, liveEpoch: nat, carriersEpoch: nat, weekday: string, selectedService: Option<nat>,
                       searches: seq<Search>, loads: seq<nat>)

  datatype Field =
    | CarrierField | OriginField | OriginCountryField | DestinationField | DestinationCountryField | OtherField

  datatype Resolution = Found(id: string) | Choices(ids: seq<string>)

  datatype Event =
    | Input(field: Field, form: Form)
    | PickOrigin(text: string, country: string, id: string)
    | PickDestination(text: string, country: string, id: string)
    | Submit(form: Form, canQuery: bool)
    | Resolved(i: nat, origin: Resolution, destination: Resolution)
    | Answered(i: nat, carrierId: string, records: seq<Record>)
    | SearchFailed(i: nat, aborted: bool)
    | Reset(keep: bool, from: string, until: string)
    | Rendered(canQuery: bool)
    | CarriersLoaded(i: nat, data: Option<seq<Carrier>>)
    | CarriersFailed(i: nat)
    | ReloadCarriers
    | OpenVoyages(index: int)
    | BackToServices
    | PickWeekday(day: string)

  const WEEKDAYS := {"all", "unknown", "0", "1", "2", "3", "4", "5", "6"}

  function Or(a: string, b: string): string {
    if a != "" then a else b
  }

  /** The form's texts over the current conditions; the identifiers stay. */
  function Filled(q: Query, f: Form): Query {
    Query(Or(f.carrier, q.carrier), f.origin, f.originCountry, f.destination, f.destinationCountry, f.from, f.until,
          Or(f.routing, "any"), q.originId, q.destinationId)
  }

  function Fallback(live: Live): string {
    if live.result.Some? then Or(live.result.value.carrierId, live.query.carrier) else live.query.carrier
  }

  function Services(live: Live): seq<Group> {
    if live.result.Some? then Groups(live.result.value.records, Fallback(live)) else []
  }

  function FreshLive(q: Query): Live {
    Live(q, None, false, false, None, false, false, [], [])
  }

  function Initial(from: string, until: string): Page {
    Page(FreshLive(Query("ONE", "", "", "", "", from, until, "any", "", "")), 0, 0, "all", None, [], [])
  }

  /** Dropping whatever is shown or awaited, because the conditions changed. */
  function Abandoned(p: Page, q: Query, originChoices: seq<string>, destinationChoices: seq<string>): Page {
    p.(live := p.live.(query := q, result := None, pending := false, error := false,
                       originChoices := originChoices, destinationChoices := destinationChoices),
       liveEpoch := p.liveEpoch + 1, weekday := "all", selectedService := None)
  }

  function AfterInput(p: Page, field: Field, form: Form): Page {
    var q, l := Filled(p.live.query, form), p.live;
    match field
    case CarrierField => Abandoned(p, q.(originId := "", destinationId := ""), [], [])
    case OriginField => Abandoned(p, q.(originId := "", originCountry := ""), [], l.destinationChoices)
    case OriginCountryField => Abandoned(p, q.(originId := ""), [], l.destinationChoices)
    case DestinationField => Abandoned(p, q.(destinationId := "", destinationCountry := ""), l.originChoices, [])
    case DestinationCountryField => Abandoned(p, q.(destinationId := ""), l.originChoices, [])
    case OtherField => Abandoned(p, q, l.originChoices, l.destinationChoices)
  }

  function AfterSubmit(p: Page, form: Form, canQuery: bool): Page {
    if !canQuery then p.(live := p.live.(error := true))
    else
      var filled := Filled(p.live.query, form);
      var q := filled.(originId := Or(form.originId, filled.originId),
                       destinationId := Or(form.destinationId, filled.destinationId));
      p.(live := p.live.(query := q, result := None, pending := true, error := false),
         liveEpoch := p.liveEpoch + 1, weekday := "all", selectedService := None,
         searches := p.searches + [Resolving(p.liveEpoch + 1)])
  }

  /** A port that is already pinned needs no question. */
  function Pinned(id: string, answer: Resolution): Resolution {
    if id != "" then Found(id) else answer
  }

  function ResolvedId(r: Resolution): string {
    if r.Found? then r.id else ""
  }

  function ResolvedChoices(r: Resolution): seq<string> {
    if r.Choices? then r.ids else []
  }

  function AfterResolved(p: Page, i: nat, origin: Resolution, destination: Resolution): Page {
    if i >= |p.searches| || !p.searches[i].Resolving? then p
    else if p.searches[i].generation != p.liveEpoch then p.(searches := RemoveAt(p.searches, i))
    else ResolvedInTime(p, i, origin, destination)
  }

  function ResolvedInTime(p: Page, i: nat, origin: Resolution, destination: Resolution): Page
    requires i < |p.searches|
  {
    var o, d := Pinned(p.live.query.originId, origin), Pinned(p.live.query.destinationId, destination);
    var q := p.live.query.(originId := ResolvedId(o), destinationId := ResolvedId(d));
    var live := p.live.(query := q, originChoices := ResolvedChoices(o), destinationChoices := ResolvedChoices(d));
    if o.Choices? || d.Choices? then
      p.(live := live.(pending := false, error := true), searches := RemoveAt(p.searches, i))
    else
      p.(live := live, searches := p.searches[i := Searching(p.liveEpoch, q)])
  }

  function AfterAnswered(p: Page, i: nat, carrierId: string, records: seq<Record>): Page {
    if i >= |p.searches| || !p.searches[i].Searching? then p
    else if p.searches[i].generation != p.liveEpoch then p.(searches := RemoveAt(p.searches, i))
    else p.(live := p.live.(result := Some(Answer(p.searches[i].asked, carrierId, records)), pending := false),
            searches := RemoveAt(p.searches, i))
  }

  function AfterSearchFailed(p: Page, i: nat, aborted: bool): Page {
    if i >= |p.searches| then p
    else if p.searches[i].generation != p.liveEpoch then p.(searches := RemoveAt(p.searches, i))
    else p.(live := p.live.(error := p.live.error || !aborted, pending := false), searches := RemoveAt(p.searches, i))
  }

  function AfterReset(p: Page, keep: bool, from: string, until: string): Page {
    var q := if keep then p.live.query.(originId := "", destinationId := "")
             else Query("ONE", "", "", "", "", from, until, "any", "", "");
    p.(live := FreshLive(q), liveEpoch := p.liveEpoch + 1, carriersEpoch := p.carriersEpoch + 1,
       weekday := "all", selectedService := None)
  }

  /** `loadLiveCarriers` up to its request. */
  function StartLoad(p: Page): Page {
    if p.live.carriers.Some? || p.live.carriersPending then p
    else p.(live := p.live.(carriersPending := true), loads := p.loads + [p.carriersEpoch])
  }

  function FirstVerified(carriers: seq<Carrier>): string {
    if carriers == [] then "" else if carriers[0].verified then carriers[0].id else FirstVerified(carriers[1..])
  }

  /** The first verified carrier of a list is this one; "" stands for none. */
  ghost predicate FirstVerifiedIs(carriers: seq<Carrier>, id: string) {
    || (id == "" && forall i :: 0 <= i < |carriers| ==> !carriers[i].verified)
    || exists k :: 0 <= k < |carriers| && carriers[k] == Carrier(id, true)
                   && forall i :: 0 <= i < k ==> !carriers[i].verified
  }

  lemma {:induction false} FirstVerifiedMeaning(carriers: seq<Carrier>)
    ensures FirstVerifiedIs(carriers, FirstVerified(carriers))
  {
    if carriers != [] && !carriers[0].verified {
      var rest, id := carriers[1..], FirstVerified(carriers[1..]);
      FirstVerifiedMeaning(rest);
      if k :| 0 <= k < |rest| && rest[k] == Carrier(id, true) && forall i :: 0 <= i < k ==> !rest[i].verified {
        assert carriers[k + 1] == Carrier(id, true);
        assert forall i :: 0 < i < k + 1 ==> carriers[i] == rest[i - 1];
      } else {
        assert forall i :: 0 < i < |carriers| ==> carriers[i] == rest[i - 1];
      }
    } else if carriers != [] {
      assert carriers[0] == Carrier(carriers[0].id, true);
    }
  }

  predicate Offers(carriers: Option<seq<Carrier>>, id: string) {
    carriers.Some? && Carrier(id, true) in carriers.value
  }

  function AfterCarriersLoaded(p: Page, i: nat, data: Option<seq<Carrier>>): Page {
    if i >= |p.loads| then p
    else if p.loads[i] != p.carriersEpoch then p.(loads := RemoveAt(p.loads, i))
    else
      var carrier := if Offers(data, p.live.query.carrier) then p.live.query.carrier
                     else if data.Some? then FirstVerified(data.value) else "";
      p.(live := p.live.(carriers := data, carriersPending := false, query := p.live.query.(carrier := carrier)),
         loads := RemoveAt(p.loads, i))
  }

  function AfterCarriersFailed(p: Page, i: nat): Page {
    if i >= |p.loads| then p
    else if p.loads[i] != p.carriersEpoch then p.(loads := RemoveAt(p.loads, i))
    else p.(live := p.live.(error := true, carriersPending := false), loads := RemoveAt(p.loads, i))
  }

  function Step(p: Page, e: Event): Page {
    match e
    case Input(field, form) => AfterInput(p, field, form)
    case PickOrigin(text, country, id) =>
      Abandoned(p, p.live.query.(originText := text, originCountry := country, originId := id),
                [], p.live.destinationChoices)
    case PickDestination(text, country, id) =>
      Abandoned(p, p.live.query.(destinationText := text, destinationCountry := country, destinationId := id),
                p.live.originChoices, [])
    case Submit(form, canQuery) => AfterSubmit(p, form, canQuery)
    case Resolved(i, origin, destination) => AfterResolved(p, i, origin, destination)
    case Answered(i, carrierId, records) => AfterAnswered(p, i, carrierId, records)
    case SearchFailed(i, aborted) => AfterSearchFailed(p, i, aborted)
    case Reset(keep, from, until) => AfterReset(p, keep, from, until)
    case Rendered(canQuery) =>
      if canQuery && p.live.carriers.None? && !p.live.carriersRequested
      then StartLoad(p.(live := p.live.(carriersRequested := true))) else p
    case CarriersLoaded(i, data) => AfterCarriersLoaded(p, i, data)
    case CarriersFailed(i) => AfterCarriersFailed(p, i)
    case ReloadCarriers =>
      StartLoad(p.(live := p.live.(carriers := None, carriersPending := false, carriersRequested := true,
                                   error := false)))
    case OpenVoyages(index) =>
      if 0 <= index < |Services(p.live)| then p.(selectedService := Some(index)) else p
    case BackToServices => p.(selectedService := None)
    case PickWeekday(day) => if day in WEEKDAYS then p.(weekday := day, selectedService := None) else p
  }

  /**
   What the page offers: submit while a verified carrier is loaded, reload while no carriers are loaded or awaited.
   A reload button stays after an edit has cleared the error that it was rendered for. A submit button is
   disabled when the page renders, so a reset that is not followed by a rendering leaves it enabled for a while.
   */
  predicate Offered(p: Page, e: Event) {
    match e
    case Submit(_, _) => p.live.carriers.Some? && exists c :: c in p.live.carriers.value && c.verified
    case ReloadCarriers => p.live.carriers.None? && !p.live.carriersPending
    case _ => true
  }

  /** The closure's variables, updated in place by the page's handlers and by late answers. */
  class Workspace {
    var live: Live
    var liveEpoch: nat
    var carriersEpoch: nat
    var weekday: string
    var selectedService: Option<nat>
    var searches: seq<Search>
    var loads: seq<nat>

    ghost function View(): Page
      reads this
    {
      Page(live, liveEpoch, carriersEpoch, weekday, selectedService, searches, loads)
    }

    constructor (from: string, until: string)
      ensures View() == Initial(from, until)
      ensures live.query == Query("ONE", "", "", "", "", from, until, "any", "", "")
      ensures live.carriers.None? && !live.carriersPending && !live.carriersRequested
      ensures live.result.None? && !live.pending && !live.error
      ensures live.originChoices == [] && live.destinationChoices == []
      ensures weekday == "all" && selectedService.None? && searches == [] && loads == []
    {
      live := FreshLive(Query("ONE", "", "", "", "", from, until, "any", "", ""));
      liveEpoch, carriersEpoch, weekday, selectedService := 0, 0, "all", None;
      searches, loads := [], [];
    }

    /** Nothing is shown or awaited, and no service is opened. */
    ghost predicate Blank()
      reads this
    {
      && live.result.None? && !live.pending && !live.error
      && weekday == "all" && selectedService.None?
    }

    /** The carriers, and all requests in flight. */
    ghost function Requests(): (Option<seq<Carrier>>, bool, bool, nat, seq<Search>, seq<nat>)
      reads this
    {
      (live.carriers, live.carriersPending, live.carriersRequested, carriersEpoch, searches, loads)
    }

    /** The lines that `input` and `onPick` share: nothing shown or awaited survives a change. */
    method Abandon()
      modifies this
      ensures View() == Abandoned(old(View()), old(live.query), old(live.originChoices), old(live.destinationChoices))
    {
      liveEpoch := liveEpoch + 1;
      weekday := "all";
      selectedService := None;
      live := live.(pending := false, result := None, error := false);
    }

    method OnInput(field: Field, form: Form)
      modifies this
      ensures View() == Step(old(View()), Input(field, form))
      ensures Blank() && Requests() == old(Requests()) && liveEpoch == old(liveEpoch) + 1
      ensures live.query.carrier == if form.carrier == "" then old(live.query.carrier) else form.carrier
      ensures live.query.originText == form.origin && live.query.destinationText == form.destination
      ensures live.query.from == form.from && live.query.until == form.until
      ensures live.query.routing == if form.routing == "" then "any" else form.routing
      ensures live.query.originCountry == if field.OriginField? then "" else form.originCountry
      ensures live.query.destinationCountry == if field.DestinationField? then "" else form.destinationCountry
      ensures if field.CarrierField? || field.OriginField? || field.OriginCountryField?
              then live.query.originId == "" && live.originChoices == []
              else live.query.originId == old(live.query.originId) && live.originChoices == old(live.originChoices)
      ensures if field.CarrierField? || field.DestinationField? || field.DestinationCountryField?
              then live.query.destinationId == "" && live.destinationChoices == []
              else && live.query.destinationId == old(live.query.destinationId)
                   && live.destinationChoices == old(live.destinationChoices)
    {
      live := live.(query := Filled(live.query, form));
      Abandon();
      if field.CarrierField? {
        live := live.(query := live.query.(originId := "", destinationId := ""),
                      originChoices := [], destinationChoices := []);
      } else if field.OriginField? || field.OriginCountryField? {
        live := live.(query := live.query.(originId := ""), originChoices := []);
        if field.OriginField? {
          live := live.(query := live.query.(originCountry := ""));
        }
      } else if field.DestinationField? || field.DestinationCountryField? {
        live := live.(query := live.query.(destinationId := ""), destinationChoices := []);
        if field.DestinationField? {
          live := live.(query := live.query.(destinationCountry := ""));
        }
      }
    }

    method OnPick(origin: bool, text: string, country: string, id: string)
      modifies this
      ensures View() == Step(old(View()), if origin then PickOrigin(text, country, id)
                                          else PickDestination(text, country, id))
      ensures Blank() && Requests() == old(Requests()) && liveEpoch == old(liveEpoch) + 1
      ensures origin ==>
                && live.query == old(live.query).(originText := text, originCountry := country, originId := id)
                && live.originChoices == [] && live.destinationChoices == old(live.destinationChoices)
      ensures !origin ==>
                && live.query == old(live.query).(destinationText := text, destinationCountry := country,
                                                  destinationId := id)
                && live.destinationChoices == [] && live.originChoices == old(live.originChoices)
    {
      Abandon();
      if origin {
        live := live.(query := live.query.(originText := text, originCountry := country, originId := id),
                      originChoices := []);
      } else {
        live := live.(query := live.query.(destinationText := text, destinationCountry := country, destinationId := id),
                      destinationChoices := []);
      }
    }

    /** The form's texts, and the choices that are ticked. */
    method FillForm(form: Form)
      modifies this`live
      ensures var filled := Filled(old(live.query), form);
              live == old(live).(query := filled.(originId := Or(form.originId, filled.originId),
                                                  destinationId := Or(form.destinationId, filled.destinationId)))
    {
      var q := Filled(live.query, form);
      if form.originId != "" {
        q := q.(originId := form.originId);
      }
      if form.destinationId != "" {
        q := q.(destinationId := form.destinationId);
      }
      live := live.(query := q);
    }

    /** `runLive` up to its first request. */
    method OnSubmit(form: Form, canQuery: bool)
      modifies this
      ensures View() == Step(old(View()), Submit(form, canQuery))
      ensures !canQuery ==> View() == old(View()).(live := live) && live == old(live).(error := true)
      ensures canQuery ==>
                && liveEpoch == old(liveEpoch) + 1 && searches == old(searches) + [Resolving(liveEpoch)]
                && live.pending && !live.error && live.result.None? && weekday == "all" && selectedService.None?
                && live.carriers == old(live.carriers) && loads == old(loads)
                && live.originChoices == old(live.originChoices)
                && live.destinationChoices == old(live.destinationChoices)
    {
      if !canQuery {
        live := live.(error := true);
        return;
      }
      FillForm(form);
      liveEpoch := liveEpoch + 1;
      weekday := "all";
      selectedService := None;
      live := live.(pending := true, error := false, result := None);
      searches := searches + [Resolving(liveEpoch)];
    }

    /** `runLive` when both ports have come back. */
    method OnResolved(i: nat, origin: Resolution, destination: Resolution)
      requires i < |searches| && searches[i].Resolving?
      modifies this
      ensures View() == Step(old(View()), Resolved(i, origin, destination))
      ensures old(searches)[i].generation != old(liveEpoch) ==>
                live == old(live) && searches == RemoveAt(old(searches), i)
      ensures var o := if old(live).query.originId == "" then origin else Found(old(live).query.originId);
              var d := if old(live).query.destinationId == "" then destination
                       else Found(old(live).query.destinationId);
              old(searches)[i].generation == old(liveEpoch) ==>
                && live.query == old(live).query.(originId := live.query.originId,
                                                  destinationId := live.query.destinationId)
                && (o.Found? ==> live.query.originId == o.id && live.originChoices == [])
                && (o.Choices? ==> live.query.originId == "" && live.originChoices == o.ids)
                && (d.Found? ==> live.query.destinationId == d.id && live.destinationChoices == [])
                && (d.Choices? ==> live.query.destinationId == "" && live.destinationChoices == d.ids)
                && (if o.Found? && d.Found?
                    then live.pending == old(live).pending && live.error == old(live).error
                         && searches == old(searches)[i := Searching(liveEpoch, live.query)]
                    else !live.pending && live.error && searches == RemoveAt(old(searches), i))
    {
      if searches[i].generation != liveEpoch {
        searches := RemoveAt(searches, i);
        return;
      }
      var o, d := Pinned(live.query.originId, origin), Pinned(live.query.destinationId, destination);
      live := live.(originChoices := ResolvedChoices(o), destinationChoices := ResolvedChoices(d),
                    query := live.query.(originId := ResolvedId(o), destinationId := ResolvedId(d)));
      if o.Choices? || d.Choices? {
        live := live.(pending := false, error := true);
        searches := RemoveAt(searches, i);
        return;
      }
      searches := searches[i := Searching(liveEpoch, live.query)];
    }

    /** `runLive` when the search has come back. */
    method OnAnswered(i: nat, carrierId: string, records: seq<Record>)
      requires i < |searches| && searches[i].Searching?
      modifies this
      ensures View() == Step(old(View()), Answered(i, carrierId, records))
      ensures var search := old(searches)[i];
              live == if search.generation == old(liveEpoch)
                      then old(live).(result := Some(Answer(search.asked, carrierId, records)), pending := false)
                      else old(live)
      ensures searches == RemoveAt(old(searches), i)
    {
      var search := searches[i];
      searches := RemoveAt(searches, i);
      if search.generation == liveEpoch {
        live := live.(result := Some(Answer(search.asked, carrierId, records)));
        live := live.(pending := false);
      }
    }

    method OnSearchFailed(i: nat, aborted: bool)
      requires i < |searches|
      modifies this
      ensures View() == Step(old(View()), SearchFailed(i, aborted))
      ensures searches == RemoveAt(old(searches), i)
      ensures var current := old(searches)[i].generation == old(liveEpoch);
              live == if !current then old(live)
                      else old(live).(pending := false, error := if aborted then old(live).error else true)
      ensures liveEpoch == old(liveEpoch) && weekday == old(weekday) && selectedService == old(selectedService)
    {
      var search := searches[i];
      searches := RemoveAt(searches, i);
      if search.generation == liveEpoch {
        if !aborted {
          live := live.(error := true);
        }
        live := live.(pending := false);
      }
    }

    method OnReset(keep: bool, from: string, until: string)
      modifies this
      ensures View() == Step(old(View()), Reset(keep, from, until))
      ensures Blank() && live.originChoices == [] && live.destinationChoices == []
      ensures live.carriers.None? && !live.carriersPending && !live.carriersRequested
      ensures liveEpoch == old(liveEpoch) + 1 && carriersEpoch == old(carriersEpoch) + 1
      ensures searches == old(searches) && loads == old(loads)
      ensures live.query == if keep then old(live.query).(originId := "", destinationId := "")
                            else Query("ONE", "", "", "", "", from, until, "any", "", "")
    {
      weekday := "all";
      selectedService := None;
      liveEpoch := liveEpoch + 1;
      carriersEpoch := carriersEpoch + 1;
      var q := live.query;
      live := if keep then
        FreshLive(Query(q.carrier, q.originText, q.originCountry, q.destinationText, q.destinationCountry,
                        q.from, q.until, q.routing, "", ""))
      else
        FreshLive(Query("ONE", "", "", "", "", from, until, "any", "", ""));
    }

    method LoadLiveCarriers()
      modifies this
      ensures View() == StartLoad(old(View()))
    {
      if live.carriers.Some? || live.carriersPending {
        return;
      }
      live := live.(carriersPending := true);
      loads := loads + [carriersEpoch];
    }

    method OnRendered(canQuery: bool)
      modifies this
      ensures View() == Step(old(View()), Rendered(canQuery))
      ensures var asks := canQuery && old(live).carriers.None? && !old(live).carriersRequested;
              && live.carriersRequested == (old(live).carriersRequested || asks)
              && loads == (if asks && !old(live).carriersPending then old(loads) + [carriersEpoch] else old(loads))
    {
      if canQuery && live.carriers.None? && !live.carriersRequested {
        live := live.(carriersRequested := true);
        LoadLiveCarriers();
      }
    }

    method OnReloadCarriers()
      modifies this
      ensures View() == Step(old(View()), ReloadCarriers)
      ensures live == old(live).(carriers := None, carriersPending := true, carriersRequested := true, error := false)
      ensures loads == old(loads) + [carriersEpoch]
    {
      live := live.(carriers := None, carriersPending := false, carriersRequested := true, error := false);
      LoadLiveCarriers();
    }

    method OnCarriersLoaded(i: nat, data: Option<seq<Carrier>>)
      requires i < |loads|
      modifies this
      ensures View() == Step(old(View()), CarriersLoaded(i, data))
      ensures loads == RemoveAt(old(loads), i) && searches == old(searches) && liveEpoch == old(liveEpoch)
      ensures old(loads)[i] != old(carriersEpoch) ==> live == old(live)
      ensures old(loads)[i] == old(carriersEpoch) ==>
                && live.carriers == data && !live.carriersPending
                && live == old(live).(carriers := data, carriersPending := false, query := live.query)
                && live.query == old(live.query).(carrier := live.query.carrier)
                && (data.None? ==> live.query.carrier == "")
                && (data.Some? && Carrier(old(live.query.carrier), true) in data.value ==>
                      live.query.carrier == old(live.query.carrier))
                && (data.Some? && Carrier(old(live.query.carrier), true) !in data.value ==>
                      FirstVerifiedIs(data.value, live.query.carrier))
    {
      var generation := loads[i];
      loads := RemoveAt(loads, i);
      if generation != carriersEpoch {
        return;
      }
      live := live.(carriers := data);
      if data.Some? {
        FirstVerifiedMeaning(data.value);
      }
      if !Offers(live.carriers, live.query.carrier) {
        live := live.(query := live.query.(carrier := if data.Some? then FirstVerified(data.value) else ""));
      }
      live := live.(carriersPending := false);
    }

    method OnCarriersFailed(i: nat)
      requires i < |loads|
      modifies this
      ensures View() == Step(old(View()), CarriersFailed(i))
      ensures loads == RemoveAt(old(loads), i)
      ensures live == if old(loads)[i] == carriersEpoch then old(live).(error := true, carriersPending := false)
                      else old(live)
    {
      var generation := loads[i];
      loads := RemoveAt(loads, i);
      if generation == carriersEpoch {
        live := live.(error := true);
        live := live.(carriersPending := false);
      }
    }

    method OnOpenVoyages(index: int)
      modifies this
      ensures View() == Step(old(View()), OpenVoyages(index))
      ensures live == old(live) && weekday == old(weekday)
      ensures selectedService == if 0 <= index < |Services(live)| then Some(index) else old(selectedService)
    {
      var groups: seq<Group> := [];
      if live.result.Some? {
        groups := GroupServices(live.result.value.records, Fallback(live));
      }
      if 0 <= index < |groups| {
        selectedService := Some(index);
      }
    }

    method OnBackToServices()
      modifies this
      ensures View() == Step(old(View()), BackToServices)
      ensures selectedService.None? && live == old(live) && weekday == old(weekday)
    {
      selectedService := None;
    }

    method OnPickWeekday(day: string)
      modifies this
      ensures View() == Step(old(View()), PickWeekday(day))
      ensures live == old(live)
      ensures day in {"all", "unknown", "0", "1", "2", "3", "4", "5", "6"} ==> weekday == day && selectedService.None?
      ensures day !in {"all", "unknown", "0", "1", "2", "3", "4", "5", "6"} ==>
                weekday == old(weekday) && selectedService == old(selectedService)
    {
      if day !in WEEKDAYS {
        return;
      }
      weekday := day;
      selectedService := None;
    }
  }

  // ---- what every run keeps ----

  /** What is shown answers what is asked, and the opened service exists. */
  ghost predicate ShowsCurrentAnswer(p: Page) {
    && (p.live.result.Some? ==> p.live.result.value.asked == p.live.query)
    && (p.selectedService.Some? ==> p.selectedService.value < |Services(p.live)|)
  }

  ghost predicate SearchesInv(p: Page) {
    && (forall i :: 0 <= i < |p.searches| ==> p.searches[i].generation <= p.liveEpoch)
    && (forall i, j :: 0 <= i < j < |p.searches| ==> p.searches[i].generation != p.searches[j].generation)
    && (forall i :: 0 <= i < |p.searches| && p.searches[i].generation == p.liveEpoch ==>
          && p.live.result.None? && p.live.carriers.Some?
          && (p.searches[i].Searching? ==> p.searches[i].asked == p.live.query))
  }

  ghost predicate LoadsInv(p: Page) {
    && (forall i :: 0 <= i < |p.loads| ==> p.loads[i] <= p.carriersEpoch)
    && (forall i, j :: 0 <= i < j < |p.loads| && p.loads[i] == p.carriersEpoch ==> p.loads[j] != p.carriersEpoch)
    && (p.live.carriersPending ==> p.carriersEpoch in p.loads)
    && (p.carriersEpoch in p.loads ==>
          p.live.carriers.None? && p.live.carriersPending && p.live.carriersRequested && !p.live.error)
    && (p.live.error && p.live.carriers.None? ==> p.live.carriersRequested && !p.live.carriersPending)
    && (p.live.result.Some? ==> p.live.carriers.Some?)
  }

  ghost predicate Inv(p: Page) {
    ShowsCurrentAnswer(p) && SearchesInv(p) && LoadsInv(p)
  }

  function Run(p: Page, events: seq<Event>): Page
    decreases |events|
  {
    if events == [] then p else Run(Step(p, events[0]), events[1..])
  }

  predicate AllOffered(p: Page, events: seq<Event>)
    decreases |events|
  {
    events == [] || (Offered(p, events[0]) && AllOffered(Step(p, events[0]), events[1..]))
  }

  lemma ConditionsChange(p: Page, q: Query, a: seq<string>, b: seq<string>)
    requires Inv(p)
    ensures Inv(Abandoned(p, q, a, b))
  {
  }

  lemma SubmitKeepsInv(p: Page, form: Form, canQuery: bool)
    requires Inv(p) && p.live.carriers.Some?
    ensures Inv(AfterSubmit(p, form, canQuery))
  {
  }

  lemma DroppedKeepsInv(p: Page, i: nat)
    requires Inv(p) && i < |p.searches|
    ensures Inv(p.(searches := RemoveAt(p.searches, i)))
    ensures p.searches[i].generation == p.liveEpoch ==>
              forall j :: 0 <= j < |p.searches| - 1 ==> RemoveAt(p.searches, i)[j].generation != p.liveEpoch
  {
    var rest := RemoveAt(p.searches, i);
    assert forall j :: 0 <= j < |rest| ==> rest[j] == p.searches[if j < i then j else j + 1];
  }

  lemma ResolvedInTimeKeepsInv(p: Page, i: nat, origin: Resolution, destination: Resolution)
    requires Inv(p) && i < |p.searches| && p.searches[i].generation == p.liveEpoch
    ensures Inv(ResolvedInTime(p, i, origin, destination))
  {
    DroppedKeepsInv(p, i);
  }

  lemma ResolvedKeepsInv(p: Page, i: nat, origin: Resolution, destination: Resolution)
    requires Inv(p)
    ensures Inv(AfterResolved(p, i, origin, destination))
  {
    if i < |p.searches| && p.searches[i].Resolving? {
      if p.searches[i].generation == p.liveEpoch {
        ResolvedInTimeKeepsInv(p, i, origin, destination);
      } else {
        DroppedKeepsInv(p, i);
      }
    }
  }

  lemma AnsweredKeepsInv(p: Page, i: nat, carrierId: string, records: seq<Record>)
    requires Inv(p)
    ensures Inv(AfterAnswered(p, i, carrierId, records))
  {
    if i < |p.searches| {
      DroppedKeepsInv(p, i);
    }
  }

  lemma FailedKeepsInv(p: Page, i: nat, aborted: bool)
    requires Inv(p)
    ensures Inv(AfterSearchFailed(p, i, aborted))
  {
    if i < |p.searches| {
      DroppedKeepsInv(p, i);
    }
  }

  lemma StartLoadKeepsInv(p: Page)
    requires Inv(p) && p.live.carriersRequested && (p.live.carriers.None? ==> !p.live.error)
    ensures Inv(StartLoad(p))
  {
  }

  lemma EndedKeepsInv(p: Page, i: nat)
    requires Inv(p) && i < |p.loads|
    ensures Inv(p.(loads := RemoveAt(p.loads, i),
                   live := p.live.(carriersPending := p.live.carriersPending && p.loads[i] != p.carriersEpoch)))
    ensures p.loads[i] == p.carriersEpoch ==> p.carriersEpoch !in RemoveAt(p.loads, i)
  {
    var rest := RemoveAt(p.loads, i);
    assert forall j :: 0 <= j < |rest| ==> rest[j] == p.loads[if j < i then j else j + 1];
    if p.carriersEpoch in p.loads && p.loads[i] != p.carriersEpoch {
      var k :| 0 <= k < |p.loads| && p.loads[k] == p.carriersEpoch;
      assert rest[if k < i then k else k - 1] == p.carriersEpoch;
    }
  }

  lemma CarriersLoadedKeepsInv(p: Page, i: nat, data: Option<seq<Carrier>>)
    requires Inv(p)
    ensures Inv(AfterCarriersLoaded(p, i, data))
  {
    if i < |p.loads| {
      EndedKeepsInv(p, i);
    }
  }

  lemma CarriersFailedKeepsInv(p: Page, i: nat)
    requires Inv(p)
    ensures Inv(AfterCarriersFailed(p, i))
  {
    if i < |p.loads| {
      EndedKeepsInv(p, i);
    }
  }

  lemma InputKeepsInv(p: Page, field: Field, form: Form)
    requires Inv(p)
    ensures Inv(AfterInput(p, field, form))
  {
    var q, l := Filled(p.live.query, form), p.live;
    match field
    case CarrierField => ConditionsChange(p, q.(originId := "", destinationId := ""), [], []);
    case OriginField => ConditionsChange(p, q.(originId := "", originCountry := ""), [], l.destinationChoices);
    case OriginCountryField => ConditionsChange(p, q.(originId := ""), [], l.destinationChoices);
    case DestinationField =>
      ConditionsChange(p, q.(destinationId := "", destinationCountry := ""), l.originChoices, []);
    case DestinationCountryField => ConditionsChange(p, q.(destinationId := ""), l.originChoices, []);
    case OtherField => ConditionsChange(p, q, l.originChoices, l.destinationChoices);
  }

  lemma StepKeepsInv(p: Page, e: Event)
    requires Inv(p) && Offered(p, e)
    ensures Inv(Step(p, e))
  {
    match e
    case Input(field, form) => InputKeepsInv(p, field, form);
    case Submit(form, canQuery) => SubmitKeepsInv(p, form, canQuery);
    case Resolved(i, origin, destination) => ResolvedKeepsInv(p, i, origin, destination);
    case Answered(i, carrierId, records) => AnsweredKeepsInv(p, i, carrierId, records);
    case SearchFailed(i, aborted) => FailedKeepsInv(p, i, aborted);
    case Rendered(canQuery) =>
      if canQuery && p.live.carriers.None? && !p.live.carriersRequested {
        StartLoadKeepsInv(p.(live := p.live.(carriersRequested := true)));
      }
    case CarriersLoaded(i, data) => CarriersLoadedKeepsInv(p, i, data);
    case CarriersFailed(i) => CarriersFailedKeepsInv(p, i);
    case ReloadCarriers =>
      StartLoadKeepsInv(p.(live := p.live.(carriers := None, carriersPending := false, carriersRequested := true,
                                           error := false)));
    case _ =>
  }

  /**
   In every interleaving of edits, picks, submits, resets and late answers, a shown result answers
   exactly the conditions shown beside it, and an opened service is one of its services.
   */
  lemma {:induction false} RunShowsCurrentAnswer(p: Page, events: seq<Event>)
    requires Inv(p) && AllOffered(p, events)
    ensures Inv(Run(p, events))
    decreases |events|
  {
    if events != [] {
      StepKeepsInv(p, events[0]);
      RunShowsCurrentAnswer(Step(p, events[0]), events[1..]);
    }
  }

  lemma EveryRunShowsCurrentAnswer(from: string, until: string, events: seq<Event>)
    requires AllOffered(Initial(from, until), events)
    ensures ShowsCurrentAnswer(Run(Initial(from, until), events))
  {
    RunShowsCurrentAnswer(Initial(from, until), events);
  }

  // ---- the guard on submit is needed ----

  lemma RunStep(p: Page, e: Event, rest: seq<Event>)
    ensures Run(p, [e] + rest) == Run(Step(p, e), rest)
    ensures AllOffered(p, [e] + rest) <==> Offered(p, e) && AllOffered(Step(p, e), rest)
  {
    assert ([e] + rest)[1..] == rest;
  }

  /** Some offered run ends with a result beside other conditions than it was asked with. */
  ghost predicate CanMismatch(p: Page) {
    exists events :: AllOffered(p, events) && !ShowsCurrentAnswer(Run(p, events))
  }

  lemma StepTowardsMismatch(p: Page, e: Event)
    requires Offered(p, e) && CanMismatch(Step(p, e))
    ensures CanMismatch(p)
  {
    var events :| AllOffered(Step(p, e), events) && !ShowsCurrentAnswer(Run(Step(p, e), events));
    RunStep(p, e, events);
    assert AllOffered(p, [e] + events);
  }

  /** A result is shown and the carriers are still awaited: a list without its carrier replaces that. */
  lemma LateCarrierReplaced(p: Page, j: nat)
    requires j < |p.loads| && p.loads[j] == p.carriersEpoch
    requires p.live.result.Some? && p.live.result.value.asked == p.live.query
    ensures CanMismatch(p)
  {
    var other := p.live.query.carrier + "!";
    assert |other| == |p.live.query.carrier| + 1;
    var e := CarriersLoaded(j, Some([Carrier(other, true)]));
    assert Carrier(p.live.query.carrier, true) !in [Carrier(other, true)];
    assert AllOffered(Step(p, e), []) && !ShowsCurrentAnswer(Run(Step(p, e), []));
    StepTowardsMismatch(p, e);
  }

  /** Carriers and a search are awaited: the search is answered first. */
  lemma AnsweredBeforeCarriers(p: Page, i: nat, j: nat)
    requires i < |p.searches| && p.searches[i] == Resolving(p.liveEpoch)
    requires j < |p.loads| && p.loads[j] == p.carriersEpoch
    ensures CanMismatch(p)
  {
    var found := Resolved(i, Found("1"), Found("2"));
    var q := Step(p, found);
    assert q.searches[i] == Searching(q.liveEpoch, q.live.query) && q.loads == p.loads;
    LateCarrierReplaced(Step(q, Answered(i, "", [])), j);
    StepTowardsMismatch(q, Answered(i, "", []));
    StepTowardsMismatch(p, found);
  }

  lemma SubmittedWithoutCarriers(p: Page, form: Form)
    requires Inv(p) && p.live.carriers.None?
    ensures CanMismatch(Step(p, Submit(form, true)))
  {
    var q := Step(p, Submit(form, true));
    var i := |p.searches|;
    assert q.searches[i] == Resolving(q.liveEpoch);
    if q.live.carriersPending {
      var j: nat :| j < |q.loads| && q.loads[j] == q.carriersEpoch;
      AnsweredBeforeCarriers(q, i, j);
    } else {
      var r := Step(q, ReloadCarriers);
      assert r.loads[|q.loads|] == r.carriersEpoch && r.searches == q.searches;
      AnsweredBeforeCarriers(r, i, |q.loads|);
      StepTowardsMismatch(q, ReloadCarriers);
    }
  }

  /**
   What the guard on submit is for, in every state that the page reaches: a submit that ignores it can end, by events
   that the page offers, with a result beside another carrier, exactly if no carrier list has arrived.
   */
  lemma UnguardedSubmitMismatches(p: Page, form: Form)
    requires Inv(p)
    ensures CanMismatch(Step(p, Submit(form, true))) <==> p.live.carriers.None?
  {
    if p.live.carriers.None? {
      SubmittedWithoutCarriers(p, form);
    } else {
      SubmitKeepsInv(p, form, true);
      var q := Step(p, Submit(form, true));
      forall events | AllOffered(q, events) ensures ShowsCurrentAnswer(Run(q, events)) {
        RunShowsCurrentAnswer(q, events);
      }
    }
  }

  /** In particular a search submitted right after the first rendering, while the carriers are still loading. */
  lemma SubmitBeforeCarriersBreaksPromise(from: string, until: string, form: Form)
    ensures var p := Step(Initial(from, until), Rendered(true));
            Inv(p) && !Offered(p, Submit(form, true)) && CanMismatch(Step(p, Submit(form, true)))
  {
    var p := Step(Initial(from, until), Rendered(true));
    StepKeepsInv(Initial(from, until), Rendered(true));
    UnguardedSubmitMismatches(p, form);
  }
}
