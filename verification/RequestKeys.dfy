/** Idempotency keys of writes: `mutate` in apps/console/app.js. */
module RequestKeys {
  import opened Lists

  /** Who asks for what: user, organization, path, method, body and scope, as one text. */
  type Fingerprint = string

  type Key = string

  datatype Options = Options(acceptBusiness: bool, keepKeyOnSuccess: bool)

  datatype Flight = Flight(fingerprint: Fingerprint, key: Key, options: Options)

  /** What each event did, for the promise about keys: a send, an answer with its two marks, a logout, or neither. */
  datatype Entry =
    | Sent(fingerprint: Fingerprint, key: Key)
    | Ended(fingerprint: Fingerprint, options: Options, readbackVerified: bool, previewChanged: bool)
    | Cleared
    | Nothing

  datatype Store = Store(requestKeys: map<Fingerprint, Key>, issued: set<Key>, flights: seq<Flight>, log: seq<Entry>)

  datatype Event =
    | Mutate(fingerprint: Fingerprint, options: Options, uuid: Key)
    | Answered(i: nat, readbackVerified: bool, previewChanged: bool)
    | Failed(i: nat)
    | LogoutClear

  const START := Store(map[], {}, [], [])

  /** Whether a successful answer is taken as the confirmed end of the operation. */
  predicate Confirms(options: Options, readbackVerified: bool, previewChanged: bool) {
    !options.keepKeyOnSuccess && (!options.acceptBusiness || readbackVerified || previewChanged)
  }

  function Step(s: Store, e: Event): Store {
    match e
    case Mutate(fingerprint, options, uuid) =>
      var keys := if fingerprint in s.requestKeys then s.requestKeys else s.requestKeys[fingerprint := uuid];
      var issued := if fingerprint in s.requestKeys then s.issued else s.issued + {uuid};
      Store(keys, issued, s.flights + [Flight(fingerprint, keys[fingerprint], options)],
            s.log + [Sent(fingerprint, keys[fingerprint])])
    case Answered(i, readbackVerified, previewChanged) =>
      if i >= |s.flights| then s.(log := s.log + [Nothing])
      else
        var f := s.flights[i];
        s.(requestKeys := if Confirms(f.options, readbackVerified, previewChanged) then s.requestKeys - {f.fingerprint}
                          else s.requestKeys,
           flights := RemoveAt(s.flights, i),
           log := s.log + [Ended(f.fingerprint, f.options, readbackVerified, previewChanged)])
    case Failed(i) =>
      s.(flights := if i >= |s.flights| then s.flights else RemoveAt(s.flights, i), log := s.log + [Nothing])
    case LogoutClear => s.(requestKeys := map[], log := s.log + [Cleared])
  }

  /** The model object's map of keys, updated in place between the awaits of `mutate`. */
  class Model {
    var requestKeys: map<Fingerprint, Key>
    var flights: seq<Flight>
    ghost var issued: set<Key>
    ghost var log: seq<Entry>

    ghost function View(): Store
      reads this
    {
      Store(requestKeys, issued, flights, log)
    }

    constructor ()
      ensures View() == START
    {
      requestKeys, flights, issued, log := map[], [], {}, [];
    }

    /** `mutate` up to its request. */
    method Send(fingerprint: Fingerprint, options: Options, uuid: Key) returns (key: Key)
      modifies this
      ensures View() == Step(old(View()), Mutate(fingerprint, options, uuid))
      ensures flights == old(flights) + [Flight(fingerprint, key, options)]
      ensures fingerprint in old(requestKeys) ==>
                key == old(requestKeys)[fingerprint] && requestKeys == old(requestKeys)
      ensures fingerprint !in old(requestKeys) ==> key == uuid && requestKeys == old(requestKeys)[fingerprint := uuid]
    {
      if fingerprint !in requestKeys {
        requestKeys := requestKeys[fingerprint := uuid];
        issued := issued + {uuid};
      }
      key := requestKeys[fingerprint];
      flights := flights + [Flight(fingerprint, key, options)];
      log := log + [Sent(fingerprint, key)];
    }

    /** `mutate` after a request that came back. */
    method Answer(i: nat, readbackVerified: bool, previewChanged: bool)
      requires i < |flights|
      modifies this
      ensures View() == Step(old(View()), Answered(i, readbackVerified, previewChanged))
      ensures flights == RemoveAt(old(flights), i)
      ensures var f := old(flights)[i];
              requestKeys == if f.options.keepKeyOnSuccess then old(requestKeys)
                             else if f.options.acceptBusiness && !readbackVerified && !previewChanged
                             then old(requestKeys)
                             else old(requestKeys) - {f.fingerprint}
    {
      var f := flights[i];
      flights := RemoveAt(flights, i);
      if f.options.keepKeyOnSuccess {
      } else if !f.options.acceptBusiness || readbackVerified || previewChanged {
        requestKeys := requestKeys - {f.fingerprint};
      }
      log := log + [Ended(f.fingerprint, f.options, readbackVerified, previewChanged)];
    }

    method Fail(i: nat)
      requires i < |flights|
      modifies `flights, `log
      ensures View() == Step(old(View()), Failed(i))
      ensures flights == RemoveAt(old(flights), i)
    {
      flights := RemoveAt(flights, i);
      log := log + [Nothing];
    }

    /** The end of the logout action. */
    method ClearAtLogout()
      modifies `requestKeys, `log
      ensures View() == Step(old(View()), LogoutClear)
      ensures requestKeys == map[]
    {
      requestKeys := map[];
      log := log + [Cleared];
    }
  }

  // ---- every run ----

  function Run(s: Store, events: seq<Event>): Store
    decreases |events|
  {
    if events == [] then s else Run(Step(s, events[0]), events[1..])
  }

  /** The random keys of a run are new when they are drawn. */
  predicate FreshKeys(s: Store, events: seq<Event>)
    decreases |events|
  {
    events == [] || (&& (events[0].Mutate? ==> events[0].uuid !in s.issued)
                     && FreshKeys(Step(s, events[0]), events[1..]))
  }

  /**
   An entry after which a fingerprint's key is not used again: a logout, or an answer to a write of it that need not
   keep its key and, if it is a business write, is read back as verified or changed in its preview.
   */
  predicate GivesUp(e: Entry, fingerprint: Fingerprint) {
    || e.Cleared?
    || (&& e.Ended? && e.fingerprint == fingerprint && !e.options.keepKeyOnSuccess
        && (e.options.acceptBusiness ==> e.readbackVerified || e.previewChanged))
  }

  /** The fingerprint's key was given up somewhere from position i on, before position j. */
  ghost predicate GivenUp(log: seq<Entry>, fingerprint: Fingerprint, i: nat, j: nat)
    requires j <= |log|
  {
    exists m :: i <= m < j && GivesUp(log[m], fingerprint)
  }

  /** Two sends of one fingerprint carry one key exactly if it was not given up between them. */
  ghost predicate SameKeyUntilGivenUp(log: seq<Entry>) {
    forall i, j :: 0 <= i < j < |log| && log[i].Sent? && log[j].Sent? && log[i].fingerprint == log[j].fingerprint ==>
      (log[i].key == log[j].key <==> !GivenUp(log, log[i].fingerprint, i, j))
  }

  /** Different fingerprints never share a key. */
  ghost predicate KeysNotShared(log: seq<Entry>) {
    forall i, j :: 0 <= i < |log| && 0 <= j < |log| && log[i].Sent? && log[j].Sent? && log[i].key == log[j].key ==>
      log[i].fingerprint == log[j].fingerprint
  }

  /** How the stored keys relate to what was sent. */
  ghost predicate KeysInv(s: Store) {
    && (forall i :: 0 <= i < |s.log| && s.log[i].Sent? ==>
          && s.log[i].key in s.issued
          && (!GivenUp(s.log, s.log[i].fingerprint, i, |s.log|) <==>
                s.log[i].fingerprint in s.requestKeys && s.requestKeys[s.log[i].fingerprint] == s.log[i].key))
    && (forall f :: f in s.requestKeys ==> s.requestKeys[f] in s.issued)
    && (forall i, f :: 0 <= i < |s.log| && s.log[i].Sent? && f in s.requestKeys && s.requestKeys[f] == s.log[i].key ==>
          s.log[i].fingerprint == f)
    && (forall f, g :: f in s.requestKeys && g in s.requestKeys && s.requestKeys[f] == s.requestKeys[g] ==> f == g)
  }

  ghost predicate Inv(s: Store) {
    KeysInv(s) && SameKeyUntilGivenUp(s.log) && KeysNotShared(s.log)
  }

  lemma GivenUpExtends(log: seq<Entry>, e: Entry, fingerprint: Fingerprint, i: nat)
    requires i <= |log|
    ensures GivenUp(log + [e], fingerprint, i, |log| + 1) <==>
              GivenUp(log, fingerprint, i, |log|) || GivesUp(e, fingerprint)
    ensures forall j :: i <= j <= |log| ==> (GivenUp(log + [e], fingerprint, i, j) <==> GivenUp(log, fingerprint, i, j))
  {
    var after := log + [e];
    assert forall m :: 0 <= m < |log| ==> after[m] == log[m];
    if GivesUp(e, fingerprint) {
      assert after[|log|] == e;
    }
  }

  lemma LogStepKeepsKeys(s: Store, t: Store, e: Entry)
    requires KeysInv(s) && t.log == s.log + [e] && s.issued <= t.issued && |t.log| == |s.log| + 1
    requires e.Sent? ==> e.fingerprint in t.requestKeys && t.requestKeys[e.fingerprint] == e.key && e.key in t.issued
                         && (e.fingerprint in s.requestKeys ==> t.requestKeys == s.requestKeys)
                         && (e.fingerprint !in s.requestKeys ==>
                               e.key !in s.issued && t.requestKeys == s.requestKeys[e.fingerprint := e.key])
    requires e.Ended? ==>
               t.requestKeys == if GivesUp(e, e.fingerprint) then s.requestKeys - {e.fingerprint} else s.requestKeys
    requires e.Cleared? ==> t.requestKeys == map[]
    requires e.Nothing? ==> t.requestKeys == s.requestKeys
    ensures KeysInv(t)
  {
    forall i | 0 <= i < |t.log| && t.log[i].Sent?
      ensures t.log[i].key in t.issued
      ensures !GivenUp(t.log, t.log[i].fingerprint, i, |t.log|) <==>
                t.log[i].fingerprint in t.requestKeys && t.requestKeys[t.log[i].fingerprint] == t.log[i].key
    {
      GivenUpExtends(s.log, e, t.log[i].fingerprint, i);
      if i < |s.log| {
        assert t.log[i] == s.log[i];
      }
    }
    forall i, f | 0 <= i < |t.log| && t.log[i].Sent? && f in t.requestKeys && t.requestKeys[f] == t.log[i].key
      ensures t.log[i].fingerprint == f
    {
      if i < |s.log| {
        assert t.log[i] == s.log[i];
      }
    }
  }

  lemma SendKeepsPromise(s: Store, t: Store, e: Entry)
    requires Inv(s) && KeysInv(t) && t.log == s.log + [e]
    requires e.Sent? ==> e.fingerprint in t.requestKeys && t.requestKeys[e.fingerprint] == e.key
    ensures Inv(t)
  {
    forall i, j | 0 <= i < j < |t.log| && t.log[i].Sent? && t.log[j].Sent?
                  && t.log[i].fingerprint == t.log[j].fingerprint
      ensures t.log[i].key == t.log[j].key <==> !GivenUp(t.log, t.log[i].fingerprint, i, j)
    {
      GivenUpExtends(s.log, e, t.log[i].fingerprint, i);
      assert t.log[i] == s.log[i];
      if j < |s.log| {
        assert t.log[j] == s.log[j];
      } else {
        assert GivenUp(t.log, t.log[i].fingerprint, i, |t.log|) <==> GivenUp(s.log, t.log[i].fingerprint, i, j);
      }
    }
    forall i, j | 0 <= i < |t.log| && 0 <= j < |t.log| && t.log[i].Sent? && t.log[j].Sent?
                  && t.log[i].key == t.log[j].key
      ensures t.log[i].fingerprint == t.log[j].fingerprint
    {
      if i < |s.log| && j < |s.log| {
        assert t.log[i] == s.log[i] && t.log[j] == s.log[j];
      }
    }
  }

  lemma StepKeepsInv(s: Store, e: Event)
    requires Inv(s) && (e.Mutate? ==> e.uuid !in s.issued)
    ensures Inv(Step(s, e))
  {
    var t := Step(s, e);
    var entry := t.log[|s.log|];
    assert t.log == s.log + [entry];
    LogStepKeepsKeys(s, t, entry);
    SendKeepsPromise(s, t, entry);
  }

  lemma {:induction false} RunKeepsInv(s: Store, events: seq<Event>)
    requires Inv(s) && FreshKeys(s, events)
    ensures Inv(Run(s, events))
    decreases |events|
  {
    if events != [] {
      StepKeepsInv(s, events[0]);
      RunKeepsInv(Step(s, events[0]), events[1..]);
    }
  }

  // ---- the promise in terms of the events ----

  /** The positions of the writes that are still out after these events, in the order in which they were sent. */
  function Pending(events: seq<Event>): seq<nat> {
    if events == [] then []
    else
      var front, e := events[..|events| - 1], events[|events| - 1];
      var out := Pending(front);
      match e
      case Mutate(_, _, _) => out + [|front|]
      case Answered(i, _, _) => if i < |out| then RemoveAt(out, i) else out
      case Failed(i) => if i < |out| then RemoveAt(out, i) else out
      case LogoutClear => out
  }

  /** The store after the first n events. */
  function After(events: seq<Event>, n: nat): Store
    requires n <= |events|
  {
    Run(START, events[..n])
  }

  lemma {:induction false} RunAppend(s: Store, events: seq<Event>, e: Event)
    ensures Run(s, events + [e]) == Step(Run(s, events), e)
    decreases |events|
  {
    if events == [] {
      assert [e][1..] == [] && [] + [e] == [e];
      assert Run(Step(s, e), []) == Step(s, e);
    } else {
      RunAppend(Step(s, events[0]), events[1..], e);
      assert (events + [e])[1..] == events[1..] + [e];
    }
  }

  lemma AfterStep(events: seq<Event>, n: nat)
    requires n < |events|
    ensures After(events, n + 1) == Step(After(events, n), events[n])
  {
    assert events[..n + 1] == events[..n] + [events[n]];
    RunAppend(START, events[..n], events[n]);
  }

  lemma PendingStep(events: seq<Event>, n: nat)
    requires n < |events|
    ensures var out, e := Pending(events[..n]), events[n];
            Pending(events[..n + 1]) ==
              match e
              case Mutate(_, _, _) => out + [n]
              case Answered(i, _, _) => if i < |out| then RemoveAt(out, i) else out
              case Failed(i) => if i < |out| then RemoveAt(out, i) else out
              case LogoutClear => out
  {
    assert events[..n + 1][..n] == events[..n] && events[..n + 1][n] == events[n];
  }

  /** The key that the write at position n goes out with. */
  function KeySent(events: seq<Event>, n: nat): Key
    requires n < |events| && events[n].Mutate?
  {
    AfterStep(events, n);
    var flights := After(events, n + 1).flights;
    flights[|flights| - 1].key
  }

  /**
   The event at position m ends the use of a fingerprint's key: a logout, or an answer to a write of it that may give
   its key up and, if it is a business write, is marked as read back or as changed in its preview.
   */
  predicate EndsUse(events: seq<Event>, m: nat, fingerprint: Fingerprint)
    requires m < |events|
  {
    match events[m]
    case LogoutClear => true
    case Answered(i, readbackVerified, previewChanged) =>
      var out := Pending(events[..m]);
      && i < |out| && out[i] < m
      && var write := events[out[i]];
         && write.Mutate? && write.fingerprint == fingerprint && !write.options.keepKeyOnSuccess
         && (!write.options.acceptBusiness || readbackVerified || previewChanged)
    case _ => false
  }

  /** The flight that the write at position w became. */
  ghost predicate FlightOf(events: seq<Event>, w: nat, flight: Flight) {
    && w < |events| && events[w].Mutate?
    && flight == Flight(events[w].fingerprint, KeySent(events, w), events[w].options)
  }

  /** After n events: the flights are the writes still out, and the history says what each event was. */
  ghost predicate Traced(events: seq<Event>, n: nat)
    requires n <= |events|
  {
    var s := After(events, n);
    && FlightsTraced(events, s.flights, Pending(events[..n])) && |s.log| == n
    && (forall m :: 0 <= m < n ==> TracedEntry(events, m, s.log[m]))
  }

  ghost predicate TracedEntry(events: seq<Event>, m: nat, entry: Entry)
    requires m < |events|
  {
    && (events[m].Mutate? <==> entry.Sent?)
    && (events[m].Mutate? ==> entry == Sent(events[m].fingerprint, KeySent(events, m)))
    && (forall f :: GivesUp(entry, f) <==> EndsUse(events, m, f))
  }

  ghost predicate FlightsTraced(events: seq<Event>, flights: seq<Flight>, out: seq<nat>) {
    |flights| == |out| && forall k :: 0 <= k < |out| ==> FlightOf(events, out[k], flights[k])
  }

  lemma OneGone(events: seq<Event>, flights: seq<Flight>, out: seq<nat>, i: nat)
    requires FlightsTraced(events, flights, out) && i < |out|
    ensures FlightsTraced(events, RemoveAt(flights, i), RemoveAt(out, i))
  {
  }

  lemma FlightsStep(events: seq<Event>, n: nat)
    requires n < |events| && FlightsTraced(events, After(events, n).flights, Pending(events[..n]))
    ensures FlightsTraced(events, After(events, n + 1).flights, Pending(events[..n + 1]))
  {
    var flights, out := After(events, n).flights, Pending(events[..n]);
    AfterStep(events, n);
    PendingStep(events, n);
    match events[n]
    case Mutate(_, _, _) => assert FlightOf(events, n, After(events, n + 1).flights[|flights|]);
    case Answered(i, _, _) =>
      if i < |out| {
        OneGone(events, flights, out, i);
      }
    case Failed(i) =>
      if i < |out| {
        OneGone(events, flights, out, i);
      }
    case LogoutClear =>
  }

  lemma {:induction false} PendingEarlier(events: seq<Event>, n: nat)
    requires n <= |events|
    ensures forall w :: w in Pending(events[..n]) ==> w < n
  {
    if n > 0 {
      PendingEarlier(events, n - 1);
      PendingStep(events, n - 1);
    }
  }

  lemma TracedStep(events: seq<Event>, n: nat)
    requires n < |events| && Traced(events, n)
    ensures Traced(events, n + 1)
  {
    var s, t := After(events, n), After(events, n + 1);
    FlightsStep(events, n);
    EntryTraced(events, n);
    AfterStep(events, n);
    assert t.log == s.log + [t.log[n]];
    forall m | 0 <= m < n + 1 ensures TracedEntry(events, m, t.log[m]) {
      assert m < n ==> t.log[m] == s.log[m];
    }
  }

  lemma EntryTraced(events: seq<Event>, n: nat)
    requires n < |events| && Traced(events, n)
    ensures |After(events, n + 1).log| == n + 1 && TracedEntry(events, n, After(events, n + 1).log[n])
  {
    AfterStep(events, n);
    PendingEarlier(events, n);
    var out := Pending(events[..n]);
    if events[n].Answered? && events[n].i < |out| {
      assert out[events[n].i] in out;
      assert FlightOf(events, out[events[n].i], After(events, n).flights[events[n].i]);
    }
  }

  lemma {:induction false} AlwaysTraced(events: seq<Event>, n: nat)
    requires n <= |events|
    ensures Traced(events, n)
  {
    if n > 0 {
      AlwaysTraced(events, n - 1);
      TracedStep(events, n - 1);
    }
  }

  /**
   Over every interleaving of sends, answers, failures and logouts, two sends of one fingerprint carry the same key
   exactly if no event between them ends its use, and two fingerprints never share a key.
   */
  lemma EveryRunKeepsKeys(events: seq<Event>, i: nat, j: nat)
    requires FreshKeys(START, events) && i < j < |events| && events[i].Mutate? && events[j].Mutate?
    ensures events[i].fingerprint == events[j].fingerprint ==>
              (KeySent(events, i) == KeySent(events, j)
               <==> forall m :: i < m < j ==> !EndsUse(events, m, events[i].fingerprint))
    ensures events[i].fingerprint != events[j].fingerprint ==> KeySent(events, i) != KeySent(events, j)
  {
    RunKeepsInv(START, events);
    TracedRun(events);
    var log := Run(START, events).log;
    assert TracedEntry(events, i, log[i]) && TracedEntry(events, j, log[j]);
    if events[i].fingerprint == events[j].fingerprint {
      UseEndsBetween(events, i, j);
    }
  }

  lemma TracedRun(events: seq<Event>)
    ensures var log := Run(START, events).log;
            |log| == |events| && forall m :: 0 <= m < |events| ==> TracedEntry(events, m, log[m])
  {
    AlwaysTraced(events, |events|);
    assert events[..|events|] == events;
  }

  lemma UseEndsBetween(events: seq<Event>, i: nat, j: nat)
    requires i < j < |events| && events[i].Mutate? && |Run(START, events).log| == |events|
    ensures GivenUp(Run(START, events).log, events[i].fingerprint, i, j)
            <==> exists m :: i < m < j && EndsUse(events, m, events[i].fingerprint)
  {
    TracedRun(events);
    var log, f := Run(START, events).log, events[i].fingerprint;
    assert !GivesUp(log[i], f) by {
      assert TracedEntry(events, i, log[i]);
    }
    forall m | i <= m < j ensures GivesUp(log[m], f) <==> EndsUse(events, m, f) {
      assert TracedEntry(events, m, log[m]);
    }
  }

  // ---- retries ----

  predicate InFlight(s: Store, fingerprint: Fingerprint) {
    exists i :: 0 <= i < |s.flights| && s.flights[i].fingerprint == fingerprint
  }

  /** No twin of a write in flight is sent, and nobody logs out over one. */
  predicate OneAtATime(s: Store, events: seq<Event>)
    decreases |events|
  {
    events == []
    || (&& (events[0].Mutate? ==> !InFlight(s, events[0].fingerprint))
        && (events[0].LogoutClear? ==> s.flights == [])
        && OneAtATime(Step(s, events[0]), events[1..]))
  }

  /** Every write in flight carries the key that a retry of it would carry. */
  ghost predicate RetriesAreSafe(s: Store) {
    && (forall i :: 0 <= i < |s.flights| ==>
          s.flights[i].fingerprint in s.requestKeys && s.requestKeys[s.flights[i].fingerprint] == s.flights[i].key)
    && (forall i, j :: 0 <= i < j < |s.flights| ==> s.flights[i].fingerprint != s.flights[j].fingerprint)
  }

  /** While writes go out one at a time, a write whose outcome is unknown is always retried under its own key. */
  lemma {:induction false} OneAtATimeRetriesSafely(s: Store, events: seq<Event>)
    requires RetriesAreSafe(s) && OneAtATime(s, events)
    ensures RetriesAreSafe(Run(s, events))
    decreases |events|
  {
    if events != [] {
      StepRetriesSafely(s, events[0]);
      OneAtATimeRetriesSafely(Step(s, events[0]), events[1..]);
    }
  }

  lemma StepRetriesSafely(s: Store, e: Event)
    requires RetriesAreSafe(s)
    requires (e.Mutate? ==> !InFlight(s, e.fingerprint)) && (e.LogoutClear? ==> s.flights == [])
    ensures RetriesAreSafe(Step(s, e))
  {
    var t := Step(s, e);
    match e
    case Mutate(fingerprint, options, uuid) =>
      assert forall i :: 0 <= i < |s.flights| ==> t.flights[i] == s.flights[i];
      forall i | 0 <= i < |s.flights| ensures s.flights[i].fingerprint != e.fingerprint {
      }
    case Answered(i, readbackVerified, previewChanged) =>
      if i < |s.flights| {
        FlightGone(s, i);
      }
    case Failed(i) =>
      if i < |s.flights| {
        FlightGone(s, i);
      }
    case LogoutClear =>
  }

  lemma FlightGone(s: Store, i: nat)
    requires RetriesAreSafe(s) && i < |s.flights|
    ensures RetriesAreSafe(s.(flights := RemoveAt(s.flights, i)))
    ensures forall j :: 0 <= j < |s.flights| - 1 ==> RemoveAt(s.flights, i)[j].fingerprint != s.flights[i].fingerprint
  {
    var rest := RemoveAt(s.flights, i);
    forall j | 0 <= j < |rest| ensures rest[j] == s.flights[if j < i then j else j + 1] {
    }
  }

  lemma RunStep(s: Store, e: Event, rest: seq<Event>)
    ensures Run(s, [e] + rest) == Run(Step(s, e), rest)
  {
    assert ([e] + rest)[1..] == rest;
  }

  /** The late twin: one key is given up twice, and between the two a newer send has taken its place. */
  function LateTwin(f: Fingerprint, u1: Key, u2: Key, u3: Key): seq<Event> {
    var o := Options(false, false);
    [Mutate(f, o, u1), Mutate(f, o, u1)] + ([Answered(0, false, false), Mutate(f, o, u2)]
                                            + ([Answered(0, false, false), Mutate(f, o, u3)] + []))
  }

  lemma RunTwo(s: Store, a: Event, b: Event, rest: seq<Event>)
    ensures Run(s, [a, b] + rest) == Run(Step(Step(s, a), b), rest)
  {
    assert [a, b] + rest == [a] + ([b] + rest);
    RunStep(s, a, [b] + rest);
    RunStep(Step(s, a), b, rest);
  }

  /** An answer to the first of two flights gives up the key, and the next send takes a new one. */
  lemma AnswerThenSend(s: Store, f: Fingerprint, k: Key, l: Key, u: Key)
    requires var o := Options(false, false); s.flights == [Flight(f, k, o), Flight(f, l, o)]
    ensures var o := Options(false, false);
            var t := Step(Step(s, Answered(0, false, false)), Mutate(f, o, u));
            t.flights == [Flight(f, l, o), Flight(f, u, o)]
  {
    var o := Options(false, false);
    var t := Step(s, Answered(0, false, false));
    assert t.flights == [Flight(f, l, o)] && f !in t.requestKeys;
  }

  /**
   With two twins in flight this fails: the late answer of the second gives up the key of a newer,
   unanswered send, whose retry then goes out under another key.
   */
  lemma LateTwinGivesUpNewerKey(f: Fingerprint, u1: Key, u2: Key, u3: Key)
    requires u1 != u2 && u2 != u3 && u1 != u3
    ensures var o := Options(false, false);
            && !OneAtATime(START, LateTwin(f, u1, u2, u3))
            && Run(START, LateTwin(f, u1, u2, u3)).flights == [Flight(f, u2, o), Flight(f, u3, o)]
  {
    var o := Options(false, false);
    var send := Mutate(f, o, u1);
    var retry := [Answered(0, false, false), Mutate(f, o, u3)] + [];
    var newer := [Answered(0, false, false), Mutate(f, o, u2)] + retry;
    var s := Step(Step(START, send), send);
    assert s.flights == [Flight(f, u1, o), Flight(f, u1, o)];
    RunTwo(START, send, send, newer);
    AnswerThenSend(s, f, u1, u1, u2);
    RunTwo(s, Answered(0, false, false), Mutate(f, o, u2), retry);
    var t := Step(Step(s, Answered(0, false, false)), Mutate(f, o, u2));
    AnswerThenSend(t, f, u1, u2, u3);
    RunTwo(t, Answered(0, false, false), Mutate(f, o, u3), []);
    TwinsAreNotAlone(START, send, newer);
  }

  lemma TwinsAreNotAlone(s: Store, send: Event, rest: seq<Event>)
    requires send.Mutate?
    ensures !OneAtATime(s, [send, send] + rest)
  {
    var events := [send, send] + rest;
    assert events[0] == send && events[1..] == [send] + rest && events[1..][0] == send;
    var t := Step(s, send);
    assert t.flights[|s.flights|].fingerprint == send.fingerprint;
    assert InFlight(t, send.fingerprint);
  }
}
