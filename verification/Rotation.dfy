/** Rotating a key: the rotation dialog of apps/access-console/app.js. */
module Rotation {
  import opened Lists

  datatype Body = Body(toolNames: seq<string>, expiresInSeconds: int)

  /** The frozen request of one opening of the dialog. */
  datatype Attempt = Attempt(idempotencyKey: string, body: Body)

  /** `pendingRotation`, with the number of the opening it belongs to. */
  datatype Pending = Pending(opening: nat, credentialId: string, attempt: Option<Attempt>, committed: bool,
                             submitting: bool)

  datatype Post = Post(opening: nat, credentialId: string, attempt: Attempt)

  /** Posts sent and posts that committed, in order. */
  datatype Entry = Sent(post: Post) | Committed(post: Post)

  /** readbacks are the credentials whose committed rotation is being read back. */
  datatype Console = Console(pending: Option<Pending>, openings: nat, flights: seq<Post>, readbacks: seq<string>,
                             awaitingReadback: set<string>, issued: set<string>, log: seq<Entry>)

  datatype Event =
    | Open(credentialId: string)
    | Submit(toolNames: seq<string>, expiry: int, uuid: string)
    | Answered(i: nat)
    | Failed(i: nat)
    | ReadbackEnded(i: nat, verified: bool)
    | Close

  const START := Console(None, 0, [], [], {}, {}, [])

  function AfterSubmit(c: Console, toolNames: seq<string>, expiry: int, uuid: string): Console {
    if c.pending.None? || c.pending.value.committed || c.pending.value.submitting then c
    else
      var p := c.pending.value;
      if p.attempt.None? && toolNames == [] then c
      else
        var attempt := if p.attempt.Some? then p.attempt.value else Attempt(uuid, Body(toolNames, expiry));
        var post := Post(p.opening, p.credentialId, attempt);
        c.(pending := Some(p.(attempt := Some(attempt), submitting := true)),
           issued := if p.attempt.Some? then c.issued else c.issued + {uuid},
           flights := c.flights + [post], log := c.log + [Sent(post)])
  }

  /** With no rotation pending, writing the commit throws and so does its handler: nothing more happens. */
  function AfterAnswered(c: Console, i: nat): Console {
    if i >= |c.flights| then c
    else
      var post := c.flights[i];
      var d := c.(flights := RemoveAt(c.flights, i), log := c.log + [Committed(post)]);
      if c.pending.None? then d
      else d.(pending := Some(c.pending.value.(committed := true)),
              awaitingReadback := c.awaitingReadback + {post.credentialId},
              readbacks := c.readbacks + [post.credentialId])
  }

  function Step(c: Console, e: Event): Console {
    match e
    case Open(credentialId) =>
      c.(pending := Some(Pending(c.openings + 1, credentialId, None, false, false)), openings := c.openings + 1)
    case Submit(toolNames, expiry, uuid) => AfterSubmit(c, toolNames, expiry, uuid)
    case Answered(i) => AfterAnswered(c, i)
    case Failed(i) =>
      if i >= |c.flights| then c
      else c.(flights := RemoveAt(c.flights, i),
              pending := if c.pending.None? then None else Some(c.pending.value.(submitting := false)))
    case ReadbackEnded(i, verified) =>
      if i >= |c.readbacks| then c
      else c.(readbacks := RemoveAt(c.readbacks, i), pending := None,
              awaitingReadback := if verified then c.awaitingReadback - {c.readbacks[i]} else c.awaitingReadback)
    case Close => c.(pending := None)
  }

  /** The page's variables, updated step by step. */
  class AccessConsole {
    var pendingRotation: Option<Pending>
    var rotationsAwaitingReadback: set<string>
    var flights: seq<Post>
    var readbacks: seq<string>
    ghost var openings: nat
    ghost var issued: set<string>
    ghost var log: seq<Entry>

    ghost function View(): Console
      reads this
    {
      Console(pendingRotation, openings, flights, readbacks, rotationsAwaitingReadback, issued, log)
    }

    constructor ()
      ensures View() == START
    {
      pendingRotation, rotationsAwaitingReadback, flights, readbacks := None, {}, [], [];
      openings, issued, log := 0, {}, [];
    }

    method OpenRotationDialog(credentialId: string, opening: nat)
      requires opening == openings + 1
      modifies `pendingRotation, `openings
      ensures View() == Step(old(View()), Open(credentialId))
      ensures pendingRotation == Some(Pending(opening, credentialId, None, false, false)) && openings == opening
    {
      pendingRotation := Some(Pending(opening, credentialId, None, false, false));
      openings := openings + 1;
    }

    /** `submitRotation` up to its request, with `lockRotationAttempt`: what one opening has frozen stays frozen. */
    method SubmitRotation(toolNames: seq<string>, expiry: int, uuid: string)
      modifies this
      ensures View() == Step(old(View()), Submit(toolNames, expiry, uuid))
      ensures old(pendingRotation).Some? <==> pendingRotation.Some?
      ensures old(pendingRotation).Some? && old(pendingRotation).value.attempt.Some? ==>
                pendingRotation.value.attempt == old(pendingRotation).value.attempt
      ensures old(pendingRotation).Some? && old(pendingRotation).value.attempt.None? ==>
                pendingRotation.value.attempt == if flights == old(flights) then None
                                                 else Some(Attempt(uuid, Body(toolNames, expiry)))
      ensures flights != old(flights) <==>
                && old(pendingRotation).Some?
                && !old(pendingRotation).value.committed && !old(pendingRotation).value.submitting
                && (old(pendingRotation).value.attempt.Some? || toolNames != [])
      ensures rotationsAwaitingReadback == old(rotationsAwaitingReadback) && readbacks == old(readbacks)
      ensures log == old(log) + (if flights == old(flights) then [] else [Sent(flights[|flights| - 1])])
      ensures flights != old(flights) ==>
                && pendingRotation.Some? && pendingRotation.value.attempt.Some? && pendingRotation.value.submitting
                && flights == old(flights) + [Post(pendingRotation.value.opening, pendingRotation.value.credentialId,
                                                   pendingRotation.value.attempt.value)]
    {
      if pendingRotation.None? || pendingRotation.value.committed || pendingRotation.value.submitting {
        return;
      }
      if pendingRotation.value.attempt.None? {
        if |toolNames| == 0 {
          return;
        }
        pendingRotation := Some(pendingRotation.value.(attempt := Some(Attempt(uuid, Body(toolNames, expiry)))));
        issued := issued + {uuid};
      }
      pendingRotation := Some(pendingRotation.value.(submitting := true));
      var p := pendingRotation.value;
      flights := flights + [Post(p.opening, p.credentialId, p.attempt.value)];
      log := log + [Sent(Post(p.opening, p.credentialId, p.attempt.value))];
    }

    /** `submitRotation` when its request has succeeded. */
    method OnAnswered(i: nat)
      requires i < |flights|
      modifies this
      ensures View() == Step(old(View()), Answered(i))
      ensures flights == RemoveAt(old(flights), i) && log == old(log) + [Committed(old(flights)[i])]
      ensures old(pendingRotation).None? ==>
                && pendingRotation.None? && readbacks == old(readbacks)
                && rotationsAwaitingReadback == old(rotationsAwaitingReadback)
      ensures old(pendingRotation).Some? ==>
                var credentialId := old(flights)[i].credentialId;
                && pendingRotation == Some(old(pendingRotation).value.(committed := true))
                && readbacks == old(readbacks) + [credentialId]
                && rotationsAwaitingReadback == old(rotationsAwaitingReadback) + {credentialId}
    {
      var post := flights[i];
      flights := RemoveAt(flights, i);
      log := log + [Committed(post)];
      if pendingRotation.Some? {
        pendingRotation := Some(pendingRotation.value.(committed := true));
        rotationsAwaitingReadback := rotationsAwaitingReadback + {post.credentialId};
        readbacks := readbacks + [post.credentialId];
      }
    }

    method OnFailed(i: nat)
      requires i < |flights|
      modifies this
      ensures View() == Step(old(View()), Failed(i))
      ensures flights == RemoveAt(old(flights), i) && log == old(log)
      ensures old(pendingRotation).None? ==> pendingRotation.None?
      ensures old(pendingRotation).Some? ==> pendingRotation == Some(old(pendingRotation).value.(submitting := false))
    {
      flights := RemoveAt(flights, i);
      if pendingRotation.Some? {
        pendingRotation := Some(pendingRotation.value.(submitting := false));
      }
    }

    /** `submitRotation` when the state has been read back, or could not be: the dialog closes. */
    method OnReadbackEnded(i: nat, verified: bool)
      requires i < |readbacks|
      modifies this
      ensures View() == Step(old(View()), ReadbackEnded(i, verified))
      ensures pendingRotation.None? && flights == old(flights) && readbacks == RemoveAt(old(readbacks), i)
      ensures rotationsAwaitingReadback
              == old(rotationsAwaitingReadback) - (if verified then {old(readbacks)[i]} else {})
    {
      var credentialId := readbacks[i];
      readbacks := RemoveAt(readbacks, i);
      if verified {
        rotationsAwaitingReadback := rotationsAwaitingReadback - {credentialId};
      }
      pendingRotation := None;
    }

    /** The handler of the dialog's close event. */
    method OnClose()
      modifies `pendingRotation
      ensures View() == Step(old(View()), Close)
      ensures pendingRotation.None?
    {
      pendingRotation := None;
    }
  }

  // ---- every run ----

  function Run(c: Console, events: seq<Event>): Console
    decreases |events|
  {
    if events == [] then c else Run(Step(c, events[0]), events[1..])
  }

  predicate FreshKeys(c: Console, events: seq<Event>)
    decreases |events|
  {
    events == [] || (&& (events[0].Submit? ==> events[0].uuid !in c.issued)
                     && FreshKeys(Step(c, events[0]), events[1..]))
  }

  /** One opening sends one key with one body for one credential, and nothing after its commit. */
  ghost predicate OneRequestPerOpening(log: seq<Entry>) {
    && (forall i, j :: 0 <= i < |log| && 0 <= j < |log| && log[i].post.opening == log[j].post.opening ==>
          log[i].post == log[j].post)
    && (forall i, j :: 0 <= i < |log| && 0 <= j < |log|
                       && log[i].post.attempt.idempotencyKey == log[j].post.attempt.idempotencyKey ==>
          log[i].post.opening == log[j].post.opening)
    && (forall i, j :: 0 <= i < j < |log| && log[i].Committed? && log[j].Sent? ==>
          log[i].post.opening != log[j].post.opening)
  }

  ghost predicate Known(c: Console, post: Post) {
    && 1 <= post.opening <= c.openings && post.attempt.idempotencyKey in c.issued
    && (c.pending.Some? && c.pending.value.opening == post.opening ==>
          c.pending.value.attempt == Some(post.attempt) && c.pending.value.credentialId == post.credentialId)
  }

  ghost predicate LogInv(c: Console) {
    && OneRequestPerOpening(c.log)
    && (forall i :: 0 <= i < |c.log| ==> Known(c, c.log[i].post))
    && (forall i :: 0 <= i < |c.flights| ==> Sent(c.flights[i]) in c.log)
    && (c.pending.Some? ==> 1 <= c.pending.value.opening <= c.openings)
    && (forall i :: 0 <= i < |c.log| && c.log[i].Committed? ==>
          (c.pending.Some? && c.pending.value.opening == c.log[i].post.opening ==> c.pending.value.committed))
    && (c.pending.Some? && c.pending.value.attempt.Some? ==>
          exists i :: 0 <= i < |c.log| && c.log[i].post.opening == c.pending.value.opening)
  }

  lemma AppendKeepsRequests(log: seq<Entry>, e: Entry)
    requires OneRequestPerOpening(log)
    requires forall i :: 0 <= i < |log| ==>
               && (log[i].post.opening == e.post.opening ==> log[i].post == e.post)
               && (log[i].post.attempt.idempotencyKey == e.post.attempt.idempotencyKey ==>
                     log[i].post.opening == e.post.opening)
               && (log[i].Committed? && e.Sent? ==> log[i].post.opening != e.post.opening)
    ensures OneRequestPerOpening(log + [e])
  {
    var after := log + [e];
    assert forall i :: 0 <= i < |log| ==> after[i] == log[i];
  }

  lemma SubmitKeepsLog(c: Console, toolNames: seq<string>, expiry: int, uuid: string)
    requires LogInv(c) && uuid !in c.issued
    ensures LogInv(AfterSubmit(c, toolNames, expiry, uuid))
  {
    var d := AfterSubmit(c, toolNames, expiry, uuid);
    if d != c {
      var e := d.log[|c.log|];
      assert d.log == c.log + [e];
      AppendKeepsRequests(c.log, e);
      forall i | 0 <= i < |d.log| ensures Known(d, d.log[i].post) {
        if i < |c.log| {
          assert d.log[i] == c.log[i] && Known(c, c.log[i].post);
        }
      }
      forall i | 0 <= i < |d.flights| ensures Sent(d.flights[i]) in d.log {
        if i < |c.flights| {
          assert d.flights[i] == c.flights[i];
        } else {
          assert d.log[|c.log|] == Sent(d.flights[i]);
        }
      }
      assert d.log[|c.log|].post.opening == d.pending.value.opening;
    }
  }

  lemma AnsweredKeepsLog(c: Console, i: nat)
    requires LogInv(c) && i < |c.flights|
    ensures LogInv(AfterAnswered(c, i))
  {
    var d := AfterAnswered(c, i);
    var e := Committed(c.flights[i]);
    assert d.log == c.log + [e];
    assert Sent(c.flights[i]) in c.log;
    var k :| 0 <= k < |c.log| && c.log[k] == Sent(c.flights[i]);
    assert Known(c, c.log[k].post);
    AppendKeepsRequests(c.log, e);
    forall j | 0 <= j < |d.log| ensures Known(d, d.log[j].post) {
      if j < |c.log| {
        assert d.log[j] == c.log[j] && Known(c, c.log[j].post);
      }
    }
    assert forall j :: 0 <= j < |c.log| ==> d.log[j] == c.log[j];
    forall j | 0 <= j < |d.flights| ensures Sent(d.flights[j]) in d.log {
      assert d.flights[j] == c.flights[if j < i then j else j + 1];
    }
    if d.pending.Some? && d.pending.value.attempt.Some? {
      var m :| 0 <= m < |c.log| && c.log[m].post.opening == c.pending.value.opening;
      assert d.log[m].post.opening == d.pending.value.opening;
    }
  }

  lemma StepKeepsLog(c: Console, e: Event)
    requires LogInv(c) && (e.Submit? ==> e.uuid !in c.issued)
    ensures LogInv(Step(c, e))
  {
    var d := Step(c, e);
    match e
    case Submit(toolNames, expiry, uuid) => SubmitKeepsLog(c, toolNames, expiry, uuid);
    case Answered(i) =>
      if i < |c.flights| {
        AnsweredKeepsLog(c, i);
      }
    case Open(credentialId) => QuietStepKeepsLog(c, d);
    case Close => QuietStepKeepsLog(c, d);
    case ReadbackEnded(i, verified) => QuietStepKeepsLog(c, d);
    case Failed(i) => QuietStepKeepsLog(c, d);
  }

  /** A step that logs nothing: the dialog goes on, closes or opens anew, and flights may end. */
  lemma QuietStepKeepsLog(c: Console, d: Console)
    requires LogInv(c) && d.log == c.log && d.issued == c.issued && c.openings <= d.openings
    requires forall i :: 0 <= i < |d.flights| ==> d.flights[i] in c.flights
    requires d.pending.Some? ==>
               || (d.pending.value.opening == d.openings == c.openings + 1 && d.pending.value.attempt.None?)
               || (c.pending.Some? && d.openings == c.openings
                   && d.pending.value == c.pending.value.(submitting := d.pending.value.submitting))
    ensures LogInv(d)
  {
    forall j | 0 <= j < |d.log| ensures Known(d, d.log[j].post) {
      assert Known(c, c.log[j].post);
    }
  }

  /**
   From every state that the page can be in: all posts of one opening of the dialog carry the same key and the same
   frozen body, through any failures and retries, two openings never share a key, and no post follows the commit
   of its opening.
   */
  lemma {:induction false} EveryRunFreezesRequests(c: Console, events: seq<Event>)
    requires LogInv(c) && FreshKeys(c, events)
    ensures LogInv(Run(c, events)) && OneRequestPerOpening(Run(c, events).log)
    decreases |events|
  {
    if events != [] {
      StepKeepsLog(c, events[0]);
      EveryRunFreezesRequests(Step(c, events[0]), events[1..]);
    }
  }

  // ---- one request at a time ----

  /** The page is busy with a request, or with reading its outcome back. */
  predicate MidRequest(c: Console) {
    c.pending.Some? && c.pending.value.submitting
  }

  /** Opening needs a closed dialog, and the dialog is not closed mid-request. */
  predicate Patient(c: Console, e: Event) {
    (e.Open? ==> c.pending.None?) && (e.Close? ==> !MidRequest(c))
  }

  predicate AllPatient(c: Console, events: seq<Event>)
    decreases |events|
  {
    events == [] || (Patient(c, events[0]) && AllPatient(Step(c, events[0]), events[1..]))
  }

  ghost predicate OneAtATime(c: Console) {
    && |c.flights| + |c.readbacks| <= 1
    && (|c.flights| + |c.readbacks| == 1 <==> MidRequest(c))
    && (c.flights != [] ==> c.flights[0].opening == c.pending.value.opening && !c.pending.value.committed)
    && (c.pending.Some? && c.pending.value.committed ==> |c.readbacks| == 1)
  }

  lemma PatientStep(c: Console, e: Event)
    requires OneAtATime(c) && Patient(c, e)
    ensures OneAtATime(Step(c, e))
  {
    match e
    case Open(credentialId) =>
    case Submit(toolNames, expiry, uuid) =>
    case Answered(i) =>
    case Failed(i) =>
    case ReadbackEnded(i, verified) =>
    case Close =>
  }

  /** While nobody closes the dialog mid-request, at most one request is in flight, and it is the dialog's own. */
  lemma {:induction false} PatientRunsSendOneAtATime(c: Console, events: seq<Event>)
    requires OneAtATime(c) && AllPatient(c, events)
    ensures OneAtATime(Run(c, events))
    decreases |events|
  {
    if events != [] {
      PatientStep(c, events[0]);
      PatientRunsSendOneAtATime(Step(c, events[0]), events[1..]);
    }
  }

  /** Both promises for every run of the page, from its start on. */
  lemma FromStart(events: seq<Event>)
    requires FreshKeys(START, events)
    ensures OneRequestPerOpening(Run(START, events).log)
    ensures AllPatient(START, events) ==> |Run(START, events).flights| <= 1
  {
    EveryRunFreezesRequests(START, events);
    if AllPatient(START, events) {
      PatientRunsSendOneAtATime(START, events);
    }
  }

  lemma RunStep(c: Console, e: Event, rest: seq<Event>)
    ensures Run(c, [e] + rest) == Run(Step(c, e), rest)
  {
    assert ([e] + rest)[1..] == rest;
  }

  lemma RunTwo(c: Console, a: Event, b: Event)
    ensures Run(c, [a, b]) == Step(Step(c, a), b)
  {
    assert [a, b] == [a] + ([b] + []);
    RunStep(c, a, [b] + []);
    RunStep(Step(c, a), b, []);
  }

  /** Patient, and with keys that are new. */
  predicate Allowed(c: Console, events: seq<Event>) {
    AllPatient(c, events) && FreshKeys(c, events)
  }

  /** After closing the dialog, at once opened and submitted anew: one more request is out than before. */
  lemma ReopenedSendsAnother(c: Console, b: string, tools: seq<string>, expiry: int, v: string)
    requires tools != []
    ensures var d := Step(c, Close);
            && (v !in c.issued ==> Allowed(d, [Open(b), Submit(tools, expiry, v)]))
            && |Run(d, [Open(b), Submit(tools, expiry, v)]).flights| == |c.flights| + 1
            && Run(d, [Open(b), Submit(tools, expiry, v)]).readbacks == c.readbacks
  {
    var d, open, submit := Step(c, Close), Open(b), Submit(tools, expiry, v);
    RunTwo(d, open, submit);
    assert [open, submit][1..] == [submit] && [submit][1..] == [];
    assert Allowed(Step(Step(d, open), submit), []);
    assert v !in c.issued ==> Allowed(Step(d, open), [submit]);
  }

  lemma {:induction false} AllowedConcat(c: Console, a: seq<Event>, b: seq<Event>)
    requires Allowed(c, a) && Allowed(Run(c, a), b)
    ensures Allowed(c, a + b) && Run(c, a + b) == Run(Run(c, a), b)
    decreases |a|
  {
    if a == [] {
      assert a + b == b;
    } else {
      AllowedConcat(Step(c, a[0]), a[1..], b);
      assert (a + b)[1..] == a[1..] + b;
    }
  }

  lemma {:induction false} LongerThanAll(keys: set<string>) returns (n: nat)
    ensures forall k :: k in keys ==> |k| < n
    decreases |keys|
  {
    n := 0;
    if keys != {} {
      var k :| k in keys;
      var m := LongerThanAll(keys - {k});
      n := if m > |k| then m else |k| + 1;
    }
  }

  lemma NewKey(keys: set<string>) returns (u: string)
    ensures u !in keys
  {
    var n := LongerThanAll(keys);
    u := seq(n, _ => 'u');
  }

  /** Some allowed run has two requests out at once. */
  ghost predicate CanSendTwo(c: Console) {
    exists events :: Allowed(c, events) && |Run(c, events).flights| > 1
  }

  lemma ReadbackThenTwo(c: Console)
    requires c.pending.None? && c.flights == [] && |c.readbacks| == 1
    ensures CanSendTwo(c)
  {
    var u := NewKey(c.issued);
    var first, ended := [Open("c"), Submit(["t"], 1, u)], [ReadbackEnded(0, true)];
    assert Step(c, Close) == c;
    ReopenedSendsAnother(c, "c", ["t"], 1, u);
    var d := Run(c, first);
    var e := Step(d, ended[0]);
    assert e.pending.None? && |e.flights| == 1 && Step(e, Close) == e;
    var v := NewKey(e.issued);
    var second := [Open("c"), Submit(["t"], 1, v)];
    ReopenedSendsAnother(e, "c", ["t"], 1, v);
    assert ended[1..] == [] && Allowed(e, []) && Allowed(d, ended);
    assert Run(e, []) == e && Run(d, ended) == e;
    AllowedConcat(d, ended, second);
    AllowedConcat(c, first, ended + second);
    assert Allowed(c, first + (ended + second));
  }

  /**
   The exact cost of closing, in every state that patient runs reach: closing the dialog lets two requests
   out at once, however patient the run after it is, exactly if it is closed mid-request.
   */
  lemma ClosingSendsTwoExactlyMidRequest(c: Console)
    requires OneAtATime(c)
    ensures CanSendTwo(Step(c, Close)) <==> MidRequest(c)
  {
    var d := Step(c, Close);
    if MidRequest(c) {
      if c.flights == [] {
        ReadbackThenTwo(d);
      } else {
        var u := NewKey(c.issued);
        ReopenedSendsAnother(c, "c", ["t"], 1, u);
        assert Allowed(d, [Open("c"), Submit(["t"], 1, u)]);
      }
    } else {
      PatientStep(c, Close);
      forall events | AllPatient(d, events) ensures |Run(d, events).flights| <= 1 {
        PatientRunsSendOneAtATime(d, events);
      }
    }
  }

  /** Reopened and submitted at once, two are out exactly if a request was in flight when the dialog was closed. */
  lemma ClosingMidRequestSendsTwo(c: Console, b: string, tools: seq<string>, expiry: int, v: string)
    requires OneAtATime(c) && tools != []
    ensures |Run(Step(c, Close), [Open(b), Submit(tools, expiry, v)]).flights| == 2 <==> c.flights != []
  {
    ReopenedSendsAnother(c, b, tools, expiry, v);
  }

  /**
   Closing while a commit is being read back is mid-request too: the end of the readback then closes
   the next dialog, and with it the only trace of that dialog's own request in flight.
   */
  lemma ClosingDuringReadbackDropsNext(c: Console, b: string, tools: seq<string>, v: string, verified: bool)
    requires c.pending.Some? && c.pending.value.committed && c.flights == [] && |c.readbacks| == 1 && tools != []
    ensures var d := Step(Step(Step(c, Close), Open(b)), Submit(tools, 1, v));
            && MidRequest(d) && |d.flights| == 1
            && Step(d, ReadbackEnded(0, verified)).pending == None
            && |Step(d, ReadbackEnded(0, verified)).flights| == 1
  {
  }
}
