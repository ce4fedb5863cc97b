/** Previews of a release, how long they may be used, and the envelope that delivers one. */
module Previews {
  import opened Lists
  import opened ModuleRefs
  import opened Timestamps

  datatype Validation = Validation(baseMatches: bool, desiredModulesValid: bool, inventoryMatches: bool,
                                   minimumActiveModules: bool, reasonCodes: seq<string>)

  datatype Preview = Preview(previewRef: string, desiredModules: seq<Ref>, diff: Diff, validation: Validation,
                             creatorActorRef: string, createdAt: string, expiresAt: string, consumed: bool)

  // ---- the clock ----

  /** A JavaScript number used as a clock reading. */
  datatype Clock = Finite(ms: real) | NotFinite

  function Trunc(x: real): int {
    if x >= 0.0 then x.Floor else -(-x).Floor
  }

  /** `epochMillisecondsToNanoseconds` */
  function ClockNanoseconds(now: Clock): Option<int> {
    if now.NotFinite? then None
    else
      var whole := Trunc(now.ms);
      if !SafeInteger(whole) then None
      else
        var part := Trunc((now.ms - whole as real) * 1_000_000.0);
        if !SafeInteger(part) then None else Some(whole * NANOS_PER_MILLISECOND + part)
  }

  /** Splitting off the whole milliseconds first loses nothing: the reading is the truncated nanosecond count. */
  lemma ClockIsTruncatedNanoseconds(ms: real)
    ensures ClockNanoseconds(Finite(ms))
            == if SafeInteger(Trunc(ms)) then Some(Trunc(ms * 1_000_000.0)) else None
  {
    var whole := Trunc(ms);
    var rest := ms - whole as real;
    assert -1.0 < rest < 1.0;
    assert ms * 1_000_000.0 == (whole * 1_000_000) as real + rest * 1_000_000.0;
    if ms >= 0.0 {
      FloorShift(whole * 1_000_000, rest * 1_000_000.0);
    } else {
      FloorShift(-whole * 1_000_000, -rest * 1_000_000.0);
    }
  }

  lemma FloorShift(n: int, x: real)
    ensures (n as real + x).Floor == n + x.Floor
  {
  }

  // ---- usability ----

  predicate FlagsPassed(v: Validation) {
    v.baseMatches && v.desiredModulesValid && v.inventoryMatches && v.minimumActiveModules
  }

  /** `isPreviewUsable`; None is null. */
  predicate IsPreviewUsable(preview: Option<Preview>, now: Clock) {
    && preview.Some? && !preview.value.consumed && now.Finite?
    && FlagsPassed(preview.value.validation) && preview.value.validation.reasonCodes == []
    && var expiry, reading := ParseNanoseconds(preview.value.expiresAt), ClockNanoseconds(now);
       expiry.Some? && reading.Some? && reading.value < expiry.value
  }

  // ---- the envelope of deployments.preview ----

  datatype Status = Success | NeedsInput | ManualReview | Blocked | Unavailable

  datatype Intent = Change | Rollback

  /** `data` of an envelope. A preview that lacks a field, or whose expiry is null, is Partial. */
  datatype Data = NoData | OtherKind | Partial
                | PreviewData(preview: Preview, intent: Intent, baseReleaseId: Option<string>, baseRevision: nat,
                              targetReleaseId: Option<string>)

  datatype Envelope = Envelope(status: Status, data: Data, reasonCodes: seq<string>, readbackApplies: bool)

  const MAX_REASON_CODES := 32

  predicate ReasonCodes(codes: seq<string>) {
    |codes| <= MAX_REASON_CODES && forall i :: 0 <= i < |codes| ==> Identifier(codes[i])
  }

  predicate NullableIdentifier(s: Option<string>) {
    s.None? || Identifier(s.value)
  }

  /** The field checks of `validateControlEnvelope` on preview data. */
  predicate FieldsValid(e: Envelope) {
    && ReasonCodes(e.reasonCodes)
    && (e.data.PreviewData? ==>
          var p := e.data.preview;
          && Identifier(p.previewRef) && Identifier(p.creatorActorRef)
          && NullableIdentifier(e.data.baseReleaseId) && NullableIdentifier(e.data.targetReleaseId)
          && ValidRefs(p.desiredModules, true)
          && ValidRefs(p.diff.added, true) && ValidRefs(p.diff.removed, true) && ValidRefs(p.diff.retained, true)
          && ReasonCodes(p.validation.reasonCodes)
          && Split(p.createdAt).Some? && Split(p.expiresAt).Some?)
  }

  /** `identifierSetsEqual` */
  predicate SetsEqual(left: seq<string>, right: seq<string>) {
    && |left| == |right| && |Elements(left)| == |left| && |Elements(right)| == |right|
    && forall x :: x in left ==> x in right
  }

  /** Two reason lists agree exactly when neither repeats a code and one is a permutation of the other. */
  lemma SetsEqualIsPermutation(left: seq<string>, right: seq<string>)
    ensures SetsEqual(left, right) <==> Distinct(left) && Distinct(right) && multiset(left) == multiset(right)
  {
    SizeTestIsDistinct(left);
    SizeTestIsDistinct(right);
    if SetsEqual(left, right) {
      SameSizeInclusion(left, right);
    }
    if multiset(left) == multiset(right) {
      assert |left| == |multiset(left)| == |multiset(right)| == |right|;
      forall x | x in left ensures x in right {
        assert x in multiset(left);
      }
    }
  }

  /** The preview branch of `validateControlActionEnvelope`; false is a thrown error. */
  predicate PreviewActionValid(e: Envelope) {
    if e.status.Blocked? || e.status.Unavailable? then
      e.data.NoData? && e.reasonCodes != [] && !e.readbackApplies
    else if !e.data.PreviewData? || !(e.status.Success? || e.status.NeedsInput?) then false
    else
      var p, v := e.data.preview, e.data.preview.validation;
      && p.desiredModules != [] && !p.consumed && !e.readbackApplies
      && (e.data.baseReleaseId.None? <==> e.data.baseRevision == 0)
      && (e.data.intent.Change? <==> e.data.targetReleaseId.None?)
      && CreatedFirst(p.createdAt, p.expiresAt)
      && None !in LogicalKeys(p.desiredModules)
      && |Elements(LogicalKeys(p.desiredModules))| == |p.desiredModules|
      && DiffIsClosed(p.desiredModules, p.diff)
      && (if e.status.Success? then
            e.reasonCodes == [] && FlagsPassed(v) && v.reasonCodes == []
          else
            !FlagsPassed(v) && v.reasonCodes != [] && SetsEqual(e.reasonCodes, v.reasonCodes))
  }

  predicate CreatedFirst(created: string, expires: string) {
    var c, x := ParseNanoseconds(created), ParseNanoseconds(expires);
    c.Some? && x.Some? && c.value < x.value
  }

  datatype Response = Delivered(preview: Preview) | Failed(status: Status)

  /** `responseData` for deployments.preview. */
  function PreviewResponse(e: Envelope, fallback: Status, responseOk: bool): Response {
    if !FieldsValid(e) || !PreviewActionValid(e) then Failed(fallback)
    else
      var status := if !responseOk && e.status.Success? then fallback else e.status;
      if !status.Success? then Failed(status)
      else if e.data.PreviewData? then Delivered(e.data.preview)
      else Failed(fallback)
  }

  /** What a caller of the client can rely on. The fallback is never success. */
  lemma DeliveredPreview(e: Envelope, fallback: Status, responseOk: bool)
    requires fallback.Unavailable? || fallback.Blocked?
    ensures PreviewResponse(e, fallback, responseOk).Delivered? <==>
              responseOk && e.status.Success? && FieldsValid(e) && PreviewActionValid(e)
    ensures PreviewResponse(e, fallback, responseOk).Delivered? ==>
              var p := PreviewResponse(e, fallback, responseOk).preview;
              && Split(p.createdAt).Some? && Split(p.expiresAt).Some? && Created(p) < Expiry(p)
              && Closed(p.diff.added + p.diff.removed + p.diff.retained)
              && multiset(p.desiredModules) == multiset(p.diff.added + p.diff.retained)
  {
    if PreviewResponse(e, fallback, responseOk).Delivered? {
      var p := e.data.preview;
      ParseIsInstant(p.createdAt);
      ParseIsInstant(p.expiresAt);
      DiffIsClosedMeaning(p.desiredModules, p.diff);
    }
  }

  function Created(p: Preview): int
    requires Split(p.createdAt).Some?
  {
    Instant(Split(p.createdAt).value)
  }

  function Expiry(p: Preview): int
    requires Split(p.expiresAt).Some?
  {
    Instant(Split(p.expiresAt).value)
  }

  lemma TruncBelow(x: real, n: int)
    ensures x >= 0.0 ==> (Trunc(x) < n <==> x < n as real)
    ensures x < 0.0 ==> (Trunc(x) < n <==> x <= (n - 1) as real)
  {
  }

  /** What is left of a delivered preview's checks when its use is decided. */
  predicate Sound(p: Preview) {
    && !p.consumed && FlagsPassed(p.validation) && p.validation.reasonCodes == []
    && Split(p.createdAt).Some? && Split(p.expiresAt).Some? && Created(p) < Expiry(p)
  }

  lemma DeliveredIsSound(e: Envelope, fallback: Status, responseOk: bool)
    requires fallback.Unavailable? || fallback.Blocked?
    requires PreviewResponse(e, fallback, responseOk).Delivered?
    ensures Sound(PreviewResponse(e, fallback, responseOk).preview)
  {
    DeliveredPreview(e, fallback, responseOk);
  }

  /** Truncation and the safe-integer test together. */
  lemma UsableByTruncation(p: Preview, ms: real)
    requires Sound(p)
    ensures IsPreviewUsable(Some(p), Finite(ms)) <==>
              SafeInteger(Trunc(ms)) && Trunc(ms * 1_000_000.0) < Expiry(p)
    ensures Expiry(p) < 254_000_000_000 * 1_000_000_000
  {
    ParseIsInstant(p.expiresAt);
    ClockIsTruncatedNanoseconds(ms);
  }

  /** Every demand on a preview that is used now, in its own fields: unused, flawless, and not expired. */
  ghost predicate UsableNow(p: Preview, now: Clock) {
    && !p.consumed
    && p.validation.baseMatches && p.validation.desiredModulesValid
    && p.validation.inventoryMatches && p.validation.minimumActiveModules
    && |p.validation.reasonCodes| == 0
    && Split(p.expiresAt).Some? && now.Finite?
    && (now.ms >= 0.0 ==> now.ms * 1_000_000.0 < Expiry(p) as real)
    && (now.ms < 0.0 ==>
          -9007199254740992.0 < now.ms && now.ms * 1_000_000.0 <= (Expiry(p) - 1) as real)
  }

  /** The page's test demands exactly that, of every preview and at every clock reading. */
  lemma UsableExactlyNow(p: Preview, now: Clock)
    ensures IsPreviewUsable(Some(p), now) <==> UsableNow(p, now)
  {
    ParseIsInstant(p.expiresAt);
    if Split(p.expiresAt).Some? && now.Finite? {
      ClockIsTruncatedNanoseconds(now.ms);
      TruncBelow(now.ms * 1_000_000.0, Expiry(p));
      if now.ms >= 0.0 && !SafeInteger(Trunc(now.ms)) {
        assert now.ms > MAX_SAFE as real;
      }
    }
  }

  /**
   A sound preview is usable exactly until it expires, at every clock reading from the epoch on,
   however fine; readings too large to hold are all past the expiry.
   */
  lemma UsableExactlyUntilExpiry(p: Preview, ms: real)
    requires Sound(p) && ms >= 0.0
    ensures IsPreviewUsable(Some(p), Finite(ms)) <==> ms * 1_000_000.0 < Expiry(p) as real
  {
    UsableByTruncation(p, ms);
    TruncBelow(ms * 1_000_000.0, Expiry(p));
    if !SafeInteger(Trunc(ms)) {
      assert ms > MAX_SAFE as real;
    }
  }

  /**
   Before the epoch truncation rounds up, so a preview stops being usable within its last
   nanosecond: the law above holds there exactly outside that nanosecond, for readings that can be held.
   */
  lemma UsableBeforeEpoch(p: Preview, ms: real)
    requires Sound(p) && ms < 0.0
    ensures IsPreviewUsable(Some(p), Finite(ms)) <==>
              ms > -(MAX_SAFE + 1) as real && ms * 1_000_000.0 <= (Expiry(p) - 1) as real
  {
    UsableByTruncation(p, ms);
    TruncBelow(ms * 1_000_000.0, Expiry(p));
  }

  /** Usable at its creation instant. */
  lemma UsableAtCreation(p: Preview)
    requires Sound(p)
    ensures IsPreviewUsable(Some(p), Finite(Created(p) as real / 1_000_000.0))
  {
    var at := Created(p) as real / 1_000_000.0;
    ParseIsInstant(p.createdAt);
    UsableByTruncation(p, at);
    assert at * 1_000_000.0 == Created(p) as real;
  }

  /** Once expired, never usable again. */
  lemma ExpiryIsFinal(p: Preview, ms: real, later: real)
    requires Sound(p) && 0.0 <= ms <= later && !IsPreviewUsable(Some(p), Finite(ms))
    ensures !IsPreviewUsable(Some(p), Finite(later))
  {
    UsableExactlyUntilExpiry(p, ms);
    UsableExactlyUntilExpiry(p, later);
  }

  /** The law for what the client returns: delivered data is usable exactly until its expiry. */
  lemma DeliveredUsableExactlyUntilExpiry(e: Envelope, fallback: Status, responseOk: bool, ms: real)
    requires fallback.Unavailable? || fallback.Blocked?
    requires PreviewResponse(e, fallback, responseOk).Delivered? && ms >= 0.0
    ensures var p := PreviewResponse(e, fallback, responseOk).preview;
            && Split(p.expiresAt).Some?
            && (IsPreviewUsable(Some(p), Finite(ms)) <==> ms * 1_000_000.0 < Expiry(p) as real)
  {
    DeliveredIsSound(e, fallback, responseOk);
    UsableExactlyUntilExpiry(PreviewResponse(e, fallback, responseOk).preview, ms);
  }

  /** A flawless answer to a preview request whose diff is the one that the page itself shows. */
  predicate OwnPreview(current: seq<Ref>, p: Preview) {
    && DeriveDraftDiff(current, p.desiredModules) == Some(p.diff) && p.desiredModules != []
    && Identifier(p.previewRef) && Identifier(p.creatorActorRef) && CreatedFirst(p.createdAt, p.expiresAt)
    && !p.consumed && FlagsPassed(p.validation) && p.validation.reasonCodes == []
  }

  function ChangeEnvelope(p: Preview): Envelope {
    Envelope(Success, PreviewData(p, Change, None, 0, None), [], false)
  }

  /** The client's checks let the page's own diff through: such an answer is delivered. */
  lemma OwnDiffIsDelivered(current: seq<Ref>, p: Preview, fallback: Status)
    requires OwnPreview(current, p)
    ensures PreviewResponse(ChangeEnvelope(p), fallback, true) == Delivered(p)
  {
    OwnFieldsValid(current, p);
    OwnActionValid(current, p);
  }

  lemma OwnFieldsValid(current: seq<Ref>, p: Preview)
    requires OwnPreview(current, p)
    ensures FieldsValid(ChangeEnvelope(p))
  {
    DraftGroupsValid(current, p.desiredModules);
    ParsedIsSplit(p.createdAt);
    ParsedIsSplit(p.expiresAt);
  }

  lemma DraftGroupsValid(current: seq<Ref>, desired: seq<Ref>)
    requires DeriveDraftDiff(current, desired).Some?
    ensures var diff := DeriveDraftDiff(current, desired).value;
            ValidRefs(diff.added, true) && ValidRefs(diff.removed, true) && ValidRefs(diff.retained, true)
  {
    DraftDiffIsClosed(current, desired);
    DiffIsClosedMeaning(desired, DraftDiff(current, desired));
    DiffGroupsClosed(DraftDiff(current, desired));
  }

  lemma OwnActionValid(current: seq<Ref>, p: Preview)
    requires OwnPreview(current, p)
    ensures PreviewActionValid(ChangeEnvelope(p))
  {
    DraftDiffIsClosed(current, p.desiredModules);
    ClosedIsDistinctLogicalKeys(p.desiredModules);
  }

  /** With equal offsets the test of the two instants is the order in which they are written. */
  lemma CreatedFirstAsWritten(created: Parts, expires: Parts)
    requires Accepted(created) && Accepted(expires) && OffsetMinutes(created.zone) == OffsetMinutes(expires.zone)
    ensures CreatedFirst(Compose(created), Compose(expires)) <==> Before(FieldsOf(created), FieldsOf(expires))
  {
    ComposeSplits(created);
    ComposeSplits(expires);
    ParseIsInstant(Compose(created));
    ParseIsInstant(Compose(expires));
    OrderIsLexicographic(created, expires);
  }

  lemma ParsedIsSplit(s: string)
    requires ParseNanoseconds(s).Some?
    ensures Split(s).Some?
  {
  }

  lemma DiffGroupsClosed(diff: Diff)
    requires Closed(diff.added + diff.removed + diff.retained)
    ensures Closed(diff.added) && Closed(diff.removed) && Closed(diff.retained)
  {
    var all := diff.added + diff.removed + diff.retained;
    ClosedPart(all, 0, |diff.added|);
    ClosedPart(all, |diff.added|, |diff.added| + |diff.removed|);
    ClosedPart(all, |diff.added| + |diff.removed|, |all|);
    assert all[..|diff.added|] == diff.added;
    assert all[|diff.added|..|diff.added| + |diff.removed|] == diff.removed;
    assert all[|diff.added| + |diff.removed|..] == diff.retained;
  }

  lemma ClosedPart(s: seq<Ref>, lo: nat, hi: nat)
    requires Closed(s) && lo <= hi <= |s|
    ensures Closed(s[lo..hi])
  {
  }

  lemma ClosedIsDistinctLogicalKeys(s: seq<Ref>)
    requires Closed(s)
    ensures None !in LogicalKeys(s) && |Elements(LogicalKeys(s))| == |s|
  {
    SizeTestIsDistinct(LogicalKeys(s));
    ClosedIsDistinctKeys(s);
    NoneLogicalIsNoneExact(s);
  }

  // ---- the envelope in its own fields ----

  ghost predicate ValidCodes(codes: seq<string>) {
    |codes| <= 32 && forall code :: code in codes ==> Identifier(code)
  }

  /** The preview's parts that do not depend on the outcome. */
  ghost predicate GoodPreview(p: Preview) {
    && Identifier(p.previewRef) && Identifier(p.creatorActorRef) && !p.consumed
    && 1 <= |p.desiredModules| <= 64 && Closed(p.desiredModules)
    && |p.diff.added| <= 64 && |p.diff.removed| <= 64 && |p.diff.retained| <= 64
    && Closed(p.diff.added + p.diff.removed + p.diff.retained)
    && multiset(p.desiredModules) == multiset(p.diff.added + p.diff.retained)
    && Split(p.createdAt).Some? && Split(p.expiresAt).Some? && Created(p) < Expiry(p)
  }

  /** A release that a preview starts from has a revision, and a rollback has a target. */
  ghost predicate GoodOrigin(d: Data)
    requires d.PreviewData?
  {
    && (match d.baseReleaseId case None => d.baseRevision == 0 case Some(id) => Identifier(id) && d.baseRevision >= 1)
    && (match d.targetReleaseId case None => d.intent == Change case Some(id) => Identifier(id) && d.intent == Rollback)
  }

  /** An answer that the client takes at its word. */
  ghost predicate GoodEnvelope(e: Envelope) {
    && !e.readbackApplies && ValidCodes(e.reasonCodes)
    && match e.status
       case Blocked => e.data == NoData && |e.reasonCodes| >= 1
       case Unavailable => e.data == NoData && |e.reasonCodes| >= 1
       case ManualReview => false
       case Success =>
         && e.data.PreviewData? && GoodPreview(e.data.preview) && GoodOrigin(e.data)
         && var v := e.data.preview.validation;
            && v.baseMatches && v.desiredModulesValid && v.inventoryMatches && v.minimumActiveModules
            && v.reasonCodes == [] && e.reasonCodes == []
       case NeedsInput =>
         && e.data.PreviewData? && GoodPreview(e.data.preview) && GoodOrigin(e.data)
         && var v := e.data.preview.validation;
            && !(v.baseMatches && v.desiredModulesValid && v.inventoryMatches && v.minimumActiveModules)
            && ValidCodes(v.reasonCodes) && |v.reasonCodes| >= 1
            && Distinct(v.reasonCodes) && Distinct(e.reasonCodes)
            && multiset(v.reasonCodes) == multiset(e.reasonCodes)
  }

  lemma GoodPreviewMeaning(e: Envelope)
    requires e.data.PreviewData?
    ensures var p := e.data.preview;
            && Identifier(p.previewRef) && Identifier(p.creatorActorRef) && !p.consumed
            && ValidRefs(p.desiredModules, false)
            && ValidRefs(p.diff.added, true) && ValidRefs(p.diff.removed, true) && ValidRefs(p.diff.retained, true)
            && CreatedFirst(p.createdAt, p.expiresAt) && DiffIsClosed(p.desiredModules, p.diff)
            <==> GoodPreview(p)
  {
    var p := e.data.preview;
    ParseIsInstant(p.createdAt);
    ParseIsInstant(p.expiresAt);
    DiffIsClosedMeaning(p.desiredModules, p.diff);
    if Closed(p.diff.added + p.diff.removed + p.diff.retained) {
      DiffGroupsClosed(p.diff);
    }
  }

  lemma CodesMeaning(codes: seq<string>)
    ensures ReasonCodes(codes) <==> ValidCodes(codes)
  {
  }

  /** The checks of a preview and its origin, without those of the outcome. */
  predicate PartsValid(p: Preview, d: Data)
    requires d.PreviewData?
  {
    && Identifier(p.previewRef) && Identifier(p.creatorActorRef) && !p.consumed
    && ValidRefs(p.desiredModules, false)
    && ValidRefs(p.diff.added, true) && ValidRefs(p.diff.removed, true) && ValidRefs(p.diff.retained, true)
    && CreatedFirst(p.createdAt, p.expiresAt) && DiffIsClosed(p.desiredModules, p.diff)
    && NullableIdentifier(d.baseReleaseId) && NullableIdentifier(d.targetReleaseId)
    && (d.baseReleaseId.None? <==> d.baseRevision == 0)
    && (d.intent.Change? <==> d.targetReleaseId.None?)
  }

  predicate OutcomeValid(e: Envelope, v: Validation) {
    if e.status.Success? then e.reasonCodes == [] && FlagsPassed(v) && v.reasonCodes == []
    else !FlagsPassed(v) && v.reasonCodes != [] && SetsEqual(e.reasonCodes, v.reasonCodes)
  }

  lemma PartsOfChecks(e: Envelope)
    requires e.data.PreviewData? && (e.status.Success? || e.status.NeedsInput?)
    ensures FieldsValid(e) && PreviewActionValid(e) <==>
              && ReasonCodes(e.reasonCodes) && ReasonCodes(e.data.preview.validation.reasonCodes) && !e.readbackApplies
              && PartsValid(e.data.preview, e.data) && OutcomeValid(e, e.data.preview.validation)
  {
    var p := e.data.preview;
    ParsedBoth(p);
    if Closed(p.desiredModules) {
      ClosedIsDistinctLogicalKeys(p.desiredModules);
    }
  }

  lemma PartsMeaning(e: Envelope)
    requires e.data.PreviewData?
    ensures PartsValid(e.data.preview, e.data) <==> GoodPreview(e.data.preview) && GoodOrigin(e.data)
  {
    GoodPreviewMeaning(e);
  }

  lemma EnvelopeMeaning(e: Envelope)
    ensures FieldsValid(e) && PreviewActionValid(e) <==> GoodEnvelope(e)
  {
    CodesMeaning(e.reasonCodes);
    if e.data.PreviewData? && (e.status.Success? || e.status.NeedsInput?) {
      var v := e.data.preview.validation;
      CodesMeaning(v.reasonCodes);
      PartsOfChecks(e);
      PartsMeaning(e);
      SetsEqualIsPermutation(e.reasonCodes, v.reasonCodes);
    }
  }

  lemma ParsedBoth(p: Preview)
    ensures CreatedFirst(p.createdAt, p.expiresAt) ==> Split(p.createdAt).Some? && Split(p.expiresAt).Some?
  {
  }

  /**
   What the client makes of an answer to a preview request: the preview of a good success, the status of any other good
   answer, and the status that the transport suggests for the rest.
   */
  lemma ResponseExactly(e: Envelope, fallback: Status, responseOk: bool)
    requires fallback.Unavailable? || fallback.Blocked?
    ensures PreviewResponse(e, fallback, responseOk) ==
              if GoodEnvelope(e) && e.status == Success && responseOk then Delivered(e.data.preview)
              else if GoodEnvelope(e) && e.status != Success then Failed(e.status)
              else Failed(fallback)
  {
    EnvelopeMeaning(e);
  }
}
