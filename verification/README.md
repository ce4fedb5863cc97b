# Client decision logic of the cross-border logistics console

A Dafny model of the code in `apps/` that decides things on the client side, with proofs about it.
It covers five parts of the system.

- **Release control plane** (`Timestamps`, `ModuleRefs`, `Previews`, `ControlState`, `DraftEditor`, `Lifecycle`, `LargestMatching`,
  `ConfigValues`, `ConfigHistory`, `ConfigWorkspace`, `ConfigRaces`): strict validators, module sets and their differences, exact RFC 3339
  instants, previews and their expiry, stages and actions, the draft of wanted modules, approval chains, and
  the configuration workspace with its loads and operations in flight.
- **Sailing schedules** (`PortCache`, `PortClock`, `LiveSearch`, `LiveAnswers`, `ServiceGroups`, `Decimals`, `Transit`, `TransitRange`): the
  bounded port cache, the live search with any number of late answers, service groups, and exact durations.
- **Idempotent writes** (`RequestKeys`, `Rotation`): keys of writes and of key rotations under any
  interleaving of sends, answers and failures.
- **Reviewed hand-off** (`CaseLink`): a confirmation that does not survive a change in what was reviewed.
- **Estimate ordering** (`Sorting`, `Estimates`): stable multi-key ordering over missing values and currencies.

`Lists` and `Sorting` hold the shared facts; `Sorting` states the contract that ECMA-262 (sections 23.1.3.30 and
23.1.3.30.2) gives `Array.prototype.sort`, shows that it leaves one answer for a consistent comparator, and
computes it by stable insertion.

## How the source is modelled

Objects that the source updates in place are classes: `PortStorage`, `Workspace`, `AdminPage`, `ConfigPage`, `Model`,
`AccessConsole`, `CasesUi`. Each of their methods is proved to take the object's view exactly where a `Step`
function takes it, and the promises are lemmas over every sequence of steps. An `await` is a step boundary:
requests in flight are part of the state, and any of them may be answered, or fail, at any later step, in
any order. Loops of the source are methods with loop invariants, proved against a specification.

`localeCompare` is a parameter that must be a total order, `crypto.randomUUID` a parameter that must be new,
`Number()` a parameter that reads decimal texts exactly, clocks are parameters, and `Date.parse` is the day count
of ECMA-262 with an offset. BigInt is `int`, Decimal is `real`.

## Findings

Where a promise fails, a lemma names a run or an input that breaks it. Where "exactly" is said below, the exact
condition is proved for all inputs.

- The port cache: after writes in order and then one at any time, a later reading is what the whole history says exactly
  if every living row of another port than the last batch's was observed no later than that batch, or that batch fills
  the cache by itself (`PortClock.ClockStepBack`). A write before all earlier ones, in whatever order those were,
  drops everything they stored (`PortClock.ClockGoingBackForgets`; `PortClock.ClockGoingBackLosesEntry` is an instance). The
  proof also needs countries of two capitals or none (`PortCache.MalformedCountryHidesPort`); the service contract
  (`services/maritime/schedule-collector/contracts.ts:52`) sends no others.
- A live result can stand beside another carrier if a search is submitted before the carrier list has arrived; the
  page's guard on submit is what prevents it. In every state that the page reaches, a submit that ignores the guard can
  lead there exactly if no carrier list has arrived (`LiveSearch.UnguardedSubmitMismatches`). The guard acts when the
  page renders: a logout (`apps/console/app.js:441`) resets the search and renders only after `/logout` has
  answered, and a submit in between is outside the hypothesis of `LiveSearch.EveryRunShowsCurrentAnswer`.
- The draft of wanted modules can grow past the 64 that its own diff accepts; its diff exists exactly up to 64
  (`DraftEditor.DraftCanOutgrowValidator`, `DraftEditor.DiffShowsOddToggles`).
- Clock readings before 1970 are truncated upwards, so a preview then ends within its last nanosecond, exactly
  (`Previews.UsableBeforeEpoch`).
- Two identical writes in flight at once make a late answer give up the key of a newer one
  (`RequestKeys.LateTwinGivesUpNewerKey`); one at a time they never do (`RequestKeys.OneAtATimeRetriesSafely`).
- Closing the rotation dialog lets two requests out at once exactly if it is closed mid-request, which includes
  the reading back of a commit (`Rotation.ClosingSendsTwoExactlyMidRequest`); closed during a readback, the next dialog
  is dropped when that ends (`Rotation.ClosingDuringReadbackDropsNext`).
- A configuration announcement is over its operation's own module exactly if that module was selected when the shown
  state was adopted; while the selection never moves by itself under a shown state, exactly if that module is still
  selected (`ConfigWorkspace.OwnExactlyIfSelectedAtAdoption`, `ConfigWorkspace.OwnExactlyIfStillSelected`). It can
  be over another one, because the readback names no module (`ConfigRaces.AnnouncedOverOtherModule`). That needs two modules
  with equal revision, digest and generation. Nothing in those three names the module: the digest is taken over
  the values alone (`src/logistics_mcp/control-plane/plugin-config-contracts.ts:569-572`) and the generation over revision
  and digest. But today's server configures one module only
  (`src/logistics_mcp/control-plane/plugin-config-service.ts:284`), so such a pair cannot arise yet. When the
  selected module leaves the inventory under a shown state, another module can be announced over although nothing
  was chosen in between (`ConfigRaces.MovedSelectionMisleads`).
- The state that an announcement is over was asked for after the answer it confirms, exactly unless a load that was out
  already overtakes the check (`ConfigWorkspace.EveryAnnouncementIsChecked`, `ConfigRaces.OlderLoadOvertakes`). It
  matches exactly even then. In a browser both answers have to be handled in one turn of the event loop for that.
- `transit_days` agrees with the printed label exactly unless the hours write whole days in another form than a
  decimal text, such as "2.4e1" (`Transit.DaysNeverRound`, `Transit.ExponentHasDaysButNoLabel`); the service contract
  (`services/maritime/schedule-collector/contracts.ts:60`) sends decimal texts only.
- The stage order of approval chains comes from a comparator that is not consistent (`Lifecycle.ComparatorInconsistent`), so
  the results hold for every order of the five stages. The matching is maximal and fills at least half as many
  stages as any other. It misses the largest exactly if an alternating chain leads from a free stage to a free entry
  (`LargestMatching.GreedyMissesLargestExactly`), which happens with the source's patterns
  (`LargestMatching.GreedyMayMissLargest`) and cannot if no entry fits two stages.
- Ocean ordering is not well defined if the collation ties two different currency codes
  (`Estimates.TiedCurrenciesBreakOcean`), and is if it does not (`Estimates.ComparatorConsistent`).
- Every hand-off that the page offers was reviewed. The rule rests on case identifiers not being empty: a page for the
  empty one would escape it (`CaseLink.EmptyCaseIdEscapes`).

## Model

| member | source | states |
|---|---|---|
| PortCache.PortStorage.Remember | apps/console/maritime-locations.js:31-35 | one write stores the first 60 unseen rows of the stamped batch followed by what was readable, through a loop over a growing set |
| PortCache.JoinedKeyInjective | apps/console/maritime-locations.js:33 | the joined text of identifier and country tells ports apart whenever the country is empty or two capitals |
| PortCache.UnseenIsFirstSeen | apps/console/maritime-locations.js:33 | the filter over joined texts keeps exactly the first row of every port with an identifier |
| PortCache.ReadableExactly | apps/console/maritime-locations.js:10-17 | a reading keeps the first 60 rows that are less than a day old, have texts of at most 200 characters and a country of two capitals or none, row by row |
| PortCache.CutBehindBatch | apps/console/maritime-locations.js:31-35 | a batch pushes out at most as many old entries as it brings, so cutting the old list to 60 first changes nothing |
| PortCache.CacheRefinesHistory | apps/console/maritime-locations.js:10-35 | after any run of writes of well-formed rows at non-decreasing times, a later read is the first 60 living entries of the de-duplicated whole history, newest batch first |
| PortCache.MalformedCountryHidesPort | apps/console/maritime-locations.js:14-33 | the joined texts of two ports can collide once a country is malformed, so the proof needs that none is |
| PortClock.ClockGoingBackForgets | apps/console/maritime-locations.js:10-35 | after any writes and then one before all of them, a later reading shows the last batch alone, and is what the history says exactly if nothing living is lost or that batch fills the cache |
| PortClock.ClockStepBack | apps/console/maritime-locations.js:10-35 | after writes in order and then one at any time, a later reading is what the history says exactly if no living row of another port is newer than the last batch, or that batch fills the cache |
| PortClock.ClockGoingBackLosesEntry | apps/console/maritime-locations.js:14 | an entry from the future at a later write is dropped for good |
| ServiceGroups.GroupServices | apps/console/maritime.js:107-116 | the loop over an insertion-ordered map computes the groups |
| ServiceGroups.GroupsPartition | apps/console/maritime.js:107-116 | groups partition the sailings by key in order, have distinct keys, none is empty, and each carries its own position |
| ServiceGroups.TogetherExactly | apps/console/maritime.js:107-116 | two sailings stand in one service exactly if they are shown under one carrier and agree in the rest of the key |
| LiveAnswers.SailingsTogether | apps/console/maritime.js:107-116 | and the carrier is the sailing's own, else the answer's, else the one asked for |
| LiveSearch.Workspace.OnInput | apps/console/maritime.js:287-306 | an edit takes over the form, clears exactly the identifiers, choices and country that its field concerns, and abandons what is shown or awaited |
| LiveSearch.Workspace.OnResolved | apps/console/maritime.js:184-189 | each side gets its own port, or is asked back with its own choices, and only in the current epoch |
| LiveSearch.Workspace.OnAnswered | apps/console/maritime.js:190-196 | an answer of the current epoch is shown with its question, carrier and records, any other is dropped |
| LiveSearch.Workspace.OnReset | apps/console/maritime.js:310 | a reset keeps at most the typed conditions and ends both epochs |
| LiveSearch.Workspace.OnCarriersLoaded | apps/console/maritime.js:170 | a list of the current epoch keeps a verified carrier and else takes the first verified one |
| LiveAnswers.UndisturbedSearchIsShown | apps/console/maritime.js:173-196 | a submitted search whose ports are found and whose answer comes in time is asked with the form and, for each side, the identifier ticked, else pinned, else found, and shows that answer |
| LiveAnswers.UnclearPortIsAskedBack | apps/console/maritime.js:184-189 | an unknown port with several matches ends the search and offers exactly those matches for its side |
| LiveAnswers.EveryAnswerAnswersWhatWasGiven | apps/console/maritime.js:173-197 | in every offered run a shown result is the in-time answer to the question now shown, and each identifier in it was picked, ticked or found for its own side, not made void since, and under the place shown now if forms are honest |
| LiveSearch.EveryRunShowsCurrentAnswer | apps/console/maritime.js:173-197 | in every interleaving that the page offers, a shown result answers exactly the current carrier, ports, dates and routing, and an opened service exists |
| LiveSearch.StepKeepsInv | apps/console/maritime.js:166-306 | every single event keeps the invariant that makes this so |
| LiveSearch.UnguardedSubmitMismatches | apps/console/maritime.js:54-60 | in every state that the page reaches, a submit that ignores the guard can end with a result of other conditions exactly if no carrier list has arrived |
| LiveSearch.SubmitBeforeCarriersBreaksPromise | apps/console/maritime.js:54-60 | in particular right after the first rendering |
| Decimals.ParseDecimalExact | apps/console/maritime-query.js:18 | the decimal pattern accepts exactly digits, or digits, a point and digits, and splits them correctly |
| Decimals.StripKeepsFraction | apps/console/maritime-query.js:21 | stripping zeros at the end keeps the value, strips all of them and nothing else |
| Transit.LabelIsExact | apps/console/maritime-query.js:14-24 | reading the printed days and hours back gives the hours of the source |
| Transit.LabelIsNormal | apps/console/maritime-query.js:20-23 | which of the three label forms is printed, with a remainder below 24 hours |
| Transit.LabelByUnit | apps/console/maritime-query.js:14-19 | days come before hours before minutes, and what is not a decimal is printed as written |
| Transit.DaysNeverRound | apps/console/maritime-query.js:32-39 | from hours alone, transit_days is k exactly when the label is "k 天" with k from 1 to 180, for every text except exactly those that write whole days in another form than a decimal |
| Transit.ExponentHasDaysButNoLabel | apps/console/maritime-query.js:36 | such a text exists for JavaScript's Number() |
| TransitRange.TransitDaysAreExact | apps/console/maritime-query.js:36-38 | for days, hours or minutes, transit_days is k exactly when the duration is k whole days |
| TransitRange.CompareScoresConsistent | apps/console/maritime.js:96 | cross multiplication is a total preorder for positive denominators |
| TransitRange.CrossMultiplication | apps/console/maritime.js:96 | it compares the quotients exactly |
| TransitRange.ScoreIsMinutes | apps/console/maritime.js:91-95 | the scored quotient is the duration in minutes |
| TransitRange.ScoredExactly | apps/console/maritime.js:91-95 | a duration takes part exactly if its days, else hours, else minutes are a decimal text, and with the minutes that this writes |
| TransitRange.RangeIsMinToMax | apps/console/maritime.js:90-100 | the range runs from an exact minimum to an exact maximum over all parsable durations and is a single label exactly if all are equal |
| TransitRange.ShortestListedFirst | apps/console/maritime.js:96-99 | among equally short durations the first listed gives the label |
| Timestamps.SplitExact | apps/admin/control-plane.js:145-146 | the patterns accept exactly the texts composed of accepted parts and split them into those parts |
| Timestamps.DatePatternIsGregorian | apps/admin/control-plane.js:145 | the date part accepts exactly the existing Gregorian days (section 5.7 and Appendix C of RFC 3339) |
| Timestamps.TimePatternExactly | apps/admin/control-plane.js:145 | the time part accepts exactly the times of a day |
| Timestamps.ZonePatternExactly | apps/admin/control-plane.js:145 | the zone part accepts exactly Z and offsets of at most fourteen hours |
| Timestamps.DayNumberCounts | apps/admin/control-plane.js:169 | the day count is 0 at the epoch and grows by one per calendar day |
| Timestamps.ParseIsInstant | apps/admin/control-plane.js:165-173 | parsing fails exactly on refused texts; the safe-integer test never fails |
| Timestamps.ParseMeansWritten | apps/admin/control-plane.js:165-173 | the parsed instant is the written date and time in UTC, digit by digit, less hours and minutes of an eastern zone or plus those of a western one, and the fraction |
| Timestamps.EpochTextIsZero | apps/admin/control-plane.js:165-173 | "1970-01-01T00:00:00Z" is 0 |
| Timestamps.OrderIsLexicographic | apps/admin/control-plane.js:165-173 | with equal offsets instants are ordered, and equal, exactly as the written fields are |
| Timestamps.NanosAreExact | apps/admin/control-plane.js:171 | the padded fraction is the written fraction exactly |
| Timestamps.EqualFractionsEqualInstants | apps/admin/control-plane.js:171-172 | fractions give the same instant exactly if they have the same value, so zeros at the end are free |
| Timestamps.OffsetShifts | apps/admin/control-plane.js:165-173 | another zone moves the instant by exactly the difference of the offsets |
| ModuleRefs.LogicalKeyIsName | apps/admin/control-plane.js:277-292 | cutting the exact key at its last NUL recovers identifier and version |
| ModuleRefs.ExactKeyInjective | apps/admin/control-plane.js:277-287 | equal exact keys mean equal references |
| ModuleRefs.RefSetsEqualIsPermutation | apps/admin/control-plane.js:294-308 | two lists are equal sets exactly if both are well formed, without repeated modules, and permutations of each other |
| ModuleRefs.ValidateModuleRefs | apps/admin/control-plane.js:263-275 | the loop accepts exactly the valid lists and otherwise names the first offending item |
| ModuleRefs.DiffIsClosedMeaning | apps/admin/control-plane.js:933-941 | the closure test holds exactly if the three groups name no module twice and added with retained is the desired list |
| ModuleRefs.DraftDiffIsClosed | apps/admin/control-plane.js:710-720 | the page's own diff passes the closure test, its groups add up to both lists, and nothing removed is desired |
| Previews.ClockIsTruncatedNanoseconds | apps/admin/control-plane.js:175-185 | splitting off whole milliseconds gives the truncated nanosecond count of any finite reading |
| Previews.SetsEqualIsPermutation | apps/admin/control-plane.js:924-931 | reason lists agree exactly if they are duplicate-free permutations |
| Previews.DeliveredPreview | apps/admin/control-plane.js:993-1062 | what is delivered comes from a valid success answer, is created before it expires and has a closed diff |
| Previews.ResponseExactly | apps/admin/control-plane.js:993-1062 | the preview of a good success is delivered, a good answer of another status fails with that status, and any other fails with the fallback |
| Previews.OwnDiffIsDelivered | apps/admin/control-plane.js:993-1062 | an otherwise flawless preview of the diff that the page itself derives is always delivered |
| Previews.CreatedFirstAsWritten | apps/admin/control-plane.js:1023-1025 | with equal offsets, created before expiring is the order of the written fields |
| Previews.DeliveredIsSound | apps/admin/control-plane.js:1130-1149 | a delivered preview passes every check of its use but the clock |
| Previews.UsableExactlyNow | apps/admin/control-plane.js:620-642 | of every preview at every clock reading: usable exactly if unused, without a failed flag or reason code, with a valid expiry, and before it |
| Previews.UsableExactlyUntilExpiry | apps/admin/control-plane.js:620-642 | a sound preview is usable exactly until its expiry at every reading from the epoch on |
| Previews.UsableBeforeEpoch | apps/admin/control-plane.js:175-185 | before the epoch it is usable exactly up to one nanosecond earlier |
| Previews.UsableAtCreation | apps/admin/control-plane.js:620-642 | it is usable at its creation instant |
| Previews.ExpiryIsFinal | apps/admin/control-plane.js:620-642 | once expired it stays unusable |
| Previews.DeliveredUsableExactlyUntilExpiry | apps/admin/control-plane.js:620-642 | the law for whatever the client delivers |
| ControlState.ReadbackIgnoresOrder | apps/admin/control-plane.js:543-562 | an exact verified readback does not depend on the order of applied or active modules |
| ControlState.RegistrationOfInventory | apps/admin/control-plane.js:666-673 | with nothing previewed or active, registration is complete exactly if every inventory module is registered |
| ControlState.ReconcileTargetsFailedReadback | apps/admin/control-plane.js:734-751 | a reconcile target exists exactly if the newest release is in manual review and its own readback failed, and is that release |
| ControlState.SelectRollback | apps/admin/control-plane.js:758-779 | the loop over the history finds the rollback target |
| ControlState.RollbackIsFirstEligible | apps/admin/control-plane.js:758-779 | the target is the first eligible earlier release and null exactly if there is none |
| ControlState.ActionsAgreeWithStages | apps/admin/control-plane.js:781-813 | approval and publish are never both offered, and each offered action agrees with the stages shown |
| ControlState.ActionsOfferedExactly | apps/admin/control-plane.js:781-813 | the six actions, each offered exactly under its own conditions: a local administrator, and for approval two different persons, an undecided preview and its use at this clock reading |
| ControlState.ValidExactly | apps/admin/control-plane.js:564-594 | which states are accepted, in their own fields |
| ControlState.RegistrationExactly | apps/admin/control-plane.js:666-673 | the registration stage, exactly |
| ControlState.PreviewStageExactly | apps/admin/control-plane.js:644-656 | the preview stage, exactly |
| ControlState.ApprovalStageExactly | apps/admin/control-plane.js:684-690 | the approval stage, exactly |
| ControlState.ReadbackStageExactly | apps/admin/control-plane.js:691-702 | the readback stage, exactly |
| ControlState.VerifiedIsComplete | apps/admin/control-plane.js:581-583 | the readback stage is complete exactly for a verified readback |
| DraftEditor.AdminPage.SetControlState | apps/admin/app.js:1575-1583 | a valid state is taken over and refills the draft unless it is dirty |
| DraftEditor.AdminPage.ToggleModule | apps/admin/app.js:2083-2095 | a toggle takes the named module of the inventory out of the shown draft or puts it at its end, and changes nothing for an unknown name |
| DraftEditor.DraftClosedFromStart | apps/admin/app.js:1575-1583 | no run of loads, toggles, saves and publishes makes the draft name a module twice |
| DraftEditor.EditsFlipOddKeys | apps/admin/app.js:2083-2106 | a run of edits changes exactly the modules toggled an odd number of times |
| DraftEditor.ToggleTwiceRestores | apps/admin/app.js:2083-2095 | toggling twice restores the draft's modules |
| DraftEditor.DiffShowsOddToggles | apps/admin/app.js:1122-1125 | the diff shown after a load and any edits is exactly the odd toggles, and exists exactly for drafts of at most 64 |
| DraftEditor.DraftCanOutgrowValidator | apps/admin/app.js:2083-2095 | a draft of 65 modules is reachable and its diff is refused |
| Lifecycle.ComparatorInconsistent | apps/admin/app.js:123-127 | the comparator is not consistent, so the standard leaves the order of the stages open |
| Lifecycle.OrderIsSorted | apps/admin/app.js:123-127 | the order that stable insertion makes of it, readback first, is one of those that the results hold for |
| Lifecycle.MatchStages | apps/admin/app.js:128-139 | in any order, every stage takes its first fitting entry that earlier stages left |
| Lifecycle.MatchingIsUnique | apps/admin/app.js:128-139 | the greedy rule leaves one answer |
| Lifecycle.MatchingIsMaximal | apps/admin/app.js:128-139 | for any order and patterns the matching is one-to-one, fits, and no free entry fits a free stage |
| LargestMatching.AtLeastHalfOfAny | apps/admin/app.js:128-139 | it fills at least half as many stages as any other fitting choice |
| LargestMatching.LargerExactlyIfAlternating | apps/admin/app.js:128-139 | the same for any fitting choice |
| LargestMatching.GreedyMissesLargestExactly | apps/admin/app.js:128-139 | a larger fitting choice exists exactly if an alternating chain leads from a free stage to a free entry, and such a chain has at least two stages |
| LargestMatching.LargestIfPatternsDisjoint | apps/admin/app.js:128-139 | if no entry fits two stages it fills every stage that any other choice fills |
| LargestMatching.GreedyMayMissLargest | apps/admin/app.js:96-102 | with patterns that answer as the source's do on two labels it fills one stage where two can be filled |
| Lifecycle.DeriveLifecycle | apps/admin/app.js:118-175 | the shown lists follow from the matching; an empty chain shows nothing |
| Lifecycle.EveryEntryShownOnce | apps/admin/app.js:141-174 | every entry is shown exactly once, under a stage that it fits or as unmapped |
| Lifecycle.ShownInOrder | apps/admin/app.js:141-174 | the five stages are shown in their own order, each with its own entry, and the unmapped entries in chain order |
| ConfigValues.ScanValues | apps/admin/plugin-config.js:299-310 | the loop accepts exactly distinct declared values and reports a real mismatch |
| ConfigValues.ValidateConfigValues | apps/admin/plugin-config.js:290-317 | acceptance is exactly at most 64 distinct, declared, kind-matching, in-range values that cover the required fields |
| ConfigValues.OneValueAccepted | apps/admin/plugin-config.js:251-265 | against one field, a value is accepted exactly if it names the field and its kind and lies in its range or options |
| ConfigValues.ValidFieldExactly | apps/admin/plugin-config.js:176-225 | which fields a specification may hold, kind by kind |
| ConfigValues.ValidateArrayShape | apps/admin/plugin-config.js:277-288 | the request check accepts exactly the shapely lists |
| ConfigValues.ShapeExactly | apps/admin/plugin-config.js:267-275 | which single values the request check accepts, kind by kind |
| ConfigValues.AcceptedPassesShape | apps/admin/plugin-config.js:490-497 | whatever passes the local check passes the request check |
| ConfigValues.FormDraftAccepted | apps/admin/app.js:1702-1717 | a draft read from the form is accepted exactly if every input fits its field |
| ConfigWorkspace.ConfigPage.OnLoadAnswered | apps/admin/app.js:1663-1694 | a state is taken over exactly if it is of the module asked for and that is still selected, and any other answer resets the page |
| ConfigWorkspace.ConfigPage.OnOperationAnswered | apps/admin/app.js:1751-1818 | an answer of the own kind starts a check that remembers its identity, and only a blocked or unclear failure reads the state again |
| ConfigWorkspace.ConfigPage.OnResumed | apps/admin/app.js:1756-1818 | what stands on the page after the check, in all its outcomes |
| ConfigWorkspace.FailureStatusExactly | apps/admin/plugin-config.js:555-590 | which status a failure is shown with, exactly |
| ConfigWorkspace.FailureIsNeverVerified | apps/admin/plugin-config.js:555-590 | no failure is shown with a verified status |
| ConfigWorkspace.EveryRunIsHonest | apps/admin/app.js:1633-1819 | in every run a verified status stands over a loaded verified state |
| ConfigWorkspace.EveryAnnouncementIsChecked | apps/admin/app.js:1751-1788 | in every run an announcement confirms the identity answered to its own operation, its check was asked for after that answer and loaded, the state shown matches exactly, and that state was asked for after the answer exactly unless an older load overtook the check |
| ConfigHistory.ExactlyMatches | apps/admin/plugin-config.js:592-606 | an exact readback has the expected revision, digest and generation, is verified and names no reason |
| ConfigWorkspace.OwnExactlyIfStillSelected | apps/admin/app.js:1663-1676 | in every run whose selection never moves by itself while a state is shown, an announcement is over its operation's own module exactly if that is still selected, and always if nothing was selected since the start |
| ConfigWorkspace.OwnExactlyIfSelectedAtAdoption | apps/admin/app.js:1663-1676 | in every run at all, exactly if it was selected when the shown state was adopted |
| ConfigHistory.OwnIfSelectionKept | apps/admin/app.js:1739-1788 | the same for a single operation: no drift of the selection before its start and no choice after it are enough |
| ConfigWorkspace.PublishAnnouncesExactly | apps/admin/app.js:1757-1788 | a finished publish announces verification and clears the dirty flag exactly on an exact readback |
| ConfigWorkspace.EditsGivenUpOnlyWhenVerified | apps/admin/app.js:1758-1759 | edits are given up only with the loaded state or by an exactly verified publish |
| ConfigRaces.AnnouncedOverOtherModule | apps/admin/plugin-config.js:592-606 | from every idle state, another module selected meanwhile with an equal identity is announced over |
| ConfigRaces.MovedSelectionMisleads | apps/admin/app.js:843-846 | once the selection has moved under the shown state, that happens with nothing selected in between |
| ConfigRaces.OlderLoadOvertakes | apps/admin/app.js:1754-1757 | from every idle state, a load asked for before the answer can supply the state announced over |
| RequestKeys.Model.Send | apps/console/app.js:145-148 | a write uses the stored key of its fingerprint or stores a new one |
| RequestKeys.Model.Answer | apps/console/app.js:149-153 | which answers give the key up |
| RequestKeys.EveryRunKeepsKeys | apps/console/app.js:145-154 | two sends of one fingerprint carry one key exactly if no event between them was a logout or an answer to a write of it that need not keep its key and, if a business write, was read back or changed its preview; fingerprints never share a key |
| RequestKeys.OneAtATimeRetriesSafely | apps/console/app.js:145-154 | with one write of a fingerprint in flight at a time, a retry always carries the key of what it retries |
| RequestKeys.LateTwinGivesUpNewerKey | apps/console/app.js:152 | with twins in flight it may not |
| Rotation.AccessConsole.SubmitRotation | apps/access-console/app.js:598-634 | exactly when a submit sends, what its first one freezes, and that what is sent is what is frozen |
| Rotation.AccessConsole.OnAnswered | apps/access-console/app.js:635-641 | a success marks whichever dialog is open as committed and its own credential as awaiting readback |
| Rotation.AccessConsole.OnReadbackEnded | apps/access-console/app.js:644-651 | the end of a readback closes the dialog, and only a verified one ends the waiting |
| Rotation.EveryRunFreezesRequests | apps/access-console/app.js:618-659 | from every state that keeps the log invariant: all posts of one opening carry the same key and body, openings share no key, and no post follows its opening's commit |
| Rotation.PatientRunsSendOneAtATime | apps/access-console/app.js:618-659 | while the dialog is not closed mid-request at most one request is in flight |
| Rotation.FromStart | apps/access-console/app.js:576-659 | both promises for every run of the page from its start |
| Rotation.ClosingSendsTwoExactlyMidRequest | apps/access-console/app.js:696-698 | in every such state, closing the dialog lets two requests out at once in some otherwise patient run exactly if it is closed mid-request |
| Rotation.ClosingMidRequestSendsTwo | apps/access-console/app.js:696-698 | reopened and submitted at once, two are out exactly if a request was in flight |
| Rotation.ClosingDuringReadbackDropsNext | apps/access-console/app.js:644-651 | closing during the readback makes its end drop the next dialog |
| CaseLink.CasesUi.Detail | apps/console/cases.js:36-48 | a render takes the shown pair under review and unticks it if it changed |
| CaseLink.CasesUi.OnLinkedQuote | apps/console/cases.js:67-77 | a hand-off happens exactly for the ticked pair under review, and ends the review |
| CaseLink.DerivedExactly | apps/console/cases.js:42-46 | a context is ready exactly if it is the snapshot's case and latest supplement and the customer can see that |
| CaseLink.EveryHandOffWasReviewed | apps/console/cases.js:36-77 | every hand-off of a pair was ticked after it was shown, with no other pair shown and nothing reset since |
| CaseLink.ChangedSupplementForcesCheck | apps/console/cases.js:47 | a changed pair is unticked, and no run without a new tick hands anything off |
| CaseLink.HandedOffWasVisible | apps/console/cases.js:42-46 | a supplement is handed off only if a rendered snapshot showed it to the customer as the latest |
| CaseLink.EveryOfferedHandOffWasReviewed | apps/console/cases.js:36-77 | through the box and button that the page has rendered, every hand-off was reviewed |
| CaseLink.EmptyCaseIdEscapes | apps/console/cases.js:48-70 | a page rendered for the empty identifier would hand off what was ticked before it was shown |
| Sorting.SortIsStableSort | apps/console/fcl-operations.js:32 | for a consistent comparator the model's sort is an ordered permutation that keeps ties in order |
| Sorting.StableSortIsUnique | apps/console/fcl-operations.js:32 | it is the only such list |
| Estimates.ComparatorConsistent | apps/console/fcl-operations.js:32-37 | the comparator is consistent for every key and direction |
| Estimates.TiedCurrenciesBreakOcean | apps/console/fcl-operations.js:34 | it is not when the collation ties two currencies |
| Estimates.SortedEstimates | apps/console/fcl-operations.js:30-38 | the stable answer: missing values last and in old order in both directions, currency blocks ascending, values in order inside a block |
| Estimates.AmountsInOrder | apps/console/fcl-operations.js:30-37 | in the estimates' own fields: amounts rise when ascending and fall when descending, for ocean freight inside one currency |
| Estimates.CurrenciesInOrder | apps/console/fcl-operations.js:34 | currencies of the first ocean lines rise in both directions |
| Estimates.TextsInOrder | apps/console/fcl-operations.js:35 | carriers and departure dates stand in the order of the collation, or against it |
| Estimates.MissingLast | apps/console/fcl-operations.js:33 | nothing with a value stands behind an estimate without one |
| Estimates.BlocksAreContiguous | apps/console/fcl-operations.js:34 | each currency is one contiguous run |
| Estimates.DescendingMirrorsAscending | apps/console/fcl-operations.js:36 | inside a block descending is ascending reversed |

## Left out

- Rendering, DOM events, focus, dialogs' appearance and display text: only the state changes and guards behind them are modelled.
- `fetch`, timers, aborts as such, local storage failures, clipboard and file reading: they are answers that may or may not come.
- Services behind the requests, and everything imported from `services/` or `apps/inquiry/`: not part of this model.
- Floating-point rounding, collation details and the making of UUIDs: see "How the source is modelled".
- JSON values of a wrong type (a number for a text, a list for a record, unknown keys): the type checks refuse them; the model starts behind those checks, except for configuration values, whose types are modelled.
- Fields of the control state, its events, actors and envelopes that no modelled decision reads; the observed activation of a readback.
- The validators of other control actions (`packages.register`, `approvals.decide`, `deployments.publish`, `deployments.reconcile`): single-branch checks.
- The reference pattern for unsafe texts in configuration values is a parameter, and so are the five stage patterns.
- PortCache.CacheRefinesHistory: takes one clock reading for a whole write, where the source reads the clock for every row and again for the cache; with readings that rise inside a batch, rows of one batch differ by milliseconds and the last of them can outlive the first.
- PortCache.PortStorage.Remember: the same single clock reading.
- LiveSearch.EveryRunShowsCurrentAnswer: a submit between a reset and the next rendering is not offered in the model, though a button rendered before may still be enabled.
- CaseLink.EveryOfferedHandOffWasReviewed: takes identifiers of rendered cases as non-empty; that the service only sends such snapshots is not part of this model.
- Handlers of single-branch events have no row of their own; each states what it changes and is proved to make exactly the step of its event.
- The cache is one storage entry; that different organizations and carriers use different entries is not modelled.
- The port picker's menu (`show`, keyboard choice), `voyageTimes`, `serviceRouting`, `groupReferenceCharges` and `fclTemplateChargeImpacts`: they would add easy members.
- ConfigWorkspace.EveryRunIsHonest: does not model the draft's values or the preview and approval references, only what decides status, notice and the dirty flag.
- RequestKeys.EveryRunKeepsKeys: takes the fingerprint as one text; that JSON text tells its parts apart is not modelled.
