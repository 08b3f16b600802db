# ServiceLoop core logic, modelled and proved in Dafny

ServiceLoop runs a car workshop's communication: shop calendars, job cards, an agent that talks to
customers, and the machinery beneath it. This project models the parts of it whose behaviour is
hardest to see from one function, and proves what they promise over every input and every run.

| files | what they model |
|---|---|
| EditDistance | `boundedEditDistance` against edit scripts |
| Text, CanonicalJson, CanonicalJsonTheorems | the canonical serialiser behind prompt hashes and the audit chain, and a parser that undoes it |
| ReliabilitySpine, ReliabilitySteps, ReliabilityTheorems, ReliabilityProcess | outbox, queues, consumers and the dead-letter commands as one state machine with a crash possible between any two steps, and the processes that run on it |
| ZonedTime, WorkingHours, WorkingMinutes, WorkingMinutesBetween, ClockChange | the working-hours calendar, its fast day-jumping loops against the set of open instants, and clock changes at night |
| QuietHours, LocalDays | quiet hours and local days across a clock change |
| NearbyChanges | the same calendar laws in zones whose clocks change again and again |
| Documents, DocumentDiff, DocumentReplay, DottedPaths, ShopConfigMigrations | merging, diffing and migrating configuration documents |
| AuthSessions, AuthService | refresh-token families as a state machine, and the service that runs it |
| AgentRuns, AgentRunTheorems, AgentRunner | the agent's outer loop over an arbitrary model and arbitrary tools |
| Uuid7, Uuid7Theorems, Uuid7Generator | the identifier generator under an arbitrary clock |
| Money, PricePattern, PriceCheck | printing amounts, finding them in a message, and the price check |
| Registration, RegistrationTheorems | normalising vehicle registrations |
| JobCardDraft, JobCardDraftTheorems | confirming and correcting a job card's fields by path |
| Characters, Rounding, Wrappers | shared character classes, rounding, and an optional value |

## How it is built

Where the repository changes things step by step, a method with a loop or a class with fields does so
here, and is proved equal to a function; the laws are lemmas about that function. What is outside the
program is a parameter that may behave in any way: the zone gives an offset at each instant, the
dispatcher is told which rows a skip-locked claim returned and how each queue call went, the agent's
model and tools answer anything, random bytes and clock readings are arguments, numbers in text are
read by an arbitrary reader that is right about decimals, and upper case outside ASCII is anything.

Instants are milliseconds, dates are day numbers, amounts are whole paise, and confidences are real
numbers. In the working-hours modules the laws hold for every *regular* zone, one in which the days of
the shop open and close in order; WorkingHours.FixedOffsetRegular, ClockChange.NightChangeRegular and
NearbyChanges.DaylightSavingRegular show which zones are. Bytes are cut and joined by division and
remainder where the source shifts and masks.

In the reliability spine the actions are database commits, queue commands and crashes, and a run is
any sequence of enabled actions. The database is taken at its word: transactions are atomic, row locks
are held to the end of a transaction, and inserting a key that another open transaction has inserted
waits for it to settle. So is the queue: adding a job id it holds does nothing.

## Where the code and its comments part

The code is followed in each case.

- `apps/workers/src/consumer.ts:20-26` says a dead-lettered job can be requeued. The command that replays dead letters
  looks for the event under `envelope` (`apps/workers/src/cli/dlq.ts:139-143`), and what the consumer writes is under
  `data` (`apps/workers/src/consumer.ts:130-142`), so it skips every job and no queue changes
  (ReliabilityTheorems.ReplayChangesNothing); `requeue` in `packages/db/src/services/outbox-service.ts:149-156` touches parked
  rows only. That is why a job that has failed for good is never committed (ReliabilityTheorems.StuckOnlyWhenExhausted).
- `apps/api/src/auth/auth.service.ts:25-27` and `:165` keep a tombstone for the rest of the family's life; it lasts one
  lifetime from the spending, and a family that keeps rotating outlives it (AuthSessions.TombstoneOutlived;
  the exact condition is AuthSessions.ReuseDetectedExactly).
- `packages/shared/src/registration.ts:90-91` says the retry on an unknown state code repairs `1N` to `TN`. `1N` does not reach
  that branch, nothing becomes `T`, and the retry never succeeds (RegistrationTheorems.RetryNeverSucceeds).
- `packages/shared/src/time.ts:121-124` promises the earliest instant outside quiet hours. It can be late when the start
  is not on a whole minute, when the clock goes forward inside the jump, and when it goes back inside the jump to a
  reading that is not quiet; QuietHours.EarliestExactly is the exact condition for all of these.
- `packages/shared/src/working-hours.ts:130-131` takes 400 days for more than any ETA needs; beyond them the count is short
  exactly when the shop opens there (WorkingMinutesBetween.GuardExact).
- `packages/shared/src/time.ts:206-213` promises that no event is filed under the wrong day. A clock put forward at or over
  midnight, or back over it, can do so (LocalDays.ForwardAtMidnightMisfiles); LocalDays.BoundsAreTheDay says exactly when.
- `packages/shared/src/objects.ts:38` calls its entries dotted paths. Two fields can share one exactly when two keys of one
  object clash: one begins with the other and a dot, or is empty at the root (DottedPaths.SiblingsClashExactly,
  DottedPaths.ReportedPathsCollide). A member that is `undefined` counts as absent.
- `packages/shared/src/ids.ts:4-6` orders identifiers by creation; the order breaks at one place, the end of forty-eight bits
  (Uuid7Theorems.GreaterExactly, Uuid7Theorems.OrderBreaks).
- `packages/agent-core/src/runner.ts:276-280` sends its opening turn only while every completion was silent, so later requests
  begin with the assistant (AgentRunTheorems.OpeningTurnIsNotKept).
- `packages/shared/src/job-card-draft.ts:288` says a nullable text cleared to nothing becomes null; that is so only if it was
  null before (JobCardDraftTheorems.ClearedIsNullExactly). A price is shown in paise and typed in rupees
  (JobCardDraftTheorems.PriceRetyped).

## Model

| member | source | states |
|---|---|---|
| EditDistance.DistanceIsEditDistance | packages/shared/src/registration.ts:129-135 | a number is the least length of any script of insertions, deletions and replacements from one text to the other exactly when it is `Distance` |
| EditDistance.NoShorterScript | packages/shared/src/registration.ts:140-160 | every script between two texts has at least `Distance` edits |
| EditDistance.ShortestScript | packages/shared/src/registration.ts:146-150 | a script of exactly `Distance` edits exists |
| EditDistance.DistanceCoversLengths | packages/shared/src/registration.ts:138 | the length test is sound: lengths that differ by more than the limit put the distance beyond it |
| EditDistance.EveryRowIsCrossed | packages/shared/src/registration.ts:155-156 | the row-minimum test is sound: once a whole row is above a bound, so is the distance |
| EditDistance.NextRow | packages/shared/src/registration.ts:143-153 | the inner pass fills one row of true distances between prefixes, and finds a bound below all of them |
| EditDistance.BoundedEditDistance | packages/shared/src/registration.ts:136-161 | the two-row walk with both early exits returns the true distance whenever that is within the limit, and beyond the limit either the true distance or one past the limit |
| CanonicalJsonTheorems.ParseCanonical | packages/shared/src/canonical-json.ts:14-69 | a parser reads every printed tree back to its meaning, whatever text follows |
| CanonicalJsonTheorems.CanonicalIsInjective | packages/shared/src/canonical-json.ts:2-9 | two trees print alike exactly when they mean the same, `undefined` members dropped and `undefined` entries null |
| CanonicalJsonTheorems.SameMeaningSameText | packages/shared/src/canonical-json.ts:60-65 | trees of one meaning print one text |
| CanonicalJsonTheorems.InsertionOrderIrrelevant | packages/shared/src/canonical-json.ts:61-63 | the order in which members were inserted does not show in the text |
| CanonicalJson.QuoteRoundTrip | packages/shared/src/canonical-json.ts:22-23 | quoting and escaping of any code units, lone surrogates among them, is undone by unquoting (section 7 of RFC 8259) |
| CanonicalJson.DecimalRoundTrip | packages/shared/src/canonical-json.ts:24-28 | whole numbers of either sign are read back as printed |
| CanonicalJsonTheorems.ObjectInKeyOrder | packages/shared/src/canonical-json.ts:60-65 | the text of an object is that of its members other than the undefined ones in ascending order of key: each key goes on where an earlier one ends, or has the greater code unit where the two first differ; such an order exists |
| Text.BeforeExactly | packages/shared/src/canonical-json.ts:61-63 | the sort compares code unit by code unit at the first difference, and a key that goes on comes after the one it begins with |
| CanonicalJson.EscapeLengths | packages/shared/src/canonical-json.ts:22-23 | seven units have a two-character escape, every other control and lone surrogate a six-character one, and the rest stand as they are |
| Text.IncreasingUnique | packages/shared/src/canonical-json.ts:61-63 | one set of keys has one sorted order by code units (section 3.2.3 of RFC 8785) |
| ReliabilityTheorems.RunKeepsInvariant | apps/workers/src/outbox-dispatcher.ts:46-97 | the whole inductive invariant holds after any interleaving of dispatchers, workers and crashes |
| ReliabilityTheorems.EffectsExactlyOnce | apps/workers/src/consumer.ts:57-87 | in every reachable state the committed transactions of an event number one if its key is claimed and none otherwise, and what they wrote is each handler once, in order |
| ReliabilityTheorems.EffectsFrozen | apps/workers/src/consumer.ts:58-65 | once the key is claimed no redelivery changes the effects again |
| ReliabilityTheorems.NothingLost | apps/workers/src/outbox-dispatcher.ts:49-70 | every row is pending, or parked after its quota of failures, or dispatched with its job still held by its queue or its work committed |
| ReliabilityTheorems.DeadLetteredIsFailed | apps/workers/src/consumer.ts:119-151 | what is in the dead-letter queue is still held by its own queue, failed, with every attempt spent |
| ReliabilityTheorems.ThrowLeavesWaiting | apps/workers/src/consumer.ts:119-125 | a throw counts one attempt, and leaves the job waiting for another exactly while some remain |
| ReliabilityTheorems.FailedExactly | apps/workers/src/queues.ts:38-41 | in every run no job is attempted more often than its queue allows, one that has been attempted that often has failed, and one that failed with attempts left was given up for stalling |
| ReliabilityTheorems.DeadLetteredExactly | apps/workers/src/consumer.ts:125-142 | in every reachable state a job is dead-lettered exactly when its attempts are all used, and it has then failed; the letter tells the attempts and the event |
| ReliabilityTheorems.JobsAtHome | apps/workers/src/outbox-dispatcher.ts:123-132 | in every reachable state a job is at a registered queue, the one the kind of its event is routed to |
| ReliabilityTheorems.AllMayCrash | apps/workers/src/outbox-dispatcher.ts:12-13 | from every state all processes may die, and rows, jobs, keys, effects and letters stay as they are |
| ReliabilityTheorems.StuckOnlyWhenExhausted | apps/workers/src/consumer.ts:20-26 | the work of an event can still be committed, from any reachable state, exactly unless its job is failed and nobody is working on it, the requeue of rows and the replay and drop of dead letters included |
| ReliabilityTheorems.ExhaustedForGood | apps/workers/src/consumer.ts:119-151 | such an event is never committed in any continuation, and no replay of it is ever there to be taken |
| ReliabilityTheorems.ExhaustedIsReached | apps/workers/src/consumer.ts:119-151 | under every configuration that routes the event and gives finitely many attempts, a run from nothing leads there |
| ReliabilityTheorems.ReplayChangesNothing | apps/workers/src/cli/dlq.ts:137-156 | in every reachable state replaying a dead letter changes nothing, because no letter carries the envelope it looks for |
| ReliabilityProcess.Runtime.ReplayDeadLetters | apps/workers/src/cli/dlq.ts:94-159 | whatever the operator selects and confirms, every letter is skipped: nothing is replayed and no queue changes |
| ReliabilityProcess.SelectedExactly | apps/workers/src/cli/dlq.ts:104-110 | of the letters listed, a request selects the one named, those whose envelope is of a kind, or all |
| ReliabilityProcess.Runtime.DropDeadLetter | apps/workers/src/cli/dlq.ts:161-189 | a letter is dropped exactly when it is there and the trimmed reason has ten characters, and nothing else changes |
| ReliabilitySteps.JobSteps | apps/workers/src/outbox-dispatcher.ts:128-130 | what one step can do to a job: add it waiting, drop it completed, or take it, give it back, complete it, or fail it with one attempt more while attempts remain |
| ReliabilitySteps.SafePersists | apps/workers/src/outbox-dispatcher.ts:123-132 | no step takes a published event away before its work is committed: a held job id makes adding it a no-op |
| ReliabilitySteps.KeepsClaims | packages/db/src/services/outbox-service.ts:53-69 | batches claimed under skip-locked never overlap, whichever steps are taken |
| ReliabilitySteps.KeepsAttempts | packages/db/src/services/outbox-service.ts:97-110 | a row is parked exactly when its attempts have reached the limit |
| ReliabilityProcess.Runtime.PublishNext | apps/workers/src/outbox-dispatcher.ts:55-65 | one `publish` adds the job or joins the failures, and changes nothing else |
| ReliabilityProcess.Runtime.PublishBatch | apps/workers/src/outbox-dispatcher.ts:53-66 | the batch loop splits the claimed events into dispatched and failed, in order, with a job for each dispatched one |
| ReliabilityProcess.Runtime.ClaimTransaction | apps/workers/src/outbox-dispatcher.ts:49-70 | the claim transaction marks dispatched exactly what was published |
| ReliabilityProcess.Runtime.RecordFailures | apps/workers/src/outbox-dispatcher.ts:72-87 | each failure gains one attempt, and is parked at the limit, in a transaction of its own |
| ReliabilityProcess.Runtime.DispatchOnce | apps/workers/src/outbox-dispatcher.ts:46-97 | one call settles every claimed row by how its publish went, leaves all others alone, and its three counts add up |
| ReliabilityProcess.Runtime.ProcessEnvelope | apps/workers/src/consumer.ts:49-88 | a delivery is a duplicate with no effect, or throws with no effect, or claims the key and writes every handler's effect in order |
| ZonedTime.InstantFromZonedParts | packages/shared/src/working-hours.ts:41-77 | the three-attempt correction loop is the search that the laws below are about |
| ZonedTime.ResolveFinds | packages/shared/src/working-hours.ts:32-40 | with two offsets in play the loop finds an instant that shows the reading whenever there is one |
| ZonedTime.ResolveFixed | packages/shared/src/working-hours.ts:61-76 | with a fixed offset the result is the one instant that shows the reading |
| ZonedTime.ReadingRoundTrip | packages/shared/src/time.ts:67-97 | with a fixed offset readings and instants are converted back and forth without loss, to the second |
| ZonedTime.WeekdayFollows | packages/shared/src/time.ts:57-95 | day 0 was a Thursday, and each weekday follows the one before it around the week |
| WorkingHours.FixedOffsetRegular | packages/shared/src/working-hours.ts:87-128 | in every zone with one offset, days open and close in order and a reading of the clock places an instant rightly |
| ClockChange.NightChangeRegular | packages/shared/src/working-hours.ts:114-128 | the same holds in a zone whose clock changes once between one day's closing and the next day's opening, either way and across midnight too |
| NearbyChanges.NightChangesRegular | packages/shared/src/working-hours.ts:114-128 | and in every zone whose clock changes between closing and opening and at most once a week, however often |
| NearbyChanges.DaylightSavingRegular | packages/shared/src/working-hours.ts:32-40 | daylight saving is such a zone, for all years: forward one night or evening after closing each spring and back in the same way each autumn |
| WorkingHours.NextWorkingInstant | packages/shared/src/working-hours.ts:140-164 | the result is the first instant at or after the given one at which the shop is open; the step guard is never reached |
| WorkingHours.WeekHasWork | packages/shared/src/working-hours.ts:149-155 | some day of any seven is a working day |
| WorkingHours.WorkingMsAdds | packages/shared/src/working-hours.ts:208-213 | open time is additive over adjacent intervals |
| WorkingMinutes.AddWorkingMinutes | packages/shared/src/working-hours.ts:173-205 | the result is an open instant with exactly the minutes asked for (rounded) of open time before it, or all that 400 day steps can spend, and with the seconds of its start or none |
| WorkingMinutes.Advance | packages/shared/src/working-hours.ts:182-204 | the day-by-day walk spends each day's rest and skips to the next opening without losing a minute |
| WorkingMinutes.RestOfTheDay | packages/shared/src/working-hours.ts:192-201 | from an open instant to the next opening there is just the rest of the day |
| WorkingMinutes.MinutesAreWhole | packages/shared/src/working-hours.ts:94-95 | a minute is open or shut as a whole |
| WorkingMinutesBetween.WorkingMinutesBetween | packages/shared/src/working-hours.ts:214-263 | the day-jumping loop totals the open time in the interval up to the 400-day horizon: day by day, each day rounded; exactly on whole minutes; and never off by more than a minute |
| WorkingMinutesBetween.MeasureDay | packages/shared/src/working-hours.ts:236-259 | one day's segment is the open time still ahead on that day |
| WorkingMinutesBetween.AdvancesFromWholeMinutes | packages/shared/src/working-hours.ts:173-205 | what `addWorkingMinutes` returns from a whole minute is an advance in the sense of the laws below |
| WorkingMinutesBetween.AdvanceUnique | packages/shared/src/working-hours.ts:166-172 | there is only one instant that many working minutes ahead |
| WorkingMinutesBetween.AdvanceComposes | packages/shared/src/working-hours.ts:166-172 | advancing by a and then by b is advancing by a + b |
| WorkingMinutesBetween.AdvanceMonotone | packages/shared/src/working-hours.ts:166-172 | a later start or more minutes never ends earlier, and more minutes end strictly later |
| WorkingMinutesBetween.AdvanceUndoesCount | packages/shared/src/working-hours.ts:207-213 | advancing by what was counted up to an open instant arrives there |
| WorkingMinutesBetween.GuardExact | packages/shared/src/working-hours.ts:130-131 | the count is short exactly when the shop is open at some instant beyond the 400-day horizon |
| WorkingMinutesBetween.AddThenCount | packages/shared/src/working-hours.ts:173-263 | the two loops run one after the other: adding up to 399 full days of minutes and counting them, within the horizon, gives them back |
| WorkingMinutesBetween.AddTwice | packages/shared/src/working-hours.ts:173-205 | adding a and then b minutes arrives where adding a + b does, up to 399 full days |
| WorkingMinutesBetween.CountInParts | packages/shared/src/working-hours.ts:214-263 | three calls of the loop: counting to a later instant is counting to one between and on from there, within the horizons |
| QuietHours.QuietWithinLength | packages/shared/src/time.ts:111-119 | a minute of day is quiet exactly when fewer minutes have passed since the start of the window, around midnight, than it lasts |
| QuietHours.QuietSinceStart | packages/shared/src/time.ts:111-119 | where the offset has not moved for a day, an instant is quiet exactly when some instant the window opens at lies behind it by less than the window lasts |
| QuietHours.NextInstantOutsideQuietHours | packages/shared/src/time.ts:125-144 | the three-pass loop is the search that the laws below are about |
| QuietHours.OutsideIsLeast | packages/shared/src/time.ts:121-124 | with no clock change near, the result is never quiet, final and less than a day ahead; it is the least such instant exactly when nothing moved or the start is on a whole minute |
| QuietHours.OutsideIsOutside | packages/shared/src/time.ts:135-141 | across one clock change of any size two passes are enough and the result is never quiet |
| QuietHours.EarliestExactly | packages/shared/src/time.ts:121-144 | for every start, and one clock change of any size and either direction: the result is the earliest instant outside exactly when the start is not quiet, or is on a whole minute and the change, if strictly inside the jump, falls on a quiet reading from which the window lasts at least as long as the jump |
| QuietHours.ForwardChangeOvershoots | packages/shared/src/time.ts:121-124 | a clock put forward by less than the loud part of the day: the earliest exactly if the change is not strictly inside the jump |
| QuietHours.BackwardChangeHarmless | packages/shared/src/time.ts:121-124 | a clock put back by no more than the loud part of the day: the earliest exactly if the change is not strictly inside the jump or falls on a quiet reading |
| QuietHours.BackwardChangeOvershoots | packages/shared/src/time.ts:121-124 | a zone, window and start for which the result is seven hours after the earliest |
| NearbyChanges.EarliestExactlyNearby | packages/shared/src/time.ts:121-144 | the exact condition needs the zone to change at most once in the two days from the start only |
| LocalDays.LocalDayBounds | packages/shared/src/time.ts:214-235 | the bounds are the midnights of the day and of the day after |
| LocalDays.At | packages/shared/src/time.ts:216-229 | the probing loop in whole minutes finds what the general search finds |
| LocalDays.MidnightDividesExactly | packages/shared/src/time.ts:216-229 | for one clock change of any size and either direction: the midnight found is where the day begins if and only if the change keeps it, that is, does not move the clock over it, or does so from or to it with the midnight read as UTC before the change |
| LocalDays.BoundsAreTheDay | packages/shared/src/time.ts:206-235 | days tile the timeline around a clock change of up to a day: the bounds of a day are the instants at which the clock shows it, if and only if the change keeps both midnights |
| LocalDays.ForwardAtMidnightMisfiles | packages/shared/src/time.ts:206-213 | put forward at midnight two hours east of UTC, an instant of the evening before lies in the bounds of the day |
| LocalDays.DayIsAsLong | packages/shared/src/time.ts:231-234 | only a day during which the clock changes is longer or shorter than 24 hours, by what it was moved |
| NearbyChanges.BoundsAreTheDayNearby | packages/shared/src/time.ts:206-235 | the same if and only if, in every zone that changes at most once in the week about the day |
| LocalDays.FixedBoundsAreTheDay | packages/shared/src/time.ts:185-191 | with one offset every day is 24 hours and its bounds are its instants |
| Documents.DeepMerge | packages/shared/src/objects.ts:17-30 | the member loop builds the merge |
| Documents.MergedMember | packages/shared/src/objects.ts:20-27 | what the merge reads at each key, `undefined` skipped |
| Documents.MergeIdempotent | packages/shared/src/objects.ts:17-30 | merging the same base beneath twice is merging it once |
| Documents.PatchLeafSurvives | packages/shared/src/objects.ts:23-26 | every leaf of the patch is in the merge where it was |
| Documents.BaseLeafSurvives | packages/shared/src/objects.ts:18-27 | so is every leaf of the base that the patch does not reach |
| DocumentDiff.DiffEmptyIffEqual | packages/shared/src/objects.ts:39-50 | the diff is empty exactly when the trees are equal, `undefined` members aside |
| DocumentDiff.SameValueIffEqual | packages/shared/src/objects.ts:52-62 | comparison by value, through the mutual recursion, is that same equality |
| DocumentReplay.ChangesAreTrue | packages/shared/src/objects.ts:43-49 | each entry reports what the two trees hold at its path, and they differ there |
| DocumentReplay.ChangesApart | packages/shared/src/objects.ts:43-49 | no two entries overlap: neither path is a prefix of the other |
| DocumentReplay.ReplayGivesAfter | packages/shared/src/objects.ts:38-50 | replaying the entries onto the old tree gives the new one |
| DocumentReplay.ChangeReported | packages/shared/src/objects.ts:43-49 | where the trees differ in other than two objects there is an entry for the path |
| DottedPaths.SiblingsClashExactly | packages/shared/src/objects.ts:44 | paths through two keys of one object can read alike if and only if one key begins with the other and a dot, or is empty where no prefix stands before it |
| DottedPaths.ReportedPathsDistinct | packages/shared/src/objects.ts:38-50 | of trees no two of whose keys side by side clash so, no two entries returned have one dotted path |
| DocumentReplay.DottedInjective | packages/shared/src/objects.ts:44 | over keys that are not empty and hold no dot, a dotted path names one place |
| DottedPaths.ReportedPathsCollide | packages/shared/src/objects.ts:44 | any two keys that clash, side by side at any depth, are the only keys of two documents whose diff reports one dotted path twice |
| DocumentReplay.DiffPaths | packages/shared/src/objects.ts:39-50 | the recursive method returns those entries, each under its dotted path |
| DocumentReplay.DiffObjects | packages/shared/src/objects.ts:40-46 | the loop over the sorted keys of both objects joins the entries of each |
| DocumentReplay.IsSameValue | packages/shared/src/objects.ts:52-62 | the recursive comparison decides the equality |
| ShopConfigMigrations.WithRungTypes | packages/config/src/shop-config-migrations.ts:142-165 | the loop over ladders rewrites every rung list and leaves everything else |
| ShopConfigMigrations.RetypeRungKeeps | packages/config/src/shop-config-migrations.ts:134-160 | a rewritten rung has a type, no channel and all its other members; a missing type is the channel WHATSAPP, SMS or HUMAN itself, VOICE_OR_ADVISOR for VOICE, and HUMAN for any other channel or none; rewriting it again changes nothing |
| ShopConfigMigrations.RewriteCommutes | packages/config/src/shop-config-migrations.ts:44-62 | the rewrite may run before or after the defaults go beneath: the outcome is the same |
| ShopConfigMigrations.StepStaysMergedOnce | packages/config/src/shop-config-migrations.ts:29-132 | every further step leaves a document that was merged once merged once |
| ShopConfigMigrations.MigrateShopConfig | packages/config/src/shop-config-migrations.ts:173-202 | from version v the loop ends after 7 - v steps with one merge of the defaults beneath the stored document (rewritten if v is at most 2) at version 7; newer and unregistered versions are refused |
| ShopConfigMigrations.StoredLeafSurvives | packages/config/src/shop-config-migrations.ts:34-40 | every stored leaf outside rung lists and the version is still there |
| ShopConfigMigrations.StoredRungsSurvive | packages/config/src/shop-config-migrations.ts:44-55 | a stored rung list replaces the default one, rung by rung where it was; one stored at version 0, 1 or 2 has in each rung its type kept, or its channel as the type, no channel, and its other members |
| AuthSessions.RunKeeps | apps/api/src/auth/auth.service.ts:17-38 | the invariant of live tokens, families and tombstones holds after every run of calls and expiries |
| AuthSessions.AcceptedAtMostOnce | apps/api/src/auth/auth.service.ts:139-142 | over any run a refresh token is let through at most once |
| AuthSessions.OneLiveToken | apps/api/src/auth/auth.service.ts:108-116 | in every reachable state a live token is in its family's set, a family has one live token, and no set outlives it |
| AuthSessions.ReuseEndsFamily | apps/api/src/auth/auth.service.ts:27-31 | once reuse is detected no token of the family is ever live again and no session of it is ever issued |
| AuthSessions.SignOutEndsFamily | apps/api/src/auth/auth.service.ts:204-219 | nor after signing out with a live token |
| AuthSessions.ReuseDetectedExactly | apps/api/src/auth/auth.service.ts:145-161 | a presented token is reported as reused exactly within one lifetime of its spending, killing its family and counting its live token; any other dead one is merely expired, with nothing changed |
| AuthSessions.OthersUndisturbed | apps/api/src/auth/auth.service.ts:180-195 | no call disturbs the live token of another family |
| AuthSessions.SwitchedExactly | apps/api/src/auth/auth.service.ts:198-202 | switching shop begins a family of its own exactly for a member of that shop, leaves every other family as it is, and is refused as inactive exactly without any membership |
| AuthSessions.RefreshContinues | apps/api/src/auth/auth.service.ts:163-177 | a live token is spent whatever happens; the session goes on, in its shop and family and for a whole lifetime, exactly when the owner is still a member there, and its family is dead otherwise |
| AuthSessions.IssuedOnMembership | apps/api/src/auth/auth.service.ts:78-85 | a session is issued exactly when the caller has a membership, in the shop asked for if one was, and on the first such membership |
| AuthSessions.TombstoneOutlived | apps/api/src/auth/auth.service.ts:165-172 | a run in which the family outlives a tombstone and the reuse passes for an expiry, so the comment's "rest of the family's life" does not hold |
| AuthService.Service.IssueSession | apps/api/src/auth/auth.service.ts:72-137 | the commands put the token, its record and its membership of the family in place together, or refuse the shop |
| AuthService.Service.KillFamily | apps/api/src/auth/auth.service.ts:188-195 | every member's key and the set are deleted, and the members counted |
| AuthService.Service.Refresh | apps/api/src/auth/auth.service.ts:143-178 | get-and-delete, tombstone, removal and re-issue end in the state and answer of the transition the laws are about |
| AuthService.Service.SwitchShop | apps/api/src/auth/auth.service.ts:198-202 | a new family for another shop, and the old one left alone |
| AuthService.Service.Revoke | apps/api/src/auth/auth.service.ts:213-221 | a live token's whole family is killed; any other token changes nothing |
| AuthService.StolenToken | apps/api/src/auth/auth.service.ts:17-31 | two parties presenting one token in turn: the second presentation is reported, and ends the family of both |
| AgentRunner.Runner.Loop | packages/agent-core/src/runner.ts:221-379 | the loop takes the one number of steps after which something stops the run, and its report, log, transcript and order of events are those of the turns taken |
| AgentRunner.Runner.TakeTurn | packages/agent-core/src/runner.ts:275-347 | one step asks, executes, persists and carries the exchange into the transcript, in that order |
| AgentRunner.Runner.ExecuteCalls | packages/agent-core/src/runner.ts:388-460 | each permitted call is invoked once, in order, and no other; refusals, failures and holds are recorded as such |
| AgentRunner.Runner.PersistStep | packages/agent-core/src/runner.ts:462-487 | a step and its audit entry are appended together, and what was there is kept |
| AgentRunner.Runner.ReplayLog | packages/agent-core/src/runner.ts:576-589 | the replay joins the recorded calls of all steps |
| AgentRunner.Runner.FindSuccess | packages/agent-core/src/runner.ts:355-360 | success is found exactly when some entry is ok and its tool is in `metWhen` |
| AgentRunner.Runner.FindBlocked | packages/agent-core/src/runner.ts:362-370 | the first held entry is found, if there is one |
| AgentRunTheorems.EndsOnceWithinCap | packages/agent-core/src/runner.ts:240 | for every model and tool behaviour the run ends, at one number of steps and within the cap |
| AgentRunTheorems.NothingStoppedAStepTaken | packages/agent-core/src/runner.ts:241-273 | no step is taken after a person replied, after the time ran out or after a turn that ended the run |
| AgentRunTheorems.TokensWithinCapBeforeLast | packages/agent-core/src/runner.ts:270-273 | the tokens of all steps but the last are within the cap |
| AgentRunTheorems.OutcomeExactly | packages/agent-core/src/runner.ts:349-375 | which outcome is reported, by what the turns held: success if and only if some turn has a successful `metWhen` call and no handover, and likewise for hold, handover and override |
| AgentRunTheorems.OutcomeByAnswers | packages/agent-core/src/runner.ts:349-373 | what is reported, by what the tools answered in the last step alone: a handover where a permitted tool made one; else success where a permitted `metWhen` call was answered without refusal; else a hold where a permitted tool refused with `BLOCKED_TO_HITL`, for the reason of the first that did |
| AgentRunTheorems.ExecutedAt | packages/agent-core/src/runner.ts:393-458 | what a call leaves behind: ok exactly when a permitted tool answered and did not refuse, held exactly when it refused with `BLOCKED_TO_HITL`, and an answer under the id of the call |
| AgentRunTheorems.SuccessWasObserved | packages/agent-core/src/runner.ts:41-44 | success rests on a permitted `metWhen` call of the last step whose tool answered without refusing |
| AgentRunTheorems.StepOnRecord | packages/agent-core/src/runner.ts:301-323 | the record of a step and its audit entry hold the text if there was any, each call in order, whether each call was answered without refusal, a verdict exactly if one was not, and the tokens spent |
| AgentRunTheorems.ReplayIsCallsMade | packages/agent-core/src/runner.ts:568-575 | the replay of a log is exactly the calls the model made, over steps numbered from zero without a gap |
| AgentRunTheorems.OnlyPermittedInvoked | packages/agent-core/src/runner.ts:381-410 | no tool outside the objective's is ever invoked, and each permitted call of the run is, once and in order |
| AgentRunTheorems.EffectsAreAllowedReplay | packages/agent-core/src/runner.ts:568-575 | what reached a tool is the replay less what is not permitted |
| AgentRunTheorems.CrashLeavesRecord | packages/agent-core/src/runner.ts:38-40 | a process that dies at any point leaves every earlier step on record, and its tools went beyond the record by at most a first part of one step's calls |
| AgentRunTheorems.PersistedBeforeNext | packages/agent-core/src/runner.ts:38-40 | no step is asked for before all earlier ones are on record |
| AgentRunTheorems.TranscriptAlternates | packages/agent-core/src/runner.ts:329-347 | the transcript is assistant and user in turn, and each user message answers the calls before it one by one, by id |
| AgentRunTheorems.OpeningTurnIsNotKept | packages/agent-core/src/runner.ts:276-280 | the request of a step is the opening user turn if and only if every earlier completion had neither calls nor text; in every other case it begins with the assistant |
| Uuid7Generator.Generator.Uuidv7 | packages/shared/src/ids.ts:37-70 | each call ends in the next state with that state's identifier, and nests one call of itself if a used-up counter makes it borrow a millisecond and none otherwise |
| Uuid7Generator.FormatUuid | packages/shared/src/ids.ts:72-84 | sixteen bytes become thirty-two digits and four dashes |
| Uuid7Generator.FirstBytes | packages/shared/src/ids.ts:53-61 | the bytes cut out one by one are the low forty-eight bits of the time, the version and the counter (section 5.7 of RFC 9562) |
| Uuid7.IdOrder | packages/shared/src/ids.ts:1-14 | text order of identifiers is the order of their times and then of their counters |
| Uuid7Theorems.GreaterExactly | packages/shared/src/ids.ts:37-51 | an identifier comes after the one before it exactly unless the counter runs out in the last millisecond of forty-eight bits |
| Uuid7Theorems.OrderBreaks | packages/shared/src/ids.ts:37-51 | a run of 2050 calls with readings below 2^48 that ends there: its last identifier comes before the one before it |
| Uuid7Theorems.RunAscends | packages/shared/src/ids.ts:37-84 | over any run, with a clock that repeats or goes back, every identifier is strictly greater than all before it |
| Uuid7Theorems.DriftBounded | packages/shared/src/ids.ts:30-50 | the generator is never behind a reading, and after n calls it is d milliseconds ahead of the largest with 2048 d at most n |
| Uuid7Theorems.TimestampReadsBack | packages/shared/src/ids.ts:92-98 | every identifier is well formed, of version 7 and its variant, and its time reads back |
| Uuid7Theorems.TimestampExactly | packages/shared/src/ids.ts:86-98 | a text has a time exactly when it has the shape of an identifier and its version is 7 |
| Uuid7Theorems.TimestampInAnyCase | packages/shared/src/ids.ts:86-98 | an identifier is read alike in either case |
| Uuid7Theorems.TimestampOfRun | packages/shared/src/ids.ts:92-98 | over a run the time read back is the generator's and not before the clock's |
| Money.GroupedShape | packages/shared/src/money.ts:21-29 | a comma stands after the third digit from the right and after every second one from there, and no zero leads |
| Money.GroupedReads | packages/shared/src/money.ts:21-29 | the digits of a grouped number are its value |
| PriceCheck.PrintedIsNumeral | packages/shared/src/money.ts:22-29 | a printed amount is a numeral of the pattern worth that amount |
| PriceCheck.PrintingInjective | packages/shared/src/money.ts:22-29 | two amounts never print alike |
| PricePattern.ScannerMeetsGrammar | packages/agent-core/src/post-checker.ts:284-285 | at every place of every text the scanner finds a match exactly when the pattern has one, its numeral begins where they all do, and it ends no earlier than any |
| PriceCheck.ExtractAmountsPaise | packages/agent-core/src/post-checker.ts:282-296 | the matching loop collects the amounts of all matches from left to right |
| PriceCheck.NumeralIsAmount | packages/agent-core/src/post-checker.ts:288-292 | every numeral the pattern accepts reads as an amount, a lone comma among them |
| PriceCheck.ZerosAddNothing | packages/agent-core/src/post-checker.ts:290-292 | zeros at the end of a fraction, and a fraction of zeros, do not change an amount |
| PriceCheck.PrintedAmountsRead | packages/agent-core/src/post-checker.ts:274-296 | amounts printed among text that by itself mentions no amount, its own numbers and commas allowed, are read back, all and in order |
| PriceCheck.PlainIsSilent | packages/agent-core/src/post-checker.ts:284-293 | text free of digits and commas mentions no amount |
| PriceCheck.SilentSkipped | packages/agent-core/src/post-checker.ts:287 | text that mentions no amount by itself mentions none before the symbol or the end |
| PriceCheck.PassesExactly | packages/agent-core/src/post-checker.ts:252-272 | a body passes exactly when every amount it mentions is allowed |
| PriceCheck.ReasonsExactly | packages/agent-core/src/post-checker.ts:263-271 | a reason is given for each mentioned amount that is not allowed and for no other, and the span shown reads as that amount alone |
| PriceCheck.CaseIrrelevant | packages/agent-core/src/post-checker.ts:282-285 | two messages that differ only in the case of letters mention the same amounts |
| PriceCheck.WordedExactly | packages/agent-core/src/post-checker.ts:282-285 | a printed amount after `Rs`, `Rs.` or `INR` in any case and any space is read as that amount, exactly when no letter, digit or underscore stands right before the word |
| PriceCheck.WordsExactly | packages/agent-core/src/post-checker.ts:285 | a marker begins where no letter, digit or underscore stands before it |
| PriceCheck.PrintedPricesPassExactly | packages/agent-core/src/post-checker.ts:252-272 | a body that quotes printed amounts passes exactly when each of them is allowed |
| PriceCheck.UnmarkedIsNotMoney | packages/agent-core/src/post-checker.ts:274-281 | numbers with no marker are not money |
| Registration.SplitsExactly | packages/shared/src/registration.ts:38 | the standard shape is two letters, one or two digits, at most three letters and one to four digits put together |
| Registration.IsBhExactly | packages/shared/src/registration.ts:39 | the BH shape is two digits, the letters BH, four digits and one or two letters put together |
| Registration.MatchStandardExactly | packages/shared/src/registration.ts:38 | the standard format is recognised exactly when some split exists, and greedy matching takes the longest district, then the longest series |
| Registration.RepairCommonOcrErrors | packages/shared/src/registration.ts:113-127 | the first four characters are put right by position, and texts under six left alone |
| Registration.RepairSettles | packages/shared/src/registration.ts:113-127 | a repaired text is clean and has nothing left to repair |
| RegistrationTheorems.NormalisesInOneRepair | packages/shared/src/registration.ts:65-106 | any input ends after at most one repair, and with what |
| RegistrationTheorems.RetryNeverSucceeds | packages/shared/src/registration.ts:90-96 | the retry on an unknown state code never succeeds, so its comment does not hold |
| RegistrationTheorems.SuccessIsCanonical | packages/shared/src/registration.ts:12-14 | every success is a BH registration or a known state code, two digits, at most three letters and four digits |
| RegistrationTheorems.SuccessIsSameRegistration | packages/shared/src/registration.ts:71-106 | a success is the registration that went in, or its repair where that has no recognised shape: the same state and series, a district and a number of the same value, and a BH registration as it was |
| Registration.RepairsLookalikes | packages/shared/src/registration.ts:113-127 | a repair puts a lookalike for what it replaces, and replaces whatever has one |
| RegistrationTheorems.FixedExactly | packages/shared/src/registration.ts:65-106 | exactly the canonical texts normalise to themselves |
| RegistrationTheorems.WritingIrrelevant | packages/shared/src/registration.ts:68-71 | case, spaces and punctuation in what is typed make no difference to the result |
| RegistrationTheorems.NormalisesOnce | packages/shared/src/registration.ts:65-106 | normalising a success again changes nothing |
| RegistrationTheorems.DisplayedParts | packages/shared/src/registration.ts:163-174 | state, district, series if there is one, and number of a success stand apart by single spaces |
| RegistrationTheorems.DisplayReadsBack | packages/shared/src/registration.ts:163-174 | the display form of a success normalises to the same success |
| JobCardDraft.DraftFields | packages/shared/src/job-card-draft.ts:114-139 | the loops list every confirmable field in reading order |
| JobCardDraftTheorems.ListedPaths | packages/shared/src/job-card-draft.ts:86-96 | every listed path is listed once and leads to the field it shows |
| JobCardDraftTheorems.PathResolves | packages/shared/src/job-card-draft.ts:222-259 | the path of every place, quantities included, leads to it |
| JobCardDraftTheorems.TargetExactly | packages/shared/src/job-card-draft.ts:222-259 | a path leads to a place exactly when its segments name it, an index being any text that reads as the number, and the draft has it; it leads to an inherited property exactly below a customer or vehicle that keeps no field of that name |
| JobCardDraftTheorems.AnyPathCorrects | packages/shared/src/job-card-draft.ts:191-215 | correcting by any path does to the place it names what that value and the schema allow, to the draft nothing where it names an inherited property, and else reports an unknown field |
| JobCardDraftTheorems.CaptionsDistinct | packages/shared/src/job-card-draft.ts:114-140 | no two fields listed have one caption |
| JobCardDraftTheorems.CorrectsExactly | packages/shared/src/job-card-draft.ts:191-215 | a correction succeeds exactly when the text reads as a value the schema takes there |
| JobCardDraftTheorems.CorrectionChangesOneField | packages/shared/src/job-card-draft.ts:183-190 | a correction changes the value of its entry and makes it certain; its region, all other entries and what is not listed stay |
| JobCardDraftTheorems.CorrectionNoLessSure | packages/shared/src/job-card-draft.ts:183-215 | by any path, no field becomes less certain |
| JobCardDraftTheorems.OverallBetween | packages/shared/src/job-card-draft.ts:151-157 | overall confidence lies within any bounds that every field keeps |
| JobCardDraftTheorems.OverallRises | packages/shared/src/job-card-draft.ts:151-157 | the correction of a listed field raises overall confidence by its share of what it lacked |
| JobCardDraftTheorems.OverallNeverFalls | packages/shared/src/job-card-draft.ts:151-157 | overall confidence never falls by a correction |
| JobCardDraftTheorems.SessionMakesSure | packages/shared/src/job-card-draft.ts:183-215 | after a session of corrections each corrected field is certain |
| JobCardDraftTheorems.SessionEmptiesList | packages/shared/src/job-card-draft.ts:159-162 | correcting every low-confidence field, in any order, empties the list for a threshold up to one |
| JobCardDraftTheorems.AboveOneNeverEmpty | packages/shared/src/job-card-draft.ts:159-162 | above one the list is always all fields |
| JobCardDraftTheorems.PriceTyped | packages/shared/src/job-card-draft.ts:268-273 | a price typed in rupees with two decimals, wherever rupee signs, commas and spaces stand in it, is stored to the paisa, or rejected over the limit |
| JobCardDraftTheorems.PrintedPriceTyped | packages/shared/src/job-card-draft.ts:268-273 | a price typed as money is printed is stored as that amount |
| JobCardDraftTheorems.PriceRetyped | packages/shared/src/job-card-draft.ts:268-273 | a price retyped as it is shown becomes a hundredfold, so it stays exactly when it is zero |
| JobCardDraftTheorems.PriceCleared | packages/shared/src/job-card-draft.ts:268-273 | a blank price becomes zero |
| JobCardDraftTheorems.OdometerTyped | packages/shared/src/job-card-draft.ts:281-286 | a reading typed with grouping, spaces and the unit in either case is stored as its number, or rejected over the limit |
| JobCardDraftTheorems.OdometerRetyped | packages/shared/src/job-card-draft.ts:281-286 | an odometer reading retyped as it is shown stays |
| JobCardDraftTheorems.QuantityTyped | packages/shared/src/job-card-draft.ts:275-279 | a whole number typed for a quantity is that many thousands of the field, and is taken exactly from 1 to 1000 |
| JobCardDraftTheorems.TextTyped | packages/shared/src/job-card-draft.ts:288-290 | what is typed for a text is taken exactly when it is no shorter and no longer than the field allows without the space around it, and is then stored so |
| JobCardDraftTheorems.TextRetyped | packages/shared/src/job-card-draft.ts:288-290 | a text retyped as it is shown is refused exactly if it is a complaint or description of nothing but space, and else stays exactly when it has no space around it |
| JobCardDraftTheorems.ClearedIsNullExactly | packages/shared/src/job-card-draft.ts:288-290 | a nullable text cleared is null exactly when it was null before |
| JobCardDraftTheorems.BlankIndexIsFirst | packages/shared/src/job-card-draft.ts:226-234 | a path with its index left out reaches the first complaint |

## Left out

- WorkingHours.NextWorkingInstant: zones whose clocks change between opening and closing time, of a closed day too, or at closing time itself, or twice in a week.
- WorkingMinutes.AddWorkingMinutes: the same zones.
- WorkingMinutesBetween.WorkingMinutesBetween: the same zones.
- WorkingMinutesBetween.AdvanceUnique: starts within a minute, where the source rounds each day's part by itself; the count is then stated day by day instead.
- QuietHours.EarliestExactly: zones with more than one clock change in the two days from the start, and offsets with seconds.
- LocalDays.BoundsAreTheDay: days within the week of two clock changes, changes of more than 24 hours, and offsets with seconds.
- CanonicalJsonTheorems.CanonicalIsInjective: numbers that are not whole, whole ones at or beyond 2^53 (the source prints their shortest digits and not their exact ones), dates, big integers, maps, sets and cycles; negative zero, which prints as zero.
- DocumentDiff.DiffEmptyIffEqual: not-a-number, objects with their own prototype, and keys that name an inherited property.
- ShopConfigMigrations.MigrateShopConfig: the schema parse that follows, stored versions that are not whole numbers, and the text of the defaults, of which only the shape of their rungs matters.
- ShopConfigMigrations.RetypeRungKeeps: channels that name an inherited property, such as `constructor`, for which the table of legacy channels answers something that is no text.
- AuthSessions.AcceptedAtMostOnce: interleavings of the single commands of two calls, hashing, signing, and what an access token is good for.
- AgentRunner.Runner.Loop: `run` before the loop (its three reasons not to start), the prompt, latencies, the audit and outbox entries of the run's start and end, and tool arguments' validation inside the registry.
- ReliabilityProcess.Runtime.ProcessEnvelope: effects of handlers outside their transaction, and the results a handler returns beyond its name.
- ReliabilityProcess.Runtime.ReplayDeadLetters: the limit of a thousand jobs it lists, and what it prints.
- ReliabilityProcess.Runtime.DispatchOnce: which pending rows a claim picks, by time of occurrence, out of those it may.
- Uuid7Generator.Generator.Uuidv7: clock readings before 1970.
- Money.GroupedShape: other locales and negative amounts; amounts are divided exactly and not in floating point.
- PriceCheck.PrintedAmountsRead: text between the amounts that mentions an amount of its own.
- Registration.MatchStandardExactly: the pattern's matching is the search over splits, and not a general matcher.
- JobCardDraftTheorems.CorrectsExactly: the language enumeration, and numbers with fractions finer than their field, whose rounding is done in exact arithmetic.
- Claim anchoring, banned phrases and coverage in the post-checker: they rest on a model and on word lists.
- The civil calendar (months, leap years) and zone data: days are numbers.
- The console, controllers, adapters, metrics and logging.
