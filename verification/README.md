# Orbit: a verified model

A Dafny 4.11 model of the parts of Orbit in which time, state or concurrency make behaviour hard to
see from any one function. `dafny verify dfyconfig.toml` verifies everything.

| modules | model |
|---|---|
| `Calendar`, `Timezone`, `DayRange`, `Scheduling` | wall-clock times, day ranges and weekly slots across transitions |
| `RateLimit`, `RateLimitRaces` | the token bucket, its refusals, its usage reports and its expiry |
| `TenantScope` | the rewrite that narrows database operations to one organization |
| `Bytes`, `Jpeg`, `SampleTable`, `Mp4`, `Mp4Tree`, `Mp4Meaning`, `Mp4Edges` | the JPEG and ISO base media header readers, with serialisers for both formats |
| `Credentials`, `RenewalProtocol` | stored credentials, and many workers renewing one account |
| `Lock` | expiring leases released by compare-and-delete |
| `SortedIndex`, `DeadLetter` | the capped, expiring record of failed jobs |
| `PostLifecycle`, `PostRuns`, `Publishing` | the post state machine, runs of moves and edits, and the roll-up |
| `PublishingRuns`, `PublishingRaces`, `PublishingTruth` | runs of publish attempts and of what people do beside them, what writes that come late do to them, and what a settled post then says |
| `Permissions`, `Agent`, `Policy`, `Transitions` | who may do and move what, in person and through an agent |

Conventions. Instants are integer milliseconds, wall readings integer seconds. A zone is a function from
a UTC second to an offset in seconds; conditions on zones are named predicates: `Bounded` (every offset
under a day), `Spaced` (at most one transition in any 48 hours), `SpreadWithinDay` (offsets differ by at
most a day). What is said below of conversions and slots holds in bounded and spaced zones, where no other
condition is named. A thrown error is an `Err` or a `None`. A stored key with a time to
live is gone from its expiry on. A concurrent protocol is a state, an enabling condition and a next-state
function, and its theorems are about every run of steps. Where the program reads, decides and later writes
without looking again, the check and the write are two steps with anything in between: the moves
(`transitionPost`) and edits (`updatePost`, `autosavePost`, `updateVariant`) of a post, sends
(`publishNow`, `schedulePost`), reschedules, retries (`retryFailedVariants`, `retryPublishingJob`), decisions
(`resolveParkedVariant`), added and removed accounts (`syncVariants`), roll-ups (`rollUpPost`), usage reports
(`applyProviderUsage`). There the invariants hold at every moment if and only if every write finds what a named
condition asks for, and lemmas give runs that break them otherwise. History that the program does not keep (calls
made, outcomes written, tokens drawn) is part of such a state only to state the theorems; a step looks at
it only to say that a token is fresh or that the platform is honest.

## Where the code and its description differ

The model follows the code.

- `SHIFT_FORWARD` is described as the transition moment (`packages/core/src/timezone.ts:211-213`). It is
  the request plus the gap: `ShiftForward`, `ShiftPassesTransition`.
- `nextQueueSlot` promises the next occurrence (`packages/core/src/scheduling.ts:180`) and calls its last
  throw unreachable (`packages/core/src/scheduling.ts:219`). It misses an occurrence that a shift carried
  past midnight into the day it starts from, and throws after a transition that repeats a whole local day:
  `NextSlotLeastIff`, `NextSlotFoundIff`, `ApiaMissesFriday`.
- `applyProviderUsage` is described as slowing down once usage climbs
  (`packages/queue/src/rate-limit.ts:129-132`). It compares the stored count without its refill, so an idle
  bucket ignores it: `NarrowCapsIff`, `ReportIgnoredAfterIdle`.
- Deleting the tenant root is described as refused (`packages/db/src/tenant-scope.ts:117-119`). It is
  refused only for a filter that is malformed or names another id: `RootDeleteRefusedIff`.
- Creations that name another tenant are refused (`packages/db/src/tenant-scope.ts:232-247`), updates that
  move a row to one are not (`packages/db/src/tenant-scope.ts:96-99`): `UpdateIsolatedIff`.
- JPEG fill bytes are read as segments (`packages/storage/src/probe.ts:79-96`): `FilledFileReadIff`,
  `FirstFillDecides`.
- The row lock is there so that no spent token is presented (`apps/worker/src/credentials.ts:109-113`). One
  still is, after a renewal that the platform accepted and the row did not record, or by a call that outlives
  the transaction and its lock: `RenewalProtocol.RunsAreSafe`, `LostAnswerSpendsToken`, `OvertakenCallIsSpent`.
- A list of zero dead letters reads one (`packages/queue/src/dead-letter.ts:155`): `ListIsNewest`.
- An explicit reopen is described as the only way back to an editable state
  (`packages/core/src/post-status.ts:133-135`). A failed publish is another, and what is edited then goes
  out unapproved: `VoidsIffUnlocks`, `PublishesWhatWasApproved`, `FailedEditGoesOutUnapproved`. So does what
  is edited between the check of a schedule and its write
  (`apps/web/src/features/posts/service.ts:667-748`): `PostRuns.RunKeepsIff`, `LateScheduleGoesOutUnapproved`.
- `PUBLISHED` and `CANCELED` are described as having no way out
  (`packages/core/src/post-status.ts:129-130`). A move checked before takes a post out of either:
  `TerminalIsFinalIff`, `LateMoveUnpublishes`.
- A settled post whose variants were all canceled rolls up to `CANCELED`, which the state machine does not
  allow from `PUBLISHING` (`packages/core/src/publishing.ts:160`): `SettledRollUpLegalIff`.
- The last variant to finish is described as settling the post (`apps/worker/src/publishing/rollup.ts:73-74`).
  A retry leaves the post settled, and no roll-up may then correct it: `AgreesAfterIff`, `SettledStays`,
  `RetriedPostStaysPartial`. A retry between a roll-up's read and its write, which is guarded on the post's
  status alone (`apps/worker/src/publishing/rollup.ts:127-136`), settles it wrongly: `LateRollUpAgreesIff`,
  `LateRollUpSettlesWrongly`.
- Retrying one job is described as going back through the engine (`apps/web/src/features/publishing/service.ts:247-250`).
  It does so for canceled accounts and canceled posts as well: `RetryJobReaches`, `CanceledPostPublishes`.
- A parked variant is described as waiting for a person to decide
  (`packages/core/src/publishing.ts:171-173`). Removing its account from an unlocked post and adding it again
  attempts it without one: `ReaddedAccountIsFresh`.
- One conditional update is described as making a second publish impossible
  (`apps/worker/src/publishing/claim.ts:6-8`), and a published variant as never removed
  (`apps/web/src/features/posts/service.ts:158-160`). Releases, removals and decisions that read the variant
  before write without looking again: `PublishingRuns.RunKeepsIff`, `LateReleasePublishesTwice`,
  `LateRemovalPublishesTwice`, `LateDecisionPublishesTwice`.
- A usage report is described as only ever reducing what is available
  (`packages/queue/src/rate-limit.ts:131-132`). Written after takes that its read did not see, it gives them
  back: `LateWindowBound`, `LateReportGrantsMore`.
- A brand assignment is described as only ever narrowing (`packages/rbac/src/policy.ts:168-169`). It widens
  for a user outside the workspace, or without an approving role in it: `AssignmentNarrowsIff`,
  `AssignmentCanWiden`.

## Model

| member | source | states |
|---|---|---|
| `Calendar.FieldsInverse` | packages/core/src/timezone.ts:112-117 | calendar fields and `Date.UTC` invert each other: an instant shows a reading if and only if the reading is valid and counts to that instant |
| `Calendar.DateUnique` | packages/core/src/timezone.ts:90-103 | a valid date is the only valid date of its day number |
| `Calendar.DaysCarry` | packages/core/src/timezone.ts:300-300 | `Date.UTC` on a day past the end of its month is the day that many days later, across month and year ends |
| `Calendar.MonthLengths` | packages/core/src/timezone.ts:114-114 | the day-number calendar gives every month its length, February by leap year |
| `Calendar.DaysCount` | packages/core/src/timezone.ts:90-117 | day numbers count the days of the civil calendar, month by month and leap year by leap year, from 1 January 1970 on |
| `Calendar.WeekdayIsZeller` | packages/core/src/scheduling.ts:172-172 | the weekday of a date's day number, 0 being Sunday, is the one that Zeller's congruence gives from its year, month and day |
| `Timezone.OffsetAt` | packages/core/src/timezone.ts:112-117 | reading the wall fields back as UTC recovers the zone offset exactly, below one second dropped |
| `Timezone.OccurrencesExact` | packages/core/src/timezone.ts:141-159 | the three probes find every instant that reads as the requested wall time and no other, if offsets are under a day and any 48 hours hold at most one transition |
| `Timezone.RejectsIffNoReading` | packages/core/src/timezone.ts:196-209 | `REJECT` throws if and only if no instant reads as the wall time |
| `Timezone.PicksEarliestOrLatest` | packages/core/src/timezone.ts:183-195 | where instants do read as it, the result is one of them: no later than any under `EARLIER`, no earlier than any under `LATER`, and not marked shifted |
| `Timezone.AmbiguousIffTwoReadings` | packages/core/src/timezone.ts:187-195 | `ambiguous` holds if and only if two different instants read as the wall time, and three never do |
| `Timezone.InstantRoundTrip` | packages/core/src/timezone.ts:168-225 | an instant of whole seconds, read off the wall and converted back, is one of the two policies' results |
| `Timezone.ShiftForward` | packages/core/src/timezone.ts:211-224 | for a wall time nobody reads there is a forward transition skipping it, and `SHIFT_FORWARD` lands at or after it, reading the request plus the gap; on the transition itself if and only if the request starts the gap |
| `Timezone.ShiftPassesTransition` | packages/core/src/timezone.ts:211-224 | a zone and a request for which the comment's "exactly the transition moment" is wrong |
| `DayRange.DayRangesTile` | packages/core/src/timezone.ts:288-315 | each range ends where the next date's starts, also at month and year ends, and start is at most end when offsets spread over at most a day |
| `DayRange.MidnightSplits` | packages/core/src/timezone.ts:288-298 | where transitions stay inside one local day, an instant is at or after the start of a day if and only if the wall reads its midnight or later |
| `DayRange.CrossingBreaksRange` | packages/core/src/timezone.ts:288-315 | one transition whose skipped or repeated readings cross a midnight is enough to put some instant outside its own day's range |
| `DayRange.DayRangeExact` | packages/core/src/timezone.ts:288-315 | every range is exactly the instants of its wall date if and only if every transition's readings stay inside one local day |
| `Scheduling.LocalTimeSpelling` | packages/core/src/timezone.ts:239-259 | `parseLocalTime` accepts exactly one spelling of each time of day, and nothing else |
| `Scheduling.NextQueueSlot` | packages/core/src/scheduling.ts:186-224 | the loop with its early return computes the search that the lemmas below are about, errors included |
| `Scheduling.SlotFallsOnWeekday` | packages/core/src/scheduling.ts:200-216 | what is found is the slot's time on a date that falls on the slot's weekday by Zeller's congruence, and reads so on the wall wherever any instant does |
| `Scheduling.SlotErrors` | packages/core/src/scheduling.ts:187-194 | which error a slot gets: its time is none of the 1440 spellings, its weekday is outside 0 to 6, there are no slots |
| `Scheduling.SearchExact` | packages/core/src/scheduling.ts:200-217 | the search stops at the first day of the weekday that resolves after `after`, or has seen every such day resolve no later |
| `Scheduling.NextSlotAlwaysFound` | packages/core/src/scheduling.ts:186-224 | the final throw is unreachable when offsets spread over at most a day: a slot fails if and only if its time or weekday is invalid, and its instant is strictly after `after` |
| `Scheduling.CandidatesOrdered` | packages/core/src/scheduling.ts:204-214 | of two days a week or more apart the earlier one's instant comes first, across any transition |
| `Scheduling.NextSlotIsLeast` | packages/core/src/scheduling.ts:186-224 | where no shifted time passes midnight and no transition repeats a whole local day, the result is the least resolved occurrence strictly after `after`, over all days |
| `Scheduling.PassedMidnightIsMissed` | packages/core/src/scheduling.ts:196-217 | every shift past midnight yields a slot and an instant for which an earlier occurrence is missed |
| `Scheduling.RepeatedDayIsNotFound` | packages/core/src/scheduling.ts:196-223 | every transition that repeats a whole local day yields a slot and an instant for which the final throw is reached |
| `Scheduling.NextSlotFoundIff` | packages/core/src/scheduling.ts:219-223 | the final throw is unreachable, for every slot and instant, if and only if no transition repeats a whole local day |
| `Scheduling.NextSlotLeastIff` | packages/core/src/scheduling.ts:186-224 | the result is the least one, for every slot and instant, if and only if no shifted time passes midnight and no transition repeats a whole local day |
| `Scheduling.NextSlotAfterSlot` | packages/core/src/scheduling.ts:186-224 | there, the slot after one day's instant is that of the day seven days on |
| `Scheduling.UpcomingVisitsEveryWeek` | packages/core/src/scheduling.ts:186-224 | there, iterated, the slot visits the instant of every matching calendar day once and in order |
| `Scheduling.ApiaCrosses` | packages/core/src/scheduling.ts:196-198 | the zone used below: its clock goes from the last second of Thursday, 29 December 2011 to the first of Saturday |
| `Scheduling.ApiaMissesFriday` | packages/core/src/scheduling.ts:200-217 | with the date-line crossing of December 2011 a Friday slot asked for on Saturday morning is missed |
| `Scheduling.EarliestSlotExact` | packages/core/src/scheduling.ts:227-238 | the earliest slot is some member's next instant and no member's is sooner; it fails if and only if a member does |
| `RateLimit.RateLimiter.TakeToken` | packages/queue/src/rate-limit.ts:22-56 | the script's whole effect on the stored key and its answer, in terms of what was stored |
| `RateLimit.RateLimiter.ApplyProviderUsage` | packages/queue/src/rate-limit.ts:134-162 | the stored key after a usage report, and that no other key changes |
| `RateLimit.StepKeepsBelow` | packages/queue/src/rate-limit.ts:39-55 | every take, narrowing and expiry keeps the stored key at or below a bucket that is written by grants only |
| `RateLimit.BoundFrom` | packages/queue/src/rate-limit.ts:39-55 | over any run from any reachable key, what a window grants is covered by what that bucket held and what the window refills |
| `RateLimit.WindowBound` | packages/queue/src/rate-limit.ts:22-56 | over any run of takes, narrowings and expiries, the cost granted between two times is at most capacity plus the refill between them: times the window, at most capacity times the window and the time between |
| `RateLimit.BoundIsMet` | packages/queue/src/rate-limit.ts:22-56 | and it is met: a full bucket spent at the start of a window, and its refill at the end |
| `RateLimit.EarnedIs` | packages/queue/src/rate-limit.ts:108-108 | the refill over any time, times the window, is capacity times that time |
| `RateLimit.MissingIsFull` | packages/queue/src/rate-limit.ts:34-37 | a missing key grants a cost if and only if it is within capacity, and keeps the rest |
| `RateLimit.RefillsExactly` | packages/queue/src/rate-limit.ts:38-55 | what a take at `a` left grants a cost at `t` if and only if it is within capacity and what is missing, times the window, is at most capacity times `t - a`; the expiry adds nothing |
| `RateLimit.RetryIsLeast` | packages/queue/src/rate-limit.ts:43-50 | after a refusal `retryAfterMs` is the least whole number of milliseconds that refills what is missing at capacity per window |
| `RateLimit.KeyOutlives` | packages/queue/src/rate-limit.ts:109-110 | a key is gone once two windows and a minute have passed since its last take, and not before |
| `RateLimit.TakesRefineIdeal` | packages/queue/src/rate-limit.ts:102-124 | without usage reports the expiring key that is rewritten on refusals gives every answer the ideal bucket gives: expiry is never visible |
| `RateLimit.FreshKeyIsIdeal` | packages/queue/src/rate-limit.ts:34-37 | a missing key behaves as a full bucket, in every later answer |
| `RateLimit.RefusedPollsChangeNothing` | packages/queue/src/rate-limit.ts:43-50 | refilling in the steps of any refused polls equals refilling at once |
| `RateLimit.RetryAfterIsExact` | packages/queue/src/rate-limit.ts:43-50 | after a refusal of a cost within capacity, and whatever further polls are refused, the same request succeeds at `t` if and only if `t` is no earlier than `retryAfterMs` promises |
| `RateLimit.AboveCapacityNeverAllowed` | packages/queue/src/rate-limit.ts:43-50 | a later retry ever succeeds if and only if the cost is within capacity |
| `RateLimit.NarrowOnlyReduces` | packages/queue/src/rate-limit.ts:126-155 | a usage report never raises what is available, then or later |
| `RateLimit.CeilingIs` | packages/queue/src/rate-limit.ts:140-147 | a report below half leaves all; of `u` from half to all, the whole tokens of `2 (1 - u)` of capacity; above, none |
| `RateLimit.NarrowCapsIff` | packages/queue/src/rate-limit.ts:142-154 | a report caps what is available at its ceiling if and only if the key was missing, the stored count was above the ceiling, or the refilled count was already inside it: the comparison ignores the refill |
| `RateLimit.ReportIgnoredAfterIdle` | packages/queue/src/rate-limit.ts:150-152 | a drained key, idle for a window, ignores a report of 90% usage |
| `RateLimitRaces.LateWindowBound` | packages/queue/src/rate-limit.ts:149-154 | with reports whose write comes after takes that their read did not see, a window still grants at most capacity, its refill, and what its late writes restored |
| `RateLimitRaces.LateLeaves` | packages/queue/src/rate-limit.ts:150-154 | a late write leaves its ceiling as of the time it was decided at, and the expiry as it finds it |
| `RateLimitRaces.NothingLate` | packages/queue/src/rate-limit.ts:149-154 | without late writes nothing is restored |
| `RateLimitRaces.AtOnceRestoresNothing` | packages/queue/src/rate-limit.ts:149-154 | a report that takes effect is that same write, and made at once it restores nothing |
| `RateLimitRaces.LateReportGrantsMore` | packages/queue/src/rate-limit.ts:149-154 | a late one does: read from a full bucket and written after it was emptied, a report of 75% lets half the capacity out again in the same instant, and meets the bound |
| `TenantScope.RootIsScoped` | packages/db/src/tenant-scope.ts:81-83 | for the organization table the rewrite accepts exactly the reads, updates and deletions whose filter names no other `id`, and what it accepts reaches the tenant's own organization alone, of what the caller's filter matches, all else unchanged |
| `TenantScope.OtherModelsPass` | packages/db/src/tenant-scope.ts:85-85 | a model that is neither the root nor a tenant's keeps its arguments |
| `TenantScope.TenantReadsAreScoped` | packages/db/src/tenant-scope.ts:87-99 | for a tenant's model the ten filtered operations are accepted exactly with a filter that names no other tenant, or with none where not one row is asked for, and then reach the tenant's rows of those the caller's filter matches, all else unchanged |
| `TenantScope.TenantWritesAreStamped` | packages/db/src/tenant-scope.ts:101-104 | creations are accepted exactly when every row may be stamped, and then write the caller's rows with the tenant on each |
| `TenantScope.TenantRefusesTheRest` | packages/db/src/tenant-scope.ts:87-110 | `findUnique`, `findUniqueOrThrow` and `upsert` are banned, and any unknown operation is refused |
| `TenantScope.NarrowExact` | packages/db/src/tenant-scope.ts:174-215 | a row passes the rewritten filter if and only if it passes the caller's and belongs to the tenant |
| `TenantScope.RootNarrowExact` | packages/db/src/tenant-scope.ts:148-171 | the same for the organization table and its own `id` |
| `TenantScope.RootRefusesIff` | packages/db/src/tenant-scope.ts:121-172 | on the organization table creation is always refused, and every other known operation if and only if its filter is present and is no object or names another id |
| `TenantScope.RootDeleteRefusedIff` | packages/db/src/tenant-scope.ts:114-119 | so `delete` and `deleteMany`, which the comment says are refused, are refused on exactly that condition |
| `TenantScope.StampExact` | packages/db/src/tenant-scope.ts:217-253 | any payload is stamped if and only if it is made of objects, of which none names another tenant or the `organization` relation, and stamping only adds the tenant |
| `TenantScope.StampedRowsOwned` | packages/db/src/tenant-scope.ts:217-250 | however a payload is nested, every row written carries the tenant |
| `TenantScope.RewriteViews` | packages/db/src/tenant-scope.ts:207-214 | rewriting a tenant's selected rows in the shared table rewrites its own view and no other view |
| `TenantScope.FilteredRefines` | packages/db/src/tenant-scope.ts:96-99 | a filtered operation gives the answer and the effect it would have on a private table, and leaves other tenants' rows alone |
| `TenantScope.WriteRefines` | packages/db/src/tenant-scope.ts:101-104 | the same for creations |
| `TenantScope.StepRefines` | packages/db/src/tenant-scope.ts:78-112 | the same for any request, refused ones included |
| `TenantScope.UpdateIsolatedIff` | packages/db/src/tenant-scope.ts:96-99 | an accepted `update` or `updateMany` leaves every other tenant alone, on every table, if and only if its filter can select no row of the tenant or its payload names no other tenant, neither by assigning the column, outright or by `set`, nor by connecting the `organization` relation, whatever unique filter it connects by: payloads are not inspected |
| `TenantScope.TargetsAre` | packages/db/src/tenant-scope.ts:96-99 | the ways in which an update payload names a tenant |
| `TenantScope.ConnectMovesRows` | packages/db/src/tenant-scope.ts:96-99 | connecting `organization` by `id` in an update hands a tenant's row to another |
| `TenantScope.RunRefines` | packages/db/src/tenant-scope.ts:78-112 | however many tenants' requests interleave on one table, each gets exactly the answers and rows its own requests give on a private table |
| `TenantScope.DeletesOwnMatches` | packages/db/src/tenant-scope.ts:96-99 | an accepted `deleteMany` leaves the tenant's rows without those the caller's filter matches, and every other tenant's as they were |
| `TenantScope.DeleteTakesFirst` | packages/db/src/tenant-scope.ts:96-99 | `delete` and `update` are answered as missing if and only if the caller's filter matches no row of the tenant's, and a `delete` otherwise takes one |
| `Jpeg.ProbeJpeg` | packages/storage/src/probe.ts:59-100 | the loop computes the scan the lemmas below are about, and never reads out of bounds |
| `Jpeg.SkipsItems` | packages/storage/src/probe.ts:65-97 | the scan jumps over any chain of segments and standalone markers, whatever their payloads contain |
| `Jpeg.ReadsFrame` | packages/storage/src/probe.ts:79-93 | standing at a frame header it returns that header's height and width |
| `Jpeg.Markers` | packages/storage/src/probe.ts:76-87 | the markers without a length, and those that start a frame, are the ones of T.81, table B.1 |
| `Jpeg.ShortLengthStops` | packages/storage/src/probe.ts:96-96 | a segment whose length does not count itself ends the probe |
| `Jpeg.ProbeInvertsFile` | packages/storage/src/probe.ts:59-100 | serialised and probed, a file reports its frame header's size and never one embedded in a skipped segment |
| `Jpeg.FillJumps` | packages/storage/src/probe.ts:79-96 | fill bytes before a marker, allowed by section B.1.1.2 of ITU-T T.81, are read as a segment header: where the walk lands instead |
| `Jpeg.FilledFileReadIff` | packages/storage/src/probe.ts:59-100 | a file of up to 0xc00d bytes with fill bytes anywhere before markers of 0xc0 or above yields its frame size if and only if there are none, and otherwise nothing |
| `Jpeg.FirstFillDecides` | packages/storage/src/probe.ts:65-97 | in a file of any length, what is read is what the walk reads from the landing of its first filled marker |
| `SampleTable.ReadTimeToSample` | packages/storage/src/probe.ts:272-309 | the loop computes the summary of the runs that the box and the buffer hold |
| `SampleTable.TallyMeansGaps` | packages/storage/src/probe.ts:286-303 | count, total, minimum and distinct gaps are those of the table written out frame by frame |
| `SampleTable.SummaryMeansGaps` | packages/storage/src/probe.ts:306-308 | there is a summary if and only if there is a frame, and it is the expansion's |
| `SampleTable.PeakBoundsAverage` | packages/storage/src/probe.ts:312-325 | after rounding the peak rate is at least the average one, equal on a table not called variable, and a table is called variable if and only if two frames are held differently |
| `SampleTable.RatesAre` | packages/storage/src/probe.ts:312-325 | from the frames' gaps alone: the average rate is the timescale times the frames over the sum of the gaps, the peak the timescale over the least gap, each to the nearest hundredth, halves up |
| `SampleTable.NoRates` | packages/storage/src/probe.ts:312-317 | a track has no rates if and only if it has no timescale above zero or no frame |
| `Mp4.FindBoxStart` | packages/storage/src/probe.ts:340-361 | the offset found is the first whose signature and size are plausible; none is found only if there is none |
| `Mp4.Walker.WalkBoxes` | packages/storage/src/probe.ts:152-227 | the walk that mutates the result and the current track computes the functional walk, and raises when that does |
| `Mp4.ProbeMp4` | packages/storage/src/probe.ts:145-253 | both attempts together, with what the first leaves behind |
| `Mp4Tree.LeafRead` | packages/storage/src/probe.ts:183-222 | each kind of leaf box is read back field by field, in both versions |
| `Mp4Tree.WalkReadsBox` | packages/storage/src/probe.ts:159-226 | walking over one serialised box, of any depth allowed, is evaluating it and moving past its end |
| `Mp4Tree.WalkReadsBoxes` | packages/storage/src/probe.ts:152-227 | walking over serialised siblings is evaluating the tree |
| `Mp4Meaning.EvalFollows` | packages/storage/src/probe.ts:172-222 | what a box leaves behind is a function of its leaves in document order and of its tracks |
| `Mp4Meaning.ProbeReadsMovie` | packages/storage/src/probe.ts:145-253 | serialised and probed, a movie reports its last usable movie header's duration, the first non-zero track size and the rates of its last usable video track |
| `Mp4Meaning.OneVideoTrack` | packages/storage/src/probe.ts:166-179 | with one video track, the probe of the serialised movie reports that track's own rates, as numbers from the gaps of its own table, and the header's duration to the nearest millisecond |
| `Mp4Meaning.NumbersAre` | packages/storage/src/probe.ts:196-224 | durations and sizes are the nearest whole milliseconds and pixels, and which headers have them |
| `Mp4Meaning.FirstSize` | packages/storage/src/probe.ts:209-224 | the size is that of the first track header whose own is not zero |
| `Mp4Edges.TailReadsMovie` | packages/storage/src/probe.ts:248-251 | a tail slice is read from its first plausible `moov`: duration and rates over what the walk from its first byte took for boxes, the size where that had none |
| `Mp4Edges.NoMovie` | packages/storage/src/probe.ts:248-251 | without a plausible `moov` the first walk stands |
| `Mp4Edges.OpenBoxRead` | packages/storage/src/probe.ts:168-170 | a last box of size 0 or 1 holds everything to the end of its level |
| `Mp4Edges.WalkStops` | packages/storage/src/probe.ts:152-170 | a size of 2 to 7, a seventh level and a thousand boxes end a level |
| `Mp4Edges.ShortHeadersIgnored` | packages/storage/src/probe.ts:184-224 | a header whose level ends before its fields do is passed over |
| `Mp4Edges.CutOffRaises` | packages/storage/src/probe.ts:191-205 | a wide header long enough to pass for a narrow one raises if and only if the buffer ends inside it |
| `Mp4Edges.TrackBoxesNeedTracks` | packages/storage/src/probe.ts:184-198 | outside a track the boxes that only tracks have are passed over |
| `Mp4Edges.CutTableRead` | packages/storage/src/probe.ts:279-303 | a time table cut off after some whole runs is read as those runs |
| `Credentials.RenewedRowOpens` | apps/worker/src/credentials.ts:145-152 | the credential handed on after a renewal is the one the stored row opens to, for its own account and no other |
| `Credentials.OpensExactly` | apps/worker/src/credentials.ts:38-64 | a row opens if and only if all of it was sealed for this account and for the row's key version, and to what was sealed |
| `Credentials.AttemptsAre` | packages/providers/src/credential-refresh.ts:51-70 | what an attempt to renew comes to, for every outcome of the adapter |
| `Credentials.RenewalsForgetNothing` | packages/providers/src/credential-refresh.ts:80-94 | over any run of renewals the refresh token, the window and the scopes held are the last ones given, and the first ones if none were |
| `Credentials.DueAWeekAhead` | packages/providers/src/credential-refresh.ts:18-32 | a credential is due from seven days before its expiry on |
| `RenewalProtocol.NotDueIsStillValid` | packages/providers/src/credential-refresh.ts:18-32 | outside the week in which the adapter is asked, it would have answered that nothing is due |
| `RenewalProtocol.CallsHalfAnHourAhead` | packages/providers/src/x/provider.ts:228-240 | the adapter calls out from half an hour before expiry on, with a refresh token that is there |
| `RenewalProtocol.AdapterAnswers` | packages/providers/src/x/provider.ts:228-260 | what the adapter answers to every credential and every reply of the platform |
| `RenewalProtocol.StepsAre` | apps/worker/src/credentials.ts:97-183 | a worker waits for the lock if and only if its credential is due; a call whose transaction ended is on its way until it lands, once |
| `RenewalProtocol.WorkerRenews` | apps/worker/src/credentials.ts:97-170 | from every state of the protocol in which nothing is unrecorded, a worker that comes by with the lock free and the expiry near renews: the row opens to what the platform issued, and the worker leaves with it |
| `RenewalProtocol.OthersFit` | packages/providers/src/x/provider.ts:245-251 | an issue makes every other call on its way carry a token that is no longer current |
| `RenewalProtocol.CommitKeeps` | apps/worker/src/credentials.ts:144-152 | committing a renewal makes the row the platform's again and hands back what it opens to |
| `RenewalProtocol.NextKeeps` | apps/worker/src/credentials.ts:119-183 | every step of every worker, of a late call and of a reconnection keeps the invariant of lock, row, tokens and calls |
| `RenewalProtocol.RunsAreSafe` | apps/worker/src/credentials.ts:97-183 | in every interleaving of workers, lost answers, calls that outlive their transaction and reconnections: a call carries the current token if and only if nothing was unrecorded when it was sent and nothing issued before it arrived; no token is accepted twice; calls keep to the window of the expiry last issued; with the lock free the row is the platform's if and only if nothing is unrecorded |
| `RenewalProtocol.HandedBack` | apps/worker/src/credentials.ts:144-182 | a worker leaves with the credential the row now opens to, or, if the transaction was stopped, with the one it came with |
| `RenewalProtocol.LossIsForWorkers` | apps/worker/src/credentials.ts:174-182 | after an unrecorded renewal no worker's call is accepted and the row stays behind, until a person connects the account again |
| `RenewalProtocol.ReconnectRepairs` | apps/web/src/features/social/service.ts:67-109 | storing a reconnection makes the row the platform's, whatever had been lost |
| `RenewalProtocol.LostAnswerSpendsToken` | packages/providers/src/credential-refresh.ts:51-70 | if an accepted call's answer is lost, the next call presents the spent token |
| `RenewalProtocol.OvertakenCallIsSpent` | apps/worker/src/credentials.ts:133-173 | a call still on its way when its transaction times out, overtaken by the next worker's, presents a spent token although nothing was lost |
| `Lock.LockStore.AcquireLock` | packages/queue/src/lock.ts:33-36 | the lock is given if and only if nobody's unexpired lease is there, and the new lease is then what everyone sees |
| `Lock.LockStore.ReleaseLock` | packages/queue/src/lock.ts:19-25 | compare-and-delete: the store after it, and the answer, in terms of the store before |
| `Lock.EntryHasGrant` | packages/queue/src/lock.ts:33-43 | an entry in the store is always the lease of some grant of that key that nobody gave back in time |
| `Lock.HistoryGoesOn` | packages/queue/src/lock.ts:33-43 | any history goes on with a request under a fresh token or a lock given back, so what is proved of histories is proved of every use |
| `Lock.GrantInStore` | packages/queue/src/lock.ts:33-43 | a running lease is always the one in the store |
| `Lock.StoreIsRunningLease` | packages/queue/src/lock.ts:33-43 | a reader sees a lease if and only if it is a granted one that neither its own time nor its own holder has ended |
| `Lock.MutualExclusion` | packages/queue/src/lock.ts:33-36 | of two calls answered with the same lock one has given it back or outlived it, in every history with fresh tokens |
| `Lock.GrantedIffFree` | packages/queue/src/lock.ts:33-36 | the command grants if and only if no earlier lease of the key still runs |
| `Lock.ReleaseFreesOnlyItsOwn` | packages/queue/src/lock.ts:39-43 | a release, early or late, leaves another holder's running lease in place |
| `Lock.ReleaseTellsExpiry` | packages/queue/src/lock.ts:60-69 | the first release answers yes if and only if the work ended before its lease did |
| `Lock.OverlapMeansOutlived` | packages/queue/src/lock.ts:52-69 | two bodies under one key overlap only if the first outlived its lease |
| `DeadLetter.CauseChain` | packages/queue/src/dead-letter.ts:78-88 | the loop returns the outermost `limit` frames, outermost first |
| `DeadLetter.EntryIdFixesTime` | packages/queue/src/dead-letter.ts:105-105 | two recordings share an id only within one millisecond and under the same queue and job spelling |
| `DeadLetter.IndexedKeeps` | packages/queue/src/dead-letter.ts:120-126 | the first transaction keeps index and entries in agreement, and what the index then holds |
| `DeadLetter.OverflowLeavesNewest` | packages/queue/src/dead-letter.ts:128-137 | dropping the overflow leaves exactly the newest members, at most a thousand |
| `DeadLetter.ReadDownExact` | packages/queue/src/dead-letter.ts:153-163 | reading any number of members downwards yields the live ones among them, newest first, and misses one only if it is full of newer ones |
| `DeadLetter.ListIsNewest` | packages/queue/src/dead-letter.ts:153-163 | a list is the newest live entries; a limit of zero reads one |
| `DeadLetter.NewestIsUnique` | packages/queue/src/dead-letter.ts:152-163 | there is only one such list, so the characterisation is exact |
| `DeadLetter.RecordKeepsNewest` | packages/queue/src/dead-letter.ts:119-137 | after a recording everything indexed is live, at most a thousand remain, and a live entry is gone only if a thousand newer ones pushed it out |
| `DeadLetter.DeadLetters.RecordDeadLetter` | packages/queue/src/dead-letter.ts:90-150 | the in-place updates have that effect on the stored keys |
| `DeadLetter.DeadLetters.List` | packages/queue/src/dead-letter.ts:153-163 | reading the stored keys gives the newest live entries |
| `DeadLetter.DeadLetters.GetDeadLetter` | packages/queue/src/dead-letter.ts:165-168 | an entry is found while it is live, and is then indexed |
| `DeadLetter.DeadLetters.DiscardDeadLetter` | packages/queue/src/dead-letter.ts:171-173 | a discard removes its own entry and index member and nothing else, for all later reads |
| `DeadLetter.WriteKeeps` | packages/queue/src/dead-letter.ts:120-126 | while others are between their transactions, a first transaction puts the index at most one further past the cap |
| `DeadLetter.InterleavingsAgree` | packages/queue/src/dead-letter.ts:90-173 | however recorders and discards interleave: no live entry is unindexed, every list is exactly the newest live entries, and once all are through at most a thousand remain |
| `DeadLetter.RecordedStaysLive` | packages/queue/src/dead-letter.ts:120-173 | however they interleave, an entry recorded under a new id stays live for the whole retention unless it is discarded, recorded under again, or behind a thousand newer members when some recorder reads the overflow |
| `DeadLetter.KeptThirtyDays` | packages/queue/src/dead-letter.ts:24-24 | an entry is found for thirty days from its recording, and not after |
| `DeadLetter.OverflowIs` | packages/queue/src/dead-letter.ts:130-130 | the overflow is the oldest members past a thousand |
| `DeadLetter.RecorderPasses` | packages/queue/src/dead-letter.ts:119-137 | nobody is held up: from every state a recorder may begin, look and trim, and what each of its steps leaves |
| `PostLifecycle.SystemWritesExactly` | packages/core/src/post-status.ts:92-127 | a rule is the system's if and only if it enters a system-written status, and if and only if it names no permission |
| `PostLifecycle.WorkerEdges` | packages/core/src/post-status.ts:92-101 | the worker may write what people may, and besides only from the schedule into publishing, and from there one of its three outcomes |
| `PostLifecycle.TerminalIffNoExit` | packages/core/src/post-status.ts:129-130 | the terminal statuses are exactly those with no way out |
| `PostLifecycle.VoidsIffUnlocks` | packages/core/src/post-status.ts:132-144 | approvals are voided if and only if a post leaves the edit lock, but for a publish that failed |
| `PostRuns.WriteKeepsIff` | apps/web/src/features/posts/service.ts:742-748 | for one write of a move or an edit, whatever the post has become since its check: content with a standing approval stays what was approved, or the last edit made while `FAILED`, and approvals stand exactly past approval, if and only if a schedule finds a standing approval, an edit none (or `FAILED`, or its own text), and any other move but approving and canceling none that its rule does not void |
| `PostRuns.WorkerMovesAre` | apps/worker/src/publishing/rollup.ts:34-136 | the worker moves a post from scheduled into publishing and from there to one of three outcomes, and may cancel what a person may |
| `PostRuns.RunKeepsIff` | apps/web/src/features/posts/service.ts:658-748 | over every interleaving of checks, writes and the worker's guarded moves this holds at every moment if and only if every write finds what it must |
| `PostRuns.GuardedRunsKeep` | apps/web/src/features/posts/service.ts:742-748 | guarding each write on a status in which it would be allowed again would be enough, for every run; a write made at once is so guarded |
| `PostRuns.PublishesWhatWasApproved` | packages/core/src/post-status.ts:49-144 | in those runs what enters `PUBLISHING` has a standing approval, and is what was approved if and only if no later edit while `FAILED` changed it |
| `PostRuns.FailedEditGoesOutUnapproved` | packages/core/src/post-status.ts:137-144 | a run, every write at once, in which unapproved content goes out: `FAILED` is not edit-locked and a retry needs no approval |
| `PostRuns.LateScheduleGoesOutUnapproved` | apps/web/src/features/posts/service.ts:667-748 | a run in which it goes out with no standing approval and no edit while `FAILED`: the schedule is checked while `APPROVED` and written after a reopening and an edit |
| `PostRuns.TerminalIsFinalIff` | packages/core/src/post-status.ts:129-130 | a published or canceled post allows nothing new, and never changes if and only if no request allowed before writes anything different; with none on its way nothing happens at all |
| `PostRuns.LateMoveUnpublishes` | apps/web/src/features/posts/service.ts:667-748 | a run in which a cancellation, or a return to draft, checked while `SCHEDULED` takes a post out of `PUBLISHED` |
| `Publishing.SummariseVariants` | packages/core/src/publishing.ts:110-143 | the loop's counters count the statuses, and always sum to `total` |
| `Publishing.RollUpMeans` | packages/core/src/publishing.ts:158-166 | each roll-up result, stated on the variants themselves, in both directions |
| `Publishing.SettledRollUpLegalIff` | apps/worker/src/publishing/rollup.ts:104-113 | a settled roll-up is a legal system transition out of `PUBLISHING` if and only if some variant was not canceled |
| `PublishingRuns.PostChecksAre` | apps/web/src/features/posts/service.ts:667-706 | from which statuses of the post each request is allowed |
| `PublishingRuns.RescheduleCheckIs` | apps/web/src/features/scheduling/service.ts:321-340 | a post is rescheduled only while scheduled, and with no account publishing or published |
| `PublishingRuns.VariantChecksAre` | apps/web/src/features/publishing/service.ts:277-301 | in which statuses of one account it may be retried, reached by a send, decided on and removed |
| `PublishingRuns.WritesAre` | apps/web/src/features/scheduling/service.ts:184-206 | what the write of each request does to the post and to every account, whatever they have become, and that it changes nothing else |
| `PublishingRuns.SendNeeds` | apps/web/src/features/scheduling/service.ts:246-254 | a send is rolled back if and only if no account is left to send to |
| `PublishingRuns.WorkerStepsAre` | apps/worker/src/publishing/claim.ts:125-176 | under the token it holds a worker gives its account back or settles it, and under any other changes nothing |
| `PublishingRuns.RollUpSteps` | apps/worker/src/publishing/rollup.ts:76-136 | a roll-up moves the post only out of the status it read, to what it read, and out of publishing always |
| `PublishingRuns.ClaimsKept` | apps/worker/src/publishing/claim.ts:51-176 | a variant has a claim token if and only if it is publishing, and no two share one, whatever people do besides, if their writes land well |
| `PublishingRuns.AccountsKept` | apps/web/src/features/posts/service.ts:162-212 | the variants of a post keep to different accounts as accounts are added and removed |
| `PublishingRuns.LogKept` | apps/worker/src/publishing/engine.ts:533-630 | every step that lands well keeps each variant's status in step with the last outcome or decision written for it, and that log in order |
| `PublishingRuns.StepKeepsIff` | apps/web/src/features/publishing/resolve.ts:101-166 | the exact condition, for every step: a release must find its variant in no worker's hands and neither published nor parked, a decision must find it parked, a removal must not find it published |
| `PublishingRuns.RunKeepsIff` | apps/web/src/features/posts/service.ts:182-197 | over every interleaving of workers' steps, checks and late writes the invariant holds at every moment if and only if every write lands well |
| `PublishingRuns.AfterEntry` | packages/core/src/publishing.ts:168-189 | what may follow an entry for the same variant: nothing after a publication, a person's decision first after an unknown outcome, and after a failure only what a person released again |
| `PublishingRuns.EntriesAre` | packages/core/src/publishing.ts:79-97 | which outcomes and decisions publish, park and fail |
| `PublishingRuns.PublishedMeansSaid` | apps/worker/src/publishing/engine.ts:538-560 | a variant reads published if and only if an outcome or a decision says so |
| `PublishingRuns.AccountPublishedOnce` | apps/web/src/features/posts/service.ts:190-192 | no account is recorded published twice, whichever of its variants it was through |
| `PublishingRuns.RunsAreSafe` | apps/worker/src/publishing/claim.ts:51-176 | all of these over every such run of claims, takeovers, outcomes, roll-ups, sends, retries of a post or of one job, reschedules, cancellations, decisions and changes of accounts, checks and writes in any order |
| `PublishingRuns.GuardedRunsAreSafe` | apps/web/src/features/posts/service.ts:182-197 | guarding each write on what its check would pass again would be enough, for every run; a write made at once is so guarded |
| `PublishingRuns.SendReaches` | packages/core/src/publishing.ts:179-189 | sending a post reaches exactly the variants not canceled, not in an attempt, and neither published nor parked by their last entry |
| `PublishingRuns.ClaimableAgainIff` | packages/core/src/publishing.ts:79-97 | after an outcome a variant may be claimed again with nobody deciding if and only if the outcome is retryable; the others publish, fail or park it |
| `PublishingRuns.TakenOverAfter` | apps/worker/src/publishing/claim.ts:78-108 | a claim may be taken over if and only if more than fifteen minutes have passed since it was made |
| `PublishingRuns.ReaddedAccountIsFresh` | apps/web/src/features/posts/service.ts:190-211 | removing a parked account from a failed post and adding it again makes it a draft that sending attempts, with nobody having decided |
| `PublishingRuns.StepStaysInIff` | apps/web/src/features/posts/service.ts:190-197 | a step leaves every published variant published and present if and only if it is no release, removal or contrary decision that finds its variant published |
| `PublishingRuns.PublishedNeverFalls` | packages/core/src/publishing.ts:168-189 | so over runs whose writes land well a published variant stays published and is never deleted, and the published count never falls |
| `PublishingRuns.LostClaimIsDead` | apps/worker/src/publishing/claim.ts:98-176 | once a claim is taken over or its variant removed, its worker can neither release nor settle anything, in any later state, however late writes land |
| `PublishingRaces.LateReleasePublishesTwice` | apps/web/src/features/publishing/service.ts:263-308 | a run in which a release, of one job or as part of a send, is read while the variant is scheduled and written after publication: it is recorded published twice |
| `PublishingRaces.LateRemovalPublishesTwice` | apps/web/src/features/posts/service.ts:182-197 | a run in which an account is removed after it published, by a delete decided before; added again and sent, it is recorded published twice |
| `PublishingRaces.LateDecisionPublishesTwice` | apps/web/src/features/publishing/resolve.ts:101-150 | a run in which one person confirms a parked variant and another, who read it before, says it did not publish: it is attempted again and recorded published twice |
| `PublishingTruth.RolledUpMeans` | apps/worker/src/publishing/rollup.ts:92-93 | the roll-up of the variants that are there, each result in both directions |
| `PublishingTruth.SettledKept` | apps/worker/src/publishing/rollup.ts:76-139 | every step keeps what was read true of the variants until a person changes one, for the roll-up that settled the post and for every one still to be written |
| `PublishingTruth.SettledPostsTellTruth` | apps/worker/src/publishing/rollup.ts:76-139 | over every run whose writes land well a settled post is the roll-up of what was read when it settled, and still is of its variants until a person, after that read, sends, retries, decides, adds or removes one |
| `PublishingTruth.LateRollUpAgreesIff` | apps/worker/src/publishing/rollup.ts:76-136 | a post settled by a roll-up read earlier agrees with its variants at the write if and only if they roll up to the same still, as they do if no person changed one in between |
| `PublishingTruth.LateRollUpSettlesWrongly` | apps/worker/src/publishing/rollup.ts:76-136 | and otherwise not: a run in which only failures are read, one is retried, and the write settles the post `FAILED` with that account about to be attempted |
| `PublishingTruth.RollUpAfterIff` | apps/worker/src/publishing/rollup.ts:92-93 | for every step, whatever the post's status, so between a roll-up's read and its write too: the exact condition under which the variants roll up to the same |
| `PublishingTruth.AgreesAfterIff` | apps/web/src/features/publishing/service.ts:182-242 | for every step from agreement, the exact condition under which the settled post still agrees: never after a variant is released, an account added or a decision to try again |
| `PublishingTruth.SettledStays` | apps/worker/src/publishing/rollup.ts:104-123 | no roll-up turns one settled status into another: until a person sends, moves or cancels the post it stays, or ends canceled |
| `PublishingTruth.RetriedPostStaysPartial` | apps/web/src/features/publishing/service.ts:182-242 | a partly published post whose failed account is retried and published has every account out and still reads partly published |
| `PublishingTruth.RetryJobReaches` | apps/web/src/features/publishing/service.ts:244-310 | retrying one job asks nothing of the post and reaches any queued account, canceled ones too, unless in an attempt, published or parked |
| `PublishingTruth.CanceledPostPublishes` | apps/web/src/features/publishing/service.ts:244-310 | so an account of a canceled post goes out, and the post reads canceled |
| `Policy.DelegationNarrowsExactly` | packages/rbac/src/policy.ts:103-111 | through an agent a user may do what they may do in person, the platform apart, the scopes cover and a confirmation backs where one is needed: no more and no less, for any role matrix |
| `Policy.MayExactly` | packages/rbac/src/policy.ts:117-199 | in person a user holds a permission if and only if they are an active member whose role's grant admits the post's status and reaches the resource: anywhere, in their workspaces, on an assigned brand or in a workspace with an approving role where one is asked for, or on their own |
| `Policy.RefusalsTell` | packages/rbac/src/policy.ts:117-199 | a refusal inside an organization names what failed, in the order the checks are made |
| `Policy.ServiceMay` | packages/rbac/src/policy.ts:88-100 | a service holds what it was given, but what nobody may hold |
| `Policy.FirstCounts` | packages/rbac/src/policy.ts:129-186 | roles and brand assignments are looked up by id, the first one counting |
| `Policy.MoreDelegationOnlyAdds` | packages/rbac/src/policy.ts:83-206 | adding scopes or a confirmation only ever adds decisions |
| `Policy.CanIsSomewhere` | packages/rbac/src/policy.ts:264-275 | what is allowed on some resource is offered in navigation, the platform's own permissions apart |
| `Policy.SomewhereIs` | packages/rbac/src/policy.ts:264-275 | navigation offers an active member what their role grants anywhere, and through an agent what its scopes cover of that |
| `Agent.ScopesGive` | packages/rbac/src/agent.ts:29-91 | what each scope alone lets an agent do, permission by permission; the workflow scope only what the user confirmed |
| `Agent.ScopesAddUp` | packages/rbac/src/agent.ts:117-132 | several scopes give exactly what one of them gives |
| `Agent.DirectIsTowardsReview` | packages/rbac/src/agent.ts:102-106 | the moves that need no confirmation are exactly those into `DRAFT` or `INTERNAL_REVIEW` that void no approval |
| `Policy.PlatformFlagOpens` | packages/rbac/src/policy.ts:216-244 | the platform flag opens exactly the platform's own operations but impersonation, in person only, and changes no decision inside an organization |
| `Policy.AllowedRespects` | packages/rbac/src/policy.ts:117-199 | whatever the matrix: inactive members hold nothing, locked content and confined statuses are respected, `OWN` is own, and no one but an owner or administrator acts outside their workspaces and brand assignments |
| `Policy.AssignmentNarrowsIff` | packages/rbac/src/policy.ts:155-186 | a brand assignment takes nothing new if and only if it withholds a required approval right or the user already reached the brand through its workspace; the comment says it can only narrow |
| `Policy.AssignmentCanWiden` | packages/rbac/src/policy.ts:159-170 | a user outside the workspace who reads a post through an assignment alone |
| `Transitions.PermissionAlwaysKnown` | packages/rbac/src/transitions.ts:100-107 | the drift error is unreachable |
| `Transitions.MovesNeed` | packages/rbac/src/transitions.ts:94-128 | every move there is for a person and what it takes in person, for every principal, matrix and resource: from which statuses each status is entered, under which permission, and where the author may do without it |
| `Transitions.GateIs` | packages/rbac/src/transitions.ts:140-166 | the agent's gate opens if and only if its scopes allow the permission and, outside three moves towards review, its user confirmed the action |
| `Transitions.AgentMovesExactly` | packages/rbac/src/transitions.ts:94-166 | through an agent a status change is allowed if and only if the user could make it, the agent's gate lets it by, and the author's shortcut, if that is what allows it, is within scope |
| `Transitions.UnconfirmedMovesAreDirect` | packages/rbac/src/transitions.ts:140-166 | unconfirmed, an agent lands only in `DRAFT` or `INTERNAL_REVIEW`, from an unlocked status, author shortcut included |
| `Transitions.MoreDelegationOnlyAddsMoves` | packages/rbac/src/transitions.ts:94-128 | adding scopes or a confirmation only ever adds transitions |
| `Transitions.ShortcutOpensOnly` | packages/rbac/src/transitions.ts:33-80 | what is allowed without the named permission is one of the author's two moves, on their own post, with no client, while they may still submit |
| `Transitions.AgentRunsAreTheirUsers` | packages/rbac/src/transitions.ts:94-166 | any run that people make through agents, however its writes come, is one they could have made themselves, with the same result |
| `Transitions.NoAgentsLeft` | packages/rbac/src/transitions.ts:94-166 | that run asks for the same, by the same users, with no agent in it |
| `Transitions.ActsAreRuns` | packages/rbac/src/transitions.ts:94-166 | and what people and agents do is a run of the post's own state machine |
| `Transitions.UnconfirmedRun` | packages/rbac/src/transitions.ts:130-166 | left to unconfirmed agents, with nothing of others on its way, a post gets no further than internal review, keeps its approvals, and is not touched at all if locked |

## Left out

- Floating point: tokens, frame rates and usage ratios are exact rationals; rounding to hundredths is modelled, binary rounding is not.
- `Date.UTC`'s reading of the years 0 to 99 as 1900 to 1999, and formatted years before the year 1, which carry no era.
- Locale data, the memo of formatters, and `assertValidTimeZone`: a zone is any offset function, given.
- Weekdays that are not integers, and `NaN` in times: `nextQueueSlot` and `isDue` take integers here.
- `resolveSchedule`, `isDue`, `isStale`, `publishIdempotencyKey`: one comparison or one digest each.
- RateLimit.RateLimiter.ApplyProviderUsage: is one step here; its read and its write with takes in between are the subject of `RateLimitRaces`.
- A script run by the store whose clock runs apart from the caller's: a key's expiry and the caller's `now` share one clock.
- Nested relation writes and includes in database arguments, unique-constraint conflicts between tenants, raw SQL, and row-level security in the database.
- TenantScope.UpdateIsolatedIff: is stated for payloads that assign fields, outright or by `set`, and may connect the tenant relation; one that creates an organization, or writes another model through a relation, is not interpreted, and `Sound` bounds only payloads that leave the tenant alone.
- PNG, GIF and WebP headers: fixed offsets.
- Mp4Edges.TailReadsMovie: takes what the walk from the first byte of a slice made of its bytes as given; in a real slice they are the middle of some other box.
- Version 1 boxes cut off by the end of the buffer raise; `probeMedia` catches that, and `probeMedia` is not part of this model.
- The cipher: a sealed value opens to what was sealed for its own account and key version only.
- RenewalProtocol.RunsAreSafe: an account without a registered provider returns its credential without taking the lock, and a disconnected one has no row; neither is modelled. One person at a time connects the account again.
- Platforms that do not rotate refresh tokens, and the adapters other than X's: the protocol needs only the outcome of a call.
- Lock.MutualExclusion: a store that loses a lock to a failover, and holders whose clocks differ from the store's.
- The body run by `withLock`: a history has its acquire and its release, and anything in between.
- DeadLetter.InterleavingsAgree: recordings reach the store in the order of their times, and an entry's time to live starts at its own time.
- DeadLetter.ListIsNewest: reads the index and the entries in one step; the store is asked twice.
- `describeFailure`: a raised value arrives already described.
- Approvals as records with stages, and the content checks made before a submission; an approval here stands or does not.
- PublishingRuns.RunsAreSafe: a send or a reschedule lands on all its variants at once, besides the variants it reaches late one by one (`Reach`); the locks that its own transaction holds meanwhile are not modelled, so every interleaving is admitted.
- What the platform did during an attempt: only outcomes written to the variant are counted, so a post that reached the platform and was recorded by nobody is not seen.
- Deleting a whole post, and the counting of retries across re-enqueues.
- The role matrix: every theorem holds for any matrix. `effectivePermissions` and the grant notes are not modelled.
- Transition descriptions, error messages, logging, metrics, notifications and audit rows.
