# Verification of the booking platform's core

A Dafny model of the parts of the booking API whose behaviour is hard to see from any one
function, with proofs over every input, every run and every interleaving:

- `Intervals`, `Availability`: the interval sweeps and the slot engine built on them. The
  engine is specified instant by instant (`Offerable`) and proved to list exactly that.
  `ListedStarts` says the same without any of the engine's own functions: when a day is past, a
  holiday, closed or open, and which starts it lists for whom, in clock times and minutes.
- `SlotBoundary`, `Agreement`: the booking side's own check of hours, grid and overlap, exactly
  when it accepts what the listing offers, and exactly what else it accepts.
- `Appointments`: the appointment store and its requests, with the invariants of all runs.
  `RequestAnswers`: every answer of every request exactly when it comes, what it leaves in the
  store, and what it means for the requests after it.
- `OverlappingRequests`: the same requests when they overlap, and what the database keeps then.
  `StaleWrites`: exactly which interleavings keep the transition table, the serial invariant and
  the reschedule chains. `RemovalRaces`: exactly when a staff removal is clean and stays so.
- `RefreshTokens`: rotation, reuse detection and revocation of refresh-token families
  (section 4.14 of RFC 9700). A refresh reads, writes and revokes at three separate moments,
  with any other request in between. `RefreshAnswers`: every answer exactly when it comes, what
  each event does to every row, and what a deactivated user can still get.
- `Witnesses`: concrete inputs for which the parts of the system disagree, one lemma each.
- `Outbox`, `OutboxDrain`: events, flushers and queue jobs under any interleaving, and the
  drain rate.
- `Idempotency`: idempotency keys with concurrent transactions.
- `Pagination`: keyset page walks, over a table that stands still and one that changes.
- `LinearRegisters`, `Crc32`, `ApiKeys`: API-key text, base 62, and the CRC-32 checksum
  (section 8 of RFC 1952).

Code that updates state in place is a class or a method with loops, each proved equal to a
specification function; the properties are lemmas about that function. Run
`dafny verify dfyconfig.toml` to check everything.

## Conventions

- Instants are integer milliseconds. A request reads one clock value. In `Appointments` it is
  one atomic step; in `OverlappingRequests`, `RefreshTokens`, `Outbox` and `Idempotency` it is
  several.
- A row's id is its position in order of insertion, standing for fresh random ids; in the same
  way a refresh token is the position of its row (unique hashes) and a family is the position
  of its first row (random family ids). Outbox ids are strings, required to be new.
- The time-zone library is a `Calendar` of three unknown functions, shared by the listing and
  the booking side; a local time inside a daylight-saving gap has no instant.
- What the request validators promise (durations of at least 5 minutes, no negative buffers,
  slot intervals of at least 1 minute) is stated as `WellFormed` and `WellFormedCatalog`.
- The exclusion constraint, the unique keys and the queue's "first job under an id wins" are
  modelled as the database and the queue apply them.

## What the proofs found

- If the listing saw the same hours and minutes, the booking's answer to a listed start is
  known exactly (`ListedIsBookableIff`). It is refused if the staff member has gone, if the service
  has gone or is switched off (the loader never asks whether it is active, `create` does), if it is
  not offered by them, if the start has passed, and otherwise in two cases: it is off the booking's
  own grid, for either of the first two reasons below, or a row hidden from the listing holds it.
  - The steps differ. The context loader never reads the service's own step, so the default
    listing walks 15 minutes whatever the service says, and the query can ask for any step; the
    booking checks the service's. With windows apart the whole listed grid is accepted exactly
    when the booking's step divides the listing's (`WholeGridPassesIff`), which for the default
    means 1, 3, 5 or 15 minutes (`DefaultGridPassesIff`). `StepsDisagree` is a refused start.
  - The windows touch. The engine walks the grid of the merged window, the booking anchors on
    the first stored window that holds the start. With one step on both sides they agree exactly
    when the stored window begins on the merged one's grid (`SameStepIff`);
    `TouchingWindowsDisagree` is a refused start.
  - A row is hidden. The loader leaves out completed appointments, those of the other mode
    partition, and whatever lies outside the range it loads, which the exclusion constraint all
    counts (`HiddenIff`). `CompletedVisitIsHidden` reaches such a
    refusal by a run of requests.
- What the booking accepts is not listed exactly on holidays and past days, when no hours are set,
  off the listing's grid, past the end of the window, inside the notice period, where an instant
  that the visit or its buffers need is closed, blocked, not worked or booked, or for staff the
  query did not ask for (`BookableUnlistedIff`, `HolidayIsBookable`).
- A refusal for the grid names two neighbouring starts. A named one is accepted exactly when the
  row of the day that holds it has it on its grid (`NeighbourAcceptedIff`); the later one can lie
  past closing (`LateNeighbourIsOutside`).
- A booking whose unwidened range misses the day's span is ignored even when its buffers reach
  into the day (`BookedAt`, `BufferOutsideDayIsIgnored`).
- Removing a staff member cancels bookings of the caller's partition only, soft-deleted ones
  included; exactly the other mode's upcoming bookings survive (`RemovalSpares`,
  `OtherModeSurvivesRemoval`).
- `refresh` is described as serializable, but its transaction asks for no isolation level.
  - Two refreshes of one token can both rotate it (`TokenReplacedTwice`). A reachable table is
    one unbranched chain per family if and only if no rotation was written for a token that had
    been replaced since it was read (`ReachableIsChainIff`).
  - A refresh in flight leaves a live token in a family that is revoked meanwhile
    (`LogoutOvertaken`). A revoked family stays dead through every later run if and only if no
    refresh of it was in flight (`FamilyDeathIsPermanentIff`).
  - With the isolation the comment intends, both hold of every run (`SerializableIsChain`,
    `SerializableDeathIsPermanent`).
- A deactivated user keeps nothing to refresh with, if and only if no refresh of theirs was in
  flight at that moment (`LockedOutIff`).
- Appointment requests that overlap cannot double-book a staff member or reschedule one booking
  twice, because the database checks both at every write (`OverlappingRequests.RunKeepsGuarded`).
  Each write is checked on the row as it was read and lands on the row as it is:
  - Statuses move only onward, over the whole run, if and only if no accepted status write,
    cancellation or reschedule meets a row that neither has its target status nor leads to it
    (`AlwaysAdvancesIff`, for one write `WriteFollowsTableIff`). A confirmation can overwrite a committed cancellation
    (`ConfirmOverwritesCancel`), a cancellation a completed visit (`CancelOverwritesCompletion`).
  - The serial invariant survives a run if and only if no status is written over a cancellation
    (`AlwaysInvIff`). Every row of a reschedule chain but its last stays cancelled if and only if
    none is written over one that has been rescheduled (`ChainsStayCancelledIff`).
  - A staff removal that counted no booking skips its bulk cancel, so one booked in between stays
    due (`RemovalMissesBooking`). A removal is clean for good if and only if it had counted a
    booking or none was there at its write, and no booking, reschedule or status write in flight
    can still place one (`RemovalIsCleanIff`).
- Fifty older rows that keep failing block every younger outbox event for good (`ServedIff`,
  `FiftyStuckEventsBlock`).
- An idempotency key whose row belongs to another tenant or mode protects nobody else
  (`ProtectedIffOwner`); a request whose response was not recorded answers "still processing"
  for as long as the row stays (`RecordedIsReplayed`).
- The printed checksum is not one-to-one, because it is padded with '0', which is digit 52
  (`PrintedAlike`, `PaddedSameIff`).

## Model

| member | source | states |
|---|---|---|
| Intervals.OverlapsIsSharedInstant | src/availability/engine/interval.util.ts:20-22 | non-empty intervals overlap exactly when they share an instant |
| Intervals.Merge | src/availability/engine/interval.util.ts:34-49 | for any input, the one sorted, non-empty, strictly gapped list covering the same instants; unchanged on such a list |
| Intervals.CanonicalUnique | src/availability/engine/interval.util.ts:34-49 | two canonical lists covering the same instants are equal, so merging is a canonical form |
| Intervals.CanonicalMembers | src/availability/engine/interval.util.ts:34-49 | the members of a canonical list are exactly the maximal runs of what it covers |
| Intervals.SweptIsMerge | src/availability/engine/interval.util.ts:39-48 | the sweep that extends the last window merges any list sorted by start |
| Intervals.SortIsSorted | src/availability/engine/interval.util.ts:36-38 | sorting by start yields a sorted permutation |
| Intervals.Intersect | src/availability/engine/interval.util.ts:57-75 | for any inputs, exactly the instants in both, already in canonical form |
| Intervals.CommonIsIntersection | src/availability/engine/interval.util.ts:60-74 | the two-pointer sweep over canonical lists is the pointwise intersection |
| Intervals.Subtract | src/availability/engine/interval.util.ts:81-97 | for any inputs, exactly the instants of the base not in the rest, already in canonical form |
| Intervals.CutOne | src/availability/engine/interval.util.ts:86-94 | the inner cursor loop carves one base window against all of the other list |
| Intervals.CarveIsDifference | src/availability/engine/interval.util.ts:86-94 | what the cursor loop leaves of one window is canonical and is its pointwise difference |
| Intervals.CarveAllIsDifference | src/availability/engine/interval.util.ts:81-97 | carving every base window, with no merging afterwards, is the difference in canonical form |
| Intervals.LengthConserved | src/availability/engine/interval.util.ts:57-97 | the lengths of difference and intersection add up to the length of the merged base |
| Intervals.InstantsCount | src/availability/engine/interval.util.ts:34-49 | the length of a canonical list is the number of instants it covers |
| Intervals.FitsIn | src/availability/engine/interval.util.ts:103-108 | some window contains the slot; on a canonical list, exactly when every instant of it is covered |
| Intervals.FitsIsCovered | src/availability/engine/interval.util.ts:103-108 | no fitting slot straddles a gap, and none is refused for lying across two windows |
| Availability.ResolveWindows | src/availability/engine/availability.engine.ts:170-186 | the day's resolved windows cover exactly the instants inside an enabled row of that weekday |
| Availability.BlocksOf | src/availability/engine/availability.engine.ts:188-232 | inside the day's span, exactly the instants blocked for the staff member: the pre-filter loses nothing |
| Availability.BookingsOf | src/availability/engine/availability.engine.ts:234-244 | exactly the instants of the buffer-widened bookings whose unwidened range meets the day |
| Availability.FreeIntervals | src/availability/engine/availability.engine.ts:188-251 | a canonical list covering exactly the instants that are open, worked, not blocked and not booked |
| Availability.FitsIsOfferable | src/availability/engine/availability.engine.ts:255-294 | on a grid point the engine's containment test decides the pointwise `Offerable` |
| Availability.SlotsInWindow | src/availability/engine/availability.engine.ts:255-294 | the grid walk lists every offerable grid point of one window, ascending, with exactly its staff |
| Availability.OpenSlots | src/availability/engine/availability.engine.ts:188-294 | the slots of an open day, over all its windows, are exactly the offerable ones |
| Availability.ComputeDay | src/availability/engine/availability.engine.ts:144-300 | past, holiday, closed or the exact slot list, as the pointwise specification says |
| Availability.ListedIffOfferable | src/availability/engine/availability.engine.ts:144-300 | a staff member is listed at a start if and only if they are a candidate and the start is offerable to them |
| Availability.DayIsDetermined | src/availability/engine/availability.engine.ts:144-300 | the pointwise specification has one answer only |
| Availability.OneRun | src/availability/engine/availability.engine.ts:255-262 | a start lies on the grid of one merged window only |
| Availability.SpanMeets | src/availability/engine/availability.engine.ts:234-240 | the pre-filter on the day's span, put in terms of open instants |
| Availability.ComputeAvailability | src/availability/engine/availability.engine.ts:107-142 | every requested date, and no other, gets the day the specification determines |
| Availability.ComputeNextSlots | src/availability/engine/availability.engine.ts:304-339 | the first `limit` slots (at least one) of the open days, each day once, in date order |
| Availability.DayKeysAscend | src/availability/engine/availability.engine.ts:324 | the sorted day keys are strictly ascending |
| ListedStarts.DayStatusIff | src/availability/engine/availability.engine.ts:152-186 | with a clock that advances, a day is past exactly when 23:59 has an instant and every minute of it that has one is over; else a holiday exactly when one falls on it, that date or yearly; else open exactly when a row of hours holds some instant; only an open day has slots |
| ListedStarts.OpenAheadIsListed | src/availability/engine/availability.engine.ts:144-300 | an open instant at or after now makes a day that is no holiday open, and it lists exactly the starts that can be taken |
| ListedStarts.ListedMeans | src/availability/engine/availability.engine.ts:144-300 | a start is listed for a staff member exactly when they are active and asked for, now plus the notice hours is not later, it is on the grid of a longest open stretch that the visit fits in, and from buffer to buffer the business is open, they work and nothing claims them |
| ListedStarts.SlotStaff | src/availability/engine/availability.engine.ts:263-279 | the staff of a slot are exactly those who can take it, each once, in the order they were loaded |
| ListedStarts.SlotsAscend | src/availability/engine/availability.engine.ts:257-293 | slots come in the order of their starts |
| ListedStarts.SlotEndMeans | src/availability/engine/availability.engine.ts:281-289 | a slot shows the end by the service's own minutes, and only when ends are asked for |
| ListedStarts.DaysInOrder | src/availability/engine/availability.engine.ts:324 | the days of a range come in calendar order, each once |
| ListedStarts.SlotsOfRange | src/availability/engine/availability.engine.ts:323-338 | the flattened slots are those of the days, one day after the other |
| SlotBoundary.AssertOnSlotBoundary | src/appointments/appointments.service.ts:459-544 | the search loop returns the specified verdict: accepted, closed, outside hours, or off the grid |
| SlotBoundary.ContainingHolds | src/appointments/appointments.service.ts:498-510 | the window it anchors on holds the start, and there is none only if no row of the day holds it |
| SlotBoundary.VerdictIff | src/appointments/appointments.service.ts:466-543 | closed, outside hours, off the grid or accepted, each exactly when: by the enabled rows of the local weekday, those that hold the start, and the distance from the opening of the one that opens first |
| SlotBoundary.RefusalNamesNeighbours | src/appointments/appointments.service.ts:529-543 | the two starts named in a refusal lie one step apart around the asked one, both on the grid of the window it was measured in |
| SlotBoundary.NeighbourAcceptedIff | src/appointments/appointments.service.ts:529-543 | a named start would be accepted exactly when the row of the day that holds it has it on its grid, and is outside hours when none holds it |
| SlotBoundary.MultipleIsMod | src/appointments/appointments.service.ts:529-532 | steps of the listing's walk and remainders of the booking's check describe the same grid |
| Agreement.ListedPassesBoundaryIff | src/appointments/appointments.service.ts:459-544 | a listed start passes the booking's hours and grid check, at the service's own step, exactly when it lies on that step's grid in the stored row it falls in |
| Agreement.SameStepIff | src/availability/engine/availability.engine.ts:255-276 | with one step on both sides, exactly when the stored row begins on the merged window's grid |
| Agreement.WindowsApartAligned | src/availability/engine/availability.engine.ts:255-276 | windows that do not touch anchor every start alike on both sides |
| Agreement.WholeGridPassesIff | src/appointments/appointments.service.ts:148-149 | with windows apart the booking accepts the whole listed grid if and only if its step divides the listing's, or the grid has one point |
| Agreement.DefaultGridPassesIff | src/availability/loaders/availability-context.loader.ts:153-154 | on a run of half an hour or more the default listing agrees with the booking exactly for steps of 1, 3, 5 or 15 minutes |
| Agreement.OfferedIsExcludedIff | prisma/migrations/20260415135600_appointments_exclude_constraint/migration.sql:38-48 | an offered slot meets the exclusion constraint exactly when a live row the loader does not select conflicts |
| Agreement.HiddenIff | src/availability/loaders/availability-context.loader.ts:109-114 | those rows are exactly the completed ones, those of the other mode partition and those outside the loaded range |
| Agreement.HiddenInRangeIff | src/availability/loaders/availability-context.loader.ts:109-114 | for a visit inside the loaded range, exactly the first two |
| Agreement.SameLength | src/availability/engine/availability.engine.ts:247-251 | from the same service minutes and the same custom minutes listing and booking derive visits of one length |
| Agreement.ListedIsBookableIff | src/appointments/appointments.service.ts:95-190 | for any two steps: to a start the engine lists the booking answers that staff or service is missing or not offered, that it has passed, is off the grid or taken, or accepts it, each exactly then |
| Agreement.ListedIsBookable | src/appointments/appointments.service.ts:95-190 | while the service is still offered, with windows apart, the booking's step dividing the listing's, no negative notice, one clock, the start inside the loaded range and nothing hidden, every listed pair can be booked |
| Agreement.BookableUnlistedIff | src/appointments/appointments.service.ts:95-190 | what the booking accepts the listing leaves out exactly for a holiday, a past day, a business without hours, a start off its grid or past the window's end, the notice period, an instant closed, unworked, blocked or booked with buffers, or staff not asked for |
| Witnesses.StepsDisagree | src/availability/loaders/availability-context.loader.ts:51-59 | a start of the default listing that the booking refuses, because the service's step is 30 minutes |
| Witnesses.TouchingWindowsDisagree | src/schedule/business-hours.service.ts:108-125 | two touching windows for which a listed start is refused |
| Witnesses.CompletedVisitIsHidden | src/availability/loaders/availability-context.loader.ts:109-114 | after a run of create, confirm, check-in and complete, a start is listed and the booking finds it taken |
| Witnesses.BufferOutsideDayIsIgnored | src/availability/engine/availability.engine.ts:234-244 | a start is listed although a booking's buffer, from before the day opens, covers it |
| Witnesses.OtherModeSurvivesRemoval | src/staff/staff.service.ts:118-131 | a test-mode booking is still due after its staff member was removed from live mode |
| Witnesses.ConfirmOverwritesCancel | src/appointments/appointments.service.ts:291-298 | a confirmation checked earlier overwrites a committed cancellation |
| Witnesses.CancelOverwritesCompletion | src/appointments/appointments.service.ts:316-365 | a cancellation checked earlier overwrites a completed visit |
| Witnesses.RemovalMissesBooking | src/staff/staff.service.ts:116-136 | a removal that counted none leaves a booking committed in between still due, with its staff member deleted |
| Witnesses.HolidayIsBookable | src/appointments/appointments.service.ts:95-190 | a start that is not listed, because the day is a holiday, is booked |
| Witnesses.LateNeighbourIsOutside | src/appointments/appointments.service.ts:529-543 | the later start named in a refusal lies past closing and is refused in turn |
| Witnesses.FiftyStuckEventsBlock | src/appointments/events/outbox.service.ts:129-136 | fifty events stuck behind one unreachable queue keep a deliverable event from ever being delivered |
| Witnesses.SecondRescheduleIsRefused | src/appointments/appointments.service.ts:369-388 | of two overlapping reschedules the unique index refuses the second |
| Appointments.ActiveIsCancellable | src/appointments/state/appointment-state.ts:16-62 | the active statuses are exactly those that can be cancelled, and exactly those with a way out |
| Appointments.AppointmentService.Insert | src/appointments/appointments.service.ts:153-188 | the row goes in unless a live row of the same tenant and staff overlaps it |
| Appointments.AppointmentService.Create | src/appointments/appointments.service.ts:95-190 | the new store and answer of a booking, with every refusal in the source's order |
| Appointments.AppointmentService.Transition | src/appointments/appointments.service.ts:286-312 | confirm, check in, complete, no-show: new store and answer, repeated calls included |
| Appointments.AppointmentService.Cancel | src/appointments/appointments.service.ts:316-365 | cancels once, idempotently, and refuses customers inside the notice period |
| Appointments.AppointmentService.Reschedule | src/appointments/appointments.service.ts:369-413 | inserts the linked row while the old one still holds its slot, then cancels the old one, or changes nothing |
| Appointments.AppointmentService.Remove | src/appointments/appointments.service.ts:417-421 | soft deletion of a visible row |
| Appointments.AppointmentService.RemoveStaff | src/staff/staff.service.ts:94-147 | refused with upcoming bookings unless forced; then cancels them, retires the staff member and closes their login |
| Appointments.CancelUpcomingExact | src/staff/staff.service.ts:118-131 | the bulk cancel changes exactly the upcoming active rows of the caller's partition |
| Appointments.EvolvingKeepsSlotsApart | prisma/migrations/20260415135600_appointments_exclude_constraint/migration.sql:38-48 | no update can create a double booking, so the check at insertion is enough |
| Appointments.StepKeepsInvariant | src/appointments/appointments.service.ts:95-421 | every whole request keeps slots apart, cancelled rows stamped and reschedule links sound |
| Appointments.RunKeepsInvariant | src/appointments/appointments.service.ts:95-421 | the same over every sequence of whole requests of every tenant |
| Appointments.EmptyStoreIsFine | src/appointments/appointments.service.ts:95-421 | no double booking, and cancelled exactly when stamped, in every state that whole requests reach from an empty store |
| Appointments.RunHistory | src/appointments/state/appointment-state.ts:16-41 | over any run of whole requests statuses move only along the table, and no range, tenant, staff, customer or link changes |
| Appointments.ReachDrops | src/appointments/state/appointment-state.ts:16-34 | a status once left is never come back to |
| Appointments.RefusalChangesNothing | src/appointments/appointments.service.ts:95-421 | a request answered with an error leaves the store as it was |
| Appointments.RescheduleLandsElsewhere | src/appointments/appointments.service.ts:369-413 | a same-staff reschedule that succeeds is disjoint from the old range and linked to it |
| Appointments.RescheduleKeepsLinks | src/appointments/appointments.service.ts:369-413 | requests that do not overlap reschedule a booking at most once, by the state machine alone |
| Appointments.ChainFacts | src/appointments/appointments.service.ts:369-413 | reschedule chains are acyclic, keep customer and service, and every row but the last is cancelled |
| Appointments.ChainsDoNotBranch | src/appointments/appointments.service.ts:369-413 | two rows going back to one booking lie on one line |
| Appointments.RemovalClearsUpcoming | src/staff/staff.service.ts:94-147 | a removal that succeeds leaves no upcoming active booking in the partition, closes the linked login, and touches nothing else |
| Appointments.RemovalSpares | src/staff/staff.service.ts:118-131 | exactly the upcoming bookings of the other mode partition stay active |
| Appointments.RemovedStaffStaysFree | src/staff/staff.service.ts:94-147 | over any later run of whole requests a removed staff member gets no upcoming active booking there |
| RequestAnswers.CreateAnswers | src/appointments/appointments.service.ts:116-189 | staff missing, service missing, not offered, past, taken or accepted: each exactly when, with taken meaning a live row of the tenant and staff member that shares an instant with the visit |
| RequestAnswers.CreatedRow | src/appointments/appointments.service.ts:131-165 | an accepted booking adds one row, from its start to its minutes later: the staff member's own minutes where the offer has them, the service's otherwise |
| RequestAnswers.SecondBooking | src/appointments/appointments.service.ts:131-189 | after an accepted booking another one of the staff member is taken exactly if it was before or the two visits share an instant |
| RequestAnswers.CancelAnswers | src/appointments/appointments.service.ts:316-345 | an unfinished booking is cancelled by the business at any time, and by a customer exactly up to the start less the notice hours, 24 where none are set |
| RequestAnswers.LastInstantToCancel | src/appointments/appointments.service.ts:323-336 | over all clock readings: that instant is the last at which a customer succeeds, and later nothing changes |
| RequestAnswers.CancelRefusals | src/appointments/appointments.service.ts:316-322 | the other answers to a cancellation, each exactly when; only a customer is ever too late |
| RequestAnswers.MoveAnswers | src/appointments/appointments.service.ts:286-298 | confirm, check-in, complete and no-show succeed exactly from the statuses listed or when already there, and change nothing but the status |
| RequestAnswers.RetryIsHarmless | src/appointments/appointments.service.ts:293-320 | a status move or cancellation that went through can be repeated at any time: same answer, nothing more changed |
| RequestAnswers.RescheduleAnswers | src/appointments/appointments.service.ts:369-382 | not found, not unfinished, or the answer of the booking that it makes |
| RequestAnswers.RescheduledRows | src/appointments/appointments.service.ts:369-400 | the old row is cancelled and a linked one of the same customer and service added, confirmed exactly when the old one was |
| RequestAnswers.RemoveAnswers | src/appointments/appointments.service.ts:417-421 | deletes exactly a row the caller sees |
| RequestAnswers.DeletedIsGone | src/appointments/appointments.service.ts:417-421 | after any later run nobody finds a deleted booking again |
| RequestAnswers.StaffRemovalAnswers | src/staff/staff.service.ts:94-147 | not found, has bookings, or removed with the number of due bookings: each exactly when, and every row afterwards |
| RequestAnswers.RemovedIsNotBookable | src/staff/staff.service.ts:94-147 | after any later run a removed staff member cannot be booked |
| RequestAnswers.OtherPartitionsUntouched | src/appointments/appointments.service.ts:95-421 | over every run, a tenant's or mode's rows are untouched by the requests of all others |
| OverlappingRequests.NextKeepsGuarded | src/appointments/appointments.service.ts:95-421 | every read, write or rollback keeps slots apart, links unique and requests in flight consistent |
| OverlappingRequests.RunKeepsGuarded | src/appointments/appointments.service.ts:153-188 | however requests overlap, no staff member is double-booked and no booking is rescheduled twice |
| OverlappingRequests.EmptyIsGuarded | src/appointments/appointments.service.ts:153-188 | both hold in every state that overlapping requests reach from an empty store |
| OverlappingRequests.PassesIff | src/appointments/appointments.service.ts:95-421 | a request goes on to write exactly when as one step it would change the store or be stopped by the exclusion constraint |
| OverlappingRequests.DeletedStays | src/appointments/appointments.service.ts:286-421 | however requests overlap, a deleted booking stays deleted |
| OverlappingRequests.DeadWritesNothing | src/common/interceptors/tenant-tx.interceptor.ts:65-92 | a request that dies writes nothing, then or later |
| OverlappingRequests.AbsentUntouched | src/appointments/appointments.service.ts:95-421 | however the requests of others overlap, a partition's rows stay as they are |
| OverlappingRequests.UndisturbedIsOneStep | src/appointments/appointments.service.ts:95-421 | a request whose checks still hold when it writes does what it would do as one step |
| OverlappingRequests.SerialKeepsInv | src/appointments/appointments.service.ts:95-421 | runs of such requests keep the whole serial invariant |
| StaleWrites.WriteFollowsTableIff | src/appointments/appointments.service.ts:286-413 | the writes of any request keep to the transition table exactly when the database refuses them or the row they are about, as it is by then, leads to its new status or has it |
| StaleWrites.AlwaysAdvancesIff | src/appointments/appointments.service.ts:286-413 | a run of overlapping requests only ever moves statuses to ones the table reaches, between any two moments, if and only if no accepted write meets a row that neither has its target status nor leads to it |
| StaleWrites.OnwardIsReached | src/appointments/state/appointment-state.ts:16-34 | those statuses are exactly the ones the table reaches step after step |
| StaleWrites.MoveKeepsStampsIff | src/appointments/appointments.service.ts:291-298 | an accepted status write leaves a stamped row uncancelled exactly when it overwrites a cancellation |
| StaleWrites.OtherWritesKeepStamps | src/appointments/appointments.service.ts:316-421 | every other request keeps cancelled and stamped together, whatever it overwrites |
| StaleWrites.WriteKeepsOriginsIff | src/appointments/appointments.service.ts:369-413 | the origins of reschedules stay cancelled at a write exactly when it puts no status on one of them |
| StaleWrites.WriteKeepsInvIff | src/appointments/appointments.service.ts:286-421 | a write keeps the whole serial invariant exactly when it puts no status over a cancellation |
| StaleWrites.AlwaysInvIff | src/appointments/appointments.service.ts:286-421 | a run of overlapping requests keeps the serial invariant at every moment if and only if no status is written over a cancellation |
| StaleWrites.ChainsStayCancelledIff | src/appointments/appointments.service.ts:369-413 | every row but the last of a reschedule chain stays cancelled over a run if and only if no status is written to a row that has been rescheduled |
| StaleWrites.FromEmptyStore | src/appointments/appointments.service.ts:95-421 | the three conditions for every run of overlapping requests from an empty store |
| RemovalRaces.RemovalLeavesNoneIff | src/staff/staff.service.ts:116-136 | a removal leaves no upcoming booking exactly when it had counted one, and cancels them all, or there is none as it writes |
| RemovalRaces.BookingOvertakesRemoval | src/staff/staff.service.ts:94-147 | a booking, reschedule or status write in flight that goes through after a removal leaves an upcoming booking, unless the database refuses it |
| RemovalRaces.StaysFreeIff | src/staff/staff.service.ts:94-147 | a staff member without upcoming bookings gets none in any later run if and only if no request in flight can still place one |
| RemovalRaces.RemovalIsCleanIff | src/staff/staff.service.ts:94-147 | a removal is clean at its write and over every later run if and only if it had counted a booking or met none, and nothing then in flight can still place one |
| RefreshTokens.TokenStore.IssueNewSession | src/auth/auth.service.ts:426-471 | a new family with its own absolute expiry |
| RefreshTokens.TokenStore.DiagnoseToken | src/auth/auth.service.ts:229-262 | the reading part of phase one: the answer to a token, in the source's order |
| RefreshTokens.TokenStore.WriteRotation | src/auth/auth.service.ts:277-293 | the writing part: child row and parent's marks, without looking again |
| RefreshTokens.TokenStore.Refresh | src/auth/auth.service.ts:229-307 | both parts with nothing in between |
| RefreshTokens.UndisturbedRefresh | src/auth/auth.service.ts:229-307 | which is the run of its read and its write next to each other |
| RefreshTokens.TokenStore.RevokeFamily | src/auth/auth.service.ts:309-335 | the bulk revoke hits exactly the unrevoked rows of the family (and owner) |
| RefreshTokens.TokenStore.Logout | src/auth/auth.service.ts:339-354 | revokes the whole family of a known token and nothing otherwise |
| RefreshTokens.TokenStore.ListSessions | src/auth/auth.service.ts:395-415 | the walk keeps the first live row of each family, newest first |
| RefreshTokens.RunKeepsFit | src/auth/auth.service.ts:229-354 | under every interleaving each family is a tree: parents are earlier rows of it, `replacedAt` is set exactly on rows with a child, when some child was made |
| RefreshTokens.FamilyShares | src/auth/auth.service.ts:442-461 | all rows of a family share its user and one absolute expiry, 90 days after it began, under every interleaving |
| RefreshTokens.ChainIff | src/auth/auth.service.ts:277-293 | a tree table is one chain per family exactly when no token was replaced twice |
| RefreshTokens.RotateForksIff | src/auth/auth.service.ts:277-293 | a rotation forks its family exactly when its token has been replaced before |
| RefreshTokens.ReachableIsChainIff | src/auth/auth.service.ts:213-307 | a run leaves chains if and only if no rotation is written for a token replaced since it was read |
| RefreshTokens.TokenReplacedTwice | src/auth/auth.service.ts:229-307 | two overlapping refreshes make two live children of one token, and the session list shows one |
| RefreshTokens.SerializableIsChain | src/auth/auth.service.ts:213-215 | with the isolation the comment intends every reachable table is chains |
| RefreshTokens.OneChain | src/auth/auth.service.ts:277-293 | in a table of chains any two rows of a family are ancestor and descendant |
| RefreshTokens.SingleChild | src/auth/auth.service.ts:277-293 | in a table of chains no token has two children |
| RefreshTokens.OnlyLastIsLive | src/auth/auth.service.ts:277-293 | in a table of chains only the last row of a family can be unrevoked |
| RefreshTokens.InProgressIff | src/auth/auth.service.ts:229-246 | in a table of chains a revoked token is told to retry exactly while its one replacement is live and younger than 10 s |
| RefreshTokens.OldAncestorIsReuse | src/auth/auth.service.ts:229-246 | in a table of chains a token two or more rotations back is reuse at any time |
| RefreshTokens.RotationIsInTime | src/auth/auth.service.ts:24-26 | a token is found good only within 30 days of its issue and 90 days of the family's start |
| RefreshTokens.WriteIsInTime | src/auth/auth.service.ts:277-293 | every rotation is written for such an instant, whatever was committed meanwhile |
| RefreshTokens.SlidingCanOutliveAbsolute | src/auth/auth.service.ts:442-461 | rotations after which a child's sliding expiry lies beyond the absolute one, which still stops it |
| RefreshTokens.FamilyDeathIsPermanentIff | src/auth/auth.service.ts:309-354 | a family revoked by phase two, logout or its owner stays dead through every run if and only if no refresh of it was in flight |
| RefreshTokens.DeadFamilyNeverRotates | src/auth/auth.service.ts:309-354 | then no token of it is ever found good again and no rotation of it is in flight |
| RefreshTokens.SerializableDeathIsPermanent | src/auth/auth.service.ts:213-215 | with the intended isolation death is permanent without that condition |
| RefreshTokens.LogoutOvertaken | src/auth/auth.service.ts:339-354 | a refresh in flight during a logout leaves a live token that rotates again |
| RefreshTokens.StaleWriteRevives | src/auth/auth.service.ts:277-293 | a rotation written into a dead family always brings it back |
| RefreshTokens.ReuseKillsDespiteRaces | src/auth/auth.service.ts:229-335 | whatever commits between its two phases, a detected reuse kills the family, for good exactly when no refresh of it is then in flight |
| RefreshTokens.OtherFamiliesUntouched | src/auth/auth.service.ts:309-354 | an event leaves every row of every other family as it was |
| RefreshTokens.SessionsAreAllLive | src/auth/auth.service.ts:395-415 | in a table of chains the session list is every live row of the user |
| RefreshTokens.NothingDroppedIff | src/auth/auth.service.ts:409-414 | the duplicate check drops a row exactly when the user has two live rows in one family |
| RefreshAnswers.RefreshAnswersIff | src/auth/auth.service.ts:229-262 | invalid, in progress, reuse, absolutely expired, expired, user inactive or rotated: each exactly when, by the row's marks and the clock |
| RefreshAnswers.RotatedIff | src/auth/auth.service.ts:229-293 | a refresh rotates exactly when the token is unrevoked, its user active, and no more than 30 days have passed since its issue and 90 since its family's |
| RefreshAnswers.NewSessionRows | src/auth/auth.service.ts:426-471 | a session starts with one token of its own family, 30 and 90 days before its two expiries |
| RefreshAnswers.ReadMeans | src/auth/auth.service.ts:225-262 | the reading part writes no row, opens a rotation exactly for a good token, and records each detected reuse once |
| RefreshAnswers.WrittenRows | src/auth/auth.service.ts:270-293 | a rotation adds one child and marks its parent, and touches no other row |
| RefreshAnswers.DeadWritesNothing | src/auth/auth.service.ts:225-307 | a refresh that dies writes nothing, then or later |
| RefreshAnswers.RevokedRows | src/auth/auth.service.ts:309-354 | which rows a logout, a session revocation and a detected reuse change, and how: exactly the unrevoked ones of the family (and owner), reuse recorded only for a reuse |
| RefreshAnswers.LogoutEndsFamily | src/auth/auth.service.ts:339-354 | after a logout no token of its family rotates any more |
| RefreshAnswers.InactiveGetsNothing | src/auth/auth.service.ts:250-262 | a refresh for an inactive user writes nothing and opens nothing |
| RefreshAnswers.OpenedByActive | src/auth/auth.service.ts:250-262 | over every interleaving each rotation in flight was begun by a read that found its user active |
| RefreshAnswers.LockedOutIff | src/auth/auth.service.ts:250-293 | after a deactivation the user gets no token from any interleaving, and no dead one back, if and only if no refresh of theirs was in flight |
| RefreshAnswers.SessionsAreNewest | src/auth/auth.service.ts:395-415 | in any table the list has a newest live row of the user for each family in which they have one, and nothing else |
| Outbox.RoutesAreProper | src/appointments/events/outbox.service.ts:177-190 | every event type has a route, without repeats, and each queue gets exactly the listed prefixes |
| Outbox.JobIdInjective | src/appointments/events/outbox.service.ts:153 | different events never get the same job id on a queue |
| Outbox.JobIdNamesJob | src/appointments/events/outbox.service.ts:153 | a job id belongs to one queue and one event |
| Outbox.JobIdText | src/appointments/events/outbox.service.ts:153 | a job id is the queue's name and the event's id after a fixed word |
| Outbox.NextKeepsInv | src/appointments/events/outbox.service.ts:121-206 | each step of any flusher, commit, crash or late add keeps rows, claims and jobs consistent |
| Outbox.NothingIsLost | src/appointments/events/outbox.service.ts:121-167 | under every interleaving a committed event is pending, or each routed queue holds it whole: name, payload, tenant and trace id under its id |
| Outbox.CommittedIsDelivered | src/appointments/events/outbox.service.ts:56-74 | an event is kept as committed, and after any later interleaving it is pending or can be read back whole from its jobs |
| Outbox.EveryJobHasOneRow | src/queues/producers/queue.producer.ts:34-47 | every job is one committed row, field by field; one job id per queue and event |
| Outbox.ProcessedIsFinal | src/appointments/events/outbox.service.ts:192-198 | a processed row stays processed and can be read back whole from its jobs, whatever runs next |
| Outbox.JobIsTheRows | src/appointments/events/outbox.service.ts:147-156 | ignoring a repeated job id never drops another event's job |
| Outbox.BeginIff | src/appointments/events/outbox.service.ts:129-136 | a flusher takes at most 50 different events, each pending as it takes them |
| Outbox.GivenUpMayLand | src/appointments/events/outbox.service.ts:147-165 | when a flusher dies or gives a row up, each of its unanswered adds may still land |
| Outbox.MarkMayFail | src/appointments/events/outbox.service.ts:157-165 | when marking fails after all adds, the row is counted, its jobs stay, and adding them again is ignored |
| Outbox.OutboxService.Enqueue | src/appointments/events/outbox.service.ts:56-74 | a committed event is the youngest pending row |
| Outbox.OutboxService.FanOut | src/appointments/events/outbox.service.ts:147-156 | all routed adds are tried; success exactly when all are taken |
| Outbox.OutboxService.FlushPending | src/appointments/events/outbox.service.ts:121-167 | one flush settles exactly the 50 oldest pending rows, each processed or bumped, and adds their jobs |
| Outbox.FlushOneMore | src/appointments/events/outbox.service.ts:138-166 | updating by id after each row is the same as flushing one more row of the batch |
| Outbox.FlushIsARun | src/appointments/events/outbox.service.ts:121-167 | the loop's flush is a run of the interleaved machine |
| OutboxDrain.FlushMeasure | src/appointments/events/outbox.service.ts:129-136 | a flush processes at least min(healthy, limit − failing) healthy rows and no failing one |
| OutboxDrain.Drains | src/appointments/events/outbox.service.ts:129-136 | with fewer than 50 failing rows, h healthy rows are gone after at most h flushes, sooner by the measure |
| OutboxDrain.FlushOfPrefix | src/appointments/events/outbox.service.ts:129-136 | what one flush does to the oldest rows does not depend on the younger ones |
| OutboxDrain.FlushedAt | src/appointments/events/outbox.service.ts:129-166 | one flush attempts a row exactly when it is pending and fewer than 50 older rows are: processed when every routed queue took its job, counted otherwise |
| OutboxDrain.FlushDelivers | src/appointments/events/outbox.service.ts:138-162 | after a flush a routed queue holds an attempted event whole exactly if it took the add or held it before |
| OutboxDrain.AttemptsAreFailures | src/appointments/events/outbox.service.ts:192-206 | over any run of flushes the attempts on a row count exactly those that tried it in vain |
| OutboxDrain.DeliveredIffChance | src/appointments/events/outbox.service.ts:129-166 | whatever fails when, and whatever is committed in between, older or younger, an event is delivered exactly when some flush finds it among the 50 oldest with its queues reachable |
| OutboxDrain.ServedWithin | src/appointments/events/outbox.service.ts:129-166 | with steady failures and fewer than 50 older failing rows, late ones included, as many flushes as healthy rows are due before and with it are enough |
| OutboxDrain.Starves | src/appointments/events/outbox.service.ts:129-166 | with 50 older failing rows no number of flushes delivers it, whatever is committed meanwhile |
| OutboxDrain.ServedIff | src/appointments/events/outbox.service.ts:129-166 | while no older failing row is committed late, a deliverable event is delivered within that many flushes exactly when fewer than 50 older rows keep failing |
| Idempotency.IdempotencyKeys.LookupOrReserve | src/appointments/interceptors/idempotency.interceptor.ts:117-176 | reserves a free key; otherwise new, mismatch, in flight or replay by the visible row |
| Idempotency.IdempotencyKeys.RecordResponse | src/appointments/interceptors/idempotency.interceptor.ts:178-193 | records on the caller's own row and on no other |
| Idempotency.IdempotencyKeys.Intercept | src/appointments/interceptors/idempotency.interceptor.ts:45-107 | one request from start to end, with and without a key; a failing handler leaves the table as it was |
| Idempotency.InterceptIsARun | src/common/interceptors/tenant-tx.interceptor.ts:54-102 | that request, whatever its key, is a run of the concurrent machine when nothing comes in between |
| Idempotency.RunKeepsInv | src/appointments/interceptors/idempotency.interceptor.ts:117-193 | over every interleaving each committed row has one original run and every reply fits the rows |
| Idempotency.EffectsHappenOnce | src/appointments/interceptors/idempotency.interceptor.ts:72-107 | the handler's effects commit at most once per key for the owner of its row |
| Idempotency.OnePartitionRunsOnce | src/appointments/interceptors/idempotency.interceptor.ts:128-161 | a key used by one tenant and mode only runs its handler at most once |
| Idempotency.ProtectedIffOwner | src/appointments/interceptors/idempotency.interceptor.ts:143-161 | a taken key protects a caller if and only if the caller owns the row |
| Idempotency.HeldByOne | src/appointments/interceptors/idempotency.interceptor.ts:128-145 | at most one open request holds a key, and none once it is committed |
| Idempotency.FailureFreesTheKey | src/common/interceptors/tenant-tx.interceptor.ts:65-92 | a failed or dead request leaves no reservation, and the waiting one runs its own handler |
| Idempotency.LaterRepliesAreFixed | src/appointments/interceptors/idempotency.interceptor.ts:161-176 | after the first commit every reply to the owner is decided by the committed row |
| Idempotency.RecordedIsReplayed | src/appointments/interceptors/idempotency.interceptor.ts:161-176 | after the commit another hash is a mismatch, a recorded response is replayed exactly, an unrecorded one is in flight: each exactly then |
| Idempotency.ReplaysRepeatTheOriginal | src/appointments/interceptors/idempotency.interceptor.ts:76-81 | every replay repeats what the one run of the handler answered to the same owner and hash |
| Idempotency.MissingKey | src/appointments/interceptors/idempotency.interceptor.ts:49-59 | without a key a caller with an API key is refused and any other runs the handler, with no row looked at or reserved |
| Idempotency.RefusedIffMalformed | src/appointments/interceptors/idempotency.interceptor.ts:60-68 | over every interleaving a request with a key is refused for it exactly when it is not 8 to 200 of the allowed characters |
| Idempotency.UnkeyedLeavesNoRow | src/appointments/interceptors/idempotency.interceptor.ts:49-59 | over every interleaving a request without a key holds no row, and none is kept for it |
| Pagination.OrderIsUnique | src/common/pagination/cursor.util.ts:81-86 | the (sort value, id) order leaves one possible list |
| Pagination.OrderDescends | src/common/pagination/cursor.util.ts:81-86 | the ordered list is strictly descending when ids are unique |
| Pagination.BelowMembers | src/common/pagination/cursor.util.ts:68-75 | the query selects exactly the rows strictly after the cursor |
| Pagination.PageIsPrefix | src/common/pagination/cursor.util.ts:88-107 | a page is the top of the rest of the list; more is promised exactly when rows are left |
| Pagination.PageSize | src/common/pagination/cursor.util.ts:88-99 | limits are brought into 1 to 100, and a page is as full as limit and table allow |
| Pagination.RestOfList | src/common/pagination/cursor.util.ts:68-107 | what lies below a page's last row is exactly what the page left out |
| Pagination.WalkIsExact | src/common/pagination/cursor.util.ts:68-107 | on a table that stands still a walk ends and returns exactly the rows older than the cursor, newest first, each once, for all limits; `has_more` is false only on the last page |
| Pagination.PageCount | src/common/pagination/cursor.util.ts:88-107 | with one limit the number of pages is the smallest possible |
| Pagination.WalkDescends | src/common/pagination/cursor.util.ts:59-107 | rows come out strictly descending whatever happens to the table between pages |
| Pagination.WalkIsNewestFirst | src/common/pagination/cursor.util.ts:59-107 | that order is by falling time, and by falling id within one instant, below the cursor throughout |
| Pagination.NoRowTwice | src/common/pagination/cursor.util.ts:59-107 | no row is returned twice although the table changes |
| Pagination.SurvivorsComeOutOnce | src/common/pagination/cursor.util.ts:59-107 | once the walk has ended, a row present throughout has come out exactly once, even if the cursor's row was deleted |
| LinearRegisters.MeetAfter | src/api-keys/utils/api-key-format.ts:104-112 | registers that meet after four characters differed by exactly those characters |
| LinearRegisters.TypoMovesRegister | src/api-keys/utils/api-key-format.ts:104-112 | for any linear one-to-one step, a change inside four characters changes the register |
| Crc32.ShiftByte | src/api-keys/utils/api-key-format.ts:108-110 | the branch-free inner loop is eight steps that take the polynomial exactly when a one falls out |
| Crc32.ComputeCrc | src/api-keys/utils/api-key-format.ts:104-112 | the nested loops compute the specified checksum |
| Crc32.CrcIsLawful | src/api-keys/utils/api-key-format.ts:105-111 | the CRC step is linear, one-to-one, and moves a register with a clear low byte down |
| Crc32.BurstChangesCrc | src/api-keys/utils/api-key-format.ts:104-112 | replacing up to four consecutive byte characters by others changes the CRC |
| Crc32.TypoChangesCrc | src/api-keys/utils/api-key-format.ts:104-112 | two byte strings of one length that differ only inside four consecutive places have different CRCs |
| Crc32.CheckValue | src/api-keys/utils/api-key-format.ts:104-112 | the check value of CRC-32: "123456789" gives CBF43926 |
| ApiKeys.Base62Encode | src/api-keys/utils/api-key-format.ts:85-98 | the division loop prints the digits of the big-endian number, "0" for zero |
| ApiKeys.DigitsDecode | src/api-keys/utils/api-key-format.ts:92-97 | reading the digits by their places gives the number back |
| ApiKeys.EncodedSameIff | src/api-keys/utils/api-key-format.ts:85-98 | encoding is one-to-one but for 0 and 52, and decoding inverts it above 0 |
| ApiKeys.BodyLength | src/api-keys/utils/api-key-format.ts:29-47 | a 32-byte body prints as 1 to 43 letters and digits (2^256 < 62^43) |
| ApiKeys.Crc32Base62 | src/api-keys/utils/api-key-format.ts:104-120 | the checksum loop and padding print the CRC |
| ApiKeys.ChecksumIsSix | src/api-keys/utils/api-key-format.ts:100-120 | a printed checksum is always exactly six letters and digits (2^32 < 62^6) |
| ApiKeys.PaddedSameIff | src/api-keys/utils/api-key-format.ts:113-119 | exactly which checksums are printed alike |
| ApiKeys.PrintedAlike | src/api-keys/utils/api-key-format.ts:119 | two different checksums with one text |
| ApiKeys.PrintedApart | src/api-keys/utils/api-key-format.ts:119 | a text without '0' in second place belongs to one checksum only |
| ApiKeys.MintApiKey | src/api-keys/utils/api-key-format.ts:46-57 | the minted key is head, body and the head's checksum, with its prefix and last four |
| ApiKeys.IsValidKeyFormat | src/api-keys/utils/api-key-format.ts:69-76 | true exactly for a head of the right form followed by that head's checksum |
| ApiKeys.MintedIsValid | src/api-keys/utils/api-key-format.ts:46-81 | a minted key passes the check, shows its environment, prefix and last four, and is at most 59 characters |
| ApiKeys.FormLooks | src/common/guards/auth.guard.ts:157 | a key of the right form is read as a test key exactly when it was made for test |
| ApiKeys.MintedDiffer | src/api-keys/utils/api-key-format.ts:46-57 | equal keys come from the same environment and body, but for the bodies 0 and 52 |
| ApiKeys.SameKeyIff | src/api-keys/utils/api-key-format.ts:46-57 | two keys are the same text exactly for one environment and the same bytes, but for 32 zero bytes and the same ending in 52 |
| ApiKeys.BigEndianFirst | src/api-keys/utils/api-key-format.ts:88 | the body's first byte weighs most |
| ApiKeys.TypoUnnoticedIff | src/api-keys/utils/api-key-format.ts:64-76 | a typing error inside four characters changes the CRC, and goes unnoticed exactly when both are printed alike |
| ApiKeys.TypoIsCaught | src/api-keys/utils/api-key-format.ts:64-76 | such an error is always caught when the checksum's second character is not '0' |
| ApiKeys.OneChecksumPerHead | src/api-keys/utils/api-key-format.ts:69-76 | a head has one valid checksum, so errors inside the checksum are caught |

## Left out

- Availability.ComputeNextSlots: the dates are given as a list; `enumerateDates` and the printing of slot times belong to the time-zone library.
- Availability.BlocksOf: business-wide and personal blocks are filtered in one pass where the source makes two.
- Appointments.AppointmentService.Create: finding or creating the customer, notes, metadata, events and reminder jobs are not stored; services and offers are read from the request's environment.
- OverlappingRequests.RunKeepsGuarded: a request's writes are committed together and its reads are one moment; locks it waits for are not shown.
- Agreement.ListedIsBookableIff: the listing and the booking are taken to know the same business hours and the same duration for the pair; everything else may have changed in between.
- RemovalRaces.StaysFreeIff: the run that lets a request in flight through first deletes every row, which any owner may do; it need not be the first such run.
- RefreshTokens.RunKeepsFit: what a refresh reads it reads at one moment, and a bulk revoke stands at the moment of its snapshot.
- RefreshTokens.TokenStore.IssueNewSession: device labels, hashes and the signing of tokens are not part of this model.
- Outbox.OutboxService.FlushPending: with one flusher only; several at once are the state machine's subject. `createdAt` is the row's place in the table.
- OutboxDrain.ServedIff: for events that keep failing throughout and none of them committed late; DeliveredIffChance is without either condition, ServedWithin and Starves without the second. All are about one flusher at a time.
- Outbox.EveryJobHasOneRow: jobs are kept after they ran; the queue forgets finished ones after an hour or a thousand, and an id could then be added again.
- Idempotency.IdempotencyKeys.RecordResponse: may be skipped, since errors in it are swallowed; that the database may then abort the whole transaction is not modelled.
- Idempotency.RunKeepsInv: expiry of keys is not modelled; request hashes are unknown strings, equal for equal requests.
- Pagination.WalkIsExact: starts from a cursor; a list without one is served by the older page numbers.
- Pagination.BelowMembers: the base64url form of cursors is not part of this model.
- ApiKeys.Base62Encode: the number is read from the bytes directly instead of through hexadecimal text; an empty buffer, which the source never passes, is excluded.
- Crc32.BurstChangesCrc: characters are 16-bit codes; characters beyond them, which the format check refuses before the checksum, are outside the claim.
- LinearRegisters.TypoMovesRegister: says nothing of two changes further than four characters apart.
- Row-level security, SQL execution, queue internals and HTTP plumbing: only their effects named above are modelled.
- Conversations, customers, holidays, search, and the create, rotate and revoke operations on API-key rows: single-branch record keeping that would add only easy members.
- Reminder jobs: enqueued before commit and not removed on every path, so only weak claims hold of them.
