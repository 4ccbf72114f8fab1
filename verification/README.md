# Bookings: a verified model

This project models, in Dafny, the scheduling core of the booking service and proves what it promises. The path
of a booking runs through four of its components.

1. **Slots.** The slot engine turns shifts, breaks, branch hours, ordered schedule exceptions and busy appointments
   into bookable starts on a 30-minute grid (`Intervals`, `Schedule`, `Sorting`, `SlotEngine`, `SlotTheorems`). Its
   specification is one sentence about a half-open interval [t, t + need), the predicate `SlotEngine.Bookable`; the
   loops, lists and the map of the engine are proved sound and complete against it. `Tables`, `Grouping`,
   `Availability`, `AvailabilityTheorems` and `QueryTheorems` add the queries that feed the engine and the two calls
   that use it. `BookingRule` then states, on stored rows and instants alone, when a booking can be taken, and
   `BookingRuleTheorems` proves that both calls follow it in both directions.
2. **Drafts and confirmations.** `DraftProtocol` is a transition system: create calls, confirmation transactions and
   other writers interleave statement by statement, with the row lock of the draft, the advisory lock of the
   specialist, a fresh snapshot for the overlap check, atomic commits, and roll-backs at any point. `DraftInvariants`
   and `DraftSteps` prove an invariant over all runs; `DraftTheorems` and `DraftLiveness` draw the conclusions: list a
   slot, draft it, confirm it, and no other confirmation takes it. `Occupancy` says what an overlap is,
   instant by instant, `DraftCalls` and `CreateTheorems` what one call does by itself, `DraftService` what becomes of
   a confirmation that the service lets through and that runs later, after others. `DraftDatabase` holds the tables
   in one object that the calls change in place; `RequestKeys` parses idempotency keys. `Disagreements` holds concrete stores on which calls that look alike disagree.
3. **WhatsApp replies.** `ReplyProtocol`, `ReplyInvariants`, `ReplySteps`, `ReplyOutcomes`, `ReplyTheorems`,
   `ReplyLiveness` and `ReplyDatabase` do the same for the function that applies a customer's reply: per-message
   deduplication under redelivery and concurrency, a reply that is followed and an appointment that only moves
   forward, and the purge of old events.
4. **Limiters.** `RateLimit` and `UsageThrottle` are the two in-memory limiters that forget idle keys. Forgetting is
   proved invisible on every run, and what is let through is bounded from both sides.

`LikePattern` shows that customer search takes its query literally, against the matching rules of section 9.7.1 of
the PostgreSQL documentation. `Base` holds shared value types.

Instants and durations are integers in nanoseconds. Lists that loops build are described by functions over
sequences; a method that contains the loop is proved to compute the function, and lemmas say what the function means.

## What the proofs turned up

- The engine follows its rule exactly if duration plus buffer is positive (`SlotTheorems.ExactIffRoomNeeded`).
- An appointment without `ends_at` ends after its duration for the slot queries and never for the overlap check of
  a confirmation. So a draft whose slot was free can be refused although nothing was booked in between
  (`Disagreements.CheckAndConfirmDisagree`); `DraftTheorems.RefusalCause` gives the exact condition.
- The slot check insists on a positive duration and the list of slots does not; this is the only difference between
  them (`AvailabilityTheorems.CheckAgreesWithList`, with `Disagreements.NoDurationListedAndRefused`), and the only way
  in which fewer minutes can be worse than more (`Disagreements.FewerMinutesRefused`).
- The service refuses a waiting draft from the instant it expires by its own clock, the database function only after
  it by the database's. A call that the service lets through can still fail as expired or as not pending, because the
  function runs later; `DraftService.AdmittedOutcome` says exactly when.
- A reply about an appointment whose status is null is applied: no comparison of the function holds of a null status
  (`ReplyTheorems.ReplyLifecycle`).
- A reply about an appointment that does not exist leaves no event: the foreign key of the event row makes the call
  fail as a whole, although the code has an outcome for an appointment that is not found. That outcome is recorded
  only for an existing appointment of another tenant or customer (`ReplyDatabase.CallDecides`).

## Model

| member | source | states |
|---|---|---|
| `Intervals.Subtract` | internal/application/business/slots.go:261-281 | The loop computes `Subtracted`, whose meaning `SubtractedCount` gives |
| `Intervals.SubtractedCount` | internal/application/business/slots.go:261-281 | For every list of windows and every cut, also an empty or inverted one: room for [t, t+need) survives exactly if it was there and the cut misses it; an ordered cut never makes two rooms out of one |
| `Intervals.SubtractedOutside` | internal/application/business/slots.go:264-269 | A cut outside the range of all windows changes no window |
| `Intervals.SubtractedAllCount` | internal/application/business/slots.go:182-184 | Subtracting a list of cuts: room survives exactly if all of them miss it, in whatever order they come |
| `Intervals.Intersect` | internal/application/business/slots.go:284-295 | The loop computes `Intersected`, whose meaning `IntersectedCount` gives |
| `Intervals.IntersectedCount` | internal/application/business/slots.go:284-295 | Clipping keeps exactly the rooms that lie in the limit, each as often as it was there |
| `Schedule.EffectOf` | internal/application/business/slots.go:119-140 | The loop over the ordered exceptions computes `Effects` |
| `Schedule.DayOffMeaning` | internal/application/business/slots.go:129-136 | The day is off exactly if some applicable exception takes the whole day, wherever it stands in the order |
| `Schedule.SpecialMeaning` | internal/application/business/slots.go:130-131 | The last applicable special-hours entry wins; without one there are no special hours |
| `Schedule.BlocksMeaning` | internal/application/business/slots.go:134-135 | The collected blocks are missed exactly if every applicable timed absence is missed; none is inverted |
| `Schedule.ApplyBranch` | internal/application/business/slots.go:214-224 | The branch's limits and blocks applied to windows compute `BranchRoom` |
| `Schedule.BranchMeaning` | internal/application/business/slots.go:144-160 | Room survives the branch exactly if [t, t+need) lies in the branch hours, or the special hours that replace even closed ones, and misses the branch's blocks |
| `Schedule.ShiftWindows` | internal/application/business/slots.go:190-212 | One shift minus its own break computes `ShiftRoom`; a malformed shift gives nothing |
| `Schedule.ShiftMeaning` | internal/application/business/slots.go:190-212 | A shift offers room at t exactly once if [t, t+need) lies in this one valid shift and misses its own break, and otherwise never |
| `Schedule.SpecialistWindows` | internal/application/business/slots.go:164-187 | The specialist's windows compute `SpecialistRoom`; ok says whether there are any |
| `Schedule.SpecialistMeaning` | internal/application/business/slots.go:164-187 | Room exactly if the specialist does not take the day off, [t, t+need) lies inside one base interval (special hours replace shifts and breaks; adjacent shifts do not merge) and misses the specialist's blocks |
| `Schedule.SubtractBusy` | internal/application/business/slots.go:80-84 | The loop over the busy rows of one specialist computes `WithoutBusy` |
| `Schedule.BusyMeaning` | internal/application/business/slots.go:80-84 | Room survives exactly if no appointment of that specialist, taken without its buffer, meets [t, t+need) |
| `Schedule.RoomMeaning` | internal/application/business/slots.go:73-84 | All stages together: a specialist has room at t exactly if every condition on [t, t+need) holds |
| `Schedule.RoomWithinDay` | internal/application/business/slots.go:226-243 | No stage leaves the day [0, 24 h) |
| `SlotEngine.CandidateStarts` | internal/application/business/slots.go:226-243 | The loop lists each offset as often as windows with room start there, and only grid points that have not gone by |
| `SlotEngine.FirstGridLeast` | internal/application/business/slots.go:230-233 | Truncating and adding a step gives the least grid point not before the window starts, also for negative offsets |
| `SlotEngine.GatherSpecialists` | internal/application/business/slots.go:68-89 | The loops that fill the map collect, for every offset, each specialist as often as the engine lists it there |
| `SlotEngine.ListSlots` | internal/application/business/slots.go:91-107 | Whatever order the map hands out its keys in, the slots come in increasing order, each with its sorted references |
| `SlotEngine.ComputeSlots` | internal/application/business/slots.go:48-108 | For every input the result is canonical, and exact when duration plus buffer is positive: a specialist is offered at t if and only if the one-sentence rule `Bookable` holds |
| `SlotEngine.CanonicalIsExact` | internal/application/business/slots.go:45-48 | Soundness and completeness: a canonical list offers exactly the bookable starts, each with exactly the specialists that can take it, and by the branch rule alone for a service without specialist |
| `SlotTheorems.ExactIffRoomNeeded` | internal/application/business/slots.go:49-49 | The engine follows the rule on every schedule if and only if duration plus buffer is positive; otherwise `NotExactWithoutRoom` gives a schedule on which it does not |
| `SlotTheorems.NotExactWithoutRoom` | internal/application/business/slots.go:261-281 | A shift with a break at its start for which the rule and the engine differ when no room is needed |
| `SlotTheorems.CanonicalUnique` | internal/application/business/slots.go:91-107 | An input has one result: map iteration and the treatment of equal sort keys cannot change it |
| `SlotTheorems.AtMost48` | internal/application/business/slots.go:11-11 | A day lists at most 48 starts, all on the grid of that day |
| `SlotTheorems.NoRepeats` | internal/application/business/slots.go:86-88 | With distinct specialists and disjoint shifts no slot lists a specialist twice |
| `SlotTheorems.OrderIrrelevant` | internal/application/business/slots.go:68-89 | The order of specialists and busy rows, and repeated busy rows, do not change the result |
| `SlotTheorems.SameRoomsSameList` | internal/application/business/slots.go:80-84 | Busy rows that change no specialist's windows do not change the result |
| `SlotTheorems.LongerIsHarder` | internal/application/business/slots.go:49-49 | What is bookable for a longer service is bookable for a shorter one |
| `Sorting.SortRefs` | internal/application/business/slots.go:101-101 | The references are ordered by name, then by id, and none is lost or added |
| `Sorting.SortedRefsUnique` | internal/application/business/slots.go:101-101 | References have one sorted order |
| `Sorting.SortedOffsets` | internal/application/business/slots.go:91-96 | The keys of the map in strictly increasing order, whatever order the map hands them out in |
| `Grouping.Schedules` | internal/repository/postgres/business.go:399-411 | The loop that appends to the last specialist in place computes `Grouped` |
| `Grouping.GroupingIsLossless` | internal/repository/postgres/business.go:399-411 | Ungrouping gives back the rows: none is lost, added or moved |
| `Grouping.DistinctIffContiguous` | internal/repository/postgres/business.go:401-408 | The specialists are distinct if and only if the rows of each id come together |
| `Grouping.QueryOrderIsContiguous` | internal/repository/postgres/business.go:308-308 | Rows in the order of the query, by name in any collation and then by id, have the rows of each id together |
| `Grouping.GroupThenFilter` | internal/repository/postgres/business.go:307-307 | Filtering contiguous rows by a specialist and grouping them is grouping and filtering |
| `Availability.RunQueries` | internal/repository/postgres/business.go:335-381 | The rows read for a day make up the input of the engine: the joined and filtered schedule rows, the exceptions of the branch or of a listed specialist, and the active appointments that meet the day |
| `Availability.DaySlots` | internal/application/business/service.go:328-356 | Not found for an unknown specialist; otherwise the canonical slots of the day's rows |
| `Availability.AvailableSlots` | internal/application/business/service.go:224-255 | The answer, or the error, that `ListAnswer` defines: service and branch of the tenant, a day from today to 90 days ahead, and then the canonical slots |
| `Availability.CheckSlot` | internal/application/business/service.go:259-296 | The answer, or the error, that `CheckAnswer` defines; the loop finds the start if and only if the engine offers it, with its specialists |
| `Availability.FindStart` | internal/application/business/service.go:288-293 | The loop over the slots finds the start exactly if it is listed |
| `AvailabilityTheorems.FetchLosesNothing` | internal/repository/postgres/business.go:330-331 | The appointments that meet the day leave the same windows as all appointments |
| `AvailabilityTheorems.OneDayFetchSuffices` | internal/repository/postgres/business.go:370-378 | The slots of a day computed from the appointments of the day are those computed from all appointments |
| `AvailabilityTheorems.ListNeverOverlaps` | internal/repository/postgres/business.go:323-331 | The list never offers a specialist at a time that meets one of the specialist's active appointments, of whatever day |
| `AvailabilityTheorems.NamedIsFree` | internal/application/business/service.go:286-293 | Whoever an answered check names, whether a specialist was asked for or not, is free then on all days |
| `AvailabilityTheorems.AvailableIsFree` | internal/application/business/service.go:281-293 | A check for a requested specialist is available only where that specialist is free |
| `AvailabilityTheorems.AvailableNamesSomeone` | internal/application/business/service.go:286-293 | An available check of a service with specialists names someone, and only the specialist asked for if one was |
| `AvailabilityTheorems.CheckAgreesWithList` | internal/application/business/service.go:257-258 | At one instant, on one store and without extra minutes, a start is available exactly if the list of its local day holds it and the service has a positive duration |
| `Disagreements.NoDurationListedAndRefused` | internal/application/business/service.go:265-268 | A concrete store on which the list offers a start and the check refuses it, for a service without duration |
| `Disagreements.FewerMinutesRefused` | internal/application/business/service.go:265-268 | A concrete store on which the check passes without extra minutes and refuses a variant that takes the whole duration away |
| `AvailabilityTheorems.ExtraMinutesNeverHelp` | internal/application/business/service.go:265-268 | If a start is available with more extra minutes, it is with fewer if and only if those leave a positive duration |
| `AvailabilityTheorems.FilterAgrees` | internal/application/business/service.go:343-345 | With the rows of each specialist together, asking for specialist X yields exactly the starts at which the unfiltered list names X |
| `QueryTheorems.QueriedIsContiguous` | internal/repository/postgres/business.go:308-308 | In the order of the query, whatever the collation of names, the rows of each specialist come together and the specialists are distinct |
| `QueryTheorems.ListNeverRepeats` | internal/repository/postgres/business.go:291-308 | No answered list names a specialist twice for one start, provided that no specialist has overlapping shifts |
| `QueryTheorems.OrderedFilterAgrees` | internal/application/business/service.go:343-345 | In the order of the query, asking for specialist X yields exactly the starts at which the unfiltered list names X |
| `BookingRuleTheorems.ExceptionsRight` | internal/repository/postgres/business.go:310-321 | Day off, special hours and timed absences of the branch or of a specialist, as the engine reads them from the fetched exceptions, are those that the stored rows of that day and branch say |
| `BookingRuleTheorems.QueryRight` | internal/repository/postgres/business.go:297-308 | A shift reaches the engine if and only if an active stored row of the tenant, branch and day of the week gives it to an active specialist of the tenant that is asked for |
| `BookingRuleTheorems.BusyRule` | internal/repository/postgres/business.go:323-331 | The appointments leave room if and only if no active one of the specialist, of whatever day, meets the booking; one without ends_at lasts for its duration |
| `BookingRuleTheorems.ListFollowsRule` | internal/application/business/service.go:224-255 | A list names a specialist for a start if and only if the specialist is asked for and can take the booking by the rule on stored rows: opening hours, exceptions, schedule rows, breaks, profile, appointments, half-hour grid and clock; without specialists, if and only if the branch can |
| `BookingRuleTheorems.CheckFollowsRule` | internal/application/business/service.go:259-296 | A slot check names exactly the specialists that the same rule gives for its start and duration, and passes if and only if it names someone |
| `BookingRuleTheorems.ListErrors` | internal/application/business/service.go:224-255 | A list is refused exactly for an unknown or inactive service or branch, a day before today or more than 90 days ahead, or an unknown specialist |
| `BookingRuleTheorems.CheckErrors` | internal/application/business/service.go:259-284 | A check also refuses a duration that is not positive and a start that has gone by |
| `BookingRuleTheorems.SlotDetails` | internal/application/business/slots.go:91-107 | Slots come in order of their starts and last as long as the service; each names someone if the service needs it, in the order of profile names and then of ids |
| `DraftSteps.StepKeeps` | docs/handoff/sql/booknow_mcp_service_phase6_drafts.sql:55-136 | Every step of every transaction and of other writers keeps the invariant: locks, what was read under them, cleared overlaps, links between drafts and appointments, outcomes |
| `DraftSteps.InsertKeeps` | docs/handoff/sql/booknow_mcp_service_phase6_drafts.sql:109-135 | The commit that inserts the appointment and marks the draft keeps the invariant: nothing it overlaps was there at its check, links and counts stay right, and no other transaction loses what it read |
| `DraftSteps.AdvanceKeeps` | docs/handoff/sql/booknow_mcp_service_phase6_drafts.sql:55-106 | Every other statement of a confirmation keeps the invariant: what it read under its locks stays as it was |
| `DraftSteps.StepCreateKeeps` | internal/application/drafts/service.go:45-107 | Every statement of a create call keeps the invariant, among it one draft per key and a free interval behind every passed slot check |
| `DraftSteps.CheckedWasFree` | internal/application/drafts/service.go:67-83 | A passed slot check leaves the interval of the draft free of all active appointments of the specialist committed so far |
| `DraftSteps.InsertAlone` | docs/handoff/sql/booknow_mcp_service_phase6_drafts.sql:97-106 | What a confirmation inserts clashes with nothing that was there, except appointments of other sources added or changed after its check |
| `DraftSteps.InsertClears` | docs/handoff/sql/booknow_mcp_service_phase6_drafts.sql:91-95 | Two confirmations about to insert never overlap: they would share the specialist lock, whatever the hash |
| `DraftSteps.RunKeeps` | docs/handoff/sql/booknow_mcp_service_phase6_drafts.sql:44-164 | The invariant holds in every state of every run |
| `Occupancy.OverlapIsSharedInstant` | docs/handoff/sql/booknow_mcp_service_phase6_drafts.sql:97-104 | Two ranges overlap if and only if some instant lies in both; a range without an end never ends |
| `Occupancy.TakenIsSharedInstant` | docs/handoff/sql/booknow_mcp_service_phase6_drafts.sql:97-104 | The overlap check finds the specialist taken if and only if some instant of the draft lies in an active appointment of the specialist |
| `DraftTheorems.NoDoubleBooking` | docs/handoff/sql/booknow_mcp_service_phase6_drafts.sql:90-126 | In every reachable state no instant lies in two active confirmed appointments of one tenant and specialist; if it lies in a confirmed one and in one of another source, that one was added or changed after the confirmation's overlap check |
| `DraftTheorems.RefusedIfTaken` | docs/handoff/sql/booknow_mcp_service_phase6_drafts.sql:97-106 | A confirmation that holds the lock on the specialist is refused if and only if some instant of its draft is taken |
| `DraftTheorems.OneAppointmentPerBookedDraft` | docs/handoff/sql/booknow_mcp_service_phase6_drafts.sql:110-135 | There are as many appointments of source mcp as confirmed drafts, and no two drafts share one |
| `DraftTheorems.SameAppointmentReturned` | docs/handoff/sql/booknow_mcp_service_phase6_drafts.sql:78-81 | All successful confirmations of a draft return one appointment, which has the draft's tenant, specialist, times and duration |
| `DraftTheorems.ExactlyOneInsert` | docs/handoff/sql/booknow_mcp_service_phase6_drafts.sql:47-48 | Exactly one successful confirmation of a draft is not idempotent, and its transaction began before the draft expired |
| `DraftTheorems.OneDraftPerKey` | internal/repository/postgres/drafts.go:78-79 | All successful creates of a connection with one key return one draft, which at most one of them made |
| `DraftTheorems.LaterCreateReuses` | internal/application/drafts/service.go:45-48 | Once a draft exists, a create with its key succeeds if and only if customer, service, branch, start, variant, specialist and notes are the same, and changes no table, whatever the schedule has become |
| `DraftTheorems.CreatedIsOwn` | internal/application/drafts/service.go:301-310 | Every successful create, made or reused, returns a draft of its own tenant, connection and key whose fields are those of its own request, a missing text counting as an empty one |
| `DraftTheorems.TakenCause` | docs/handoff/sql/booknow_mcp_service_phase6_drafts.sql:97-104 | A draft whose slot check passed is taken if and only if one of its instants lies in a newer appointment or in an older one without ends_at |
| `DraftTheorems.RefusalCause` | docs/handoff/sql/booknow_mcp_service_phase6_drafts.sql:97-106 | A draft made by a create call for a service that requires a specialist is refused for the specialist if and only if an overlapping appointment was added or changed after the slot check, or an appointment without ends_at was already there |
| `Disagreements.CheckAndConfirmDisagree` | internal/repository/postgres/business.go:323-331 | A run from a concrete store in which the slot check of a create call passes and the confirmation of its draft finds the specialist taken, with no change to the appointments: one without ends_at ends after its duration for the one and never for the other |
| `DraftTheorems.ListAvoidsBooked` | internal/repository/postgres/business.go:323-331 | While a confirmed appointment is active, no list of slots offers its specialist over it, on any day and at any branch, whatever the service's clock says |
| `DraftTheorems.CheckAvoidsBooked` | internal/application/business/service.go:257-296 | Nor does any slot check, with or without a requested specialist, name that specialist for an interval that meets it |
| `DraftLiveness.NoDeadlock` | docs/handoff/sql/booknow_mcp_service_phase6_drafts.sql:55-60 | In every state with an unfinished confirmation some confirmation can take its next step: the draft lock comes before the specialist lock |
| `DraftLiveness.BoundedWork` | docs/handoff/sql/booknow_mcp_service_phase6_drafts.sql:44-164 | A run that begins no further confirmation takes at most five steps for each unfinished one |
| `DraftLiveness.AllConfirmationsFinish` | docs/handoff/sql/booknow_mcp_service_phase6_drafts.sql:44-164 | From every state at most that many steps, of the confirmations alone and without a roll-back, lead to one in which all of them have finished |
| `DraftCalls.ConfirmAloneIsRun` | docs/handoff/sql/booknow_mcp_service_phase6_drafts.sql:44-164 | A confirmation that meets no other transaction is a run of the protocol |
| `DraftCalls.ConfirmDecides` | docs/handoff/sql/booknow_mcp_service_phase6_drafts.sql:62-141 | The decision table: the first reason that applies refuses and changes nothing, the last one being a taken instant; a confirmed draft returns its appointment and changes nothing; every other draft is booked by one appointment with its data and one changed draft row |
| `DraftCalls.ConfirmAgain` | docs/handoff/sql/booknow_mcp_service_phase6_drafts.sql:78-81 | Confirming by itself a draft that is as its first confirmation left it returns the same appointment and changes no table, on any tables and at any time |
| `DraftCalls.CreateAloneIsRun` | internal/application/drafts/service.go:39-115 | A create call that meets no other one is a run of the protocol |
| `DraftCalls.CreateDecides` | internal/application/drafts/service.go:39-115 | What a create call does that meets no other one, from a known key to the inserted draft |
| `CreateTheorems.KnownKeyDecides` | internal/application/drafts/service.go:284-310 | With a key that its connection has used, a create returns the draft of the same booking or is refused for any difference, and changes nothing |
| `CreateTheorems.NewKeyDecides` | internal/application/drafts/service.go:49-115 | With a new key the first reason refuses: unknown customer or variant, what the slot check refuses, no specialist for a service that needs one, a slot that is not to be had; otherwise one draft row is inserted |
| `CreateTheorems.CreateFollowsRule` | internal/application/drafts/service.go:49-107 | A create makes a draft if and only if the stored rows allow the booking by the booking rule when the slot is checked; the draft lasts as long as service and variant say, and expires after its time to live |
| `DraftCalls.DraftLivesForTtl` | internal/application/drafts/service.go:93-93 | A new draft is refused for its age if and only if the database's now() is more than its time to live past what the service's clock said at the insert |
| `DraftService.ScreeningMeaning` | internal/application/drafts/service.go:128-146 | The service lets a call through if and only if its connection created the draft with its key and the draft is confirmed, whatever the time, or waits and has not expired; otherwise it names the reason |
| `DraftService.ConfirmTwice` | docs/handoff/sql/booknow_mcp_service_phase6_drafts.sql:78-81 | However a draft was confirmed and whatever run follows, a further confirmation by whoever may confirm then returns the same appointment and changes no table |
| `DraftService.AdmittedOutcome` | internal/application/drafts/service.go:141-196 | What the service let through runs later: it fails as expired if and only if the draft is still waiting and its expiry lies before the transaction's now(), as not pending if and only if another writer closed it in between, as forbidden if and only if the user may not confirm then, never as not found; a confirmed draft is returned however old it is |
| `DraftService.AdmittedTransaction` | docs/handoff/sql/booknow_mcp_service_phase6_drafts.sql:55-88 | The same for a transaction interrupted by others, from the state in which the service let the call through to the one in which it holds the row |
| `DraftService.AdmittedIsFound` | docs/handoff/sql/booknow_mcp_service_phase6_drafts.sql:55-64 | The row the service read is still there when the function locks it |
| `DraftService.RunDraft` | docs/handoff/sql/booknow_mcp_service_phase6_drafts.sql:128-135 | Over any run a draft keeps its data; it leaves the waiting status once, and is closed at the end if and only if another writer closed it |
| `DraftService.ExpiresInBetween` | internal/application/drafts/service.go:186-187 | A concrete run in which a call is let through and then refused as expired |
| `DraftService.ClosesInBetween` | internal/application/drafts/service.go:188-189 | A concrete run in which a call is let through and then refused as not pending |
| `DraftDatabase.Database.ConfirmDraft` | docs/handoff/sql/booknow_mcp_service_phase6_drafts.sql:44-164 | The function, changing the tables in place, has the result and the effect of the protocol run by itself |
| `DraftDatabase.Database.InsertDraft` | internal/repository/postgres/drafts.go:80-99 | Inserts the row at the end unless a row has its connection and key, and then returns nothing; the keys stay unique |
| `DraftDatabase.Database.Create` | internal/application/drafts/service.go:39-115 | The create call, in place, has the result and the effect of the protocol run by itself |
| `DraftDatabase.Database.Confirm` | internal/application/drafts/service.go:119-158 | The service screens the draft it reads; what it refuses changes nothing, and what it lets through has the result and the effect of the function on the tables that other transactions left |
| `RequestKeys.ParseKey` | internal/application/drafts/service.go:261-277 | A key is accepted if and only if it has 8 to 100 allowed characters after trimming white space, and then without the white space around it |
| `RequestKeys.TrimmedMeaning` | internal/application/drafts/service.go:262-262 | Trimming takes white space from both ends, nothing else, and leaves none there |
| `RequestKeys.PaddedKeyIsSame` | internal/application/drafts/service.go:262-262 | White space around a valid key does not make another key |
| `ReplySteps.StepKeeps` | docs/handoff/sql/booknow_mcp_service_phase7_twilio.sql:97-190 | Every step of every call, of the purge and of other writers keeps the invariant |
| `ReplySteps.CommitKeeps` | docs/handoff/sql/booknow_mcp_service_phase7_twilio.sql:144-190 | The commit of a first answer keeps the invariant: event, appointment and recorded response change together |
| `ReplySteps.PurgeKeeps` | docs/handoff/sql/booknow_mcp_service_phase7_twilio.sql:247-263 | The purge keeps the invariant: only events older than 30 days go |
| `ReplySteps.RunKeeps` | docs/handoff/sql/booknow_mcp_service_phase7_twilio.sql:62-199 | The invariant holds in every state of every run |
| `ReplyOutcomes.InvalidMeaning` | docs/handoff/sql/booknow_mcp_service_phase7_twilio.sql:62-83 | The arguments are refused exactly for an unknown intent, a window outside one hour to seven days, or a resolution that is not complete, in this order |
| `ReplyOutcomes.RowIsRead` | docs/handoff/sql/booknow_mcp_service_phase7_twilio.sql:113-139 | A reply gets as far as the appointment if and only if it confirms or cancels and the customer was told about it by a sent WhatsApp message within the window |
| `ReplyOutcomes.ReplyIsFollowed` | docs/handoff/sql/booknow_mcp_service_phase7_twilio.sql:144-167 | In every reachable state, the commit of a reply of a customer who was told applies it if and only if the appointment has not begun and its status is null or pending, or confirmed and the reply cancels; applied or already there, the status is then the one the customer asked for |
| `ReplyTheorems.ExactlyOnce` | docs/handoff/sql/booknow_mcp_service_phase7_twilio.sql:97-111 | However often a message is delivered before its event is purged, exactly one answered call is no duplicate; all return its final outcome, which the event holds |
| `ReplyTheorems.RecentNotPurged` | docs/handoff/sql/booknow_mcp_service_phase7_twilio.sql:256-258 | An event is not purged in its first 30 days |
| `ReplyTheorems.DuplicateChangesNothing` | docs/handoff/sql/booknow_mcp_service_phase7_twilio.sql:102-111 | A call that ends as a duplicate has changed no table at any of its steps |
| `ReplyTheorems.FailureChangesNothing` | docs/handoff/sql/booknow_mcp_service_phase7_twilio.sql:85-95 | Nor has a call that failed or was rolled back |
| `ReplyTheorems.WritersAreFirst` | docs/handoff/sql/booknow_mcp_service_phase7_twilio.sql:184-190 | A step that changes a table commits a first answer, and the event it writes holds that answer |
| `ReplyTheorems.AppliedAreRecorded` | docs/handoff/sql/booknow_mcp_service_phase7_twilio.sql:169-181 | For each appointment and kind of reply, as many recorded responses as calls that applied one, and as many as applied events, those that were purged included |
| `ReplyTheorems.ReplyLifecycle` | docs/handoff/sql/booknow_mcp_service_phase7_twilio.sql:144-167 | An appointment no other writer changes takes at most a confirmation and then a cancellation, and its status is that of the last one applied |
| `ReplyTheorems.CallsMoveForward` | docs/handoff/sql/booknow_mcp_service_phase7_twilio.sql:144-167 | Whoever else writes, a reply moves its own appointment only, only from pending, confirmed or a null status, never back, and only before it starts |
| `ReplyTheorems.CancelledStays` | docs/handoff/sql/booknow_mcp_service_phase7_twilio.sql:147-152 | A cancelled appointment never returns unless another writer changes it |
| `ReplyTheorems.ResponsesDoNotNotify` | docs/handoff/sql/booknow_mcp_service_phase7_twilio.sql:117-129 | Recorded responses count for nothing when looking for a notification |
| `ReplyTheorems.WindowCloses` | docs/handoff/sql/booknow_mcp_service_phase7_twilio.sql:126-131 | A call that begins a window after its customer was last told about the appointment is not applied, whatever replies are applied and whatever else is sent meanwhile |
| `ReplyLiveness.NoDeadlock` | docs/handoff/sql/booknow_mcp_service_phase7_twilio.sql:97-139 | In every state with an unfinished call some call can take its next step |
| `ReplyLiveness.BoundedWork` | docs/handoff/sql/booknow_mcp_service_phase7_twilio.sql:62-199 | A run in which no further call begins takes at most four steps for each unfinished one |
| `ReplyLiveness.AllCallsFinish` | docs/handoff/sql/booknow_mcp_service_phase7_twilio.sql:62-199 | From every state at most that many steps, of the calls alone and without a roll-back, lead to one in which all of them have finished |
| `ReplyDatabase.CallAloneIsRun` | docs/handoff/sql/booknow_mcp_service_phase7_twilio.sql:62-199 | A call that meets no other one is a run of the protocol |
| `ReplyDatabase.CallDecides` | docs/handoff/sql/booknow_mcp_service_phase7_twilio.sql:85-198 | The decision table of a call: invalid arguments, known message, missing appointment, outcome without and with a change of the appointment |
| `ReplyDatabase.CallIsFollowed` | docs/handoff/sql/booknow_mcp_service_phase7_twilio.sql:62-198 | What a call by itself does to the stored rows: errors, duplicates and a missing appointment change nothing; every other message is recorded with the outcome that the rows call for, and an applied one changes the status and adds a response |
| `ReplyDatabase.RedeliveryIsSilent` | docs/handoff/sql/booknow_mcp_service_phase7_twilio.sql:59-59 | After any run in which its event is not purged, delivering an answered message again returns the same outcome and changes no table; with invalid arguments it is refused, as every call is, and changes none either |
| `ReplyDatabase.Database.ApplyReply` | docs/handoff/sql/booknow_mcp_service_phase7_twilio.sql:62-199 | The function, changing the tables in place, has the answer and the effect of the protocol run by itself |
| `ReplyDatabase.Database.Purge` | docs/handoff/sql/booknow_mcp_service_phase7_twilio.sql:247-263 | Deletes exactly the events received more than 30 days ago, keeps all others as they are, and counts them |
| `RateLimit.Limiter.Sweep` | internal/platform/ratelimit/ratelimit.go:72-84 | The loop forgets exactly the keys idle for longer than ten minutes, if a minute has passed since the last sweep |
| `RateLimit.Limiter.Allow` | internal/platform/ratelimit/ratelimit.go:46-70 | Sweep, look up or create, reserve or cancel: the new memory and the answer are those of `Allowed` |
| `RateLimitTheorems.ConfiguredIsWorkable` | internal/platform/ratelimit/ratelimit.go:56-56 | Every limit from 1 to 10000 per minute fills a bucket within a minute, which is less than the idle time |
| `RateLimitTheorems.ForgettingIsInvisible` | internal/platform/ratelimit/ratelimit.go:72-84 | For every limit whose bucket fills within a minute and every run in clock order, the limiter that sweeps answers exactly as one that never forgets a key, delays included |
| `RateLimitTheorems.MemoryBounded` | internal/platform/ratelimit/ratelimit.go:14-17 | After any run the keys in memory are those seen in the last eleven minutes at most |
| `RateLimitTheorems.WindowBound` | internal/platform/ratelimit/ratelimit.go:35-36 | In any window of any run, at most perMinute calls of a key, and one more for each whole period, are let through |
| `RateLimitTheorems.MinuteBound` | internal/platform/ratelimit/ratelimit.go:20-20 | In any minute at most twice the limit is let through |
| `RateLimitTheorems.RejectedOnlyWhenUsed` | internal/platform/ratelimit/ratelimit.go:35-36 | A call is rejected only if perMinute calls of its key were let through in the perMinute periods up to it, at most a minute |
| `RateLimitTheorems.FirstCallsPass` | internal/platform/ratelimit/ratelimit.go:35-36 | The first perMinute calls of a key are all let through, whatever other keys do |
| `RateLimitTheorems.RejectedIsInvisible` | internal/platform/ratelimit/ratelimit.go:44-66 | In any run of the limiter that forgets, leaving out a rejected call changes no other answer to any key, although it counts as seen and may sweep |
| `RateLimitTheorems.DelayIsExact` | internal/platform/ratelimit/ratelimit.go:62-67 | In any run of the limiter that forgets, the next call is let through if and only if the delay announced to the rejected one has passed, as long as no other one of the key is |
| `RateLimitTheorems.RetryAfterSuffices` | internal/httpapi/mcp_usage.go:70-73 | Waiting the rounded-up seconds of Retry-After suffices, and no smaller whole number of seconds does |
| `UsageThrottle.Throttle.Due` | internal/httpapi/mcp_usage.go:43-63 | The map after the pruning loop and the answer are those of `Asked` |
| `UsageThrottle.ForgettingIsInvisible` | internal/httpapi/mcp_usage.go:53-58 | On every run in clock order the throttle that prunes answers exactly as one that never forgets a connection |
| `UsageThrottle.RecordedExactlyWhenDue` | internal/httpapi/mcp_usage.go:16-17 | A use is recorded if and only if none of its connection was recorded less than a minute before, so recorded uses are at least a minute apart |
| `UsageThrottle.OnlyRecentKept` | internal/httpapi/mcp_usage.go:53-60 | After any run the map holds exactly the connections of which a use was recorded in the minute up to the last recorded one |
| `LikePattern.Escape` | internal/application/business/service.go:488-490 | The single pass of the replacer computes `EscapeLike` |
| `LikePattern.SearchIsLiteral` | internal/application/business/service.go:196-199 | The pattern matches a text under LIKE with escape character backslash if and only if the query occurs in it, apart from case, whatever wildcards it contains |
| `LikePattern.SearchIsWellFormed` | internal/application/business/service.go:488-490 | No query makes a pattern with a dangling escape character |
| `LikePattern.DigitSearchIsLiteral` | internal/repository/postgres/business.go:231-231 | The phone pattern, made of digits only, is literal without escaping |

## Left out

- Real time zones and daylight saving: a branch has a fixed offset and a day has 24 hours.
- Parsing of clocks, dates, opening-hours documents and UUIDs: the model starts from parsed offsets, day numbers and
  hours, where an absent value stands for a text that does not parse.
- The order of schedule exceptions: the query has none, so the model takes the order of the table; which special
  hours win depends on it.
- Table constraints are assumed: buffers are not negative and no appointment ends before it starts. For a range
  that does, PostgreSQL raises an error that the model does not have.
- Row identifiers are commit-order numbers, and rows of drafts and appointments are never deleted.
- `hashtextextended` is replaced by another 64-bit hash; no proof depends on which.
- `DraftProtocol.CreateAdvance`: reads the customer, the variant and the slot check in one step, because their order
  relative to other writers matters to no property here; the database reads them one after another.
- `DraftProtocol.Advance`: other writers change appointments of other sources as they like, but never reschedule one of source mcp or make one active again, and do not take the advisory lock.
- The columns of appointments and drafts that no decision reads: price, currency, notes and service rows.
- A draft stored with status expired is treated as any other closed draft; only the wording of the error differs.
- DraftDatabase.Database.Create: runs on tables that no other call changes meanwhile, and catalog, customers and variants are fixed for the
  object; in the protocol all of them change between its statements.
- `ReplyProtocol.Advance`: masked and destination phone numbers, the format check of message ids, the tenant's foreign key and the locks that
  foreign keys take are not modelled.
- The buckets of the limiter are values in its map; that a bucket is a shared object which its caller updates is not
  captured, as nothing keeps a reference to one.
- The token bucket of `golang.org/x/time/rate` counts tokens in floating point; the model has an exact bucket.
- The service's clock may say anything at each step and the database's never goes back; one slot check reads the
  service's clock once, where the program reads it three times.
- An appointment with a null status counts as inactive for slots and confirmations, as it does in their queries, and
  has no status of its own there.
- Both limiters read the clock before they take their lock; their runs are assumed to be in clock order.
- LikePattern.SearchIsLiteral: case folding is a function of one character, as a parameter; locale rules that fold several characters together are not captured.
- Routing, tool registration, tokens and signatures, tenant resolution, masking, pagination, summaries, prices and
  logging: each is settled by reading one branch list or depends on libraries outside the repository.
