# Verified model of the Punctual scheduling engine

Punctual is a scheduling engine: hosts publish availability, guests book slots, and
the engine claims that a double booking is impossible by construction. This project
models the parts that claim rests on and proves them.

* **Interval algebra and time** (`Intervals`, `Buckets`, `Zone`, `LocalDays`). Lists of
  half-open intervals denote sets of instants; five-minute buckets discretise them; a
  time zone is an arbitrary offset function from instants to milliseconds, and wall
  clocks resolve against it by the engine's two-candidate rule and bisection.
* **The slot engine and its arbiter** (`SlotEngine`, `SlotLaws`, `ListingAgreement`,
  `SlotGrid`, `RoundTheClock`, `ClippedRuns`, `ClockChange`, `DailyCap`, `CapLaws`). What
  `computeSlots` lists, what `isSlotStillValid` accepts, what both mean in an event type's
  own minutes, days and bookings, why they agree although they read different date ranges,
  and when the grid does not depend on who asks.
* **The booking write path** (`Domain`, `RoundRobin`, `RotationShare`, `BookingService`,
  `BookingLaws`, `OfferCommit`, `Store`, `Coordinator`). Preparing a booking, choosing a round-robin host, the atomic
  batches over `bookings` and `slot_locks`, and one whole request with any of its calls
  failing.
* **Protocols over whole runs** (`Protocol`, `Rescheduling`, `Replays`, `ReplayRun`,
  `Idempotency`, `Leases`, `LeaseWalk`, `HostCalendar`). Transition systems in which
  attempts with stale snapshots interleave; their invariants give no double booking, no
  orphaned replacement, one booking per key within a day of its request, and leases that
  exclude without deadlock.
* **Calendar invitations** (`IcsChain`, `Invitations`, `InviteReplays`, `UntoldRun`,
  `IcsText`, `IcsDocument`, `IcsReader`). One UID and strictly ordered SEQUENCE numbers over reschedule
  chains (sections 3.8.4.7 and 3.8.7.4 of RFC 5545, section 3.2.5 of RFC 5546), and text
  that escapes, folds and reads back (sections 3.1 and 3.3.11 of RFC 5545).
* **Smaller machines and formats** (`RateLimiter`, `WindowText`, `QuestionText`).

`Common` and `Text` hold constants, sorts and the runtime's string operations.

## How it is built

Code that updates variables, objects or tables is a method or a class with the loops
and fields of the source. Its contract ties it to a specification function, and the
lemmas prove what that function means: `SlotLaws`, `CapLaws`, `BookingLaws`,
`RotationShare` and `IcsReader` state it without naming the function's parts. `Db` in `Store` is the value of the tables: the
class `Repository` is proved against functions on it, `Protocol` runs those functions as
steps, and `Coordinator` and `LeaseWalk` prove that one imperative request is a run of
`Protocol`, of the key machine in `Idempotency` and of the lease machine in `Leases`.

Preconditions come from the request validators (src/http/api/rest.ts lines 323-345 and
364-371): durations, steps, buffers and windows are multiples of five minutes within their
limits, caps are at least one, host ids are distinct. A zone's offsets lie between -12 and
+14 hours in whole seconds; `Regular` zones have whole-minute offsets and transitions at
least two days apart, and lemmas that need this say so.

## Findings

* **A replayed reschedule can cancel the live replacement.** When a second reschedule
  request with the first one's idempotency key is answered with the first one's
  replacement, whichever of the two routes loses the mark rolls that shared replacement
  back, and the original stays moved to a cancelled booking. `ReplayRun` builds such a run
  from an empty database for either order of the marks, and `Replays.BothHoldersLose` shows
  that two holders always end with neither booking confirmed. The exact condition is
  `Replays.RollBackHarmsIff`: a roll-back cancels a live replacement if and only if the
  booking rolled back is still confirmed and an earlier mark for it won; a route can see it
  before rolling back in the original it failed to mark (`Replays.OwnOriginalTells`). Where
  no replay answers a reschedule route it cannot happen, whatever else does
  (`Replays.RollBackSparesReplacements`). The request hash (src/adapters/coordinator.ts
  lines 52-54) leaves out which booking is being moved, so a replay may even hand a
  reschedule route a booking made for no reschedule; `Replays.LateReplayCancels` covers
  that.
* **The guest of such a booking is never told.** While replays stay with their original no
  two invitations with one UID share a SEQUENCE (`InviteReplays.DistinctDespiteReplays`),
  but every message a state calls for is owed or sent if and only if no roll-back before
  cancelled a live replacement (`InviteReplays.EverythingToldIff`); `UntoldRun` builds a run
  from an empty database that ends without its CANCEL. A booking made for no reschedule and
  replayed into one gets its old REQUEST a second time (`InviteReplays.PlainReplayRepeats`).
* **UID and SEQUENCE are exact up to 21 reschedules and never beyond**, because the chain
  loader stops at twenty rows (`IcsChain.LoadedChainIsExactIff`). SEQUENCEs stay distinct
  beyond that, under a UID that moves along the chain (`Invitations.SequencesAreDistinct`).
* **A key's reservations can be closer than a day.** The 24 hours run from when the first
  attempt captured its clock, so they are certain between the reservations exactly when the
  first was won without delay (`Idempotency.ADayApartIff`).
* **The rate limiter keeps to its rate exactly for windows up to an hour.** The hourly sweep
  forgets buckets that are not full yet when the window is longer: the whole limit, a sweep
  an hour and a millisecond later and the whole limit again all pass, more than the limit
  plus what was refilled (`RateLimiter.RateHoldsIff`); the answers themselves show the sweep
  exactly then (`RateLimiter.SweepsAreInvisibleIff`).
* **Day ranges and local dates agree exactly when no repeated stretch of local time
  contains a midnight** (`LocalDays.DayRangeIsLocalDateIff`). Where clocks turn back from
  0:30 to 23:30 they differ, and so do the cap counts at listing and at commit
  (`LocalDays.TurnedBackDaysDiffer`, `DailyCap.TurnedBackCountsDiffer`).
* **A schedule that never closes has no grid of its own.** Overlapping queries agree about
  it if and only if the step divides a day and the meeting with its trailing buffer is at
  most a step longer than a day, counted from the first bucket after local midnight
  (`RoundTheClock.RoundTheClockAgreesIff`). For any other valid schedule with one offset the
  condition is on the covered run of the start (`ClippedRuns.AgreeAtIff`).
* **On a day of 25 hours the grid depends on who asks.** A query counts 24 hours back to
  find the first date it loads, so late on such a day it stays on that day. With windows on
  Saturday 22:00-24:00 and Sunday 0:00-23:45 a query from Saturday and one from Sunday 23:30
  disagree about 23:40 (`ClockChange.LongDayMovesGrid`). Breaks no further away than the
  local dates 24 hours before and after the start rule it out (`ClockChange.NearBreaksAgree`).

## Model

| member | source | states |
|---|---|---|
| Intervals.MergeIntervals | src/core/slots/intervals.ts:11-29 | the result covers exactly the instants the input covers; for non-empty intervals it is sorted with uncovered time between neighbours |
| Intervals.SubtractIntervals | src/core/slots/intervals.ts:50-68 | the result covers exactly the instants of the base that the busy list leaves, in normal form |
| Intervals.FreePieces | src/core/slots/intervals.ts:55-66 | one free interval minus sorted busy time: exactly the instants left over, inside the interval, in normal form |
| Intervals.IntersectIntervals | src/core/slots/intervals.ts:71-87 | the result covers exactly the instants both lists cover, always in normal form |
| Intervals.IntersectAll | src/core/slots/intervals.ts:90-97 | the result covers the instants every list covers, none at all for no lists |
| Intervals.OverlapsAny | src/core/slots/intervals.ts:37-39 | true exactly when some interval of the list overlaps the given one |
| Intervals.MembersAreMaximal | src/core/slots/intervals.ts:11-29 | an interval is in a normal form exactly when it is a maximal run of the instants denoted |
| Intervals.NormalFormUnique | src/core/slots/intervals.ts:11-29 | two normal forms of the same instants are equal, so order and repetition of the input cannot matter |
| Intervals.RunInsideOneWindow | src/core/slots/intervals.ts:42-44 | a stretch covered instant by instant lies inside a single window of the normal form |
| Buckets.IntervalToBuckets | src/core/slots/intervals.ts:121-128 | the loop collects the consecutive five-minute buckets specified by `BucketsOf` |
| Buckets.ClaimedIffMet | src/core/slots/intervals.ts:121-128 | a bucket is claimed exactly when it is on the grid and shares an instant with the interval; none is claimed twice |
| Buckets.SharedBucketIffOverlap | src/core/slots/intervals.ts:112-128 | overlapping intervals share a bucket; grid-aligned ones share one only when they overlap |
| Buckets.BucketsToIntervals | src/core/slots/intervals.ts:131-150 | buckets in any order with repeats become the normal form of the instants they cover |
| Buckets.BucketsRoundTrip | src/core/slots/intervals.ts:121-150 | to buckets and back, shuffled and repeated, gives the five-minute hull, and the interval itself when it is aligned |
| Zone.OffsetAtIsOffset | src/core/time/zone.ts:81-87 | reading the wall clock back as UTC and subtracting the instant recovers the offset |
| Zone.FindTransition | src/core/time/zone.ts:143-154 | the bisection loop terminates and computes the recursive bisection |
| Zone.BisectFindsTransition | src/core/time/zone.ts:143-154 | a bracket of whole minutes around one transition ends at the transition itself |
| Zone.ResolveWallClock | src/core/time/zone.ts:107-129 | the two-candidate method computes the resolution the lemmas below are about |
| Zone.ClassifyCandidates | src/core/time/zone.ts:107-129 | collecting, sorting and counting the candidates that read back decides as the earlier and later candidate do |
| Zone.ResolutionIsSound | src/core/time/zone.ts:107-129 | for every zone, reported occurrences really show the wall clock, in order |
| Zone.ResolutionIsExact | src/core/time/zone.ts:107-154 | with at most one whole-minute transition within a day, normal, ambiguous or gap is answered exactly when one, two or no instants show the wall clock; a whole-minute gap resolves to the transition that skips it |
| Zone.ResolutionBounds | src/core/time/zone.ts:167-177 | the resolved instant is within the offset bounds of the wall clock, whatever the zone does |
| Zone.RuleIsFirstReach | src/core/time/zone.ts:167-177 | the rule for gaps and repeats picks the first instant at which the clock shows the target or later |
| Zone.ResolutionIsMonotone | src/core/time/zone.ts:167-177 | later wall clocks never resolve to earlier instants, across any transition |
| LocalDays.LocalDatesBetween | src/core/time/zone.ts:210-231 | every local date from the first to the last once in order, or the refusal beyond 800 dates |
| LocalDays.LocalTimeBounds | src/core/time/zone.ts:248-265 | a local time of day lies within the offset bounds of its date |
| LocalDays.EndOfDayIsNextMidnight | src/core/time/zone.ts:248-265 | minute 1440 of a day is minute 0 of the next |
| LocalDays.LocalTimeIsMonotone | src/core/time/zone.ts:248-265 | times of day never invert across daylight-saving changes |
| LocalDays.DayRangesTile | src/engine.ts:210-218 | day ranges meet end to start without inverting and each instant lies in exactly one |
| LocalDays.DayRangeIsLocalDateIff | src/engine.ts:173-182 | lying in a day's range and having that local date agree for all days and instants if and only if no repeated stretch of local time strictly contains a midnight |
| LocalDays.TurnedBackDaysDiffer | src/engine.ts:173-182 | there are zones where they differ: clocks turned back from 0:30 to 23:30 leave an instant in the range of one day with the local date of the day before |
| SlotEngine.WindowsOfDate | src/core/slots/engine.ts:85-114 | the windows of one date, overrides and inverted windows considered, cover exactly the schedule's free instants of that date |
| SlotEngine.WindowsOfDates | src/core/slots/engine.ts:85-114 | the same over a list of dates |
| SlotEngine.FreeIntervalsForHost | src/core/slots/engine.ts:85-114 | the normal form of the schedule's free time over the loaded dates, or the range refusal |
| SlotEngine.CandidatesInWindow | src/core/slots/engine.ts:124-153 | exactly the starts on the window's own grid whose buffered footprint fits, strictly increasing |
| SlotEngine.CandidateOnGrid | src/core/slots/engine.ts:124-153 | with validated step and duration every candidate is on the five-minute grid |
| SlotEngine.FreeByHost | src/core/slots/engine.ts:156-162 | each host's free time in query order |
| SlotEngine.FilterForHost | src/core/slots/engine.ts:223-237 | keeps exactly the candidates in range, within notice and horizon, under the cap and clear of busy time, each of which `SlotLaws` and `CapLaws` put in raw minutes, days and bookings |
| SlotEngine.StartsForHost | src/core/slots/engine.ts:216-237 | exactly the starts a host offers, stated on maximal free runs rather than on the window list |
| SlotEngine.AddHost | src/core/slots/engine.ts:238-249 | each of the host's starts gains the host once and no other start changes |
| SlotEngine.CollectHost | src/core/slots/engine.ts:216-252 | the map by start holds, per start, the offering hosts so far in query order |
| SlotEngine.PerHostSlots | src/core/slots/engine.ts:216-254 | the complete personal or round-robin listing |
| SlotEngine.AllHostsTake | src/core/slots/engine.ts:258-269 | true exactly when every host is under its cap, in the sense of `CapLaws.BelowCapIff`, and clear |
| SlotEngine.CollectiveStarts | src/core/slots/engine.ts:187-214 | exactly the starts on the grid of the common free time that every host can take |
| SlotEngine.DedupeByStart | src/core/slots/engine.ts:271-275 | one slot per start, sorted, none lost |
| SlotEngine.CollectiveSlots | src/core/slots/engine.ts:187-214 | the complete collective listing |
| SlotEngine.ComputeSlots | src/core/slots/engine.ts:171-255 | every offered start appears once, in order, with exactly its eligible hosts, and nothing else appears; `SlotLaws.ListingMeans` says what that comes to |
| SlotEngine.SomeContains | src/core/slots/engine.ts:335-336 | for windows in normal form, one window contains the footprint exactly when every instant of it is covered |
| SlotEngine.IsSlotStillValid | src/core/slots/engine.ts:303-338 | accepts exactly the aligned starts within policy and cap whose footprint is free instant by instant and clear of busy time; `SlotLaws.AcceptedIff` says what that comes to |
| SlotLaws.WindowsAreOpen | src/core/slots/engine.ts:85-114 | the windows of a date are those of its last override, else of its weekday |
| SlotLaws.FreeIsScheduled | src/core/slots/engine.ts:85-114 | an instant is free exactly when an open window of some date covers it, its ends read as wall clocks |
| SlotLaws.ScheduledByReach | src/core/slots/engine.ts:85-114 | in a regular zone that is when the clock has reached the window's start and not yet its end |
| SlotLaws.AcceptedIff | src/core/slots/engine.ts:303-338 | a host accepts a start if and only if it is on the five-minute grid, within the notice in minutes and the horizon in days, below the cap, and every instant of the meeting and its buffers is scheduled and not busy |
| SlotLaws.CandidateIsOnGrid | src/core/slots/engine.ts:124-153 | candidates are the starts a whole number of steps, the interval or else the duration, after the window's first five-minute mark that fit with their buffers |
| SlotLaws.FreeIsScheduledFor | src/core/slots/engine.ts:74-114 | a query sees what is scheduled on the dates from a day before it to a day after |
| SlotLaws.OfferedIff | src/core/slots/engine.ts:216-237 | what a listing offers of one host, in the same raw terms |
| SlotLaws.AllOfferedIff | src/core/slots/engine.ts:187-214 | and of all hosts of a collective event together |
| SlotLaws.EligibleIff | src/core/slots/engine.ts:171-255 | who a start is listed for |
| SlotLaws.ListingMeans | src/core/slots/engine.ts:171-275 | a listing has each start once, in order, ending after the event type's minutes, with exactly those hosts in query order, and leaves none out |
| CapLaws.ListedCount | src/engine.ts:163-183 | the counts of a listing are numbers of confirmed bookings of the host, as rows of the table, that start on the date and touch the range |
| CapLaws.CommitCount | src/adapters/d1/repositories.ts:387-408 | the count of a commit is the number of those that start in the range of the day |
| CapLaws.OfferedWithinCap | src/core/slots/engine.ts:223-237 | a start is offered exactly when it would be without a cap and fewer bookings than the cap start on its day |
| CapLaws.AllOfferedWithinCap | src/core/slots/engine.ts:258-269 | no start of a collective listing is offered on a day some host has reached the cap |
| CapLaws.AcceptedWithinCap | src/core/slots/engine.ts:303-338 | a start is accepted exactly when it would be without a cap and fewer bookings than the cap start in its day's range |
| CapLaws.DayHoldsItsDate | src/engine.ts:210-218 | where no midnight repeats those are the bookings of its local date |
| ListingAgreement.CoveringDateBounds | src/core/slots/engine.ts:85-114 | a date whose windows cover an instant is within the offset bounds of it |
| ListingAgreement.ProbeSeesWholeSchedule | src/core/slots/engine.ts:326-336 | the narrow range read at commit time loads every date that can cover the footprint |
| ListingAgreement.OfferIsValid | src/core/slots/engine.ts:280-338 | a start gridded in free time and passing a host's filters is accepted for that host at commit |
| ListingAgreement.ListedSlotIsValid | src/core/slots/engine.ts:171-338 | every listed slot passes the re-check for every host it is listed for, for any offset function, although the two read different date ranges |
| SlotGrid.GriddedIsLocal | src/core/slots/engine.ts:134-152 | between two uncovered instants the grid depends on nothing outside them |
| SlotGrid.NearbyDaysAreLoaded | src/core/slots/engine.ts:85-114 | a query sees the whole schedule of the days beside each start it covers |
| SlotGrid.OffersDoNotDependOnRange | src/core/slots/engine.ts:74-113 | with one offset and a break in every local day, a host's offers agree wherever two query ranges overlap |
| SlotGrid.ListingsAgreeOnOverlap | src/core/slots/engine.ts:171-255 | two listings give every start they share to the same hosts, collective events included |
| ClippedRuns.FreeIsClipped | src/core/slots/engine.ts:74-114 | with one offset a query sees exactly the part of any valid schedule that lies in the local days it loads |
| ClippedRuns.RunExists | src/core/slots/engine.ts:85-114 | around every covered start there is a covered run as far as queries can look |
| ClippedRuns.GriddedIsClipped | src/core/slots/engine.ts:124-153 | a start is gridded for a query exactly as a candidate of its covered run clipped to the loaded days |
| ClippedRuns.AgreeAtIff | src/core/slots/engine.ts:74-153 | for every valid schedule with one offset and every covered start, all loadable queries agree about it if and only if clipping its run to loaded days never changes whether the start is on the grid and fits |
| ClippedRuns.WholeRunsAgree | src/core/slots/engine.ts:74-153 | two queries that both load the whole run agree about each of its starts |
| ClippedRuns.NearbyRunsAgree | src/core/slots/engine.ts:74-153 | all queries agree about a start whose run stays within the local days next to its own, whatever the rest of the schedule does |
| ClockChange.WindowsLieInDay | src/core/slots/engine.ts:85-114 | in a regular zone the windows of a date lie in the range of that date |
| ClockChange.LoadedBreaksAgree | src/core/slots/engine.ts:74-153 | in any regular zone two queries agree about a start between two uncovered instants if both load every date from the first's day to the second's |
| ClockChange.NearBreaksAgree | src/core/slots/engine.ts:74-153 | where no midnight repeats, all loadable queries agree about a start with breaks no earlier than the local date 24 hours before it and no later than that 24 hours after, across any change of clocks |
| ClockChange.OffersAgreeNearBreaks | src/core/slots/engine.ts:216-254 | under that condition whole offers agree, all filters included |
| ClockChange.LongDayMovesGrid | src/core/slots/engine.ts:74-153 | a break in every local day is not enough: on a Sunday of 25 hours two loadable queries disagree about a start both cover |
| RoundTheClock.FreeIsLoadedTime | src/core/slots/engine.ts:85-114 | a schedule that never closes leaves one window, from local midnight a day before the query to the one two days after its end |
| RoundTheClock.LaterDaySameGrid | src/core/slots/engine.ts:134-152 | when the step divides a day every local midnight anchors the same grid |
| RoundTheClock.LastOneFits | src/core/slots/engine.ts:134-152 | then, with a footprint at most a step longer than a day, the last gridded start before the end of a query is never cut off |
| RoundTheClock.DifferentAnchors | src/core/slots/engine.ts:74-113 | when the step does not divide a day, two loadable queries disagree about a start both cover |
| RoundTheClock.CutOffAtTheEnd | src/core/slots/engine.ts:134-152 | when the footprint is longer, two loadable queries disagree about the last start before the end of one of them |
| RoundTheClock.RoundTheClockAgreesIff | src/core/slots/engine.ts:74-113 | for every schedule that never closes and every constant offset, all loadable queries agree about all starts they share if and only if the step divides a day and duration plus trailing buffer plus the drift of the first bucket behind midnight is at most a day plus a step |
| RoundTheClock.OffersAgree | src/core/slots/engine.ts:216-254 | under that condition whole offers agree, all filters included |
| RoundTheClock.AlwaysOpenNeverCloses | src/core/slots/engine.ts:85-114 | seven windows from 0:00 to 24:00 are such a schedule, at every offset |
| DailyCap.PerDayCounts | src/engine.ts:163-183 | each local date is mapped to the number of listed bookings that start on it |
| DailyCap.CapCountsAgree | src/adapters/d1/repositories.ts:387-408 | the listing never counts more than the commit, and counts the same once its range covers the day, when no repeated stretch contains a midnight |
| DailyCap.TurnedBackCountsDiffer | src/adapters/d1/repositories.ts:387-408 | in that zone a booking at the turn is counted for one day by the listing and for the next by the commit |
| RoundRobin.PickRoundRobinHost | src/core/domain/booking-service.ts:85-107 | the loop picks the best-scoring host in ascending id order, the one `RotationShare.ChosenIffMostDue` characterises |
| RoundRobin.ChoiceIsMaximal | src/core/domain/booking-service.ts:85-107 | the choice is an eligible host of highest score, of least id among equals |
| RoundRobin.NobodyStarves | src/core/domain/booking-service.ts:85-107 | with one pick per tick, n hosts and weights up to W, a host of weight w is picked within ceil(n*W/w)+n-1 ticks |
| RoundRobin.SameHostNotSoon | src/core/domain/booking-service.ts:85-107 | with equal weights a host is not picked again before every other one was |
| RoundRobin.FairRotation | src/core/domain/booking-service.ts:85-107 | with equal weights any n consecutive picks are a permutation of the hosts |
| RotationShare.ChosenIffMostDue | src/core/domain/booking-service.ts:85-107 | the host chosen is the one whose time since its last assignment times its weight is largest, of least id among equals |
| RotationShare.HeavierPickedBetween | src/core/domain/booking-service.ts:85-107 | among any hosts at any increasing times, between two picks of a host every host of at least its weight is picked |
| RotationShare.HeavierNeverFarBehind | src/core/domain/booking-service.ts:85-107 | so over any stretch a host is picked at most once more than one of at least its weight |
| RotationShare.TwoHostsShare | src/core/domain/booking-service.ts:70-84 | two hosts with one pick a tick fall into cycles with one pick of the lighter and all others of the heavier |
| RotationShare.ShareFollowsWeights | src/core/domain/booking-service.ts:70-84 | the heavier one's picks per cycle are the ratio of the weights, rounded |
| RotationShare.CycleExists | src/core/domain/booking-service.ts:70-84 | there is such a cycle for all weights |
| Domain.ClaimsMembers | src/core/domain/booking-service.ts:190-196 | a claim is written exactly for each participating host and each bucket |
| Domain.ClaimsAreDistinct | src/core/domain/booking-service.ts:190-196 | a batch never collides with itself |
| BookingService.PrepareBooking | src/core/domain/booking-service.ts:136-223 | the outcome specified by `Prepare`, in every branch, errors included; `BookingLaws` says what it is in terms of the request |
| BookingService.ChooseParticipants | src/core/domain/booking-service.ts:143-185 | the participants specified by `Participating`, or the refusal; `BookingLaws.RightParticipants` and `BookingLaws.AnswerIff` say who they are and why |
| BookingService.ChooseRoundRobin | src/core/domain/booking-service.ts:162-178 | the rotation's choice among the accepting hosts, or the reason there is none |
| BookingService.FindRefusing | src/core/domain/booking-service.ts:156-161 | the first refusing host of a collective event |
| BookingService.BuildWrite | src/core/domain/booking-service.ts:187-222 | the booking row and its claims, host by host and bucket by bucket |
| BookingService.ReasonFor | src/core/domain/booking-service.ts:119-128 | slot taken exactly when the footprint hits busy time |
| BookingService.ParticipantsAccept | src/core/domain/booking-service.ts:136-223 | every participant is a requested host that accepts the slot, participants are distinct, and there is at least one |
| BookingService.PreparedClaims | src/core/domain/booking-service.ts:187-222 | a prepared booking claims exactly each host's buckets of its aligned footprint, once each, and starts no earlier than now |
| BookingLaws.TakesIff | src/core/domain/booking-service.ts:156-185 | a host accepts exactly when it can take the slot in the event type's own minutes and days |
| BookingLaws.AnswerIff | src/core/domain/booking-service.ts:136-185 | a request is prepared if and only if it can be, and each of the four refusals is given if and only if its cause is there, by scheduling type |
| BookingLaws.RightParticipants | src/core/domain/booking-service.ts:143-185 | all requested hosts of a collective event in order, the accepting host most due of a round-robin event, else the first host, each accepting |
| BookingLaws.RightBooking | src/core/domain/booking-service.ts:187-222 | every field of the booking, its end after the event type's minutes, and exactly the five-minute rows of its hosts that touch meeting or buffers |
| OfferCommit.CombineBusy | src/core/domain/booking-service.ts:232-241 | external intervals followed by the five-minute intervals of own and held buckets |
| OfferCommit.CombinedHits | src/core/domain/booking-service.ts:232-241 | combined busy time is hit exactly when one of its three sources is |
| OfferCommit.FootprintInBusyRange | src/engine.ts:62-78 | the widened busy range contains the footprint of every start in the query range, on the grid or not |
| OfferCommit.StaysClear | src/engine.ts:62-83 | a host clear in the listing is clear at commit when nothing was added in between, its own hold left out |
| OfferCommit.ClearIffNothingThere | src/engine.ts:62-118 | a host is clear if and only if none of its lock rows, of other people's unexpired holds or of its external events touches the meeting or its buffers |
| OfferCommit.OfferedHostAccepts | src/core/slots/engine.ts:280-284 | each offered host accepts the booking request |
| OfferCommit.OfferedSlotPrepares | src/core/domain/booking-service.ts:136-223 | preparation accepts every offered slot |
| OfferCommit.OfferedSlotCommits | src/core/slots/engine.ts:280-284 | an offered slot is prepared and the batch that writes it succeeds while the lock table is unchanged |
| Store.Repository.constructor | src/adapters/d1/repositories.ts:421-458 | a repository starts with empty tables |
| Store.StageClaims | src/adapters/d1/repositories.ts:441-458 | staging the inserts succeeds exactly when the claims are new and distinct, adding exactly them |
| Store.Repository.CreateWithLocks | src/adapters/d1/repositories.ts:421-458 | the row and every claim are written, or nothing at all changes on a primary-key conflict |
| Store.Repository.CancelWithLockRelease | src/adapters/d1/repositories.ts:471-486 | a confirmed booking becomes cancelled; its lock rows go unconditionally; the answer says which happened |
| Store.Repository.MarkRescheduled | src/adapters/d1/repositories.ts:488-503 | a confirmed booking becomes rescheduled to the new one; its lock rows go unconditionally |
| Store.Repository.BusyBuckets | src/adapters/d1/repositories.ts:522-533 | the lock rows of the hosts in the range |
| Store.Repository.PruneLocksBefore | src/adapters/d1/repositories.ts:585-588 | exactly the rows before the cutoff go, and their number is returned |
| Store.CreateKeepsIndex | src/adapters/d1/repositories.ts:421-458 | the batch keeps the lock table an exact index of confirmed bookings |
| Store.CancelKeepsIndex | src/adapters/d1/repositories.ts:471-486 | so does cancelling, and on an unconfirmed booking the unconditional DELETE changes nothing |
| Store.MarkKeepsIndex | src/adapters/d1/repositories.ts:488-503 | so does marking, with the same remark |
| Store.PruneKeepsIndex | src/adapters/d1/repositories.ts:585-588 | so does pruning, from the cutoff on |
| Store.BusyRowsAreOccupied | src/adapters/d1/repositories.ts:522-533 | from the prune cutoff on, reading the lock table equals scanning confirmed bookings |
| Store.CommitIffNoConflict | src/adapters/d1/repositories.ts:421-458 | the batch for a fresh booking succeeds if and only if no confirmed booking of a shared host overlaps its footprint |
| Store.CreateKeepsApart | src/adapters/d1/repositories.ts:421-458 | a successful batch keeps confirmed bookings of one host apart |
| Store.CancelMeans | src/adapters/d1/repositories.ts:471-486 | cancelling changes status and time of that booking alone and removes exactly its rows |
| Store.MarkMeans | src/adapters/d1/repositories.ts:488-503 | moving changes status and target of that booking alone and removes exactly its rows |
| Store.CancelFreesTheTime | src/adapters/d1/repositories.ts:471-486 | after a cancellation a booking can be written exactly when no other booking conflicts with it |
| Store.PruneMeans | src/adapters/d1/repositories.ts:585-588 | pruning removes exactly the rows of buckets before the cutoff |
| Protocol.FreshFootprintAfterCutoff | src/adapters/scheduled.ts:45-54 | the seven-day trail keeps the cutoff below every footprint still to be committed |
| Protocol.StepKeepsInv | src/adapters/coordinator.ts:129-198 | every step, from whatever stale snapshot, keeps the lock index and the separation of bookings |
| Protocol.RunKeepsInv | src/adapters/coordinator.ts:129-198 | so does every run |
| Protocol.NeverDoubleBooked | src/adapters/d1/repositories.ts:421-503 | in every state of every interleaving of book, cancel, reschedule and prune steps, confirmed bookings that share a host have disjoint buffered footprints and the lock table is their exact index |
| Protocol.MeetingsNeverOverlap | src/adapters/d1/repositories.ts:421-458 | so in every state of every run two confirmed bookings that share a host have disjoint start and end times |
| Coordinator.Desk.constructor | src/adapters/coordinator.ts:34-44 | the coordinator is made over the given tables with an empty rotation |
| Coordinator.Desk.AcquireAll | src/adapters/coordinator.ts:112-121 | leases are taken in ascending order up to the first host that is leased to somebody else or whose call fails; the rows and the end of the walk follow from the old rows |
| Coordinator.Desk.ReleaseAll | src/adapters/coordinator.ts:264-267 | every acquired lease is given back unless its release is lost; nobody else's is touched |
| Coordinator.Desk.WalkHosts | src/adapters/coordinator.ts:109-121 | the leases taken and how the walk ended are those the old lease rows, the request and the failing call determine |
| Coordinator.Desk.Commit | src/adapters/coordinator.ts:188-234 | after a committed batch the rotation advances and the result is recorded; after a refused one neither happens |
| Coordinator.Desk.ValidateAndCommit | src/adapters/coordinator.ts:123-262 | outcome, booking and tables of the part after the leases, for each call that may fail |
| Coordinator.Desk.Attempt | src/adapters/coordinator.ts:103-262 | the guarded part of a request: outcome, tables, rotation and leases held, all determined by the old tables, the request and the failing calls |
| Coordinator.Desk.Finish | src/adapters/coordinator.ts:263-297 | what every exit repairs: leases back, then the key freed or its record repaired |
| Coordinator.Desk.Book | src/adapters/coordinator.ts:46-299 | a refused reservation changes nothing; otherwise a booking is the answer exactly when it is new in the table and nothing failed after, each refusal and error has exactly its cause, the tables gain that booking and its rows or nothing, and key, rotation and leases end as stated |
| Coordinator.WalkStops | src/adapters/coordinator.ts:112-121 | a walk stops at the lowest host id that is leased to somebody else or whose call fails, by a denial or an error accordingly, with the leases of exactly the hosts below |
| Coordinator.WalkCompletes | src/adapters/coordinator.ts:112-121 | it is granted exactly when no host stops it, and then every host is leased |
| Coordinator.LeaseFailureIff | src/adapters/coordinator.ts:103-121 | a request is declined for a lease if and only if its event type is known, it is collective with several hosts, and the lowest host id that stops its walk is leased to somebody else |
| Coordinator.WalkEndIff | src/adapters/coordinator.ts:109-121 | granted, refused or failed, by the first host in ascending order that stops the walk |
| Coordinator.AnswerIsRight | src/adapters/coordinator.ts:46-299 | the answer to a request is a booking exactly when that booking is new in the table and nothing failed after; taken, outside, policy, lease and error answers each exactly for their cause |
| Coordinator.WritesAreRight | src/adapters/coordinator.ts:186-299 | the tables gain one booking of the right hosts with exactly its rows or nothing, the key's row records it for 24 hours or frees the key, and the rotation remembers a team's round-robin host |
| Coordinator.RotationAdvances | src/adapters/coordinator.ts:200-205 | recording the assignment advances the rotation that made the choice |
| Coordinator.RowsAddUp | src/adapters/coordinator.ts:213-297 | reserving, recording and repairing compose to the row the key is left with |
| Coordinator.LeasesComeBack | src/adapters/coordinator.ts:264-267 | no lease of a finished request remains except where its release was lost |
| Coordinator.ReplyIsTheMachines | src/adapters/coordinator.ts:57-87 | a refused reservation is answered as the key machine answers it |
| Coordinator.BookRunsTheKeyMachine | src/adapters/coordinator.ts:50-101 | what one request leaves under its key is what a run of the key machine leaves, whichever writes fail |
| Coordinator.BookRunsTheProtocol | src/adapters/coordinator.ts:123-198 | a request that writes a booking is a begin, a preparation and a commit of the protocol |
| Rescheduling.FinishReschedule | src/http/api/rest.ts:808-820 | mark, or roll back where the mark lost: the original no longer stands and the replacement does exactly when the mark won |
| Rescheduling.FinishIsProtocol | src/http/api/rest.ts:808-820 | the route's writes are the mark step of the protocol, followed by its roll-back step where it lost |
| Rescheduling.StepKeepsLinks | src/http/api/rest.ts:767-820 | every step that is no replay into a reschedule route and does not act on a replacement still in flight keeps originals and replacements pointing at each other |
| Rescheduling.OneReplacementSurvives | src/http/api/rest.ts:808-820 | in runs of such steps a settled replacement is cancelled or is the one its original was moved to, so none is orphaned |
| Replays.MovedIffMarked | src/adapters/d1/repositories.ts:488-503 | in every run a booking carries another as its replacement exactly when an earlier mark for it won |
| Replays.RollBackHarmsIff | src/http/api/rest.ts:808-814 | in every run, replays included, a roll-back cancels a live replacement if and only if the booking rolled back is still confirmed and an earlier mark for that same booking won |
| Replays.OwnOriginalTells | src/http/api/rest.ts:808-820 | while replays hand a route only bookings made for its own original, that is the case exactly when the original it failed to mark carries this very booking as its replacement |
| Replays.RollBackSparesReplacements | src/http/api/rest.ts:808-814 | in runs whose only restriction is that no replay answers a reschedule route, no roll-back cancels a booking that something was moved to |
| Replays.BothHoldersLose | src/http/api/rest.ts:794-820 | once two reschedule routes of one original hold the same replacement, then whatever else happens and in whichever order they go on, when both have finished neither original nor replacement is confirmed, and the replacement is cancelled unless it was itself moved on |
| Replays.EitherOrderCancels | src/http/api/rest.ts:808-814 | from two such holders either order of the marks ends with the original moved to a cancelled booking |
| Replays.ReplayMakesTwoHolders | src/adapters/coordinator.ts:57-87 | a replay answered while the first route has not marked yet makes two holders |
| Replays.LateReplayCancels | src/http/api/rest.ts:808-814 | a replay for an original that is no longer confirmed cancels the booking replayed, whatever it was made for, and does the same harm when the original had been moved to it |
| ReplayRun.TwoInFlight | src/http/api/rest.ts:790-806 | a run from an empty database reaches two reschedule requests in flight, one with its replacement written and one about to be answered |
| ReplayRun.ReplayCancelsReplacement | src/http/api/rest.ts:794-814 | a run from an empty database in which the replay makes a roll-back cancel the live replacement, for either order of the marks |
| IcsChain.LoadChain | src/adapters/notify.ts:207-222 | the rows loaded are the predecessors, at most twenty |
| IcsChain.IcsRootBookingId | src/core/ics.ts:100-114 | the walk to the root ends on every chain, cyclic ones included, at the specified id |
| IcsChain.IcsSequenceForBooking | src/core/ics.ts:160-176 | the walk counts the reschedules behind a booking, one more for a cancellation |
| IcsChain.WalkFindsOrigin | src/core/ics.ts:100-176 | over any loaded part of a true lineage the walks find the root and depth, or stop where the rows end |
| IcsChain.LoadedChainIsExactIff | src/adapters/notify.ts:207-222 | UID and SEQUENCE are those of the true lineage if and only if there were at most 21 reschedules; beyond that both are stated |
| Invitations.StepKeepsLineage | src/adapters/notify.ts:207-222 | every step of the protocol, replays included, extends the lineage by at most the new booking and changes no booking's origin |
| Invitations.OwedIsNewlyWarranted | src/adapters/notify.ts:52-58 | each such step owes exactly the messages its new state calls for, none twice |
| Invitations.CancelIsNeverSuppressed | src/core/ics.ts:194-196 | a cancellation that is announced is never suppressed as superseded |
| Invitations.RenderedIsFaithful | src/adapters/notify.ts:207-222 | a message rendered from the loaded rows carries that UID and SEQUENCE, on chains of any length |
| Invitations.RunKeepsMail | src/adapters/notify.ts:306-399 | in every run of such steps the messages owed or sent are exactly those the state warrants, each once; each carries the UID of the announced booking at most 21 moves back in its chain and, as SEQUENCE, the number of moves to it, one more for a cancellation |
| Invitations.ChainIsLinear | src/core/ics.ts:160-176 | announced bookings of one chain have pairwise distinct depths |
| Invitations.FinalExists | src/adapters/notify.ts:207-222 | every announced booking leads on to one that was not superseded, with the same root |
| Invitations.SequencesAreDistinct | src/core/ics.ts:100-196 | in every state of such a run, whatever the length of any chain, no two invitations with one UID share a SEQUENCE, and an invitation carries the UID of its root if and only if at most 21 reschedules lie behind it |
| Invitations.HighestDescribesFinal | src/core/ics.ts:160-196 | in such a run, once nothing is owed, the chain of any invitation sent has an end, and the message describing that end has the highest SEQUENCE of all with its UID; it shares the UID of the invitation if and only if at most 21 reschedules lie behind the end or the invitation is about the end itself |
| InviteReplays.StepKeepsTraced | src/http/api/rest.ts:794-814 | replays included, moved bookings point back, only announced bookings move on, every replacement is accounted for and ends no sooner than its original |
| InviteReplays.StepWarrants | src/adapters/notify.ts:306-399 | each such step calls for exactly the messages it owes and for the CANCEL of an announced booking it rolls back |
| InviteReplays.DistinctDespiteReplays | src/core/ics.ts:100-196 | in every run in which replays stay with their original no message is sent twice and no two with one UID share a SEQUENCE |
| InviteReplays.EverythingToldIff | src/http/api/rest.ts:794-814 | in such a run every message the state calls for is owed or sent if and only if no roll-back before cancelled a live replacement |
| InviteReplays.PlainReplayRepeats | src/adapters/coordinator.ts:48-87 | a first booking replayed into a reschedule route whose mark wins has its REQUEST sent again, with the same UID and SEQUENCE |
| UntoldRun.CancellationIsUntold | src/http/api/rest.ts:794-814 | a run from an empty database ends with an announced booking cancelled and no CANCEL owed or sent, for either order of the marks |
| Idempotency.Table.constructor | src/adapters/d1/repositories.ts:876-932 | the key table starts empty |
| Idempotency.Table.Put | src/adapters/d1/repositories.ts:876-894 | the row is replaced, expiry included |
| Idempotency.Table.Reserve | src/adapters/d1/repositories.ts:895-932 | wins over an absent or expired row and otherwise changes nothing and returns the row |
| Idempotency.StepKeepsInv | src/adapters/coordinator.ts:50-101 | every step keeps an attempt in its first day the owner of its row |
| Idempotency.CommitsAreADayApart | src/adapters/coordinator.ts:50-101 | of two attempts with one key that both commit, the later one reserved at least 24 hours after the earlier one captured its clock, whichever writes fail |
| Idempotency.TightPair | src/adapters/coordinator.ts:48-66 | no more than that holds: for every delay under a day between capturing the clock and winning the reservation a run has its two reservations exactly a day less that delay apart |
| Idempotency.ADayApartIff | src/adapters/coordinator.ts:48-66 | so 24 hours between the reservations are certain if and only if the first was won without delay |
| Idempotency.RepliesNameTheOriginal | src/adapters/coordinator.ts:57-87 | within that day every same-body reply is the original booking or an in-progress answer, every other a policy error |
| Idempotency.RetriesGetTheBooking | src/adapters/coordinator.ts:57-87 | once a booking has been recorded every retry with its key and body within 24 hours gets that booking, and every other body key reuse |
| Idempotency.ReleaseFreesTheKey | src/adapters/coordinator.ts:267-281 | a failed attempt whose release succeeds leaves its key reservable until somebody reserves it, and whoever does wins |
| HostCalendar.Calendar.constructor | src/do/host-calendar.ts:37-53 | a calendar starts with no hold, lease or alarm |
| HostCalendar.Calendar.CreateHold | src/do/host-calendar.ts:77-89 | the hold is stored for its lifetime, at least 30 seconds and at most ten minutes, and an alarm covers every pending expiry |
| HostCalendar.Calendar.ReleaseHold | src/do/host-calendar.ts:91-100 | exactly this hold goes |
| HostCalendar.Calendar.ActiveHolds | src/do/host-calendar.ts:102-115 | whatever is missing from the answer has expired, whatever is in it is the stored hold with time left, and an alarm is set no later than its expiry |
| HostCalendar.Calendar.AcquireLease | src/do/host-calendar.ts:130-145 | refused exactly while somebody else holds an unexpired lease; otherwise taken until its time, at most 60 seconds, is over |
| HostCalendar.Calendar.ReleaseLease | src/do/host-calendar.ts:147-149 | removes only one's own lease |
| HostCalendar.Calendar.EarliestPending | src/do/host-calendar.ts:156-165 | the least expiry over holds and lease |
| HostCalendar.Calendar.ScheduleNextAlarm | src/do/host-calendar.ts:156-170 | an alarm is set no later than any pending expiry and never moved later |
| HostCalendar.Calendar.Alarm | src/do/host-calendar.ts:172-194 | exactly the expired rows go, and a new alarm is set exactly when something is left |
| HostCalendar.OthersWaitIff | src/do/host-calendar.ts:130-149 | after a grant, somebody else's request, the first granted since and with no call of the holder in between, is granted if and only if the holder's time, at most a minute, is over |
| HostCalendar.OthersAreRefused | src/do/host-calendar.ts:130-149 | within that time nobody else gets the lease, whatever others try |
| HostCalendar.GivenBackIsFree | src/do/host-calendar.ts:147-149 | once given back, whoever asks first gets it |
| Leases.StepKeepsInv | src/adapters/coordinator.ts:112-121 | every step keeps relied-on leases in their rows and refusals traceable to somebody who got past |
| Leases.LeasesExclude | src/do/host-calendar.ts:130-149 | two attempts never both rely on an unexpired lease on one host |
| Leases.GrantedLeaseIsInForce | src/do/host-calendar.ts:130-149 | in every run a granted lease is relied on for its whole time unless given back, its row is its own, and everybody else who comes to that host is refused |
| Leases.HighestHolderAdvances | src/adapters/coordinator.ts:112-121 | whoever holds the highest leased host is not refused its next one |
| Leases.SomeoneAcquiresEverything | src/adapters/coordinator.ts:334-346 | when all contending attempts have stopped, at least one acquired every host |
| LeaseWalk.RequestRunsTheLeaseMachine | src/adapters/coordinator.ts:109-121 | the leases one request takes and gives back are steps of the lease machine that leave the same rows; its party has everything exactly when the walk was granted and is refused exactly when it was denied |
| LeaseWalk.BookRunsTheLeaseMachine | src/adapters/coordinator.ts:109-299 | every collective request, as `Desk.Book` states what it leaves, is a sequence of steps of the lease machine ending in the same rows, with everything acquired or refused as its walk ended |
| LeaseWalk.RunGoesOn | src/adapters/coordinator.ts:109-121 | appended to a run of the machine, such steps make a run |
| RateLimiter.Limiter.constructor | src/do/rate-limiter.ts:22-34 | a limiter starts with no bucket and no alarm |
| RateLimiter.Limiter.Consume | src/do/rate-limiter.ts:43-77 | the answer and the stored row are those of the refilled bucket; an alarm is set if there was none |
| RateLimiter.Limiter.Alarm | src/do/rate-limiter.ts:79-83 | exactly the buckets untouched for an hour go |
| RateLimiter.AllowedIsBounded | src/do/rate-limiter.ts:43-77 | as long as no sweep runs, from any stored bucket, in any span of T from one request to another at most limit + T*limit/window are allowed |
| RateLimiter.ResetMeansFull | src/do/rate-limiter.ts:60-76 | waiting until the announced reset refills the bucket completely |
| RateLimiter.FullIffReset | src/do/rate-limiter.ts:60-76 | from the request on the bucket is full if and only if the announced reset has come |
| RateLimiter.RefillsAtRate | src/do/rate-limiter.ts:43-58 | a bucket refills at the limit per window in seconds, up to the limit |
| RateLimiter.RemainingAreAllowed | src/do/rate-limiter.ts:60-76 | as many more requests as announced as remaining, and no more, would be allowed at that instant |
| RateLimiter.SweepsAreInvisible | src/do/rate-limiter.ts:79-83 | for windows up to an hour every request is answered as if no sweep had ever run |
| RateLimiter.LongWindowsShowSweeps | src/do/rate-limiter.ts:79-83 | for every rule with a longer window, spending the limit, one sweep and one more request get an answer no run without sweeps gives |
| RateLimiter.SweepsAreInvisibleIff | src/do/rate-limiter.ts:79-83 | for every rule the sweep never shows if and only if the window is at most an hour |
| RateLimiter.RateThroughSweeps | src/do/rate-limiter.ts:43-83 | for windows up to an hour that rate holds for every key in every span of every timeline, sweeps and other keys included |
| RateLimiter.LongWindowsBreakTheRate | src/do/rate-limiter.ts:79-83 | for every rule with a longer window a timeline with one sweep lets twice the limit through in an hour and a millisecond, more than the rate allows |
| RateLimiter.RateHoldsIff | src/do/rate-limiter.ts:43-83 | for every rule the limiter as it runs keeps to its rate if and only if the window is at most an hour |
| IcsText.EscapeReadsBack | src/core/ics.ts:210-219 | unescaping gives the text with line ends normalised and other controls dropped |
| IcsText.EscapeHasNoBreaks | src/core/ics.ts:210-219 | an escaped value fits on one content line |
| IcsText.ParamHasNoBreaks | src/core/ics.ts:230-233 | so does an escaped parameter |
| IcsText.PlainTextStays | src/core/ics.ts:210-219 | text without control characters reads back as it is |
| IcsText.ParamReadsBack | src/core/ics.ts:230-233 | an escaped parameter reads back, quoted or not, as its text without quotes, controls and outer space |
| IcsText.FoldLine | src/core/ics.ts:251-267 | whole code points, physical lines of at most 75 octets, nothing lost |
| IcsText.FoldReadsBack | src/core/ics.ts:251-267 | a folded line unfolds to itself, whatever follows it |
| IcsText.FoldAll | src/core/ics.ts:325-370 | each content line is folded and the lines joined by CR LF |
| IcsText.DocumentReadsBack | src/core/ics.ts:325-370 | a document unfolds and splits back into exactly its content lines |
| IcsDocument.BuildIcs | src/core/ics.ts:325-370 | the document is the folding of exactly the specified content lines |
| IcsDocument.AllLinesAreContent | src/core/ics.ts:325-370 | whatever the texts, every assembled line is one content line |
| IcsDocument.BuiltDocumentReadsBack | src/core/ics.ts:325-370 | a built document reads back as exactly the content lines assembled |
| IcsDocument.SummaryReadsBack | src/core/ics.ts:344 | the summary line's value unescapes to the title put in |
| IcsReader.DocumentSays | src/core/ics.ts:325-370 | a reader of the document finds verb, UID, SEQUENCE as a number, start, end, title, status and transparency as they were put in |
| IcsReader.DocumentsTellApart | src/core/ics.ts:325-370 | so documents that are the same were built from the same verb, UID, SEQUENCE, start and end |
| IcsReader.PeopleAreNamed | src/core/ics.ts:345-362 | the organizer and then every attendee are named in order, one line each, by a parameter that reads back as the name and the address at the end |
| IcsReader.UrlIsRead | src/core/ics.ts:364-366 | an address is found as it was given |
| WindowText.TimeRoundTrip | src/http/pages/dashboard.ts:1327-1342 | every time of day up to 24:00 survives formatting and parsing, spaces around it ignored |
| WindowText.TimeParsesIff | src/http/pages/dashboard.ts:1333-1342 | the texts that parse are exactly the formatted times up to 24:00, with or without the leading zero of the hour |
| WindowText.ParseWindows | src/http/pages/dashboard.ts:1354-1375 | the loop computes `WindowsFrom`, rejecting the whole text on the first malformed part |
| WindowText.SnapsInward | src/http/pages/dashboard.ts:1364-1371 | snapping never widens what was typed and moves each end by less than five minutes |
| WindowText.SortOrders | src/http/pages/dashboard.ts:1374 | sorting keeps every window and puts them in order of start |
| WindowText.ParsedWindowsAreNormal | src/http/pages/dashboard.ts:1354-1375 | whatever parses is valid, on the grid and in order |
| WindowText.FormattedWindowsParse | src/http/pages/dashboard.ts:1344-1375 | formatted windows parse to the same windows in order of start |
| WindowText.WindowsRoundTripIff | src/http/pages/dashboard.ts:1344-1375 | formatting and parsing gives valid windows back if and only if they were in order of start |
| WindowText.ParseOverrides | src/http/pages/dashboard.ts:1384-1396 | the loop computes `OverridesFrom`, skipping blank lines |
| WindowText.OverridesRoundTrip | src/http/pages/dashboard.ts:1377-1396 | valid overrides survive formatting and parsing, days off included |
| WindowText.ReparsedOverridesAreSame | src/http/pages/dashboard.ts:1377-1396 | for every text, parsing, formatting and parsing again changes nothing |
| QuestionText.SlugifyIsSlug | src/http/pages/dashboard.ts:1458-1464 | a slug has at most 60 characters from a-z, 0-9 and the dash and never begins with a dash |
| QuestionText.SlugKeepsLetters | src/http/pages/dashboard.ts:1458-1464 | a slug keeps the letters and digits of the text in order, as many as fit, with single dashes between |
| QuestionText.SlugIgnoresCase | src/http/pages/dashboard.ts:1458-1464 | captions that differ in the case of a-z alone have one slug |
| QuestionText.OneFewerToTry | src/http/pages/dashboard.ts:1447-1448 | the ids still in the way strictly shrink with every suffix found taken, so the loop ends |
| QuestionText.FirstFree | src/http/pages/dashboard.ts:1447-1448 | the id found is free and has the least free suffix |
| QuestionText.UniqueId | src/http/pages/dashboard.ts:1443-1449 | the loop ends with the slug itself or its first free suffix |
| QuestionText.ParseQuestions | src/http/pages/dashboard.ts:1421-1456 | the loop computes `QuestionsFrom`, rejecting the whole text on the first malformed line |
| QuestionText.ParsedIsCanonical | src/http/pages/dashboard.ts:1421-1456 | whatever parses is a well-formed list whose ids are those its labels get in order |
| QuestionText.IdsAreDistinct | src/http/pages/dashboard.ts:1443-1449 | ids are pairwise distinct, non-empty and extend the label's slug |
| QuestionText.IdsFollowCaptions | src/http/pages/dashboard.ts:1411-1420 | ids depend on nothing but the labels and their order |
| QuestionText.QuestionsRoundTripIff | src/http/pages/dashboard.ts:1400-1456 | a list survives formatting and parsing if and only if it is canonical |
| QuestionText.ReparsingIsStable | src/http/pages/dashboard.ts:1400-1456 | for every text, parsing, formatting and parsing again changes nothing, ids included |

## Left out

* HTTP routing, pages, email bodies, webhooks, calendar synchronisation and network calls: side effects after the commit. External busy time is an arbitrary list of intervals.
* `Intl` and `Date` internals: a zone is an offset function and a date is a day number; validation of date strings beyond their shape, and years that do not have four digits, are not modelled.
* Ids: users, bookings, leases and holds are integers ordered as the strings are; tokens and hashes are opaque integers. Guest fields, answers, manage tokens and external event ids of a booking are not modelled.
* Ambiguous database failures (an error after a real commit) and worker crashes between book and mark: batches are atomic with a known outcome and routes run to completion.
* The per-day cap under concurrency: the batch arbitrates buckets and not counts, so no run invariant about the cap is claimed.
* Listing and commit on different inputs: a host whose availability is missing is filtered at listing and refused at commit; agreement is stated on the same inputs.
* `src/engine.ts` plumbing around the listing (`daysWithSlots`, `monthRange`, scope filtering) and the mirror table of advisory holds in the database, whose clean-up would add easy members.
* Floating point in the token bucket: tokens are exact reals.
* The `status` column of idempotency rows, and request hashing: a hash stands for the request body.
* Guest and MCP routes: they make the same book, mark and roll-back steps as the REST route modelled.
* Formatting of instants in calendar files, base64 and the 40,000-character limit on attachments: instants arrive formatted and an attachment that is dropped counts as sent. Strings are sequences of Unicode scalar values, so lone surrogates do not occur.
* Lower-casing of letters outside ASCII other than the two that reach into ASCII: the others stay outside the slug alphabet either way.
- SlotGrid.ListingsAgreeOnOverlap: is stated for zones with one offset and schedules with a break in every local day; across a change of clocks and for other schedules what is claimed is about one host's offers (`ClockChange`, `ClippedRuns`), not about collective listings.
- ClockChange.NearBreaksAgree: gives a sufficient condition; without such breaks two queries may still happen to agree, depending on the step.
- Zone.ResolutionIsExact: assumes at most one whole-minute transition within a day of the wall clock; without that, `Zone.ResolutionIsSound` and `Zone.ResolutionBounds` are what is claimed.
- Protocol.NeverDoubleBooked: assumes a clock that never goes back and a commit within six days of the captured time, one less than the seven-day trail pruning keeps.
- Rescheduling.OneReplacementSurvives: assumes that no replay answers a reschedule route and that nobody acts on a replacement before the route that made it has marked the original, as `QuietStep` states; what replays into reschedule routes do is in `Replays`.
- Invitations.SequencesAreDistinct: assumes the same of every step, as do `Invitations.RunKeepsMail` and `Invitations.HighestDescribesFinal`; with replays into reschedule routes the second assumption stays and `InviteReplays` says what is left.
- RotationShare.TwoHostsShare: exact shares are stated for two hosts with one pick a tick; for more hosts the law is `RotationShare.HeavierNeverFarBehind`.
- Idempotency.CommitsAreADayApart: is counted from the earlier attempt's captured clock, since 24 hours between the reservations do not always hold; it assumes an attempt acts within 24 hours of that clock, and later writes of a stalled attempt are not modelled.
- Coordinator.Desk.Book: runs one request from start to finish with its lease and reservation clocks given; interleaving is the subject of `Protocol`, `Idempotency` and `Leases`.
