# Time-based cover travel estimator, in Dafny

This project models `TravelCalculator`, the travel-position estimator of the
time-based cover integration `cover_time_based`. A motorised cover (shade,
blind) reports no position while moving; the estimator knows only the last
known position, when it was recorded, the commanded target and direction, and
how long the cover takes to travel the full range in each direction, plus a
slow "slats" phase next to the fully-open end. From these it estimates the
current position at any instant. Positions are integers, 100 fully closed and
0 fully open, so "up" opens and "down" closes.

Files:

- `wrappers.dfy`: module `Wrappers`, the `Option` type for the two nullable
  positions.
- `travel.dfy`: module `Travel`. `TravelStatus` (up, down, stopped); truncation
  toward zero (`int(...)` of a float); the class `TravelCalculator` with the
  five motion fields the source updates in place (direction, last known
  position, its timestamp, the confirmed flag, the target) and the four timing
  parameters as constants; the state-changing operations as methods and the
  queries and the interpolation as functions; lemmas about the estimate.
- `examples.dfy`: module `TravelExamples`, client methods that drive the class
  through concrete scenarios, including the one in the module's docstring.

Every reading of the wall clock becomes an explicit `now: real` argument. The
two places where the source divides by a possibly-zero value (lines 207 and
210) are excluded by the precondition `PositionDefined(now)`, which holds
exactly when the query at `now` divides by no zero; every query and every
operation that takes the current estimate (`Stop`, `StartTravel*`) requires it.

Behaviour reproduced as the code has it:

- `stop()` freezes the estimate as last known position and target and leaves
  the timestamp unchanged.
- `update_position()` only ever sets the confirmed flag, never clears it.
- A target equal to the origin gives direction up.
- `calculate_travel_time` picks the slats time by the order of origin and
  target (closing slats time when `from > to`), while `_calculate_position`
  picks it by the commanded direction (closing slats time when the direction
  is down, i.e. `to > from`). `MismatchedSlatsTimes` shows the effect.
- At the end of the slats phase the progress drops from just under 10% to 0;
  `SlatsPhaseBoundary` shows it. So no monotonicity is claimed, and arrival
  can be undone: with truncation toward zero a cover one unit from its
  target can read as arrived inside the slats phase, back at its origin when
  the phase ends, and arrived again later (`ArrivalUndone`).
- A negative elapsed time (clock stepping back) is used unclamped.
- A stopped cover (direction stopped, target equal to the position) is not
  caught by the "reached or exceeded" test, which looks only at up and down;
  wherever its estimate is defined, it still comes out as the resting
  position (`RestingAtTarget`). It is not defined at the instant the elapsed
  time since the kept timestamp equals `calculate_travel_time(p, p)` (0 away
  from position 0, the opening slats time at 0): a `stop()` at the same
  clock reading as the last `set_position()` makes the next estimate divide
  0 by 0 at line 210 (`StopAtRecordedInstant`).
- A cover with a known position and no target counts as traveling (its
  estimate differs from the absent target), though never as opening or
  closing, since its direction is still stopped.

## Model

| member | source | states |
|---|---|---|
| `Travel.TruncateToInt` | custom_components/cover_time_based/travelcalculator.py:212 | `int(x)` rounds toward zero: for x ≥ 0 the result is the largest integer not above x, for x < 0 the smallest not below it |
| `Travel.InterpolationBetween` | custom_components/cover_time_based/travelcalculator.py:212 | a fraction in [0, 1] of the way from origin to target, truncated, lies between origin and target |
| `Travel.ReachedOrExceeded` | custom_components/cover_time_based/travelcalculator.py:175-187 | a stopped direction never counts as reached; with no distance left, up and down both count; otherwise, moving up or down, it counts exactly when the target lies behind the direction of travel (at or below the position when closing, at or above it when opening) |
| `Travel.Interpolate` | custom_components/cover_time_based/travelcalculator.py:212 | the truncated point a fraction of the way from origin to target: the origin at fraction 0, the target at fraction 1, and the origin whenever origin and target coincide |
| `Travel.TravelCalculator.PositionDefined` | custom_components/cover_time_based/travelcalculator.py:137-210 | the condition under which `current_position()` raises no `ZeroDivisionError` (lines 207, 210): always met when confirmed, without a position or without a target; when it fails the elapsed time is negative with no slats phase, or elapsed, remaining and slats times coincide; met for every non-negative elapsed time when remaining and slats times differ |
| `Travel.TravelCalculator.ProgressSlatsTime` | custom_components/cover_time_based/travelcalculator.py:202-204 | zero unless origin or target is 0, and otherwise one of the two slats times; for the direction `start_travel` sets it is the opposite slats time to the one `calculate_travel_time` picks for the same origin and target |
| `Travel.TravelCalculator.Progress` | custom_components/cover_time_based/travelcalculator.py:205-210 | below 0.1 inside the slats phase; exactly 0 when the slats phase ends; exactly 1 at the instant the remaining travel time has elapsed, if the slats phase has ended by then (the quotient is used unclamped, so it exceeds 1 afterwards) |
| `Travel.TravelCalculator.constructor` | custom_components/cover_time_based/travelcalculator.py:47-62 | stores the four timing parameters; starts stopped, with no known position, no target, timestamp 0, unconfirmed; the estimate is then absent at every instant |
| `Travel.TravelCalculator.SetPosition` | custom_components/cover_time_based/travelcalculator.py:64-68 | stores the position, stamps `now`, confirms; target and direction unchanged; afterwards the current position is that position at every instant |
| `Travel.TravelCalculator.UpdatePosition` | custom_components/cover_time_based/travelcalculator.py:70-75 | stores the position and stamps `now`; the confirmed flag becomes true if the position is the target and otherwise keeps its old value; target and direction unchanged; a report of the target makes the position reached at every instant |
| `Travel.TravelCalculator.Stop` | custom_components/cover_time_based/travelcalculator.py:77-85 | with no known position nothing changes; otherwise last known position and target both become the estimate at `now`, unconfirmed, direction stopped, timestamp kept; afterwards the estimate stays at that position and the cover is not traveling |
| `Travel.TravelCalculator.StartTravel` | custom_components/cover_time_based/travelcalculator.py:87-101 | with no known position it is `SetPosition(target)` and leaves target and direction alone; otherwise origin = the stop snapshot, timestamp = `now`, target set, unconfirmed, direction down exactly when target > origin (equal gives up); every later estimate lies between origin and target |
| `Travel.TravelCalculator.StartTravelUp` | custom_components/cover_time_based/travelcalculator.py:103-105 | `StartTravel` towards the open position 0 |
| `Travel.TravelCalculator.StartTravelDown` | custom_components/cover_time_based/travelcalculator.py:107-109 | `StartTravel` towards the closed position 100 |
| `Travel.TravelCalculator.StartTravelTilt` | custom_components/cover_time_based/travelcalculator.py:111-125 | the same state change as `StartTravel` |
| `Travel.TravelCalculator.StartTravelTiltUp` | custom_components/cover_time_based/travelcalculator.py:127-129 | tilt travel towards 0 |
| `Travel.TravelCalculator.StartTravelTiltDown` | custom_components/cover_time_based/travelcalculator.py:131-133 | tilt travel towards 100 |
| `Travel.TravelCalculator.CurrentPosition` | custom_components/cover_time_based/travelcalculator.py:135-139 | absent exactly when no position was ever recorded; the stored position whenever it is confirmed |
| `Travel.TravelCalculator.IsTraveling` | custom_components/cover_time_based/travelcalculator.py:141-143 | traveling is exactly "position not reached"; with no target, traveling exactly when a position is known |
| `Travel.TravelCalculator.IsOpening` | custom_components/cover_time_based/travelcalculator.py:145-149 | opening iff the position is not reached and the direction is up; never with no target |
| `Travel.TravelCalculator.IsClosing` | custom_components/cover_time_based/travelcalculator.py:151-155 | closing iff the position is not reached and the direction is down; never both opening and closing; never with no target |
| `Travel.TravelCalculator.PositionReached` | custom_components/cover_time_based/travelcalculator.py:157-159 | for a confirmed position, reached iff it is the target; with no target, reached iff no position is known |
| `Travel.TravelCalculator.IsOpen` | custom_components/cover_time_based/travelcalculator.py:161-163 | open only with a known position, and for a confirmed one exactly when it is 0 |
| `Travel.TravelCalculator.IsClosed` | custom_components/cover_time_based/travelcalculator.py:165-167 | closed only with a known position and never together with open; for a confirmed position exactly when it is 100 |
| `Travel.TravelCalculator.CalculatePosition` | custom_components/cover_time_based/travelcalculator.py:169-212 | absent exactly when no position is known; the last known position when there is no target; the target once it is reached or passed in the commanded direction or once the elapsed time exceeds the remaining travel time |
| `Travel.TravelCalculator.CalculateTravelTime` | custom_components/cover_time_based/travelcalculator.py:214-223 | 100 to 0 takes the down time and 0 to 100 the up time (the slats term cancels); staying put takes the opening slats time at 0 and nothing elsewhere; with no slats times the time is the full time times range/100 |
| `Travel.TravelCalculator.TravelTimeBounds` | custom_components/cover_time_based/travelcalculator.py:214-223 | with positions in [0, 100] and each slats time between 0 and its direction's full time, a travel takes between 0 and that full time, and never less than its slats offset (the slats time `calculate_travel_time` picks when origin or target is 0) |
| `Travel.TravelCalculator.ProgressInUnitInterval` | custom_components/cover_time_based/travelcalculator.py:201-210 | for elapsed time between 0 and the remaining travel time, the progress fraction lies in [0, 1] |
| `Travel.TravelCalculator.EstimateBetween` | custom_components/cover_time_based/travelcalculator.py:169-212 | for non-negative elapsed time the estimate exists and lies between origin and target |
| `Travel.TravelCalculator.ArrivesAtTarget` | custom_components/cover_time_based/travelcalculator.py:192-212 | once the remaining travel time has passed (and the slats phase with it) the estimate is exactly the target |
| `Travel.TravelCalculator.EstimateAtDeparture` | custom_components/cover_time_based/travelcalculator.py:173-212 | at the instant travel starts in the direction `start_travel` chooses, with non-negative durations, the estimate is the origin |
| `Travel.TravelCalculator.RestingAtTarget` | custom_components/cover_time_based/travelcalculator.py:135-139 | when the target is the last known position, the current position is that position |
| `TravelExamples.PartialOpening` | custom_components/cover_time_based/travelcalculator.py:7-13 | 100 s travel, no slats, 90 towards 60 from time 0: direction up, 80 at 10 s, 70 at 20 s, 60 and reached at 30 s |
| `TravelExamples.StartTowardsOwnPosition` | custom_components/cover_time_based/travelcalculator.py:97-101 | a target equal to the origin gives direction up and a cover that is not traveling |
| `TravelExamples.StopHalfway` | custom_components/cover_time_based/travelcalculator.py:77-85 | stopping a close halfway leaves position and target at 50, the timestamp at the start, not traveling, not closing |
| `TravelExamples.SlatsPhaseBoundary` | custom_components/cover_time_based/travelcalculator.py:201-210 | 20 s closing slats phase from 0 to 100: 5 at 10 s, 9 at 19 s, back to 0 at 20 s |
| `TravelExamples.MismatchedSlatsTimes` | custom_components/cover_time_based/travelcalculator.py:202-222 | closing slats time 50 s, 0 to 10: still 0 at 10 s (the computed travel time), 10 at 11 s |
| `TravelExamples.ArrivalUndone` | custom_components/cover_time_based/travelcalculator.py:201-212 | opening from 1 to 0 with 10 s slats times: reached at 5 s, not reached at 10 s, reached again at 10.45 s |
| `TravelExamples.StopAtRecordedInstant` | custom_components/cover_time_based/travelcalculator.py:64-85 | a stop at the clock reading of the last `set_position()`, away from position 0, leaves an estimate that is undefined (divides 0 by 0) at that instant |
| `TravelExamples.IntermediateReport` | custom_components/cover_time_based/travelcalculator.py:70-75 | a report midway leaves the position unconfirmed, a report of the target confirms it and the position is reached |

## Left out

- The wall clock (`time.time()` at lines 67, 73, 93, 117 and 196): every operation takes `now` instead.
- StartTravel: the source reads the clock up to twice (line 196, through `stop()`, when the position is unconfirmed and still travelling, and line 93); the model uses one `now` for both readings.
- Floating-point rounding: durations, instants and progress are exact reals, so the estimates are those of exact arithmetic.
- The `ZeroDivisionError` paths at lines 207 and 210: excluded by the precondition `PositionDefined(now)` rather than modelled as errors.
- The timing parameters are constants; the source keeps them as ordinary attributes, which the estimator itself never reassigns.
- Position range: positions are unbounded integers, as in the source, which never checks the [0, 100] range; the lemmas that need the range require it.
- `custom_components/cover_time_based/const.py` holds only configuration keys and the default slats time 0: no logic.
- The host integration (entity registration, relay and switch commands, polling, configuration wiring) is not part of this model.
- Progress: states the 10% bound on the progress fraction, not on the integer position, because truncation toward 0 can move an opening cover one unit past 10% of its range.
