/**
 * Travel-position estimator of a time-based cover: given the last known
 * position, when it was recorded, the commanded target and direction, and the
 * per-direction travel and slats durations, it estimates the current position.
 * Positions are integers, 100 fully closed and 0 fully open; durations and
 * instants are reals (seconds). Every reading of the wall clock is an explicit
 * `now` argument.
 */
module Travel {
  import opened Wrappers

  /** Direction of travel. "Up" opens (towards 0), "down" closes (towards 100). */
  datatype TravelStatus = DirectionUp | DirectionDown | Stopped

  function Abs(x: int): nat
  {
    if x < 0 then -x else x
  }

  /** `a` and `b` bound `x`, in either order. */
  predicate Between(x: int, a: int, b: int)
  {
    (a <= x <= b) || (b <= x <= a)
  }

  /** Python's `int(x)` of a float: truncation toward zero. */
  function TruncateToInt(x: real): (r: int)
    ensures 0.0 <= x ==> 0 <= r && r as real <= x < r as real + 1.0
    ensures x < 0.0 ==> r <= 0 && r as real - 1.0 < x <= r as real
  {
    if x >= 0.0 then x.Floor else -((-x).Floor)
  }

  /** The helper nested in `_calculate_position`: the target counts as passed. */
  function ReachedOrExceeded(relative: int, direction: TravelStatus): (r: bool)
    ensures direction == Stopped ==> !r
    ensures relative == 0 ==> (r <==> direction != Stopped)
    ensures relative != 0 && direction != Stopped ==> (r <==> (relative < 0 <==> direction == DirectionDown))
  {
    (relative <= 0 && direction == DirectionDown) || (relative >= 0 && direction == DirectionUp)
  }

  /** `base + span * p`, for a fraction p in [0, 1] and a non-negative span, lies in [base, base + span]. */
  lemma AffineFraction(base: real, span: real, p: real, y: real)
    requires 0.0 <= span && 0.0 <= p <= 1.0
    requires y == base + span * p
    ensures base <= y <= base + span
  {
  }

  /** A quotient of a non-negative value by a larger positive one is a fraction in [0, 1]. */
  lemma QuotientFraction(e: real, s: real)
    requires 0.0 <= e <= s && s != 0.0
    ensures 0.0 <= e / s <= 1.0
    ensures e < s ==> e / s < 1.0
  {
  }

  /** During the slats phase at most a tenth of the way is covered. */
  lemma SlatsFraction(e: real, s: real)
    requires e < s && s != 0.0
    ensures 0.0 <= e ==> 0.0 <= e / s * 0.1 < 0.1
  {
  }

  /** After the slats phase the fraction starts at 0 and reaches 1 at the remaining travel time. */
  lemma LinearFraction(e: real, s: real, remaining: real)
    requires remaining - s != 0.0
    ensures e == s ==> (e - s) / (remaining - s) == 0.0
    ensures e == remaining ==> (e - s) / (remaining - s) == 1.0
  {
  }

  /** The position a fraction `p` of the way from `origin` to `target`, truncated as `_calculate_position` does. */
  function Interpolate(origin: int, target: int, p: real): (r: int)
    ensures p == 0.0 ==> r == origin
    ensures p == 1.0 ==> r == target
    ensures origin == target ==> r == origin
  {
    TruncateToInt(origin as real + (target - origin) as real * p)
  }

  /** Truncating a value that lies between two integers stays between them. */
  lemma TruncationBetween(x: real, lo: int, hi: int)
    requires lo as real <= x <= hi as real
    ensures lo <= TruncateToInt(x) <= hi
  {
  }

  /** For p in [0, 1] the interpolated position stays between a and b. */
  lemma InterpolationBetween(a: int, b: int, p: real)
    requires 0.0 <= p <= 1.0
    ensures Between(Interpolate(a, b, p), a, b)
  {
    var x := a as real + (b - a) as real * p;
    if a <= b {
      AffineFraction(a as real, (b - a) as real, p, x);
      TruncationBetween(x, a, b);
    } else {
      // Read backwards from b: x == b + (a - b) * (1 - p).
      AffineFraction(b as real, (a - b) as real, 1.0 - p, x);
      TruncationBetween(x, b, a);
    }
  }

  class TravelCalculator {
    // Timing parameters, fixed at construction.
    const travelTimeDown: real
    const travelTimeUp: real
    const slatsOpenTime: real
    const slatsCloseTime: real

    const positionClosed: int := 100
    const positionOpen: int := 0

    // Motion state.
    var travelDirection: TravelStatus
    var lastKnownPosition: Option<int>
    var lastKnownPositionTimestamp: real
    var positionConfirmed: bool
    var travelToPosition: Option<int>

    /**
     * The shape every reachable state has: a confirmed position is a known one,
     * a target exists only once a position is known, and a moving cover has a target.
     */
    ghost predicate Valid()
      reads this
    {
      && (positionConfirmed ==> lastKnownPosition.Some?)
      && (travelToPosition.Some? ==> lastKnownPosition.Some?)
      && (travelDirection != Stopped ==> travelToPosition.Some?)
    }

    constructor (travelTimeDown: real, travelTimeUp: real, slatsOpenTime: real, slatsCloseTime: real)
      ensures Valid()
      ensures this.travelTimeDown == travelTimeDown && this.travelTimeUp == travelTimeUp
      ensures this.slatsOpenTime == slatsOpenTime && this.slatsCloseTime == slatsCloseTime
      ensures travelDirection == Stopped && lastKnownPosition == None && travelToPosition == None
      ensures lastKnownPositionTimestamp == 0.0 && !positionConfirmed
      ensures forall n :: PositionDefined(n) && CurrentPosition(n) == None
    {
      this.travelTimeDown := travelTimeDown;
      this.travelTimeUp := travelTimeUp;
      this.slatsOpenTime := slatsOpenTime;
      this.slatsCloseTime := slatsCloseTime;
      travelDirection := Stopped;
      lastKnownPosition := None;
      lastKnownPositionTimestamp := 0.0;
      positionConfirmed := false;
      travelToPosition := None;
    }

    // ---------------------------------------------------------------- updates

    /** Record a confirmed position at `now`. */
    method SetPosition(position: int, now: real)
      requires Valid()
      modifies this
      ensures Valid()
      ensures lastKnownPosition == Some(position) && lastKnownPositionTimestamp == now && positionConfirmed
      ensures travelToPosition == old(travelToPosition) && travelDirection == old(travelDirection)
      ensures forall n :: PositionDefined(n) && CurrentPosition(n) == Some(position)
    {
      lastKnownPosition := Some(position);
      lastKnownPositionTimestamp := now;
      positionConfirmed := true;
    }

    /** Record an observed position; it becomes confirmed only if it is the target. */
    method UpdatePosition(position: int, now: real)
      requires Valid()
      modifies this
      ensures Valid()
      ensures lastKnownPosition == Some(position) && lastKnownPositionTimestamp == now
      ensures positionConfirmed == (old(positionConfirmed) || Some(position) == old(travelToPosition))
      ensures travelToPosition == old(travelToPosition) && travelDirection == old(travelDirection)
      ensures positionConfirmed ==> forall n :: PositionDefined(n) && CurrentPosition(n) == Some(position)
      ensures Some(position) == travelToPosition ==> forall n :: PositionDefined(n) && PositionReached(n)
    {
      lastKnownPosition := Some(position);
      lastKnownPositionTimestamp := now;
      if Some(position) == travelToPosition {
        positionConfirmed := true;
      }
    }

    /**
     * Freeze the estimate taken at `now` as both the resting position and the
     * target, unconfirmed. The timestamp is left as it was.
     */
    method Stop(now: real)
      requires Valid() && PositionDefined(now)
      modifies this
      ensures Valid()
      ensures old(lastKnownPosition).None? ==> unchanged(this)
      ensures old(lastKnownPosition).Some? ==>
        && lastKnownPosition == old(CurrentPosition(now))
        && travelToPosition == old(CurrentPosition(now))
        && !positionConfirmed
        && travelDirection == Stopped
        && lastKnownPositionTimestamp == old(lastKnownPositionTimestamp)
      ensures old(lastKnownPosition).Some? ==>
        forall n :: PositionDefined(n) ==> CurrentPosition(n) == lastKnownPosition && !IsTraveling(n)
    {
      var stopPosition := CurrentPosition(now);
      if stopPosition.None? {
        return;
      }
      lastKnownPosition := stopPosition;
      travelToPosition := stopPosition;
      positionConfirmed := false;
      travelDirection := Stopped;
      forall n | PositionDefined(n)
        ensures CurrentPosition(n) == lastKnownPosition
      {
        RestingAtTarget(n);
      }
    }

    /**
     * What `start_travel(travelTo)` at `now` leaves behind, relative to the
     * state before the call: with no known position, only `SetPosition`;
     * otherwise the stop snapshot as origin, restamped, aimed at `travelTo`,
     * unconfirmed, closing exactly when the target lies beyond the origin.
     */
    twostate predicate TravelStarted(travelTo: int, now: real)
      reads this
      requires old(PositionDefined(now))
    {
      if old(lastKnownPosition).None? then
        && lastKnownPosition == Some(travelTo)
        && lastKnownPositionTimestamp == now
        && positionConfirmed
        && travelToPosition == old(travelToPosition)
        && travelDirection == old(travelDirection)
      else
        && lastKnownPosition == old(CurrentPosition(now))
        && lastKnownPosition.Some?
        && lastKnownPositionTimestamp == now
        && travelToPosition == Some(travelTo)
        && !positionConfirmed
        && travelDirection == (if travelTo > lastKnownPosition.value then DirectionDown else DirectionUp)
    }

    /** Begin travel towards `travelTo` at `now`. */
    method StartTravel(travelTo: int, now: real)
      requires Valid() && PositionDefined(now)
      modifies this
      ensures Valid()
      ensures TravelStarted(travelTo, now)
      ensures old(lastKnownPosition).Some? ==>
        forall n :: n >= now && PositionDefined(n) ==>
          CurrentPosition(n).Some? && Between(CurrentPosition(n).value, lastKnownPosition.value, travelTo)
    {
      if lastKnownPosition.None? {
        SetPosition(travelTo, now);
        return;
      }
      Stop(now);
      lastKnownPositionTimestamp := now;
      travelToPosition := Some(travelTo);
      positionConfirmed := false;
      travelDirection := if travelTo > lastKnownPosition.value then DirectionDown else DirectionUp;
      forall n | n >= now && PositionDefined(n)
        ensures CurrentPosition(n).Some? && Between(CurrentPosition(n).value, lastKnownPosition.value, travelTo)
      {
        EstimateBetween(n);
      }
    }

    method StartTravelUp(now: real)
      requires Valid() && PositionDefined(now)
      modifies this
      ensures Valid()
      ensures TravelStarted(positionOpen, now)
    {
      StartTravel(positionOpen, now);
    }

    method StartTravelDown(now: real)
      requires Valid() && PositionDefined(now)
      modifies this
      ensures Valid()
      ensures TravelStarted(positionClosed, now)
    {
      StartTravel(positionClosed, now);
    }

    /** The tilt entry point; its body is the same as `StartTravel`'s. */
    method StartTravelTilt(travelTo: int, now: real)
      requires Valid() && PositionDefined(now)
      modifies this
      ensures Valid()
      ensures TravelStarted(travelTo, now)
    {
      StartTravel(travelTo, now);
    }

    method StartTravelTiltUp(now: real)
      requires Valid() && PositionDefined(now)
      modifies this
      ensures Valid()
      ensures TravelStarted(positionOpen, now)
    {
      StartTravelTilt(positionOpen, now);
    }

    method StartTravelTiltDown(now: real)
      requires Valid() && PositionDefined(now)
      modifies this
      ensures Valid()
      ensures TravelStarted(positionClosed, now)
    {
      StartTravelTilt(positionClosed, now);
    }

    // ---------------------------------------------------------------- queries

    /** PositionDefined(now) holds exactly when `current_position()` at `now` divides by no zero. */
    function PositionDefined(now: real): (r: bool)
      reads this
      ensures positionConfirmed || lastKnownPosition.None? || travelToPosition.None? ==> r
      ensures !r ==>
        && lastKnownPosition.Some? && travelToPosition.Some?
        && ((Elapsed(now) < 0.0 && ProgressSlatsTime() == 0.0)
            || Elapsed(now) == RemainingTravelTime() == ProgressSlatsTime())
      ensures (&& Elapsed(now) >= 0.0 && lastKnownPosition.Some? && travelToPosition.Some?
               && RemainingTravelTime() != ProgressSlatsTime()) ==> r
    {
      positionConfirmed || CalculationDefined(now)
    }

    /** The best estimate at `now`: the confirmed position, or the interpolation. */
    function CurrentPosition(now: real): (r: Option<int>)
      reads this
      requires PositionDefined(now)
      ensures r.None? <==> lastKnownPosition.None?
      ensures positionConfirmed ==> r == lastKnownPosition
    {
      if !positionConfirmed then CalculatePosition(now) else lastKnownPosition
    }

    function PositionReached(now: real): (r: bool)
      reads this
      requires PositionDefined(now)
      ensures positionConfirmed ==> (r <==> lastKnownPosition == travelToPosition)
      ensures travelToPosition.None? ==> (r <==> lastKnownPosition.None?)
    {
      CurrentPosition(now) == travelToPosition
    }

    function IsTraveling(now: real): (r: bool)
      reads this
      requires PositionDefined(now)
      ensures r <==> !PositionReached(now)
      ensures travelToPosition.None? ==> (r <==> lastKnownPosition.Some?)
    {
      CurrentPosition(now) != travelToPosition
    }

    function IsOpening(now: real): (r: bool)
      reads this
      requires PositionDefined(now)
      ensures r <==> !PositionReached(now) && travelDirection == DirectionUp
      ensures Valid() && travelToPosition.None? ==> !r
    {
      IsTraveling(now) && travelDirection == DirectionUp
    }

    function IsClosing(now: real): (r: bool)
      reads this
      requires PositionDefined(now)
      ensures r <==> !PositionReached(now) && travelDirection == DirectionDown
      ensures r ==> !IsOpening(now)
      ensures Valid() && travelToPosition.None? ==> !r
    {
      IsTraveling(now) && travelDirection == DirectionDown
    }

    function IsOpen(now: real): (r: bool)
      reads this
      requires PositionDefined(now)
      ensures r ==> lastKnownPosition.Some?
      ensures positionConfirmed ==> (r <==> lastKnownPosition == Some(0))
    {
      CurrentPosition(now) == Some(positionOpen)
    }

    function IsClosed(now: real): (r: bool)
      reads this
      requires PositionDefined(now)
      ensures r ==> lastKnownPosition.Some? && !IsOpen(now)
      ensures positionConfirmed ==> (r <==> lastKnownPosition == Some(100))
    {
      CurrentPosition(now) == Some(positionClosed)
    }

    // ---------------------------------------------------------- interpolation

    function Elapsed(now: real): real
      reads this
    {
      now - lastKnownPositionTimestamp
    }

    /** The time from origin to target used by the interpolation. */
    function RemainingTravelTime(): real
      reads this
      requires lastKnownPosition.Some? && travelToPosition.Some?
    {
      CalculateTravelTime(lastKnownPosition.value, travelToPosition.value)
    }

    /**
     * The slats duration used by the interpolation: chosen by the commanded
     * direction, not by the order of origin and target as in CalculateTravelTime.
     */
    function ProgressSlatsTime(): (r: real)
      reads this
      ensures r == 0.0 || r == slatsOpenTime || r == slatsCloseTime
      ensures lastKnownPosition != Some(0) && travelToPosition != Some(0) ==> r == 0.0
      ensures lastKnownPosition.Some? && travelToPosition.Some?
        && lastKnownPosition != travelToPosition
        && (lastKnownPosition == Some(0) || travelToPosition == Some(0))
        && travelDirection == (if travelToPosition.value > lastKnownPosition.value then DirectionDown else DirectionUp)
        ==> r == (if lastKnownPosition.value > travelToPosition.value then slatsOpenTime else slatsCloseTime)
    {
      if lastKnownPosition == Some(0) || travelToPosition == Some(0) then
        (if travelDirection == DirectionDown then slatsCloseTime else slatsOpenTime)
      else 0.0
    }

    /** The divisor of whichever progress formula applies at `now` is non-zero. */
    predicate ProgressDefined(now: real)
      reads this
      requires lastKnownPosition.Some? && travelToPosition.Some?
    {
      if Elapsed(now) < ProgressSlatsTime() then ProgressSlatsTime() != 0.0
      else RemainingTravelTime() - ProgressSlatsTime() != 0.0
    }

    /** The fraction of the way from origin to target: 10% spread over the slats phase, then linear. */
    function Progress(now: real): (r: real)
      reads this
      requires lastKnownPosition.Some? && travelToPosition.Some?
      requires ProgressDefined(now)
      ensures 0.0 <= Elapsed(now) < ProgressSlatsTime() ==> 0.0 <= r < 0.1
      ensures Elapsed(now) == ProgressSlatsTime() ==> r == 0.0
      ensures ProgressSlatsTime() <= Elapsed(now) == RemainingTravelTime() ==> r == 1.0
    {
      var elapsed := Elapsed(now);
      var slatsTime := ProgressSlatsTime();
      if elapsed < slatsTime then
        SlatsFraction(elapsed, slatsTime);
        elapsed / slatsTime * 0.1
      else
        LinearFraction(elapsed, slatsTime, RemainingTravelTime());
        (elapsed - slatsTime) / (RemainingTravelTime() - slatsTime)
    }

    /** CalculatePosition(now) is reached only through paths that divide by no zero. */
    predicate CalculationDefined(now: real)
      reads this
    {
      || lastKnownPosition.None?
      || travelToPosition.None?
      || ReachedOrExceeded(travelToPosition.value - lastKnownPosition.value, travelDirection)
      || Elapsed(now) > RemainingTravelTime()
      || ProgressDefined(now)
    }

    /** The interpolated position at `now`. */
    function CalculatePosition(now: real): (r: Option<int>)
      reads this
      requires CalculationDefined(now)
      ensures r.None? <==> lastKnownPosition.None?
      ensures lastKnownPosition.Some? && travelToPosition.None? ==> r == lastKnownPosition
      ensures lastKnownPosition.Some? && travelToPosition.Some? &&
        (|| ReachedOrExceeded(travelToPosition.value - lastKnownPosition.value, travelDirection)
         || Elapsed(now) > RemainingTravelTime())
        ==> r == travelToPosition
    {
      if travelToPosition.None? || lastKnownPosition.None? then lastKnownPosition
      else
        var origin := lastKnownPosition.value;
        var relative := travelToPosition.value - origin;
        if ReachedOrExceeded(relative, travelDirection) then travelToPosition
        else if Elapsed(now) > RemainingTravelTime() then travelToPosition
        else Some(Interpolate(origin, travelToPosition.value, Progress(now)))
    }

    /** Time to travel between two positions: a fixed slats offset next to 0, the rest proportional. */
    function CalculateTravelTime(fromPosition: int, toPosition: int): (r: real)
      ensures fromPosition == 100 && toPosition == 0 ==> r == travelTimeDown
      ensures fromPosition == 0 && toPosition == 100 ==> r == travelTimeUp
      ensures fromPosition == toPosition ==> r == (if fromPosition == 0 then slatsOpenTime else 0.0)
      ensures slatsOpenTime == 0.0 && slatsCloseTime == 0.0 ==>
        r == (if fromPosition > toPosition then travelTimeDown else travelTimeUp) * Abs(toPosition - fromPosition) as real / 100.0
    {
      var travelRange := Abs(toPosition - fromPosition);
      var travelTimeFull := if fromPosition > toPosition then travelTimeDown else travelTimeUp;
      var slatsTime :=
        if fromPosition == 0 || toPosition == 0 then
          (if fromPosition > toPosition then slatsCloseTime else slatsOpenTime)
        else 0.0;
      (travelTimeFull - slatsTime) * (travelRange as real / 100.0) + slatsTime
    }

    // ----------------------------------------------------------------- lemmas

    /**
     * With positions in range and each slats duration between zero and its
     * direction's full travel time, a partial travel never takes longer than
     * a full one, and never less than its slats offset.
     */
    lemma TravelTimeBounds(fromPosition: int, toPosition: int)
      requires 0 <= fromPosition <= 100 && 0 <= toPosition <= 100
      requires 0.0 <= slatsCloseTime <= travelTimeDown && 0.0 <= slatsOpenTime <= travelTimeUp
      ensures 0.0 <= CalculateTravelTime(fromPosition, toPosition)
      ensures CalculateTravelTime(fromPosition, toPosition) <= (if fromPosition > toPosition then travelTimeDown else travelTimeUp)
      ensures CalculateTravelTime(fromPosition, toPosition) >=
                (if fromPosition == 0 || toPosition == 0 then
                   (if fromPosition > toPosition then slatsCloseTime else slatsOpenTime)
                 else 0.0)
    {
      var f := RangeFraction(fromPosition, toPosition);
      var full := if fromPosition > toPosition then travelTimeDown else travelTimeUp;
      var s :=
        if fromPosition == 0 || toPosition == 0 then
          (if fromPosition > toPosition then slatsCloseTime else slatsOpenTime)
        else 0.0;
      assert 0.0 <= s <= full;
      assert 0.0 <= f <= 1.0;
      AffineFraction(s, full - s, f, CalculateTravelTime(fromPosition, toPosition));
    }

    static function RangeFraction(fromPosition: int, toPosition: int): real
    {
      Abs(toPosition - fromPosition) as real / 100.0
    }

    /** Once the elapsed time is non-negative, progress lies in [0, 1]. */
    lemma ProgressInUnitInterval(now: real)
      requires lastKnownPosition.Some? && travelToPosition.Some?
      requires ProgressDefined(now)
      requires 0.0 <= Elapsed(now) <= RemainingTravelTime()
      ensures 0.0 <= Progress(now) <= 1.0
    {
      var e := Elapsed(now);
      var s := ProgressSlatsTime();
      var remaining := RemainingTravelTime();
      if e < s {
        QuotientFraction(e, s);
      } else {
        QuotientFraction(e - s, remaining - s);
      }
    }

    /** For non-negative elapsed time, the estimate lies between origin and target. */
    lemma EstimateBetween(now: real)
      requires lastKnownPosition.Some? && travelToPosition.Some?
      requires CalculationDefined(now)
      requires Elapsed(now) >= 0.0
      ensures CalculatePosition(now).Some?
      ensures Between(CalculatePosition(now).value, lastKnownPosition.value, travelToPosition.value)
    {
      var origin := lastKnownPosition.value;
      var target := travelToPosition.value;
      if !ReachedOrExceeded(target - origin, travelDirection) && Elapsed(now) <= RemainingTravelTime() {
        ProgressInUnitInterval(now);
        InterpolationBetween(origin, target, Progress(now));
      }
    }

    /**
     * Once the remaining travel time has passed, the estimate is the target,
     * provided the slats phase has ended by then.
     */
    lemma ArrivesAtTarget(now: real)
      requires lastKnownPosition.Some? && travelToPosition.Some?
      requires CalculationDefined(now)
      requires Elapsed(now) >= RemainingTravelTime() >= ProgressSlatsTime()
      ensures CalculatePosition(now) == travelToPosition
    {
    }

    /**
     * At the instant travel starts, with non-negative durations, the estimate
     * is still the origin.
     */
    lemma EstimateAtDeparture(now: real)
      requires lastKnownPosition.Some? && travelToPosition.Some?
      requires travelDirection == (if travelToPosition.value > lastKnownPosition.value then DirectionDown else DirectionUp)
      requires Elapsed(now) == 0.0
      requires RemainingTravelTime() >= 0.0 && ProgressSlatsTime() >= 0.0
      requires CalculationDefined(now)
      ensures CalculatePosition(now) == lastKnownPosition
    {
    }

    /** A cover whose target is its last known position stays there. */
    lemma RestingAtTarget(now: real)
      requires lastKnownPosition.Some? && travelToPosition == lastKnownPosition
      requires PositionDefined(now)
      ensures CurrentPosition(now) == lastKnownPosition
    {
    }
  }
}
