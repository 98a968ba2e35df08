/**
 * Concrete scenarios of the estimator: a calculator is built, driven through
 * its operations, and its estimates and fields are read at chosen instants.
 */
module TravelExamples {
  import opened Wrappers
  import opened Travel

  /**
   * A cover taking 100 s each way, no slats: from 90 towards 60 at time 0
   * it is at 80 after 10 s, at 70 after 20 s and reaches 60 after 30 s.
   */
  method PartialOpening() returns (direction: TravelStatus, at10: Option<int>, at20: Option<int>, at30: Option<int>, reached: bool)
    ensures direction == DirectionUp
    ensures at10 == Some(80) && at20 == Some(70) && at30 == Some(60)
    ensures reached
  {
    var c := new TravelCalculator(100.0, 100.0, 0.0, 0.0);
    c.SetPosition(90, 0.0);
    c.StartTravel(60, 0.0);
    direction := c.travelDirection;
    assert c.RemainingTravelTime() == 30.0;
    assert c.Progress(10.0) == 10.0 / 30.0;
    assert Interpolate(90, 60, 10.0 / 30.0) == 80;
    at10 := c.CurrentPosition(10.0);
    assert Interpolate(90, 60, 20.0 / 30.0) == 70;
    at20 := c.CurrentPosition(20.0);
    assert Interpolate(90, 60, 1.0) == 60;
    at30 := c.CurrentPosition(30.0);
    reached := c.PositionReached(30.0);
  }

  /** Target equal to the origin: the direction still resolves to up, and the cover counts as arrived. */
  method StartTowardsOwnPosition() returns (direction: TravelStatus, traveling: bool)
    ensures direction == DirectionUp
    ensures !traveling
  {
    var c := new TravelCalculator(100.0, 100.0, 0.0, 0.0);
    c.SetPosition(40, 0.0);
    c.StartTravel(40, 5.0);
    direction := c.travelDirection;
    traveling := c.IsTraveling(5.0);
  }

  /**
   * Stopping halfway through a 0-to-100 close freezes the estimate as the
   * resting position and the target and keeps the start timestamp; the cover
   * is then neither traveling nor closing.
   */
  method StopHalfway() returns (stopped: Option<int>, target: Option<int>, timestamp: real, traveling: bool, closing: bool)
    ensures stopped == Some(50) && target == Some(50) && timestamp == 0.0
    ensures !traveling && !closing
  {
    var c := new TravelCalculator(100.0, 100.0, 0.0, 0.0);
    c.SetPosition(0, 0.0);
    c.StartTravelDown(0.0);
    assert c.RemainingTravelTime() == 100.0;
    assert Interpolate(0, 100, 50.0 / 100.0) == 50;
    assert c.CurrentPosition(50.0) == Some(50);
    c.Stop(50.0);
    stopped := c.CurrentPosition(50.0);
    target := c.travelToPosition;
    timestamp := c.lastKnownPositionTimestamp;
    traveling := c.IsTraveling(50.0);
    closing := c.IsClosing(50.0);
  }

  /**
   * Closing from 0 with a 20 s slats phase: 10 s in, only 5 of 100 are
   * covered; just before the phase ends the estimate is 9, and when it ends
   * the estimate falls back to 0, the origin.
   */
  method SlatsPhaseBoundary() returns (at10: Option<int>, at19: Option<int>, at20: Option<int>)
    ensures at10 == Some(5) && at19 == Some(9) && at20 == Some(0)
  {
    var c := new TravelCalculator(100.0, 100.0, 0.0, 20.0);
    c.SetPosition(0, 0.0);
    c.StartTravel(100, 0.0);
    assert c.RemainingTravelTime() == 100.0 && c.ProgressSlatsTime() == 20.0;
    assert Interpolate(0, 100, 10.0 / 20.0 * 0.1) == 5;
    at10 := c.CurrentPosition(10.0);
    assert Interpolate(0, 100, 19.0 / 20.0 * 0.1) == 9;
    at19 := c.CurrentPosition(19.0);
    assert Interpolate(0, 100, 0.0) == 0;
    at20 := c.CurrentPosition(20.0);
  }

  /**
   * Closing from 0 to 10 with a 50 s closing slats time: the travel time is
   * computed with the opening slats time (none), 10 s, while the
   * interpolation waits out the closing one; at exactly 10 s the estimate is
   * still the origin, and one second later it is the target.
   */
  method MismatchedSlatsTimes() returns (at10: Option<int>, at11: Option<int>)
    ensures at10 == Some(0) && at11 == Some(10)
  {
    var c := new TravelCalculator(100.0, 100.0, 0.0, 50.0);
    c.SetPosition(0, 0.0);
    c.StartTravel(10, 0.0);
    assert c.RemainingTravelTime() == 10.0 && c.ProgressSlatsTime() == 50.0;
    assert Interpolate(0, 10, 10.0 / 50.0 * 0.1) == 0;
    at10 := c.CurrentPosition(10.0);
    at11 := c.CurrentPosition(11.0);
  }

  /**
   * A stop at the clock reading of the last `SetPosition`, away from 0: the
   * frozen position is unconfirmed, no time has elapsed since the kept
   * timestamp and no travel time remains, so the next estimate at that
   * instant divides 0 by 0.
   */
  method StopAtRecordedInstant() returns (defined: bool)
    ensures !defined
  {
    var c := new TravelCalculator(100.0, 100.0, 0.0, 0.0);
    c.SetPosition(50, 0.0);
    c.Stop(0.0);
    defined := c.PositionDefined(0.0);
  }

  /** An intermediate report does not confirm; a report of the target does. */
  method IntermediateReport() returns (confirmedMidway: bool, confirmedAtTarget: bool, reached: bool)
    ensures !confirmedMidway && confirmedAtTarget && reached
  {
    var c := new TravelCalculator(60.0, 60.0, 0.0, 0.0);
    c.SetPosition(100, 0.0);
    c.StartTravelUp(0.0);
    c.UpdatePosition(50, 30.0);
    confirmedMidway := c.positionConfirmed;
    c.UpdatePosition(0, 60.0);
    confirmedAtTarget := c.positionConfirmed;
    reached := c.PositionReached(61.0);
  }

  /**
   * Opening from 1 to 0 with 10 s slats times: truncation puts the estimate
   * at the target 5 s in; when the slats phase ends at 10 s the progress is
   * back to 0 and the cover is at 1 again, and at 10.45 s it is at 0 once more.
   */
  method ArrivalUndone() returns (at5: bool, at10: bool, at1045: bool)
    ensures at5 && !at10 && at1045
  {
    var c := new TravelCalculator(100.0, 100.0, 10.0, 10.0);
    c.SetPosition(1, 0.0);
    c.StartTravelUp(0.0);
    assert c.RemainingTravelTime() == 10.9 && c.ProgressSlatsTime() == 10.0;
    assert Interpolate(1, 0, 5.0 / 10.0 * 0.1) == 0;
    at5 := c.PositionReached(5.0);
    assert Interpolate(1, 0, 0.0) == 1;
    at10 := c.PositionReached(10.0);
    assert Interpolate(1, 0, 0.45 / 0.9) == 0;
    at1045 := c.PositionReached(10.45);
  }
}
