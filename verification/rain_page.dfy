/**
 * The page controller of frontend/main.js: the rain session (`startRain`,
 * its animation-frame callback `step`, `stopRain`, `setRunning`) and the
 * estimate form handler, whose fetch is given as its outcome. Host callbacks
 * are events: `FetchSettled` is the fetch promise settling, `Step` is the
 * scheduled animation frame firing.
 * The canvas is recorded as the indices of the points plotted since it was
 * last cleared.
 */
module RainPage {
  import opened Results
  import opened LittleEndian
  import opened PointDecoder

  /** The most points one animation frame plots. */
  const BatchSize: nat := 500

  /** `Number(pointInput.value)`: a finite number, or NaN / an infinity. */
  datatype NumInput = Finite(value: real) | NonFinite

  /** How a fetch of `/points?n=…` settles when nothing aborted it. */
  datatype FetchOutcome = Body(bytes: seq<Byte>) | HttpError(status: nat) | NetworkFailure

  /** What reaches the error element. */
  datatype ClientError = ServerError(status: nat) | NetworkError | Malformed(cause: DecodeError)

  /** What the result and error elements show. */
  datatype Status =
    | Idle
    | Raining
    | InvalidCount
    | Cancelled
    | Stopped
    | Failed(error: ClientError)
    | Done(inside: nat, total: real, preview: seq<XY>)

  /** What the estimate handler shows. */
  datatype EstimateOutcome =
    | NotANumber
    | EstimateFailed(error: ClientError)
    | Estimated(inside: nat, total: real, preview: seq<XY>)

  /** The `disabled` flags of the rain, stop and estimate buttons. */
  datatype Buttons = Buttons(rainDisabled: bool, stopDisabled: bool, estimateDisabled: bool)

  /** `setRunning`: rain and estimate are disabled, and stop enabled, exactly when running. */
  function SetRunning(isRunning: bool): (b: Buttons)
    ensures b.rainDisabled == isRunning && b.estimateDisabled == isRunning
    ensures b.stopDisabled == !isRunning
  {
    Buttons(isRunning, !isRunning, isRunning)
  }

  /** The module-level cancellation state and the three buttons. */
  datatype Controls = Controls(
    stopRequested: bool, hasController: bool, abortSignalled: bool,
    frameHandle: bool, framePending: bool, buttons: Buttons)

  /**
   * The input check of `startRain`, the negation of `!Number.isFinite(n) ||
   * n <= 0`: whatever the rain accepts the estimate form accepts too, a zero
   * or negative count is refused in the browser, and every finite positive
   * count goes on to the fetch.
   */
  predicate RainAccepts(input: NumInput): (r: bool)
    ensures r ==> input.Finite?
    ensures input.Finite? && input.value <= 0.0 ==> !r
    ensures input.Finite? && input.value > 0.0 ==> r
  {
    input.Finite? && input.value > 0.0
  }

  /** The plotted indices 0, 1, …, d - 1. */
  function Iota(d: nat): (s: seq<nat>)
  {
    if d == 0 then [] else Iota(d - 1) + [d - 1]
  }

  /** The `drawn` cursor after one frame: at most BatchSize further points. */
  function NextDrawn(drawn: nat, total: nat): (d: nat)
    requires drawn <= total
    ensures drawn <= d <= total && d - drawn <= BatchSize
    ensures d < total ==> d == drawn + BatchSize
  {
    if drawn + BatchSize < total then drawn + BatchSize else total
  }

  /** The `drawn` cursor after k frames none of which saw a stop. */
  function DrawnAfter(k: nat, total: nat): (d: nat)
    ensures d <= total
  {
    if k == 0 then 0 else NextDrawn(DrawnAfter(k - 1, total), total)
  }

  /** After k frames without a stop, exactly min(500k, total) points are plotted. */
  lemma {:induction false} FramesDrawMinimum(k: nat, total: nat)
    ensures DrawnAfter(k, total) == if BatchSize * k < total then BatchSize * k else total
  {
    if k > 0 {
      FramesDrawMinimum(k - 1, total);
    }
  }

  /** What `stopRain` does to the cancellation state and the buttons. */
  function AfterStop(c: Controls): (d: Controls)
    ensures d.stopRequested && !d.hasController && !d.frameHandle
    ensures c.frameHandle || !c.framePending ==> !d.framePending
    ensures d.abortSignalled == (c.abortSignalled || c.hasController)
    ensures d.buttons == SetRunning(false)
  {
    Controls(
      true, false, c.abortSignalled || c.hasController,
      false, if c.frameHandle then false else c.framePending,
      SetRunning(false))
  }

  /** Stopping twice is stopping once. */
  lemma StopIsIdempotent(c: Controls)
    ensures AfterStop(AfterStop(c)) == AfterStop(c)
  {
  }

  class Page {
    // The buttons.
    var buttons: Buttons
    // The result and error text, and the canvas.
    var status: Status
    var canvas: seq<nat>
    // Module-level state: `rainStopRequested`, `rainAbortController !== null`,
    // whether that controller was aborted, `rainAnimationId !== null`.
    var stopRequested: bool
    var hasController: bool
    var abortSignalled: bool
    var frameHandle: bool
    // The host: a fetch started by `startRain` is unsettled; a frame is scheduled.
    var fetchPending: bool
    var framePending: bool
    // The session closure: the requested count, the decoded points, `inside`, `drawn`.
    var n: real
    var points: seq<Point>
    var inside: nat
    var drawn: nat

    ghost function State(): Controls
      reads this
    {
      Controls(stopRequested, hasController, abortSignalled, frameHandle, framePending, buttons)
    }

    /**
     * The buttons follow one flag, the stop button is enabled exactly while a
     * session is live (a frame scheduled, or a fetch nobody aborted), and the
     * canvas holds the first `drawn` points.
     */
    ghost predicate Valid()
      reads this
    {
      drawn <= |points| &&
      canvas == Iota(drawn) &&
      inside == CountInside(points) &&
      (framePending ==> frameHandle && !fetchPending) &&
      (framePending || fetchPending ==> n > 0.0) &&
      (fetchPending ==> drawn == 0) &&
      (fetchPending && !abortSignalled ==> hasController) &&
      buttons == SetRunning(!buttons.stopDisabled) &&
      (!buttons.stopDisabled <==> framePending || (fetchPending && !abortSignalled))
    }

    /** The page as loaded: a blank board, rain and estimate enabled, stop disabled. */
    constructor ()
      ensures Valid()
      ensures status == Idle && canvas == []
      ensures buttons == SetRunning(false)
      ensures !fetchPending && !framePending && !frameHandle && !hasController && !stopRequested
    {
      buttons := SetRunning(false);
      status, canvas := Idle, [];
      stopRequested, hasController, abortSignalled, frameHandle := false, false, false, false;
      fetchPending, framePending := false, false;
      n, points, inside, drawn := 1.0, [], 0, 0;
    }

    /**
     * `startRain` up to the fetch: clears the board, rejects a count that is
     * not finite and positive before touching anything else, and otherwise
     * arms a fresh abort controller and marks the page running.
     */
    method StartRain(input: NumInput)
      requires Valid() && !buttons.rainDisabled && !fetchPending
      modifies this
      ensures Valid()
      ensures canvas == [] && drawn == 0 && points == []
      ensures !RainAccepts(input) ==>
        status == InvalidCount && !fetchPending && buttons == old(buttons) &&
        stopRequested == old(stopRequested) && hasController == old(hasController) &&
        abortSignalled == old(abortSignalled) && frameHandle == old(frameHandle) &&
        framePending == old(framePending)
      ensures RainAccepts(input) ==>
        status == Raining && fetchPending && n == input.value &&
        !stopRequested && hasController && !abortSignalled &&
        buttons == SetRunning(true) && frameHandle == old(frameHandle) && !framePending
    {
      status, canvas := Raining, [];
      // The previous session can no longer run: its closure is dropped.
      points, inside, drawn := [], 0, 0;
      if !RainAccepts(input) {
        status := InvalidCount;
        return;
      }
      stopRequested := false;
      hasController, abortSignalled := true, false;
      buttons := SetRunning(true);
      n := input.value;
      fetchPending := true;
    }

    /** The state the catch block of `startRain` leaves: idle buttons and a blank board. */
    ghost predicate FailedClosed(s: Status)
      reads this
    {
      status == s && canvas == [] && drawn == 0 && !framePending && buttons == SetRunning(false)
    }

    /** The settled fetch ends in the catch block, which shows `s`. */
    method Catch(s: Status)
      requires Valid() && fetchPending
      modifies this
      ensures Valid() && !fetchPending && FailedClosed(s)
      ensures n == old(n) && stopRequested == old(stopRequested)
      ensures hasController == old(hasController) && abortSignalled == old(abortSignalled)
      ensures frameHandle == old(frameHandle)
      ensures points == old(points) && inside == old(inside)
    {
      fetchPending := false;
      status := s;
      buttons := SetRunning(false);
      canvas := [];
    }

    /** The decode loop succeeded: the session holds the points and the first frame is scheduled. */
    method ScheduleFirstFrame(ps: seq<Point>, count: nat)
      requires Valid() && fetchPending && !abortSignalled && count == CountInside(ps)
      modifies this
      ensures Valid() && !fetchPending
      ensures n == old(n) && stopRequested == old(stopRequested)
      ensures hasController == old(hasController) && abortSignalled == old(abortSignalled)
      ensures points == ps && inside == count && drawn == 0 && framePending && frameHandle
      ensures status == old(status) && buttons == SetRunning(true)
    {
      fetchPending := false;
      points, inside, drawn := ps, count, 0;
      framePending, frameHandle := true, true;
    }

    /**
     * The fetch of `startRain` settles. An aborted controller turns any
     * outcome into an AbortError; a non-ok status, a network failure or a
     * body the decoder rejects ends in the catch block; a decoded body
     * schedules the first frame.
     */
    method FetchSettled(outcome: FetchOutcome)
      requires Valid() && fetchPending
      modifies this
      ensures Valid() && !fetchPending
      ensures n == old(n) && stopRequested == old(stopRequested)
      ensures hasController == old(hasController) && abortSignalled == old(abortSignalled)
      ensures old(abortSignalled) ==> FailedClosed(Cancelled)
      ensures !old(abortSignalled) && outcome.HttpError? ==> FailedClosed(Failed(ServerError(outcome.status)))
      ensures !old(abortSignalled) && outcome.NetworkFailure? ==> FailedClosed(Failed(NetworkError))
      ensures !old(abortSignalled) && outcome.Body? && Decode(outcome.bytes).Err? ==>
        FailedClosed(Failed(Malformed(Decode(outcome.bytes).error)))
      ensures !old(abortSignalled) && outcome.Body? && Decode(outcome.bytes).Ok? ==>
        points == Decode(outcome.bytes).value && inside == CountInside(points) &&
        drawn == 0 && framePending && frameHandle && status == old(status) &&
        buttons == SetRunning(true)
      ensures old(abortSignalled) || !(outcome.Body? && Decode(outcome.bytes).Ok?) ==>
        frameHandle == old(frameHandle) && points == old(points) && inside == old(inside)
    {
      if abortSignalled {
        Catch(Cancelled);
        return;
      }
      match outcome {
        case HttpError(code) =>
          Catch(Failed(ServerError(code)));
        case NetworkFailure =>
          Catch(Failed(NetworkError));
        case Body(bytes) =>
          var r := DecodePoints(bytes);
          match r {
            case Err(e) =>
              Catch(Failed(Malformed(e)));
            case Ok(d) =>
              ScheduleFirstFrame(d.points, d.inside);
          }
      }
    }

    /** The inner loop of `step`: plot the next points in order, at most BatchSize of them. */
    method PlotBatch()
      requires drawn <= |points| && canvas == Iota(drawn)
      modifies this`drawn, this`canvas
      ensures drawn == NextDrawn(old(drawn), |points|) && canvas == Iota(drawn)
    {
      var count := 0;
      while drawn < |points| && count < BatchSize
        invariant old(drawn) <= drawn <= |points|
        invariant count == drawn - old(drawn) <= BatchSize
        invariant canvas == Iota(drawn)
      {
        canvas := canvas + [drawn];
        drawn := drawn + 1;
        count := count + 1;
      }
    }

    /**
     * `step`, run by the host when the scheduled frame fires. With the stop
     * flag set it plots nothing; otherwise it plots the next batch of at most
     * 500 points in order, then either reports the estimate over the
     * requested count or schedules the next frame.
     */
    method Step()
      requires Valid() && framePending
      modifies this
      ensures Valid()
      ensures points == old(points) && inside == old(inside) && n == old(n)
      ensures fetchPending == old(fetchPending) && frameHandle == old(frameHandle)
      ensures stopRequested == old(stopRequested) && hasController == old(hasController)
      ensures abortSignalled == old(abortSignalled)
      ensures old(stopRequested) ==>
        drawn == old(drawn) && canvas == old(canvas) && status == Stopped &&
        !framePending && buttons == SetRunning(false)
      ensures !old(stopRequested) ==>
        drawn == NextDrawn(old(drawn), |points|) && canvas == Iota(drawn) &&
        (framePending <==> drawn < |points|)
      ensures !old(stopRequested) && drawn < |points| ==> status == old(status) && buttons == SetRunning(true)
      ensures !old(stopRequested) && drawn == |points| ==>
        status == Done(inside, n, Preview(points)) && buttons == SetRunning(false)
    {
      framePending := false;
      if stopRequested {
        // cancelAnimationFrame targets the frame that is already running.
        buttons := SetRunning(false);
        status := Stopped;
        return;
      }
      PlotBatch();
      if drawn >= |points| {
        status := Done(inside, n, Preview(points));
        buttons := SetRunning(false);
        return;
      }
      framePending := true;
    }

    /**
     * `stopRain`: raises the stop flag, aborts and drops the controller,
     * cancels and drops the scheduled frame, and re-enables the buttons.
     * The text on the page is left as it was.
     */
    method StopRain()
      requires Valid()
      modifies this
      ensures Valid()
      ensures State() == AfterStop(old(State()))
      ensures status == old(status) && canvas == old(canvas) && drawn == old(drawn)
      ensures points == old(points) && inside == old(inside) && n == old(n)
      ensures fetchPending == old(fetchPending)
    {
      stopRequested := true;
      if hasController {
        abortSignalled := true;
        hasController := false;
      }
      if frameHandle {
        framePending := false;
        frameHandle := false;
      }
      buttons := SetRunning(false);
    }
  }

  /**
   * The form's submit handler: only a non-finite count is refused before the
   * request; the estimate divides by the requested count.
   */
  method EstimateSubmit(input: NumInput, outcome: FetchOutcome) returns (r: EstimateOutcome)
    ensures r.NotANumber? <==> input.NonFinite?
    ensures input.Finite? && outcome.HttpError? ==> r == EstimateFailed(ServerError(outcome.status))
    ensures input.Finite? && outcome.NetworkFailure? ==> r == EstimateFailed(NetworkError)
    ensures input.Finite? && outcome.Body? && Decode(outcome.bytes).Err? ==>
      r == EstimateFailed(Malformed(Decode(outcome.bytes).error))
    ensures input.Finite? && outcome.Body? && Decode(outcome.bytes).Ok? ==>
      r == Estimated(CountInside(Decode(outcome.bytes).value), input.value,
                     Preview(Decode(outcome.bytes).value))
  {
    if input.NonFinite? {
      return NotANumber;
    }
    match outcome {
      case HttpError(code) =>
        r := EstimateFailed(ServerError(code));
      case NetworkFailure =>
        r := EstimateFailed(NetworkError);
      case Body(bytes) =>
        var scan := ScanForEstimate(bytes);
        match scan {
          case Err(e) =>
            r := EstimateFailed(Malformed(e));
          case Ok(s) =>
            r := Estimated(s.inside, input.value, s.preview);
        }
    }
  }
}
