/** The scan widget: the state of the frame drawn around the viewfinder, the
    processing-spinner tick, the three drawing loops, and the session that
    turns decoded texts into one `finished` signal.

    The camera, the painter and the progress-bar widget are not modelled;
    what the widget paints is returned as the segments, lines and squares of
    the perimeter and grid (see BorderGeometry). The UR decoder of the bc-ur
    library is an abstract state `URDecoder`, and its `receive_part` is a
    parameter `receive` of the member that calls it. */
module ScanWidget {
  import opened CppInt
  import opened BorderGeometry
  import Worker = QrScanThread

  /** ScanWidget::FrameState. */
  datatype FrameState = Idle | Recognized | Validated | Processing | Progress | Error

  /** The interval, in milliseconds, of the animation timer while processing. */
  const ANIMATION_INTERVAL := 50

  /** What a finished UR decoder holds: the CBOR bytes of the UR, or an error. */
  datatype URResult = URSuccess(cbor: seq<bv8>) | URFailure(message: string)

  /** ur::URDecoder as the widget sees it. */
  datatype URDecoder = URDecoder(percentComplete: real, expectedType: Option<string>, result: Option<URResult>)
  {
    predicate IsComplete() { result.Some? }
    predicate IsSuccess() { result.Some? && result.value.URSuccess? }
    predicate IsFailure() { result.Some? && result.value.URFailure? }
  }

  /** A decoder that has not seen any part. */
  const FRESH_DECODER := URDecoder(0.0, None, None)

  /** What `receive_part` does with one part: reject it, leaving the decoder
      as it was, or accept it and move the decoder to a new state. */
  datatype PartResult = Rejected | Accepted(next: URDecoder)

  /** videoFrameToImage: the null image for a null frame, otherwise the
      frame's picture in ARGB32. */
  function VideoFrameToImage(image: Worker.QImage): (converted: Worker.QImage)
    ensures converted.format == Worker.ARGB32 <==> !Worker.IsNull(image)
    ensures Worker.IsNull(image) ==> Worker.IsNull(converted)
    ensures !Worker.IsNull(image) ==> converted.pixels == image.pixels && converted.width == image.width &&
                                       converted.height == image.height
  {
    if Worker.IsNull(image) then Worker.QImage(0, 0, 0, Worker.Invalid)
    else if image.format != Worker.ARGB32 then Worker.ConvertToFormat(image, Worker.ARGB32)
    else image
  }

  /** Every frame the widget queues is ARGB32. */
  ghost predicate AllArgb32(queue: seq<Worker.QImage>)
  {
    forall i :: 0 <= i < |queue| ==> queue[i].format == Worker.ARGB32
  }

  /** So every frame the widget queues reaches the reader directly, as BGRX
      on a little-endian machine and XRGB on a big-endian one, and never with
      layout None. */
  lemma {:induction false} QueuedFramesReadDirectly(queue: seq<Worker.QImage>, order: Worker.ByteOrder)
    requires AllArgb32(queue)
    ensures forall i :: 0 <= i < |queue| ==>
              && Worker.NormalizedImage(queue[i], order) == queue[i]
              && Worker.ReaderInput(queue[i], order).format
                 == (if order == Worker.LittleEndian then Worker.BGRX else Worker.XRGB)
  {
    forall i | 0 <= i < |queue|
      ensures Worker.NormalizedImage(queue[i], order) == queue[i]
      ensures Worker.ReaderInput(queue[i], order).format
              == (if order == Worker.LittleEndian then Worker.BGRX else Worker.XRGB)
    {
      assert queue[i].format in Worker.DIRECT_FORMATS;
    }
  }

  /** The C++ conversion of a double to int: truncation toward zero. */
  function Truncate(x: real): (n: int)
    ensures x >= 0.0 ==> n as real <= x < n as real + 1.0
    ensures x <= 0.0 ==> n as real - 1.0 < x <= n as real
  {
    if x >= 0.0 then x.Floor else -((-x).Floor)
  }

  /** getURData: the bytes inside the CBOR of a successful UR, or "". */
  function URData(decoder: URDecoder, decodeBytes: seq<bv8> -> string): (data: string)
    ensures !decoder.IsSuccess() ==> data == ""
    ensures decoder.IsSuccess() ==> data == decodeBytes(decoder.result.value.cbor)
  {
    if !decoder.IsSuccess() then "" else decodeBytes(decoder.result.value.cbor)
  }

  /** getURType: the UR type of a successful decoder, or "". */
  function URType(decoder: URDecoder): (urType: string)
    ensures !decoder.IsSuccess() ==> urType == ""
    ensures decoder.IsSuccess() && decoder.expectedType.Some? ==> urType == decoder.expectedType.value
    ensures decoder.IsSuccess() && decoder.expectedType.None? ==> urType == ""
  {
    if !decoder.IsSuccess() then ""
    else if decoder.expectedType.Some? then decoder.expectedType.value
    else ""
  }

  /** getURError: the error of a failed decoder, or the empty string. */
  function URError(decoder: URDecoder): (message: string)
    ensures !decoder.IsFailure() ==> message == ""
    ensures decoder.IsFailure() ==> message == decoder.result.value.message
  {
    if !decoder.IsFailure() then "" else decoder.result.value.message
  }

  /** A decoder is never both successful and failed, so at most one of the
      three getters reports something: data or type after success, an error
      after failure, and nothing at all before the decoder completes. */
  lemma {:induction false} URGettersExclusive(decoder: URDecoder, decodeBytes: seq<bv8> -> string)
    ensures URData(decoder, decodeBytes) != "" || URType(decoder) != "" ==> URError(decoder) == ""
    ensures URError(decoder) != "" ==> URData(decoder, decodeBytes) == "" && URType(decoder) == ""
    ensures !decoder.IsComplete() ==>
              URData(decoder, decodeBytes) == "" && URType(decoder) == "" && URError(decoder) == ""
  {
    if decoder.IsSuccess() {
      assert !decoder.IsFailure();
    }
  }

  /** ScanWidget. `finished` is the list of values emitted through the
      `finished` signal, oldest first; `signalsAtReset` is its length at the
      last reset. The animation timer is `timerActive` and `timerInterval`;
      `lastRunTime` is the previous tick of drawProcessingAnimation, None
      before the first. */
  class ScanWidget {
    var frameState: FrameState
    var animationProgress: int
    var estimatedMilliseconds: int
    var progress: int
    var timerActive: bool
    var timerInterval: int
    var lastRunTime: Option<int>
    var currentUrFrame: int
    var totalUrFrames: int
    var scanUr: bool
    var done: bool
    var handleFrames: bool
    var decodedString: string
    var progressBarValue: int
    var progressBarMaximum: int
    var decoder: URDecoder
    var finished: seq<bool>
    ghost var signalsAtReset: nat
    const borderSize: int
    const thread: Worker.QrScanThread

    /** The timer runs exactly in the Processing state, the spinner counter is
        never negative, every queued frame is ARGB32, and `finished` has been
        emitted once since the last reset if the session is done and not at
        all otherwise. */
    ghost predicate Valid()
      reads this, thread
    {
      && borderSize > 0
      && thread.Valid()
      && AllArgb32(thread.queue)
      && (timerActive <==> frameState == Processing)
      && (timerActive ==> timerInterval == ANIMATION_INTERVAL)
      && animationProgress >= 0
      && signalsAtReset <= |finished|
      && |finished| - signalsAtReset == (if done then 1 else 0)
    }

    constructor (borderSize: int)
      requires borderSize > 0
      ensures Valid() && fresh(thread)
      ensures this.borderSize == borderSize
      ensures frameState == Idle && !timerActive && animationProgress == 0 && lastRunTime == None
      ensures !done && !scanUr && handleFrames && decoder == FRESH_DECODER && finished == []
      ensures thread.queue == [] && thread.running && !thread.active
    {
      this.borderSize := borderSize;
      thread := new Worker.QrScanThread();
      frameState := Idle;
      animationProgress := 0;
      estimatedMilliseconds := 0;
      progress := 0;
      timerActive := false;
      timerInterval := 0;
      lastRunTime := None;
      currentUrFrame := 0;
      totalUrFrames := 0;
      scanUr := false;
      done := false;
      handleFrames := true;
      decodedString := "";
      progressBarValue := 0;
      progressBarMaximum := 100;
      decoder := FRESH_DECODER;
      finished := [];
      signalsAtReset := 0;
    }

    /** updateFrameState: nothing happens when the state is already `state`;
        entering Processing restarts the spinner and its 50 ms timer, entering
        any other state stops the timer. */
    method UpdateFrameState(state: FrameState)
      requires Valid()
      modifies this`frameState, this`animationProgress, this`timerActive, this`timerInterval
      ensures Valid()
      ensures frameState == state
      ensures state == old(frameState) ==>
                animationProgress == old(animationProgress) && timerActive == old(timerActive) &&
                timerInterval == old(timerInterval)
      ensures state != old(frameState) && state == Processing ==>
                animationProgress == 0 && timerActive && timerInterval == ANIMATION_INTERVAL
      ensures state != old(frameState) && state != Processing ==>
                animationProgress == old(animationProgress) && !timerActive && timerInterval == old(timerInterval)
    {
      if state == frameState {
        return;
      }
      frameState := state;
      if state == Processing {
        animationProgress := 0;
        timerActive := true;
        timerInterval := ANIMATION_INTERVAL;
      } else {
        timerActive := false;
      }
    }

    method OnFrameStateIdle()
      requires Valid()
      modifies this`frameState, this`animationProgress, this`timerActive, this`timerInterval
      ensures Valid() && frameState == Idle && !timerActive
      ensures animationProgress == old(animationProgress) && timerInterval == old(timerInterval)
    {
      UpdateFrameState(Idle);
    }

    method OnFrameStateRecognized()
      requires Valid()
      modifies this`frameState, this`animationProgress, this`timerActive, this`timerInterval
      ensures Valid() && frameState == Recognized && !timerActive
      ensures animationProgress == old(animationProgress) && timerInterval == old(timerInterval)
    {
      UpdateFrameState(Recognized);
    }

    method OnFrameStateValidated()
      requires Valid()
      modifies this`frameState, this`animationProgress, this`timerActive, this`timerInterval
      ensures Valid() && frameState == Validated && !timerActive
      ensures animationProgress == old(animationProgress) && timerInterval == old(timerInterval)
    {
      UpdateFrameState(Validated);
    }

    method OnFrameStateError()
      requires Valid()
      modifies this`frameState, this`animationProgress, this`timerActive, this`timerInterval
      ensures Valid() && frameState == Error && !timerActive
      ensures animationProgress == old(animationProgress) && timerInterval == old(timerInterval)
    {
      UpdateFrameState(Error);
    }

    /** onFrameStateProcessing: the first estimate after entering Processing
        replaces the old one and restarts the spinner; further estimates while
        processing add up and leave the spinner where it is. */
    method OnFrameStateProcessing(estimate: int)
      requires Valid()
      modifies this`frameState, this`animationProgress, this`timerActive, this`timerInterval,
               this`estimatedMilliseconds
      ensures Valid() && frameState == Processing && timerActive && timerInterval == ANIMATION_INTERVAL
      ensures old(frameState) != Processing ==> estimatedMilliseconds == estimate && animationProgress == 0
      ensures old(frameState) == Processing ==>
                estimatedMilliseconds == old(estimatedMilliseconds) + estimate &&
                animationProgress == old(animationProgress)
    {
      if frameState != Processing {
        UpdateFrameState(Processing);
        estimatedMilliseconds := estimate;
      } else {
        estimatedMilliseconds := estimatedMilliseconds + estimate;
      }
    }

    /** onFrameStateProgress: switch to Progress unless already there, and
        always store the percentage. */
    method OnFrameStateProgress(percent: int)
      requires Valid()
      modifies this`frameState, this`animationProgress, this`timerActive, this`timerInterval, this`progress
      ensures Valid() && frameState == Progress && !timerActive && progress == percent
      ensures animationProgress == old(animationProgress) && timerInterval == old(timerInterval)
    {
      if frameState != Progress {
        UpdateFrameState(Progress);
      }
      progress := percent;
    }

    method OnProgressUpdate(percent: int)
      modifies this`progress
      ensures progress == percent
    {
      progress := percent;
    }

    method OnProcessingTimeEstimate(estimate: int)
      modifies this`estimatedMilliseconds
      ensures estimatedMilliseconds == estimate
    {
      estimatedMilliseconds := estimate;
    }

    method OnUrFrame(currentFrame: int)
      modifies this`currentUrFrame
      ensures currentUrFrame == currentFrame
    {
      currentUrFrame := currentFrame;
    }

    method OnTotalUrFrames(totalFrames: int)
      modifies this`totalUrFrames
      ensures totalUrFrames == totalFrames
    {
      totalUrFrames := totalFrames;
    }

    /** animateProcessing: one timer tick moves the spinner one step. */
    method AnimateProcessing()
      requires Valid()
      modifies this`animationProgress
      ensures Valid() && animationProgress == old(animationProgress) + 1
    {
      animationProgress := animationProgress + 1;
    }

    /** drawProcessingAnimation at time `now` (milliseconds). The time since
        the previous call is taken off the estimate, which stops at 0; the
        spinner counter is reduced modulo the perimeter length; and the
        segments drawn on each side are returned. On a positive perimeter
        they are ProcessingSegments, which SpinnerDrawsExactlyTheRun shows to
        be the highlighted run. On a zero perimeter the source divides by
        zero; here nothing is drawn and the counter is left as it is. */
    method DrawProcessingAnimation(rect: Rect, now: int) returns (segments: seq<seq<Segment>>)
      requires Valid()
      modifies this`lastRunTime, this`estimatedMilliseconds, this`animationProgress
      ensures Valid()
      ensures lastRunTime == Some(now)
      ensures var elapsed := if old(lastRunTime).Some? then now - old(lastRunTime).value else 0;
              estimatedMilliseconds == Max(old(estimatedMilliseconds) - elapsed, 0)
      ensures var totalLength := TotalLength(rect.width, rect.height, borderSize);
              totalLength != 0 ==>
                && animationProgress == Rem(old(animationProgress), totalLength)
                && animationProgress < Abs(totalLength)
      ensures TotalLength(rect.width, rect.height, borderSize) == 0 ==>
                animationProgress == old(animationProgress) && segments == [[], [], [], []]
      ensures |segments| == 4
      ensures TotalLength(rect.width, rect.height, borderSize) > 0 ==>
                segments == ProcessingSegments(rect.width, rect.height, borderSize,
                                               animationProgress, estimatedMilliseconds)
    {
      var currentTime := now;
      var elapsedMilliseconds := if lastRunTime.Some? then currentTime - lastRunTime.value else 0;
      lastRunTime := Some(currentTime);

      estimatedMilliseconds := estimatedMilliseconds - elapsedMilliseconds;
      if estimatedMilliseconds < 0 {
        estimatedMilliseconds := 0;
      }

      var totalLength := TotalLength(rect.width, rect.height, borderSize);
      if totalLength == 0 {
        segments := [[], [], [], []];
        return;
      }
      animationProgress := Rem(animationProgress, totalLength);
      // At least 1 by CurrentLength's contract, so nothing returns early here.
      var currentLength := CurrentLength(totalLength, estimatedMilliseconds);
      var currentStart := totalLength - animationProgress;
      var currentEnd := Rem(currentStart + currentLength, totalLength);
      var ranges := SideRanges(rect.width, rect.height, borderSize);

      segments := [];
      for i := 0 to 4
        invariant |segments| == i
        invariant forall j :: 0 <= j < i ==> segments[j] == ClipToSide(currentStart, currentEnd, ranges[j])
      {
        segments := segments + [ClipToSide(currentStart, currentEnd, ranges[i])];
      }

      if totalLength > 0 {
        var run := HighlightedRun(totalLength, animationProgress, estimatedMilliseconds);
        assert run.start == currentStart && run.end == currentEnd;
        var expected := ProcessingSegments(rect.width, rect.height, borderSize, animationProgress, estimatedMilliseconds);
        assert forall j :: 0 <= j < 4 ==> segments[j] == expected[j];
      }
    }

    /** drawProgressAnimation: one line per perimeter step covered by the
        percentage, each from the previous point to the next point on the
        border, starting at the top-left corner. The points come from the
        corrected mapping GetPointOnBorder. */
    method DrawProgressAnimation(rect: Rect) returns (lines: seq<Line>)
      requires Valid()
      ensures lines == ProgressLines(rect, borderSize, progress)
    {
      var progressPixels := ProgressPixels(rect, borderSize, progress);
      var start := Point(rect.left, rect.top);
      var end := start;
      lines := [];
      var i := 0;
      while i < progressPixels
        invariant 0 <= i <= Max(progressPixels, 0)
        invariant |lines| == i
        invariant i == 0 ==> end == start
        invariant i > 0 ==> CalculateTotalPixels(rect, borderSize) != 0 &&
                            end == GetPointOnBorder(rect, borderSize, i)
        invariant forall j :: 0 <= j < i ==> lines[j] == ProgressLines(rect, borderSize, progress)[j]
      {
        var nextPoint := GetPointOnBorder(rect, borderSize, i + 1);
        lines := lines + [Line(end, nextPoint)];
        end := nextPoint;
        i := i + 1;
      }
    }

    /** drawUrFramesProgress: one square per expected part, laid out row by
        row. The source divides by the square pitch and by the column count;
        when either is zero (a frame narrower than one square and its
        spacing) nothing is drawn here. */
    method DrawUrFramesProgress(rect: Rect) returns (squares: seq<UrSquare>)
      requires Valid()
      ensures FrameSize(rect) + borderSize != 0 && Columns(rect, borderSize) != 0 ==>
                squares == UrSquares(rect, borderSize, totalUrFrames, currentUrFrame)
      ensures FrameSize(rect) + borderSize == 0 || Columns(rect, borderSize) == 0 ==> squares == []
    {
      var frameSize := Div(Min(rect.width, rect.height), 5);
      var spacing := borderSize;
      squares := [];
      if frameSize + spacing == 0 {
        return;
      }
      var columns := Div(rect.width, frameSize + spacing);
      if columns == 0 {
        return;
      }
      var i := 0;
      while i < totalUrFrames
        invariant 0 <= i <= Max(totalUrFrames, 0)
        invariant |squares| == i
        invariant forall j :: 0 <= j < i ==> squares[j] == UrSquareAt(rect, spacing, currentUrFrame, j)
      {
        var row := Div(i, columns);
        var col := Rem(i, columns);
        var frameRect := Rect(rect.left + col * (frameSize + spacing), rect.top + row * (frameSize + spacing),
                              frameSize, frameSize);
        var ring := if i == currentUrFrame - 1 then Some(PulseRect(frameRect)) else None;
        squares := squares + [UrSquare(frameRect, i < currentUrFrame, ring)];
        i := i + 1;
      }
    }

    /** startCapture once the camera may be used: remember the mode, go back
        to Idle, and with a camera present start the worker unless it runs. */
    method StartCapture(scanUr: bool, cameraCount: int)
      requires Valid()
      modifies this`scanUr, this`frameState, this`animationProgress, this`timerActive, this`timerInterval, thread
      ensures Valid()
      ensures this.scanUr == scanUr && frameState == Idle && !timerActive
      ensures animationProgress == old(animationProgress) && timerInterval == old(timerInterval)
      ensures cameraCount < 1 || old(thread.active) ==>
                thread.queue == old(thread.queue) && thread.running == old(thread.running) && thread.active == old(thread.active)
      ensures cameraCount >= 1 && !old(thread.active) ==> thread.queue == [] && thread.running && thread.active
      ensures thread.decoded == old(thread.decoded)
    {
      this.scanUr := scanUr;
      UpdateFrameState(Idle);
      if cameraCount < 1 {
        return;
      }
      if !thread.active {
        thread.Start();
      }
    }

    /** reset: a new session. The decoded text, the done flag, the progress
        bar and the decoder start over, the worker restarts with an empty
        queue, and frames are handled again. */
    method Reset()
      requires Valid()
      modifies this`decodedString, this`done, this`progressBarValue, this`decoder, this`handleFrames,
               this`signalsAtReset, thread
      ensures Valid()
      ensures decodedString == "" && !done && progressBarValue == 0 && decoder == FRESH_DECODER && handleFrames
      ensures thread.queue == [] && thread.running && thread.active && thread.decoded == old(thread.decoded)
      ensures finished == old(finished) && signalsAtReset == |finished|
    {
      decodedString := "";
      done := false;
      progressBarValue := 0;
      decoder := FRESH_DECODER;
      thread.Start();
      handleFrames := true;
      signalsAtReset := |finished|;
    }

    /** stop: the worker stops; its queue stays. */
    method Stop()
      requires Valid()
      modifies thread`running
      ensures Valid() && !thread.running
    {
      thread.Stop();
    }

    /** pause: captured frames are ignored from now on. */
    method Pause()
      modifies this`handleFrames
      ensures !handleFrames
    {
      handleFrames := false;
    }

    /** handleFrameCaptured: a frame reaches the worker's queue only while
        frames are handled, the worker runs, and the frame is not null. */
    method HandleFrameCaptured(frame: Worker.QImage)
      requires Valid()
      modifies thread`queue
      ensures Valid()
      ensures handleFrames && thread.active && !Worker.IsNull(frame) ==>
                thread.queue == Worker.Enqueued(old(thread.queue), VideoFrameToImage(frame))
      ensures !(handleFrames && thread.active && !Worker.IsNull(frame)) ==> thread.queue == old(thread.queue)
    {
      if !handleFrames {
        return;
      }
      if !thread.active {
        return;
      }
      var img := VideoFrameToImage(frame);
      if img.format == Worker.ARGB32 {
        thread.AddImage(img);
      }
    }

    /** onDecoded: once done, nothing. In UR mode a rejected part changes
        nothing; an accepted part updates the decoder, the frame state and
        the progress bar, and a part that completes the decoder ends the
        session with `finished(is_success)`. Otherwise the text itself ends
        the session with `finished(true)`. Either way `finished` is emitted
        at most once between resets (Valid). */
    method OnDecoded(data: string, receive: (URDecoder, string) -> PartResult)
      requires Valid()
      modifies this`decoder, this`frameState, this`animationProgress, this`timerActive, this`timerInterval,
               this`progressBarValue, this`progressBarMaximum, this`done, this`decodedString, this`finished,
               thread`running
      ensures Valid()
      ensures old(done) || (scanUr && receive(old(decoder), data).Rejected?) ==>
                unchanged(this) && unchanged(thread)
      ensures !old(done) && scanUr && receive(old(decoder), data).Accepted? ==>
                && decoder == receive(old(decoder), data).next
                && frameState == Recognized && !timerActive
                && animationProgress == old(animationProgress) && timerInterval == old(timerInterval)
                && progressBarValue == Truncate(decoder.percentComplete * 100.0) && progressBarMaximum == 100
                && decodedString == old(decodedString)
                && (done <==> decoder.IsComplete())
                && (done ==> finished == old(finished) + [decoder.IsSuccess()] && !thread.running)
                && (!done ==> finished == old(finished) && thread.running == old(thread.running))
      ensures !old(done) && !scanUr ==>
                && decodedString == data && done && !thread.running
                && finished == old(finished) + [true]
                && decoder == old(decoder) && frameState == old(frameState)
                && animationProgress == old(animationProgress) && timerActive == old(timerActive)
                && timerInterval == old(timerInterval)
                && progressBarValue == old(progressBarValue) && progressBarMaximum == old(progressBarMaximum)
    {
      if done {
        return;
      }

      if scanUr {
        var part := receive(decoder, data);
        if part.Rejected? {
          return;
        }
        decoder := part.next;

        UpdateFrameState(Recognized);

        progressBarValue := Truncate(decoder.percentComplete * 100.0);
        progressBarMaximum := 100;

        if decoder.IsComplete() {
          done := true;
          thread.Stop();
          finished := finished + [decoder.IsSuccess()];
        }
        return;
      }

      decodedString := data;
      done := true;
      thread.Stop();
      finished := finished + [true];
    }
  }
}
