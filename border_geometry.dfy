/** Integer geometry of the scan widget's overlay: the perimeter of the frame
    rectangle walked clockwise from its top-left corner in steps of the border
    size, the highlighted run of the processing spinner and how it is clipped to
    the four sides, the points of the progress border, and the grid of squares
    that shows which parts of a multi-part code have been scanned.
    Everything here is what the painting code computes; the QPainter calls
    themselves are not modelled. */
module BorderGeometry {
  import opened CppInt

  /** A QRect: `left`, `top`, `width` and `height` as Qt stores them. The right
      and bottom edges are the last pixel column and row inside the rectangle. */
  datatype Rect = Rect(left: int, top: int, width: int, height: int) {
    function Right(): int { left + width - 1 }
    function Bottom(): int { top + height - 1 }
  }

  datatype Point = Point(x: int, y: int)

  datatype Option<T> = None | Some(value: T)

  /** The perimeter steps `segStart` to `segEnd`, both included. It is used for
      the index range of a side and for a piece of the highlighted run. */
  datatype Segment = Segment(segStart: int, segEnd: int)

  // ---------------------------------------------------------------------
  // Perimeter length

  /** `totalLength` of drawProcessingAnimation. */
  function TotalLength(width: int, height: int, borderSize: int): (totalLength: int)
    requires borderSize != 0
  {
    Div((width + height) * 2, borderSize) - 4
  }

  /** calculateTotalPixels. */
  function CalculateTotalPixels(rect: Rect, borderSize: int): (totalPixels: int)
    requires borderSize != 0
  {
    Div(rect.height * 2 + rect.width * 2, borderSize) - 4
  }

  /** The spinner and the progress border count the same perimeter. */
  lemma TotalPixelsIsTotalLength(rect: Rect, borderSize: int)
    requires borderSize != 0
    ensures CalculateTotalPixels(rect, borderSize) == TotalLength(rect.width, rect.height, borderSize)
  {
    assert rect.height * 2 + rect.width * 2 == (rect.width + rect.height) * 2;
  }

  /** A frame exactly one border wide and high has no perimeter steps at all,
      so the spinner's `% totalLength` divides by zero for it. */
  lemma {:induction false} SquareFrameHasNoPerimeter(borderSize: int)
    requires borderSize > 0
    ensures TotalLength(borderSize, borderSize, borderSize) == 0
  {
    assert (borderSize + borderSize) * 2 == 4 * borderSize;
    DivOfMultiple(4, borderSize);
  }

  /** The frame paintEvent draws in: the widget's rectangle moved in by half
      a border on every side, as QRect::adjusted does. */
  function FrameRect(widget: Rect, borderSize: int): (frame: Rect)
    requires borderSize > 0
    ensures frame.left == widget.left + Div(borderSize, 2) && frame.Right() == widget.Right() - Div(borderSize, 2)
    ensures frame.top == widget.top + Div(borderSize, 2) && frame.Bottom() == widget.Bottom() - Div(borderSize, 2)
  {
    var half := Div(borderSize, 2);
    Rect(widget.left + half, widget.top + half, widget.width - 2 * half, widget.height - 2 * half)
  }

  /** A square widget two (even) borders wide gets a frame one border wide
      and high, whose perimeter has no steps: painting it in the Processing
      state takes `% totalLength` with totalLength 0. */
  lemma {:induction false} DoubleBorderWidgetHasNoPerimeter(borderSize: int)
    requires borderSize > 0 && borderSize % 2 == 0
    ensures var frame := FrameRect(Rect(0, 0, 2 * borderSize, 2 * borderSize), borderSize);
            frame.width == borderSize && frame.height == borderSize &&
            TotalLength(frame.width, frame.height, borderSize) == 0
  {
    assert borderSize == 2 * (borderSize / 2) + borderSize % 2;
    SquareFrameHasNoPerimeter(borderSize);
  }

  // ---------------------------------------------------------------------
  // The processing spinner

  /** currentLength, currentStart and currentEnd of drawProcessingAnimation. */
  datatype Run = Run(length: int, start: int, end: int)

  /** currentLength: the remaining time in tenths of a second, kept between one
      step and ten steps short of the whole perimeter. */
  function CurrentLength(totalLength: int, estimatedMilliseconds: int): (length: int)
    ensures 1 <= length <= Max(totalLength - 10, 1)
    ensures 1 <= Div(estimatedMilliseconds, 100) <= totalLength - 10 ==>
              length == Div(estimatedMilliseconds, 100)
  {
    Max(Min(totalLength - 10, Div(estimatedMilliseconds, 100)), 1)
  }

  /** The run that the spinner highlights once the progress counter has been
      reduced modulo the perimeter. */
  function HighlightedRun(totalLength: int, animationProgress: int, estimatedMilliseconds: int): (run: Run)
    requires 0 <= animationProgress < totalLength
    ensures 0 < run.start <= totalLength && 0 <= run.end < totalLength
    ensures run.length == CurrentLength(totalLength, estimatedMilliseconds)
  {
    var length := CurrentLength(totalLength, estimatedMilliseconds);
    var start := totalLength - animationProgress;
    Run(length, start, Rem(start + length, totalLength))
  }

  /** Reference reading of the run: the `length + 1` steps `start`,
      `start + 1`, ..., `start + length`, counted modulo the perimeter. */
  predicate InRun(k: int, run: Run, totalLength: int)
    requires totalLength > 0
  {
    (k - run.start) % totalLength <= run.length
  }

  /** The run as the clipping code reads it: one interval, or the two pieces
      `currentStart..` and `..currentEnd` when it wraps past the last step. */
  predicate InSplitRun(k: int, currentStart: int, currentEnd: int)
  {
    if currentStart <= currentEnd then currentStart <= k <= currentEnd
    else currentStart <= k || k <= currentEnd
  }

  /** On the perimeter, the interval test of the clipping code is exactly the
      modular run. */
  lemma {:induction false} SplitRunIsRun(totalLength: int, animationProgress: int, estimatedMilliseconds: int, k: int)
    requires 0 <= animationProgress < totalLength
    requires 0 <= k < totalLength
    ensures var run := HighlightedRun(totalLength, animationProgress, estimatedMilliseconds);
            InRun(k, run, totalLength) <==> InSplitRun(k, run.start, run.end)
  {
    var run := HighlightedRun(totalLength, animationProgress, estimatedMilliseconds);
    var t, s, l := totalLength, run.start, run.length;
    assert run.end == (s + l) % t;
    if t == 1 {
      DivModIs(s + l, t, 2, 0);
      DivModIs(k - s, t, -1, 0);
    } else {
      if s + l < t {
        DivModIs(s + l, t, 0, s + l);
      } else {
        DivModIs(s + l, t, 1, s + l - t);
      }
      if k >= s {
        DivModIs(k - s, t, 0, k - s);
      } else {
        DivModIs(k - s, t, -1, k - s + t);
      }
    }
  }

  /** `sides` of drawProcessingAnimation: steps along the top, right, bottom
      and left sides. */
  function Sides(width: int, height: int, borderSize: int): (sides: seq<int>)
    requires borderSize != 0
    ensures |sides| == 4
  {
    var across := Div(width - borderSize, borderSize);
    var down := Div(height - borderSize, borderSize);
    [across, down, across, down]
  }

  /** `starts` and `ends` of drawProcessingAnimation, one Segment per side;
      the left side runs up to the last perimeter step. */
  function SideRanges(width: int, height: int, borderSize: int): (ranges: seq<Segment>)
    requires borderSize != 0
    ensures |ranges| == 4
  {
    var s := Sides(width, height, borderSize);
    [ Segment(0, s[0] - 1),
      Segment(s[0], s[0] + s[1] - 1),
      Segment(s[0] + s[1], s[0] + s[1] + s[2] - 1),
      Segment(s[0] + s[1] + s[2], TotalLength(width, height, borderSize) - 1) ]
  }

  /** For a frame at least one border wide and high, the four side ranges
      follow each other without gap or overlap from step 0 to the last step,
      and none has negative length: every perimeter step is on exactly one side.
      A frame lower or narrower than one border is left out on purpose: there
      `(height - borderSize) / borderSize` truncates to 0 instead of -1, and
      the sides can run past the last step (see FlatFrameSidesOverrun). */
  lemma {:induction false} SideRangesTilePerimeter(width: int, height: int, borderSize: int)
    requires 0 < borderSize <= width && borderSize <= height
    requires TotalLength(width, height, borderSize) > 0
    ensures var ranges := SideRanges(width, height, borderSize);
            && ranges[0].segStart == 0
            && (forall i :: 0 <= i < 3 ==> ranges[i + 1].segStart == ranges[i].segEnd + 1)
            && ranges[3].segEnd == TotalLength(width, height, borderSize) - 1
            && forall i :: 0 <= i < 4 ==>
                 0 <= ranges[i].segStart <= ranges[i].segEnd + 1 <= TotalLength(width, height, borderSize)
  {
    var s := Sides(width, height, borderSize);
    SidesFitPerimeter(width, height, borderSize);
    assert 0 <= s[0] && 0 <= s[1] && 2 * s[0] + s[1] <= TotalLength(width, height, borderSize);
  }

  /** A frame 15 pixels wide and 1 high with a 5-pixel border has 2 perimeter
      steps, yet the top and bottom sides take 2 steps each, so the left side
      starts at step 4, past the end of the perimeter. */
  lemma FlatFrameSidesOverrun()
    ensures TotalLength(15, 1, 5) == 2
    ensures SideRanges(15, 1, 5)[3].segStart == 4 > TotalLength(15, 1, 5)
  {
    assert Div(32, 5) == 6;
    assert Div(10, 5) == 2;
    assert Div(-4, 5) == 0;
  }

  /** The top, right and bottom sides together take no more steps than the
      whole perimeter, and none of them is negative. */
  lemma SidesFitPerimeter(width: int, height: int, b: int)
    requires 0 < b <= width && b <= height
    ensures var across, down := Div(width - b, b), Div(height - b, b);
            0 <= across && 0 <= down && 2 * across + down <= TotalLength(width, height, b)
  {
    var across, down := Div(width - b, b), Div(height - b, b);
    OneStepLess(width, b);
    OneStepLess(height, b);
    assert across == width / b - 1 && down == height / b - 1;
    AtLeastOneStep(width, b);
    AtLeastOneStep(height, b);
    DivSuperadditive(width + width, height + height, b);
    DivSuperadditive(width, width, b);
    DivSuperadditive(height, height, b);
    assert (width + height) * 2 == (width + width) + (height + height);
    var t := TotalLength(width, height, b);
    assert t >= 2 * (width / b) + 2 * (height / b) - 4;
  }

  /** Where a side falls inside the run: drawSegment's arguments at lines 162-181. */
  function ClipToSide(currentStart: int, currentEnd: int, side: Segment): (segments: seq<Segment>)
    ensures |segments| <= 2
    ensures forall j :: 0 <= j < |segments| && segments[j].segStart <= segments[j].segEnd ==>
              side.segStart <= segments[j].segStart && segments[j].segEnd <= side.segEnd
  {
    var start, end := side.segStart, side.segEnd;
    if currentStart <= currentEnd then
      if currentStart <= start && currentEnd >= end then [Segment(start, end)]
      else if start <= currentStart <= end then [Segment(currentStart, Min(currentEnd, end))]
      else if start <= currentEnd <= end then [Segment(start, currentEnd)]
      else []
    else if currentStart <= start || currentEnd >= end then [Segment(start, end)]
    else
      (if start <= currentStart <= end then [Segment(currentStart, end)] else []) +
      (if start <= currentEnd <= end then [Segment(start, currentEnd)] else [])
  }

  /** Step `k` lies on one of the segments. */
  predicate Covered(segments: seq<Segment>, k: int)
  {
    exists j :: 0 <= j < |segments| && segments[j].segStart <= k <= segments[j].segEnd
  }

  /** Inside its side, the clipped segments cover a step exactly when the run
      does: nothing of the run is lost and nothing outside it is drawn. */
  lemma ClipCoversRunOnSide(currentStart: int, currentEnd: int, side: Segment, k: int)
    requires side.segStart <= k <= side.segEnd
    ensures Covered(ClipToSide(currentStart, currentEnd, side), k) <==> InSplitRun(k, currentStart, currentEnd)
  {
    var segments := ClipToSide(currentStart, currentEnd, side);
    var start, end := side.segStart, side.segEnd;
    if InSplitRun(k, currentStart, currentEnd) {
      if currentStart <= currentEnd {
        assert segments[0].segStart <= k <= segments[0].segEnd;
      } else if currentStart <= start || currentEnd >= end {
        assert segments[0].segStart <= k <= segments[0].segEnd;
      } else if currentStart <= k {
        assert segments[0] == Segment(currentStart, end);
      } else {
        assert segments[|segments| - 1] == Segment(start, currentEnd);
      }
    }
  }

  /** The segments drawn on the four sides for a progress counter already
      reduced below the perimeter length. */
  function ProcessingSegments(width: int, height: int, borderSize: int,
                              animationProgress: int, estimatedMilliseconds: int): (sides: seq<seq<Segment>>)
    requires borderSize != 0
    requires 0 <= animationProgress < TotalLength(width, height, borderSize)
    ensures |sides| == 4
  {
    var run := HighlightedRun(TotalLength(width, height, borderSize), animationProgress, estimatedMilliseconds);
    var ranges := SideRanges(width, height, borderSize);
    seq(4, i requires 0 <= i < 4 => ClipToSide(run.start, run.end, ranges[i]))
  }

  /** Step `k` is drawn on some side. */
  predicate Drawn(sides: seq<seq<Segment>>, k: int)
  {
    exists i :: 0 <= i < |sides| && Covered(sides[i], k)
  }

  /** A step drawn on a side belongs to that side. */
  lemma CoveredOnlyOnSide(currentStart: int, currentEnd: int, side: Segment, k: int)
    requires Covered(ClipToSide(currentStart, currentEnd, side), k)
    ensures side.segStart <= k <= side.segEnd
  {
    var segments := ClipToSide(currentStart, currentEnd, side);
    var j :| 0 <= j < |segments| && segments[j].segStart <= k <= segments[j].segEnd;
  }

  /** The spinner fills exactly the steps of the highlighted run, each on the
      side that owns it. */
  lemma {:induction false} SpinnerDrawsExactlyTheRun(width: int, height: int, borderSize: int,
                                                     animationProgress: int, estimatedMilliseconds: int, k: int)
    requires 0 < borderSize <= width && borderSize <= height
    requires 0 <= animationProgress < TotalLength(width, height, borderSize)
    requires 0 <= k < TotalLength(width, height, borderSize)
    ensures var t := TotalLength(width, height, borderSize);
            Drawn(ProcessingSegments(width, height, borderSize, animationProgress, estimatedMilliseconds), k)
            <==> InRun(k, HighlightedRun(t, animationProgress, estimatedMilliseconds), t)
    ensures var sides := ProcessingSegments(width, height, borderSize, animationProgress, estimatedMilliseconds);
            var ranges := SideRanges(width, height, borderSize);
            forall i :: 0 <= i < 4 && Covered(sides[i], k) ==> ranges[i].segStart <= k <= ranges[i].segEnd
  {
    var t := TotalLength(width, height, borderSize);
    var run := HighlightedRun(t, animationProgress, estimatedMilliseconds);
    var ranges := SideRanges(width, height, borderSize);
    var sides := ProcessingSegments(width, height, borderSize, animationProgress, estimatedMilliseconds);
    assert forall i :: 0 <= i < 4 ==> sides[i] == ClipToSide(run.start, run.end, ranges[i]);
    forall i | 0 <= i < 4 && Covered(sides[i], k)
      ensures ranges[i].segStart <= k <= ranges[i].segEnd
    {
      CoveredOnlyOnSide(run.start, run.end, ranges[i], k);
    }
    SideRangesTilePerimeter(width, height, borderSize);
    var owner := if k <= ranges[0].segEnd then 0
                 else if k <= ranges[1].segEnd then 1
                 else if k <= ranges[2].segEnd then 2
                 else 3;
    assert ranges[owner].segStart <= k <= ranges[owner].segEnd;
    ClipCoversRunOnSide(run.start, run.end, ranges[owner], k);
    SplitRunIsRun(t, animationProgress, estimatedMilliseconds, k);
    DrawnOnlyByOwner(sides, ranges, k, owner);
  }

  /** When the side ranges tile the perimeter and every side draws only inside
      its own range, a step is drawn exactly when the side owning it draws it. */
  lemma DrawnOnlyByOwner(sides: seq<seq<Segment>>, ranges: seq<Segment>, k: int, owner: int)
    requires |sides| == 4 && |ranges| == 4 && 0 <= owner < 4
    requires forall i :: 0 <= i < 3 ==> ranges[i + 1].segStart == ranges[i].segEnd + 1
    requires forall i :: 0 <= i < 4 ==> ranges[i].segStart <= ranges[i].segEnd + 1
    requires ranges[owner].segStart <= k <= ranges[owner].segEnd
    requires forall i :: 0 <= i < 4 && Covered(sides[i], k) ==> ranges[i].segStart <= k <= ranges[i].segEnd
    ensures Drawn(sides, k) <==> Covered(sides[owner], k)
  {
    var r0, r1, r2, r3 := ranges[0], ranges[1], ranges[2], ranges[3];
    assert r1.segStart == r0.segEnd + 1 && r2.segStart == r1.segEnd + 1 && r3.segStart == r2.segEnd + 1;
    assert r1.segStart <= r1.segEnd + 1 && r2.segStart <= r2.segEnd + 1;
    if Drawn(sides, k) {
      var i :| 0 <= i < 4 && Covered(sides[i], k);
      assert ranges[i].segStart <= k <= ranges[i].segEnd;
      assert i == owner;
    }
  }

  // ---------------------------------------------------------------------
  // The progress border

  /** A straight line that the progress border draws. */
  datatype Line = Line(from: Point, to: Point)

  /** Point lies inside the rectangle and on one of its four edges. */
  predicate OnBorder(rect: Rect, p: Point)
  {
    && rect.left <= p.x <= rect.Right()
    && rect.top <= p.y <= rect.Bottom()
    && (p.x == rect.left || p.x == rect.Right() || p.y == rect.top || p.y == rect.Bottom())
  }

  /** getPointFromPixel as written: the step index is compared with the width
      and height in pixels, while each step moves `borderSize` pixels. */
  function GetPointFromPixel(rect: Rect, borderSize: int, pixel: int): (p: Point)
    requires borderSize != 0 && CalculateTotalPixels(rect, borderSize) != 0
    ensures p.y == rect.top || p.x == rect.Right() || p.y == rect.Bottom() || p.x == rect.left
  {
    var totalPixels := CalculateTotalPixels(rect, borderSize);
    var p0 := Rem(pixel + totalPixels, totalPixels);
    if p0 < rect.width then Point(rect.left + p0 * borderSize, rect.top)
    else
      var p1 := p0 - rect.width;
      if p1 < rect.height then Point(rect.Right(), rect.top + p1 * borderSize)
      else
        var p2 := p1 - rect.height;
        if p2 < rect.width then Point(rect.Right() - p2 * borderSize, rect.Bottom())
        else Point(rect.left, rect.Bottom() - (p2 - rect.width) * borderSize)
  }

  /** A 100 by 100 frame with a 10-pixel border has 36 steps; step 20 is placed
      on the top edge 200 pixels from the left, outside the frame. */
  lemma PointFromPixelLeavesFrame()
    ensures CalculateTotalPixels(Rect(0, 0, 100, 100), 10) == 36
    ensures GetPointFromPixel(Rect(0, 0, 100, 100), 10, 20) == Point(200, 0)
    ensures !OnBorder(Rect(0, 0, 100, 100), GetPointFromPixel(Rect(0, 0, 100, 100), 10, 20))
  {
    assert Div(400, 10) == 40;
    assert Rem(56, 36) == 20;
  }

  /** getPointFromPixel with the step converted to pixels before it is
      compared with the width and height. */
  function GetPointOnBorder(rect: Rect, borderSize: int, pixel: int): (p: Point)
    requires borderSize != 0 && CalculateTotalPixels(rect, borderSize) != 0
  {
    var totalPixels := CalculateTotalPixels(rect, borderSize);
    PointAtDistance(rect, Rem(pixel + totalPixels, totalPixels) * borderSize)
  }

  /** The point `distance` pixels clockwise from the top-left corner: along
      the top, down the right side, back along the bottom, up the left side. */
  function PointAtDistance(rect: Rect, distance: int): (p: Point)
  {
    var d0 := distance;
    if d0 < rect.width then Point(rect.left + d0, rect.top)
    else
      var d1 := d0 - rect.width;
      if d1 < rect.height then Point(rect.Right(), rect.top + d1)
      else
        var d2 := d1 - rect.height;
        if d2 < rect.width then Point(rect.Right() - d2, rect.Bottom())
        else Point(rect.left, rect.Bottom() - (d2 - rect.width))
  }

  /** Any distance shorter than the outline lands on the border. */
  lemma PointAtDistanceOnBorder(rect: Rect, distance: int)
    requires rect.width > 0 && rect.height > 0
    requires 0 <= distance < rect.height * 2 + rect.width * 2
    ensures OnBorder(rect, PointAtDistance(rect, distance))
  {
  }

  /** Every step of the perimeter, and every step index the progress border
      asks for, lands on the border of the frame. */
  lemma {:induction false} PointOnBorderStaysOnBorder(rect: Rect, borderSize: int, pixel: int)
    requires borderSize > 0 && rect.width > 0 && rect.height > 0
    requires CalculateTotalPixels(rect, borderSize) > 0
    requires pixel + CalculateTotalPixels(rect, borderSize) >= 0
    ensures OnBorder(rect, GetPointOnBorder(rect, borderSize, pixel))
  {
    var t := CalculateTotalPixels(rect, borderSize);
    var p0 := Rem(pixel + t, t);
    assert 0 <= p0 < t;
    StepBeforePerimeter(rect.height * 2 + rect.width * 2, borderSize, p0);
    PointAtDistanceOnBorder(rect, p0 * borderSize);
  }

  /** A step index below the step count of the outline, converted to pixels,
      stays short of the outline's length. */
  lemma StepBeforePerimeter(perimeter: int, b: int, step: int)
    requires b > 0 && perimeter > 0
    requires 0 <= step < Div(perimeter, b) - 4
    ensures 0 <= step * b < perimeter
  {
    var t := Div(perimeter, b) - 4;
    MagnitudeQuotient(perimeter, b);
    assert (t + 4) * b <= perimeter;
    MultiplyMonotone(step, t - 1, b);
    MultiplyMonotone(0, step, b);
  }

  /** With a one-pixel border, steps and pixels coincide and the corrected
      mapping is the one the source computes. */
  lemma PointOnBorderAtUnitBorder(rect: Rect, pixel: int)
    requires CalculateTotalPixels(rect, 1) != 0
    ensures GetPointOnBorder(rect, 1, pixel) == GetPointFromPixel(rect, 1, pixel)
  {
  }

  /** `progressPixels` of drawProgressAnimation. */
  function ProgressPixels(rect: Rect, borderSize: int, progress: int): (n: int)
    requires borderSize != 0
    ensures CalculateTotalPixels(rect, borderSize) == 0 ==> n == 0
    ensures 0 <= progress <= 100 && CalculateTotalPixels(rect, borderSize) >= 0 ==>
              && 0 <= n <= CalculateTotalPixels(rect, borderSize)
              && n * 100 <= CalculateTotalPixels(rect, borderSize) * progress < n * 100 + 100
    ensures progress == 100 ==> n == CalculateTotalPixels(rect, borderSize)
    ensures progress == 0 ==> n == 0
  {
    var total := CalculateTotalPixels(rect, borderSize);
    assert 0 <= progress <= 100 && total >= 0 ==> 0 <= total * progress <= total * 100 by {
      if 0 <= progress <= 100 && total >= 0 {
        MultiplyMonotone(progress, 100, total);
        MultiplyMonotone(0, progress, total);
        assert progress * total == total * progress;
      }
    }
    assert total * progress == 0 ==> Div(total * progress, 100) == 0;
    var n := Div(total * progress, 100);
    assert progress == 100 ==> n == total by {
      if progress == 100 {
        assert Abs(100 * n) == 100 * Abs(n) && Abs(total * progress) == 100 * Abs(total);
      }
    }
    n
  }

  /** The lines of the progress border, each from the previous step's point to
      the next, starting at the top-left corner. */
  function ProgressLines(rect: Rect, borderSize: int, progress: int): (lines: seq<Line>)
    requires borderSize != 0
  {
    var n := Max(ProgressPixels(rect, borderSize, progress), 0);
    seq(n, i requires 0 <= i < n =>
      Line(if i == 0 then Point(rect.left, rect.top) else GetPointOnBorder(rect, borderSize, i),
           GetPointOnBorder(rect, borderSize, i + 1)))
  }

  /** For a percentage in 0..100 the progress border is a connected chain of
      one line per step of progressPixels, at most the whole perimeter and all
      of it at 100 percent, that starts at the top-left corner and never
      leaves the border of the frame. */
  lemma {:induction false} ProgressLinesFollowBorder(rect: Rect, borderSize: int, progress: int)
    requires borderSize > 0 && rect.width > 0 && rect.height > 0
    requires 0 <= progress <= 100
    ensures var lines := ProgressLines(rect, borderSize, progress);
            && |lines| == Max(ProgressPixels(rect, borderSize, progress), 0)
            && |lines| <= Max(CalculateTotalPixels(rect, borderSize), 0)
            && (progress == 100 ==> |lines| == Max(CalculateTotalPixels(rect, borderSize), 0))
            && (|lines| > 0 ==> lines[0].from == Point(rect.left, rect.top))
            && (forall i :: 0 < i < |lines| ==> lines[i].from == lines[i - 1].to)
            && (forall i :: 0 <= i < |lines| ==> OnBorder(rect, lines[i].from) && OnBorder(rect, lines[i].to))
  {
    var lines := ProgressLines(rect, borderSize, progress);
    var t := CalculateTotalPixels(rect, borderSize);
    if |lines| > 0 {
      assert t > 0;
      forall i | 0 <= i < |lines|
        ensures OnBorder(rect, lines[i].from) && OnBorder(rect, lines[i].to)
      {
        PointOnBorderStaysOnBorder(rect, borderSize, i + 1);
        if i > 0 {
          PointOnBorderStaysOnBorder(rect, borderSize, i);
        }
      }
    }
  }

  // ---------------------------------------------------------------------
  // The grid of scanned parts

  /** One square of drawUrFramesProgress: where it is drawn, whether it is
      filled with the scanned colour, and the pulse ring drawn around it, if
      any. */
  datatype UrSquare = UrSquare(frame: Rect, scanned: bool, ring: Option<Rect>)

  /** `frameSize`: a fifth of the shorter side. */
  function FrameSize(rect: Rect): (size: int)
  {
    Div(Min(rect.width, rect.height), 5)
  }

  /** `columns`: how many squares and spacings fit across. */
  function Columns(rect: Rect, spacing: int): (columns: int)
    requires FrameSize(rect) + spacing != 0
  {
    Div(rect.width, FrameSize(rect) + spacing)
  }

  /** A frame 5 pixels wide with a 5-pixel spacing has squares of size 1 and
      room for no column, so drawUrFramesProgress divides by zero. */
  lemma NarrowFrameHasNoColumns()
    ensures FrameSize(Rect(0, 0, 5, 100)) == 1
    ensures Columns(Rect(0, 0, 5, 100), 5) == 0
  {
    assert Div(5, 5) == 1;
    assert Div(5, 6) == 0;
  }

  /** The ring around the last scanned square: the square grown by 5 pixels
      on every side. */
  function PulseRect(frame: Rect): (ring: Rect)
    ensures ring.left == frame.left - 5 && ring.Right() == frame.Right() + 5
    ensures ring.top == frame.top - 5 && ring.Bottom() == frame.Bottom() + 5
  {
    Rect(frame.left - 5, frame.top - 5, frame.width + 10, frame.height + 10)
  }

  /** The square of part `i`: row `i / columns`, column `i % columns`. */
  function UrSquareAt(rect: Rect, spacing: int, currentFrame: int, i: int): (square: UrSquare)
    requires FrameSize(rect) + spacing != 0 && Columns(rect, spacing) != 0
  {
    var size := FrameSize(rect);
    var columns := Columns(rect, spacing);
    var row, col := Div(i, columns), Rem(i, columns);
    var frame := Rect(rect.left + col * (size + spacing), rect.top + row * (size + spacing), size, size);
    UrSquare(frame, i < currentFrame, if i == currentFrame - 1 then Some(PulseRect(frame)) else None)
  }

  /** All squares, one per expected part. */
  function UrSquares(rect: Rect, spacing: int, totalFrames: int, currentFrame: int): (squares: seq<UrSquare>)
    requires FrameSize(rect) + spacing != 0 && Columns(rect, spacing) != 0
  {
    seq(Max(totalFrames, 0), i => UrSquareAt(rect, spacing, currentFrame, i))
  }

  /** The scanned squares are the first `currentFrame` ones, and the pulse
      ring, 5 pixels outside its square, marks the last of them, so there is
      one ring exactly when 1 <= currentFrame <= totalFrames. */
  lemma UrSquaresMarkScannedPrefix(rect: Rect, spacing: int, totalFrames: int, currentFrame: int)
    requires FrameSize(rect) + spacing != 0 && Columns(rect, spacing) != 0
    ensures var squares := UrSquares(rect, spacing, totalFrames, currentFrame);
            && |squares| == Max(totalFrames, 0)
            && (forall i, j :: 0 <= i < j < |squares| && squares[j].scanned ==> squares[i].scanned)
            && (forall i :: 0 <= i < |squares| && squares[i].ring.Some? ==>
                  && squares[i].ring.value == PulseRect(squares[i].frame)
                  && squares[i].scanned && (i + 1 == |squares| || !squares[i + 1].scanned))
            && ((exists i :: 0 <= i < |squares| && squares[i].ring.Some?) <==> 1 <= currentFrame <= totalFrames)
            && (forall i :: 0 <= i < |squares| ==>
                  && (squares[i].scanned <==> i < currentFrame)
                  && (squares[i].ring.Some? <==> i == currentFrame - 1))
  {
    var squares := UrSquares(rect, spacing, totalFrames, currentFrame);
    if 1 <= currentFrame <= totalFrames {
      assert squares[currentFrame - 1].ring.Some?;
    }
  }

  /** Two rectangles share no pixel. */
  predicate Disjoint(a: Rect, b: Rect)
  {
    a.Right() < b.left || b.Right() < a.left || a.Bottom() < b.top || b.Bottom() < a.top
  }

  /** With a positive spacing, different parts get squares that do not
      overlap, and every square ends before the right edge of the frame. */
  lemma {:induction false} UrSquaresAreSeparate(rect: Rect, spacing: int, totalFrames: int, currentFrame: int)
    requires spacing > 0 && rect.width >= 0 && rect.height >= 0
    requires Columns(rect, spacing) != 0
    ensures var squares := UrSquares(rect, spacing, totalFrames, currentFrame);
            && (forall i, j :: 0 <= i < j < |squares| ==> Disjoint(squares[i].frame, squares[j].frame))
            && (forall i :: 0 <= i < |squares| ==> squares[i].frame.Right() <= rect.Right())
  {
    var squares := UrSquares(rect, spacing, totalFrames, currentFrame);
    forall i, j | 0 <= i < j < |squares|
      ensures Disjoint(squares[i].frame, squares[j].frame)
    {
      SquarePairDisjoint(rect, spacing, currentFrame, i, j);
    }
    forall i | 0 <= i < |squares|
      ensures squares[i].frame.Right() <= rect.Right()
    {
      SquareFitsAcross(rect, spacing, currentFrame, i);
    }
  }

  lemma SquarePairDisjoint(rect: Rect, spacing: int, currentFrame: int, i: int, j: int)
    requires spacing > 0 && rect.width >= 0 && rect.height >= 0
    requires Columns(rect, spacing) != 0
    requires 0 <= i < j
    ensures Disjoint(UrSquareAt(rect, spacing, currentFrame, i).frame, UrSquareAt(rect, spacing, currentFrame, j).frame)
  {
    var size := FrameSize(rect);
    var columns := Columns(rect, spacing);
    assert size >= 0 && columns > 0;
    SquaresApart(i, j, columns, size + spacing, size);
  }

  lemma SquareFitsAcross(rect: Rect, spacing: int, currentFrame: int, i: int)
    requires spacing > 0 && rect.width >= 0 && rect.height >= 0
    requires Columns(rect, spacing) != 0
    requires 0 <= i
    ensures UrSquareAt(rect, spacing, currentFrame, i).frame.Right() <= rect.Right()
  {
    var size := FrameSize(rect);
    var columns := Columns(rect, spacing);
    assert size >= 0 && columns == rect.width / (size + spacing);
    ColumnFits(rect.width, size + spacing, size, i % columns);
  }

  /** A square in a column below `width / step` ends inside the width. */
  lemma ColumnFits(width: int, step: int, size: int, col: int)
    requires 0 <= size < step && width >= 0
    requires 0 <= col < width / step
    ensures col * step + size < width
  {
    MultiplyMonotone(col + 1, width / step, step);
    MagnitudeQuotient(width, step);
    NextMultiple(col, step);
  }

  /** Two different indices of the grid sit a whole step apart in their row
      or in their column. */
  lemma SquaresApart(i: int, j: int, columns: int, step: int, size: int)
    requires 0 <= i < j && columns > 0 && 0 <= size < step
    ensures var xi, xj := (i % columns) * step, (j % columns) * step;
            var yi, yj := (i / columns) * step, (j / columns) * step;
            xi + size <= xj || xj + size <= xi || yi + size <= yj || yj + size <= yi
  {
    var ri, rj, ci, cj := i / columns, j / columns, i % columns, j % columns;
    assert i == ri * columns + ci && j == rj * columns + cj;
    if ri == rj {
      assert ci != cj;
      if ci < cj { MultiplyMonotone(ci + 1, cj, step); } else { MultiplyMonotone(cj + 1, ci, step); }
    } else if ri < rj {
      MultiplyMonotone(ri + 1, rj, step);
    } else {
      MultiplyMonotone(rj + 1, ri, step);
    }
  }

  // ---------------------------------------------------------------------
  // Arithmetic helpers

  lemma MultiplyMonotone(a: int, b: int, m: int)
    requires a <= b && m >= 0
    ensures a * m <= b * m
  {
    assert b * m - a * m == (b - a) * m;
  }

  lemma NextMultiple(a: int, m: int)
    ensures (a + 1) * m == a * m + m
  {
  }

  /** A non-zero multiple of `b` is at least `b` in magnitude. */
  lemma MultipleBounds(d: int, b: int)
    requires b > 0
    ensures d >= 1 ==> d * b >= b
    ensures d <= -1 ==> d * b <= -b
  {
    if d >= 1 {
      MultiplyMonotone(1, d, b);
    } else if d <= -1 {
      MultiplyMonotone(d, -1, b);
    }
  }

  /** Euclidean division is determined by quotient and remainder. */
  lemma DivModIs(x: int, b: int, q: int, r: int)
    requires b > 0 && x == q * b + r && 0 <= r < b
    ensures x / b == q && x % b == r
  {
    var d := x / b - q;
    assert x == (x / b) * b + x % b;
    assert d * b == (x / b) * b - q * b;
    MultipleBounds(d, b);
  }

  lemma DivOfMultiple(q: int, b: int)
    requires b > 0
    ensures (q * b) / b == q
  {
    DivModIs(q * b, b, q, 0);
  }

  lemma OneStepLess(x: int, b: int)
    requires 0 < b <= x
    ensures Div(x - b, b) == x / b - 1
  {
    var q, r := (x - b) / b, (x - b) % b;
    assert x - b == q * b + r;
    assert x == (q + 1) * b + r;
    DivModIs(x, b, q + 1, r);
  }

  lemma AtLeastOneStep(x: int, b: int)
    requires 0 < b <= x
    ensures x / b >= 1
  {
    assert x == (x / b) * b + x % b;
    MultipleBounds(x / b, b);
  }

  lemma DivSuperadditive(x: int, y: int, b: int)
    requires x >= 0 && y >= 0 && b > 0
    ensures (x + y) / b >= x / b + y / b
  {
    var s := x + y;
    assert x == (x / b) * b + x % b;
    assert y == (y / b) * b + y % b;
    assert s == (s / b) * b + s % b;
    var d := s / b - (x / b + y / b);
    assert d * b == (s / b) * b - (x / b) * b - (y / b) * b;
    MultipleBounds(d, b);
  }
}
