# QR scan pipeline of monero-gui, modelled in Dafny

This project models the QR-code scanning core of the Monero GUI wallet:

- **The decode worker** (`QrScanThread`). Captured frames go into a bounded
  FIFO queue. A single worker takes the oldest frame and picks the pixel
  layout the ZXing barcode reader is given. That choice is a closed table
  from Qt image formats, with a fallback conversion to RGBX8888. The worker
  then emits `decoded(text)` for every valid QR code.
- **The scan widget** (`ScanWidget`). It holds three things:
  - the six-state frame overlay and its animation timer;
  - the integer geometry of the processing spinner, the progress border and
    the grid of scanned UR parts;
  - the session logic that feeds decoded texts into a multi-part UR decoder
    and reports completion once through `finished(success)`.

The files:

- `cpp_int.dfy` (module `CppInt`): C++ integer division and remainder. Both
  truncate toward zero, while Dafny's `/` and `%` are Euclidean.
- `border_geometry.dfy` (module `BorderGeometry`): the arithmetic of
  `drawProcessingAnimation`, `calculateTotalPixels`, `getPointFromPixel`,
  `drawProgressAnimation` and `drawUrFramesProgress`, as pure functions and
  lemmas.
- `qr_scan_thread.dfy` (module `QrScanThread`): the format table, the
  `ReadBarcode` wrapper, the queue policy, and the class `QrScanThread`.
  The class holds the queue, the running flag and the log of emitted texts.
- `scan_widget.dfy` (module `ScanWidget`): the class `ScanWidget`. Its
  methods update the widget's fields in place. Its three drawing loops are
  methods proved equal to the `BorderGeometry` functions.

Where the written description of the system and the code disagree, the
model follows the code:

- **Queue size.** The queue is described as holding at most 100 frames. The
  guard in `addImage` only drops a frame when more than 100 are already
  queued, so the queue can hold 101 frames. A burst of 150 frames leaves 101.
- **Run length.** The highlighted run is described as lying within
  `[1, totalLength - 10]`. The code clamps it to at least 1, so on a
  perimeter shorter than 11 steps it exceeds `totalLength - 10`.
- **Worker exit.** The worker is described as exiting once stop is requested
  and the queue is empty. The code leaves its loop once the running flag is
  false, after at most one more frame, whatever is still queued.

## Model

| member | source | states |
|---|---|---|
| QrScanThread.ImgFmtFromQImg | src/ur/scan/QrScanThread.cpp:69-93 | a Qt format maps to ZXing's None exactly when it is outside the six formats the table lists |
| QrScanThread.FormatTable | src/ur/scan/QrScanThread.cpp:69-93 | ARGB32 and RGB32 map to BGRX on little-endian and XRGB on big-endian; RGB888 maps to RGB; RGBX8888 and RGBA8888 map to RGBX; Grayscale8 maps to Lum |
| QrScanThread.NormalizedImage | src/ur/scan/QrScanThread.cpp:100-105 | a frame in a listed format, or the null image, is passed on unchanged; any other frame is converted to RGBX8888 with the same pixels and size; the result has a mapped layout exactly when the frame is not null |
| QrScanThread.ReaderInput | src/ur/scan/QrScanThread.cpp:95-105 | the view handed to the reader has layout None exactly for the null image, and keeps the frame's pixels, width and height |
| QrScanThread.UnmappedFormatReadAsRgbx | src/ur/scan/QrScanThread.cpp:100-102 | a non-null frame in an unmapped format reaches the reader as RGBX |
| QrScanThread.ReadBarcode | src/ur/scan/QrScanThread.cpp:67-110 | an exception from the reader becomes the invalid result ("", false); otherwise the result carries the reader's text and validity |
| QrScanThread.EmittedForAppend | src/ur/scan/QrScanThread.cpp:15-28 | processing one more frame appends that frame's emitted texts after those of the earlier frames, so emissions follow processing order |
| QrScanThread.EnqueuedKeepsBacklog | src/ur/scan/QrScanThread.cpp:44-52 | addImage appends exactly when at most 100 frames are queued; the new frame goes at the back; the old queue is a prefix of the new one; a queue of at most 101 frames stays at most 101 |
| QrScanThread.BurstKeepsOldestFrames | src/ur/scan/QrScanThread.cpp:44-52 | a burst of frames into an empty queue keeps the first 101 in arrival order and drops every later one |
| QrScanThread.QrScanThread.constructor | src/ur/scan/QrScanThread.cpp:9-13 | a new worker is marked running, has an empty queue and has not started |
| QrScanThread.QrScanThread.Start | src/ur/scan/QrScanThread.cpp:36-42 | start empties the queue, sets the running flag and starts the thread |
| QrScanThread.QrScanThread.Stop | src/ur/scan/QrScanThread.cpp:30-34 | stop clears the running flag and leaves the queue as it was |
| QrScanThread.QrScanThread.AddImage | src/ur/scan/QrScanThread.cpp:44-52 | the new queue is the queue policy applied to the old queue and the frame; the 101-frame bound is kept |
| QrScanThread.QrScanThread.ProcessQImage | src/ur/scan/QrScanThread.cpp:15-28 | the frame is read with QR-only, try-harder, one-symbol options; its text is emitted exactly when the result is valid |
| QrScanThread.QrScanThread.ProcessNext | src/ur/scan/QrScanThread.cpp:58-63 | on a non-empty queue exactly the oldest frame is removed and processed; on an empty queue nothing changes |
| QrScanThread.QrScanThread.Run | src/ur/scan/QrScanThread.cpp:54-65 | while running, the worker drains the queue oldest first and emits the texts of all queued frames in order; when not running it processes nothing and the thread ends |
| CppInt.Div | src/ur/scan/ScanWidget.cpp:123-137 | C++ `/`: the quotient truncated toward zero, equal to Euclidean division on non-negative operands |
| CppInt.Rem | src/ur/scan/ScanWidget.cpp:124-129 | C++ `%`: `a == b * (a / b) + a % b`, and the remainder has the sign of `a` and is smaller than `b` in magnitude |
| BorderGeometry.TotalPixelsIsTotalLength | src/ur/scan/ScanWidget.cpp:259-261 | calculateTotalPixels equals the spinner's totalLength `2*(W+H)/B - 4` |
| BorderGeometry.FrameRect | src/ur/scan/ScanWidget.cpp:270 | the frame that paintEvent draws in lies half a border inside the widget on every side |
| BorderGeometry.DoubleBorderWidgetHasNoPerimeter | src/ur/scan/ScanWidget.cpp:123-124 | a square widget two (even) borders wide gets a frame one border wide and high, whose totalLength is 0 |
| BorderGeometry.SquareFrameHasNoPerimeter | src/ur/scan/ScanWidget.cpp:123-124 | a frame as wide and high as the border has totalLength 0, so the modulo at line 124 divides by zero |
| BorderGeometry.CurrentLength | src/ur/scan/ScanWidget.cpp:125-127 | the run length lies in `[1, max(totalLength - 10, 1)]`, so the early return at line 126 is unreachable; it equals `estimate / 100` whenever that is in range |
| BorderGeometry.HighlightedRun | src/ur/scan/ScanWidget.cpp:128-129 | with the counter reduced below totalLength, the run starts in `(0, totalLength]` and ends in `[0, totalLength)` |
| BorderGeometry.SplitRunIsRun | src/ur/scan/ScanWidget.cpp:162-181 | on the perimeter, the clipping code's test (one interval, or two pieces when the run wraps) is exactly the run of `length + 1` steps from its start, counted modulo totalLength |
| BorderGeometry.SideRangesTilePerimeter | src/ur/scan/ScanWidget.cpp:130-137 | for a frame at least one border wide and high, the four side ranges start at 0, each starts one after the previous ends, the last ends at totalLength - 1, and none is negative |
| BorderGeometry.FlatFrameSidesOverrun | src/ur/scan/ScanWidget.cpp:123-137 | for a frame 15 by 1 with a 5-pixel border the perimeter has 2 steps but the left side starts at step 4, so the tiling needs a frame at least one border wide and high |
| BorderGeometry.ClipToSide | src/ur/scan/ScanWidget.cpp:162-181 | a side gets at most two segments, each inside the side's range |
| BorderGeometry.ClipCoversRunOnSide | src/ur/scan/ScanWidget.cpp:162-181 | a step of a side is covered by that side's segments exactly when it lies in the run |
| BorderGeometry.CoveredOnlyOnSide | src/ur/scan/ScanWidget.cpp:162-181 | a step covered by a side's segments lies in that side's range |
| BorderGeometry.SpinnerDrawsExactlyTheRun | src/ur/scan/ScanWidget.cpp:139-181 | on a frame at least one border wide and high, a perimeter step is drawn exactly when it lies in the highlighted run, and only on the side that owns it |
| BorderGeometry.GetPointFromPixel | src/ur/scan/ScanWidget.cpp:353-374 | the point, as the code computes it, has the coordinate of one of the frame's four edge lines |
| BorderGeometry.PointFromPixelLeavesFrame | src/ur/scan/ScanWidget.cpp:353-374 | for a 100 by 100 frame with a 10-pixel border, step 20 is placed at (200, 0), outside the frame |
| BorderGeometry.PointOnBorderStaysOnBorder | src/ur/scan/ScanWidget.cpp:353-374 | with each step converted to pixels, every step maps to a point on the frame's border |
| BorderGeometry.PointOnBorderAtUnitBorder | src/ur/scan/ScanWidget.cpp:353-374 | with a one-pixel border the corrected mapping agrees with the code |
| BorderGeometry.ProgressPixels | src/ur/scan/ScanWidget.cpp:310-311 | for a percentage in 0..100 the number of border steps drawn is totalPixels * progress / 100 rounded down (n * 100 <= t * progress < n * 100 + 100), so between 0 and the perimeter length; 0 percent draws nothing and 100 percent the whole perimeter |
| BorderGeometry.ProgressLinesFollowBorder | src/ur/scan/ScanWidget.cpp:308-321 | the progress border has exactly progressPixels lines, at most the perimeter and all of it at 100 percent; it starts at the top-left corner, each line starts where the previous one ended, and every end point is on the border |
| BorderGeometry.NarrowFrameHasNoColumns | src/ur/scan/ScanWidget.cpp:325-328 | a frame 5 pixels wide with a 5-pixel spacing has room for no column, so `columns` is 0 |
| BorderGeometry.PulseRect | src/ur/scan/ScanWidget.cpp:345-346 | the pulse ring extends 5 pixels beyond the square on every side |
| BorderGeometry.UrSquaresMarkScannedPrefix | src/ur/scan/ScanWidget.cpp:330-350 | one square per expected part; square i is scanned exactly when i < current, so the scanned squares are the first current ones; the ring, 5 pixels outside its square, is on square current - 1 only, and there is one exactly when 1 <= current <= total |
| BorderGeometry.UrSquaresAreSeparate | src/ur/scan/ScanWidget.cpp:325-335 | with a positive spacing, the squares of different parts do not overlap, and none reaches past the frame's right edge |
| ScanWidget.VideoFrameToImage | src/ur/scan/ScanWidget.cpp:465-482 | a non-null frame becomes an ARGB32 image with the same pixels and size; a null frame gives the null image |
| ScanWidget.Truncate | src/ur/scan/ScanWidget.cpp:598 | the double-to-int conversion of the progress value truncates toward zero |
| ScanWidget.URData | src/ur/scan/ScanWidget.cpp:616-627 | getURData yields "" unless the decoder succeeded, and then the bytes decoded from the UR's CBOR |
| ScanWidget.URType | src/ur/scan/ScanWidget.cpp:629-635 | getURType yields "" unless the decoder succeeded; after success, the expected type when known and "" otherwise |
| ScanWidget.URError | src/ur/scan/ScanWidget.cpp:637-642 | getURError yields the empty string unless the decoder failed, and then its error message |
| ScanWidget.URGettersExclusive | src/ur/scan/ScanWidget.cpp:616-642 | the data and type getters and the error getter never both report something; before completion all three are empty |
| ScanWidget.ScanWidget.constructor | src/ur/scan/ScanWidget.cpp:22-31 | a new widget is Idle with the timer stopped, the counter at 0, no session done, and a fresh, unstarted worker |
| ScanWidget.ScanWidget.UpdateFrameState | src/ur/scan/ScanWidget.cpp:230-242 | the same state changes nothing; entering Processing resets the counter and runs the timer at 50 ms; entering any other state stops the timer |
| ScanWidget.ScanWidget.OnFrameStateIdle | src/ur/scan/ScanWidget.cpp:191-193 | the frame becomes Idle and the timer is stopped; the counter and the timer interval are kept |
| ScanWidget.ScanWidget.OnFrameStateRecognized | src/ur/scan/ScanWidget.cpp:195-197 | the frame becomes Recognized and the timer is stopped; the counter and the timer interval are kept |
| ScanWidget.ScanWidget.OnFrameStateValidated | src/ur/scan/ScanWidget.cpp:199-201 | the frame becomes Validated and the timer is stopped; the counter and the timer interval are kept |
| ScanWidget.ScanWidget.OnFrameStateError | src/ur/scan/ScanWidget.cpp:226-228 | the frame becomes Error and the timer is stopped; the counter and the timer interval are kept |
| ScanWidget.ScanWidget.OnFrameStateProcessing | src/ur/scan/ScanWidget.cpp:211-218 | entering Processing sets the estimate to the new value and resets the counter; while already processing, estimates add up and the counter is kept |
| ScanWidget.ScanWidget.OnFrameStateProgress | src/ur/scan/ScanWidget.cpp:220-224 | the frame is in Progress afterwards with the timer stopped, the percentage is always stored, and the counter and the timer interval are kept |
| ScanWidget.ScanWidget.OnProgressUpdate | src/ur/scan/ScanWidget.cpp:203-205 | the percentage is stored |
| ScanWidget.ScanWidget.OnProcessingTimeEstimate | src/ur/scan/ScanWidget.cpp:207-209 | the estimate is replaced |
| ScanWidget.ScanWidget.OnUrFrame | src/ur/scan/ScanWidget.cpp:249-252 | the current part number is stored |
| ScanWidget.ScanWidget.OnTotalUrFrames | src/ur/scan/ScanWidget.cpp:254-257 | the expected part count is stored |
| ScanWidget.ScanWidget.AnimateProcessing | src/ur/scan/ScanWidget.cpp:185-189 | a timer tick moves the spinner counter one step |
| ScanWidget.ScanWidget.DrawProcessingAnimation | src/ur/scan/ScanWidget.cpp:111-183 | the estimate loses the time since the previous tick and stops at 0; the counter is reduced into `[0, totalLength)`; on a positive perimeter the segments drawn are those of the highlighted run; on a zero perimeter (a division by zero in the source) nothing is drawn and the counter is kept |
| ScanWidget.ScanWidget.DrawProgressAnimation | src/ur/scan/ScanWidget.cpp:308-321 | the lines drawn are the progress border of the current percentage, built on the corrected point mapping |
| ScanWidget.ScanWidget.DrawUrFramesProgress | src/ur/scan/ScanWidget.cpp:323-351 | the squares drawn are one per expected part, placed row by row, with the scanned colour and the pulse ring on the last scanned part; when the square pitch or the column count is 0 (a division by zero in the source) nothing is drawn |
| ScanWidget.ScanWidget.StartCapture | src/ur/scan/ScanWidget.cpp:376-415 | the mode is stored and the frame returns to Idle with the timer stopped, keeping the counter and the timer interval; with a camera present, the worker starts unless it already runs; with none, the worker is untouched |
| ScanWidget.ScanWidget.Reset | src/ur/scan/ScanWidget.cpp:417-424 | the decoded text, done flag, progress bar and decoder start over; the worker restarts with an empty queue; frames are handled again |
| ScanWidget.ScanWidget.Stop | src/ur/scan/ScanWidget.cpp:426-429 | the worker is no longer running |
| ScanWidget.ScanWidget.Pause | src/ur/scan/ScanWidget.cpp:431-433 | captured frames are ignored from now on |
| ScanWidget.QueuedFramesReadDirectly | src/ur/scan/ScanWidget.cpp:459-461 | every frame the widget queues is ARGB32, so it reaches the reader unconverted, as BGRX on little-endian and XRGB on big-endian, never with layout None |
| ScanWidget.ScanWidget.HandleFrameCaptured | src/ur/scan/ScanWidget.cpp:450-463 | a frame is offered to the worker's queue exactly when frames are handled, the worker runs and the frame is not null; otherwise the queue is unchanged |
| ScanWidget.ScanWidget.OnDecoded | src/ur/scan/ScanWidget.cpp:585-614 | a done session ignores the text. In UR mode a rejected part changes nothing. An accepted part moves the decoder, goes to Recognized and sets the bar to `percent * 100` of 100. A completing part ends the session with `finished(is_success)`. In single-part mode the text is stored unchanged and `finished(true)` is emitted. `finished` fires at most once between resets |

## Left out

- Threads: the mutex, the wait condition, `QThread::start` and the destructor's wait and terminate are not modelled. `Run` is the worker loop run sequentially up to the point where it would block on an empty queue. The one extra frame processed when `stop` lands during a wait is not captured.
- The ZXing reader is not modelled. It is the parameter `zx`, which returns a result or raises. `scanImage` is not modelled: it only sets other options for the same reader.
- The bc-ur decoder and `CborLite::decodeBytes` are not modelled. The decoder is an abstract state. `receive_part` is the parameter `receive`, and a rejected part is taken to leave the decoder as it was. CBOR decoding is the parameter `decodeBytes`.
- Wall-clock time is not modelled: the current time is the parameter `now` of `DrawProcessingAnimation`. The source keeps the previous tick in a function-level `static`, shared by every widget. The model keeps it per widget in `lastRunTime`.
- Camera enumeration and switching, permissions, exposure control, error banners and the window title are not modelled; they are I/O and UI.
- `ScanWidget.ScanWidget.StartCapture`: takes the number of cameras as a parameter and assumes the camera permission is granted; the undetermined and denied permission paths are not modelled.
- Painting is not modelled: `paintEvent`, colours, pens and the `QPainter` calls. The drawing methods return the segments, lines and squares they would paint.
- Pixel contents are not modelled. A frame is an opaque token with a size and a format tag. `convertToFormat` only changes the tag, and leaves the null image null; `copy` changes nothing.
- `VideoFrameToImage`: a null image is taken to be one with the Invalid format.
- `ScanWidget.ScanWidget.DrawUrFramesProgress`: the unused `rows` value is not computed. When `columns` or the square pitch is 0 the source divides by zero; the model draws nothing instead (see Findings).
- `ScanWidget.ScanWidget.DrawProcessingAnimation`: when totalLength is 0 the source divides by zero; the model draws nothing and keeps the counter instead (see Findings).
- `ScanWidget.ScanWidget.constructor`: the initial values of `m_done`, `m_scan_ur`, `m_handleFrames`, the UR frame counters, `m_progress`, `m_estimatedMilliseconds` and `m_borderSize` are set in ScanWidget.h, which is not part of this model. The model takes false, false, true, 0, 0 and 0, and a positive border size given to the constructor.
- `CppInt.Div`: 32-bit `int` and `int64_t` overflow is not modelled. Integers are unbounded, so `m_animationProgress` never wraps either.
- `ScanWidget.Truncate`: the progress percentage is a real, not an IEEE double, so rounding in `percent * 100` is not modelled.
- `ScanWidget.ScanWidget.OnDecoded`: the progress bar keeps the value passed to `setValue`. QProgressBar's own range check, which ignores out-of-range values, is not modelled.
- `ScanWidget.ScanWidget.DrawProgressAnimation`: the model uses the corrected point mapping `GetPointOnBorder` (see Findings). The code's own mapping is `GetPointFromPixel`.
- The widget's `update()` repaint requests and the `qDebug` output are not modelled.

## Findings

| source | as written | input that shows it | evidently intended | confidence | as-written member | corrected member |
|---|---|---|---|---|---|---|
| src/ur/scan/ScanWidget.cpp:353-374 | `getPointFromPixel` compares the step index with the width and height in pixels, then multiplies it by the border size | a 100 by 100 frame with a 10-pixel border: step 20 of 36 is placed at (200, 0), 100 pixels right of the frame | convert the step to pixels before comparing it with the width and height, so every step lands on the border | not executed | BorderGeometry.PointFromPixelLeavesFrame | BorderGeometry.PointOnBorderStaysOnBorder |
| src/ur/scan/ScanWidget.cpp:123-124 | `m_animationProgress % totalLength` with no check that totalLength is non-zero | a square widget 20 pixels wide with a 10-pixel border: paintEvent's frame is 10 by 10, totalLength is 40 / 10 - 4 = 0, and the Processing state divides by zero | nothing to draw on a frame without perimeter steps | not executed | BorderGeometry.DoubleBorderWidgetHasNoPerimeter | ScanWidget.ScanWidget.DrawProcessingAnimation |
| src/ur/scan/ScanWidget.cpp:325-331 | `rows` and the square positions divide by `columns` with no check that it is non-zero | a frame 5 pixels wide and 100 high with a 5-pixel border: frameSize is 1, columns is 5 / 6 = 0, and any UR progress divides by zero | nothing to draw when no square fits across | not executed | BorderGeometry.NarrowFrameHasNoColumns | ScanWidget.ScanWidget.DrawUrFramesProgress |
