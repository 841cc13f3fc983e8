/** The decode worker: a bounded queue of captured frames drained by one
    worker, the choice of pixel layout handed to the ZXing barcode reader, and
    the `decoded(text)` signal emitted for every frame that holds a readable
    QR code.

    The ZXing reader is a parameter `zx` of the members that call it: it is
    given the pixel view and the reader options and either returns a result
    (its text and validity) or raises. Pixel contents are not modelled: a frame
    is identified by an opaque `pixels` token, its size and its format tag. */
module QrScanThread {
  import opened CppInt

  /** QImage::Format, every value Qt defines. */
  datatype QImageFormat =
    | Invalid | Mono | MonoLSB | Indexed8 | RGB32 | ARGB32 | ARGB32Premultiplied
    | RGB16 | ARGB8565Premultiplied | RGB666 | ARGB6666Premultiplied | RGB555
    | ARGB8555Premultiplied | RGB888 | RGB444 | ARGB4444Premultiplied
    | RGBX8888 | RGBA8888 | RGBA8888Premultiplied | BGR30 | A2BGR30Premultiplied
    | RGB30 | A2RGB30Premultiplied | Alpha8 | Grayscale8 | RGBX64 | RGBA64
    | RGBA64Premultiplied | Grayscale16 | BGR888 | RGBX16FPx4 | RGBA16FPx4
    | RGBA16FPx4Premultiplied | RGBX32FPx4 | RGBA32FPx4 | RGBA32FPx4Premultiplied
    | CMYK8888

  /** ZXing::ImageFormat: the byte layouts the reader understands, and None. */
  datatype ImageFormat = None | Lum | RGB | BGR | RGBX | XRGB | BGRX | XBGR

  /** Q_BYTE_ORDER of the build. */
  datatype ByteOrder = LittleEndian | BigEndian

  /** A captured frame. */
  datatype QImage = QImage(pixels: nat, width: int, height: int, format: QImageFormat)

  /** What ZXing::ReadBarcode is given: the frame's bits, size and layout. */
  datatype ImageView = ImageView(pixels: nat, width: int, height: int, format: ImageFormat)

  datatype BarcodeFormat = QRCode | DataMatrix

  /** The ZXing::ReaderOptions the worker sets. */
  datatype ReaderOptions = ReaderOptions(formats: set<BarcodeFormat>, tryHarder: bool, maxNumberOfSymbols: int)

  /** What one call of the ZXing reader does: return a result, or raise. */
  datatype ReaderOutcome = Returned(text: string, isValid: bool) | Raised

  /** ScanResult: decoded text and whether it is valid. */
  datatype ScanResult = ScanResult(text: string, isValid: bool)

  /** The options processQImage reads with: QR codes only, try harder, one symbol. */
  const PROCESS_HINTS := ReaderOptions({QRCode}, true, 1)

  /** addImage refuses a frame once the queue holds more than this many. */
  const QUEUE_LIMIT := 100

  /** The Qt formats the table maps to a ZXing layout. */
  const DIRECT_FORMATS: set<QImageFormat> := {ARGB32, RGB32, RGB888, RGBX8888, RGBA8888, Grayscale8}

  /** ImgFmtFromQImg: the closed table from Qt formats to ZXing layouts. */
  function ImgFmtFromQImg(format: QImageFormat, order: ByteOrder): (layout: ImageFormat)
    ensures layout == None <==> format !in DIRECT_FORMATS
  {
    match format
    case ARGB32 | RGB32 => if order == LittleEndian then BGRX else XRGB
    case RGB888 => RGB
    case RGBX8888 | RGBA8888 => RGBX
    case Grayscale8 => Lum
    case _ => None
  }

  /** The table, entry by entry: 32-bit ARGB and RGB are read byte by byte as
      B, G, R, X on a little-endian machine and X, R, G, B on a big-endian one;
      packed 24-bit RGB as RGB; RGBX and RGBA as RGBX; 8-bit grey as luminance. */
  lemma FormatTable(order: ByteOrder)
    ensures ImgFmtFromQImg(ARGB32, order) == ImgFmtFromQImg(RGB32, order)
            == (if order == LittleEndian then BGRX else XRGB)
    ensures ImgFmtFromQImg(RGB888, order) == RGB
    ensures ImgFmtFromQImg(RGBX8888, order) == ImgFmtFromQImg(RGBA8888, order) == RGBX
    ensures ImgFmtFromQImg(Grayscale8, order) == Lum
  {
  }

  /** A null QImage: one without pixel data, whose format is Invalid. */
  predicate IsNull(image: QImage)
  {
    image.format == Invalid
  }

  /** QImage::convertToFormat: same picture and size, new format tag; a null
      image stays the null image. */
  function ConvertToFormat(image: QImage, format: QImageFormat): (converted: QImage)
    ensures IsNull(image) ==> converted == image
    ensures !IsNull(image) ==> converted.format == format
    ensures converted.pixels == image.pixels && converted.width == image.width && converted.height == image.height
  {
    if IsNull(image) then image else image.(format := format)
  }

  /** The frame ReadBarcode hands on: itself when its format is in the table,
      otherwise its RGBX8888 conversion, which for the null image is the null
      image again. */
  function NormalizedImage(image: QImage, order: ByteOrder): (normalized: QImage)
    ensures ImgFmtFromQImg(normalized.format, order) == None <==> IsNull(image)
    ensures normalized.pixels == image.pixels && normalized.width == image.width && normalized.height == image.height
    ensures image.format in DIRECT_FORMATS || IsNull(image) ==> normalized == image
    ensures image.format !in DIRECT_FORMATS && !IsNull(image) ==> normalized.format == RGBX8888
  {
    if ImgFmtFromQImg(image.format, order) == None then ConvertToFormat(image, RGBX8888) else image
  }

  /** The view the ZXing reader is called with: its layout is None only for
      the null image. */
  function ReaderInput(image: QImage, order: ByteOrder): (view: ImageView)
    ensures view.format == None <==> IsNull(image)
    ensures view.pixels == image.pixels && view.width == image.width && view.height == image.height
  {
    var normalized := NormalizedImage(image, order);
    ImageView(normalized.pixels, normalized.width, normalized.height, ImgFmtFromQImg(normalized.format, order))
  }

  /** A non-null frame in a format outside the table reaches the reader as RGBX. */
  lemma UnmappedFormatReadAsRgbx(image: QImage, order: ByteOrder)
    requires image.format !in DIRECT_FORMATS && !IsNull(image)
    ensures ReaderInput(image, order).format == RGBX
  {
  }

  /** QrScanThread::ReadBarcode: call the reader on the normalized frame and
      turn an exception into an invalid, empty result. */
  function ReadBarcode(image: QImage, hints: ReaderOptions, order: ByteOrder,
                       zx: (ImageView, ReaderOptions) -> ReaderOutcome): (result: ScanResult)
    ensures zx(ReaderInput(image, order), hints).Raised? ==> result == ScanResult("", false)
    ensures zx(ReaderInput(image, order), hints).Returned? ==>
              result == ScanResult(zx(ReaderInput(image, order), hints).text, zx(ReaderInput(image, order), hints).isValid)
  {
    match zx(ReaderInput(image, order), hints)
    case Returned(text, isValid) => ScanResult(text, isValid)
    case Raised => ScanResult("", false)
  }

  /** The texts processQImage emits for one result: the text when it is valid,
      nothing otherwise. */
  function Emitted(result: ScanResult): (texts: seq<string>)
  {
    if result.isValid then [result.text] else []
  }

  /** The texts emitted for a list of frames processed in order. */
  function EmittedFor(frames: seq<QImage>, order: ByteOrder,
                      zx: (ImageView, ReaderOptions) -> ReaderOutcome): (texts: seq<string>)
  {
    if frames == [] then []
    else Emitted(ReadBarcode(frames[0], PROCESS_HINTS, order, zx)) + EmittedFor(frames[1..], order, zx)
  }

  /** Processing one more frame adds its texts after those of the earlier ones. */
  lemma {:induction false} EmittedForAppend(frames: seq<QImage>, image: QImage, order: ByteOrder,
                                            zx: (ImageView, ReaderOptions) -> ReaderOutcome)
    ensures EmittedFor(frames + [image], order, zx)
            == EmittedFor(frames, order, zx) + Emitted(ReadBarcode(image, PROCESS_HINTS, order, zx))
  {
    if frames != [] {
      assert (frames + [image])[1..] == frames[1..] + [image];
      EmittedForAppend(frames[1..], image, order, zx);
    }
  }

  /** The queue after addImage: unchanged when it already holds more than
      QUEUE_LIMIT frames, the new frame at the back otherwise. */
  function Enqueued(queue: seq<QImage>, image: QImage): (next: seq<QImage>)
  {
    if |queue| > QUEUE_LIMIT then queue else queue + [image]
  }

  /** addImage appends exactly when the queue holds at most QUEUE_LIMIT frames,
      never touches the frames already queued, and so keeps the queue at most
      QUEUE_LIMIT + 1 long. */
  lemma EnqueuedKeepsBacklog(queue: seq<QImage>, image: QImage)
    ensures var next := Enqueued(queue, image);
            && (|next| == |queue| + 1 <==> |queue| <= QUEUE_LIMIT)
            && (|next| == |queue| + 1 ==> next[|queue|] == image)
            && queue <= next
            && (|queue| <= QUEUE_LIMIT + 1 ==> |next| <= QUEUE_LIMIT + 1)
  {
  }

  /** The queue after a burst of frames with no frame taken in between. */
  function EnqueuedAll(queue: seq<QImage>, images: seq<QImage>): (next: seq<QImage>)
    decreases |images|
  {
    if images == [] then queue else EnqueuedAll(Enqueued(queue, images[0]), images[1..])
  }

  /** A burst into an empty queue keeps the first QUEUE_LIMIT + 1 frames, in
      arrival order, and drops the rest: 150 frames leave 101 queued. */
  lemma {:induction false} BurstKeepsOldestFrames(images: seq<QImage>)
    ensures EnqueuedAll([], images) == images[..Min(|images|, QUEUE_LIMIT + 1)]
  {
    BurstFromPrefix(images, 0);
  }

  lemma {:induction false} BurstFromPrefix(images: seq<QImage>, n: nat)
    requires n <= |images| && n <= QUEUE_LIMIT + 1
    ensures EnqueuedAll(images[..n], images[n..]) == images[..Min(|images|, QUEUE_LIMIT + 1)]
    decreases |images| - n
  {
    if n < |images| {
      assert images[n..][1..] == images[n + 1..];
      if n <= QUEUE_LIMIT {
        assert Enqueued(images[..n], images[n]) == images[..n + 1];
        BurstFromPrefix(images, n + 1);
      } else {
        DroppedWhenFull(images[..n], images[n..]);
      }
    }
  }

  lemma {:induction false} DroppedWhenFull(queue: seq<QImage>, images: seq<QImage>)
    requires |queue| > QUEUE_LIMIT
    ensures EnqueuedAll(queue, images) == queue
    decreases |images|
  {
    if images != [] {
      DroppedWhenFull(queue, images[1..]);
    }
  }

  /** QrScanThread: the queue under its mutex, the `m_running` flag, whether
      the worker thread is alive (QThread::isRunning), and the texts emitted
      through `decoded`, oldest first. */
  class QrScanThread {
    var queue: seq<QImage>
    var running: bool
    var active: bool
    var decoded: seq<string>

    /** The queue never holds more than QUEUE_LIMIT + 1 frames. */
    ghost predicate Valid()
      reads this
    {
      |queue| <= QUEUE_LIMIT + 1
    }

    constructor ()
      ensures Valid()
      ensures queue == [] && running && !active && decoded == []
    {
      queue := [];
      running := true;
      active := false;
      decoded := [];
    }

    /** start: drop stale frames, mark runnable, start the thread. */
    method Start()
      modifies this`queue, this`running, this`active
      ensures Valid()
      ensures queue == [] && running && active
    {
      queue := [];
      running := true;
      active := true;
    }

    /** stop: mark not runnable; queued frames stay. */
    method Stop()
      modifies this`running
      ensures !running
    {
      running := false;
    }

    /** addImage: a full queue refuses the new frame. */
    method AddImage(image: QImage)
      requires Valid()
      modifies this`queue
      ensures Valid()
      ensures queue == Enqueued(old(queue), image)
    {
      if |queue| > QUEUE_LIMIT {
        return;
      }
      queue := queue + [image];
    }

    /** processQImage: read with PROCESS_HINTS, emit the text if it is valid. */
    method ProcessQImage(image: QImage, order: ByteOrder, zx: (ImageView, ReaderOptions) -> ReaderOutcome)
      modifies this`decoded
      ensures decoded == old(decoded) + Emitted(ReadBarcode(image, PROCESS_HINTS, order, zx))
    {
      var result := ReadBarcode(image, PROCESS_HINTS, order, zx);
      if result.isValid {
        decoded := decoded + [result.text];
      }
    }

    /** One pass of the worker loop once its wait is over: take the oldest
      frame, if any, and process it. */
    method ProcessNext(order: ByteOrder, zx: (ImageView, ReaderOptions) -> ReaderOutcome) returns (processed: bool)
      requires Valid()
      modifies this`queue, this`decoded
      ensures Valid()
      ensures processed <==> old(queue) != []
      ensures processed ==> queue == old(queue)[1..]
      ensures processed ==> decoded == old(decoded) + Emitted(ReadBarcode(old(queue)[0], PROCESS_HINTS, order, zx))
      ensures !processed ==> queue == old(queue) && decoded == old(decoded)
    {
      processed := queue != [];
      if processed {
        var image := queue[0];
        queue := queue[1..];
        ProcessQImage(image, order, zx);
      }
    }

    /** run, up to the point where the worker would block: while running it
      takes frames oldest first until the queue is empty and then waits (the
      thread stays alive); once not running it leaves the loop and the thread
      ends. */
    method Run(order: ByteOrder, zx: (ImageView, ReaderOptions) -> ReaderOutcome)
      requires Valid() && active
      modifies this`queue, this`decoded, this`active
      ensures Valid()
      ensures queue == (if running then [] else old(queue))
      ensures decoded == old(decoded) + (if running then EmittedFor(old(queue), order, zx) else [])
      ensures active == running
    {
      ghost var taken := 0;
      while running && queue != []
        invariant Valid() && active
        invariant 0 <= taken <= |old(queue)|
        invariant queue == old(queue)[taken..]
        invariant running || taken == 0
        invariant decoded == old(decoded) + EmittedFor(old(queue)[..taken], order, zx)
        decreases |queue|
      {
        var image := queue[0];
        var _ := ProcessNext(order, zx);
        EmittedForAppend(old(queue)[..taken], image, order, zx);
        assert old(queue)[..taken + 1] == old(queue)[..taken] + [image];
        taken := taken + 1;
      }
      assert running ==> old(queue)[..taken] == old(queue);
      if !running {
        active := false;
      }
    }
  }
}
