/**
 * `ReadBCSTomoData.read`: one seven-part message from the acquisition controller
 * decoded into a frame record, without the socket (the seven parts are given).
 */
module Decoder {
  import opened Wrappers
  import opened Bytes

  /** The bytes of "[start]". */
  const START_TAG: bytes := [0x5B, 0x73, 0x74, 0x61, 0x72, 0x74, 0x5D]
  /** The bytes of "[end]". */
  const END_TAG: bytes := [0x5B, 0x65, 0x6E, 0x64, 0x5D]

  /** The seven parts in the order they are received. */
  datatype Message = Message(start: bytes, image: bytes, info: bytes, h5File: bytes, tifFile: bytes, params: bytes, end: bytes)

  /**
   * A decoded image: the numpy array of shape (1, rows, cols) with element type ">u2";
   * `pixels` lists its elements in row-major order.
   */
  datatype Image = Image(rows: nat, cols: nat, pixels: seq<nat>)

  predicate Shaped(img: Image)
  {
    |img.pixels| == img.rows * img.cols
  }

  lemma RowMajorIndex(r: nat, c: nat, rows: nat, cols: nat)
    requires r < rows && c < cols
    ensures r * cols + c < rows * cols
  {
    assert r * cols + c < r * cols + cols == (r + 1) * cols;
    assert (r + 1) * cols <= rows * cols;
  }

  /** The element at row r, column c (`image[0, r, c]`). */
  function Pixel(img: Image, r: nat, c: nat): nat
    requires Shaped(img) && r < img.rows && c < img.cols
  {
    RowMajorIndex(r, c, img.rows, img.cols);
    img.pixels[r * img.cols + c]
  }

  /** The decoded `data_obj`: info words and image decoded, the other parts kept as received. */
  datatype Frame = Frame(start: bytes, image: Image, info: seq<nat>, h5File: bytes, tifFile: bytes, params: bytes, end: bytes)

  /** Why `read` raises: a buffer that is not a whole number of elements, too few info words, a shape that does not fit. */
  datatype ReadError = InfoNotWhole | ImageNotWhole | InfoTooShort | ShapeMismatch

  /** What `read` does: return the frame, return `(None, None)`, or raise. */
  datatype ReadResult = Decoded(frame: Frame) | Rejected | Failed(error: ReadError)

  /** `b[4:]`: the buffer after its 4-byte header (empty when there is nothing after it). */
  function Payload(b: bytes): (p: bytes)
    ensures |b| <= 4 ==> p == []
    ensures |b| > 4 ==> p == b[4..]
  {
    if |b| <= 4 then [] else b[4..]
  }

  predicate TagsOk(m: Message)
  {
    StartsWith(m.start, START_TAG) && StartsWith(m.end, END_TAG)
  }

  /**
   * The condition, on the raw bytes, under which `read` does not raise: both payloads hold
   * whole elements, there are at least two info words, and the image holds exactly
   * info[0] * info[1] elements.
   */
  predicate WellSized(m: Message)
  {
    var info := Payload(m.info);
    var image := Payload(m.image);
    |info| % 4 == 0 && |image| % 2 == 0 && |info| >= 8 &&
    |image| / 2 == BigEndian(info[4..8]) * BigEndian(info[0..4])
  }

  /**
   * read: decode the info words, then the image, then reshape; only then look at the
   * tags. Raising depends on the sizes alone; the tags decide between the frame and
   * `(None, None)`.
   */
  function Read(m: Message): ReadResult
  {
    match FromBuffer(Payload(m.info), 4)
    case None => Failed(InfoNotWhole)
    case Some(info) =>
      match FromBuffer(Payload(m.image), 2)
      case None => Failed(ImageNotWhole)
      case Some(pixels) =>
        if |info| < 2 then Failed(InfoTooShort)
        else if |pixels| != info[1] * info[0] then Failed(ShapeMismatch)
        else if TagsOk(m) then Decoded(Frame(m.start, Image(info[1], info[0], pixels), info, m.h5File, m.tifFile, m.params, m.end))
        else Rejected
  }

  /**
   * When `read` raises, and why: it raises exactly when the sizes are wrong, first on a
   * partial info word, then on a partial image element; the tags decide only between
   * the frame and `(None, None)`.
   */
  lemma ReadOutcomes(m: Message)
    ensures Read(m).Failed? <==> !WellSized(m)
    ensures Read(m) == Failed(InfoNotWhole) <==> |Payload(m.info)| % 4 != 0
    ensures Read(m) == Failed(ImageNotWhole) <==> |Payload(m.info)| % 4 == 0 && |Payload(m.image)| % 2 != 0
    ensures Read(m).Decoded? <==> WellSized(m) && TagsOk(m)
    ensures Read(m) == Rejected <==> WellSized(m) && !TagsOk(m)
  {
    var info := Payload(m.info);
    FromBufferWhole(info, 4);
    FromBufferWhole(Payload(m.image), 2);
    if FromBuffer(info, 4).Some? {
      FromBufferElements(info, 4);
      if |info| >= 8 {
        assert info[0..4] == info[4 * 0 .. 4 * 0 + 4];
        assert info[4..8] == info[4 * 1 .. 4 * 1 + 4];
      }
    }
  }

  /** The frame `read` returns is built from the two decoded buffers and the parts as received. */
  lemma ReadParts(m: Message)
    requires Read(m).Decoded?
    ensures FromBuffer(Payload(m.info), 4).Some? && FromBuffer(Payload(m.image), 2).Some?
    ensures var info := FromBuffer(Payload(m.info), 4).value;
      |info| >= 2 &&
      Read(m).frame == Frame(m.start, Image(info[1], info[0], FromBuffer(Payload(m.image), 2).value),
                             info, m.h5File, m.tifFile, m.params, m.end)
  {
  }

  /** Info word i is bytes 4+4i .. 7+4i of the info part, read big-endian. */
  lemma ReadInfo(m: Message)
    requires Read(m).Decoded?
    ensures var info := Read(m).frame.info;
      && 4 * |info| + 4 == |m.info| && |info| >= 2
      && forall i :: 0 <= i < |info| ==> info[i] == BigEndian(m.info[4 + 4 * i .. 8 + 4 * i])
  {
    ReadParts(m);
    var words := Read(m).frame.info;
    var payload := Payload(m.info);
    FromBufferElements(payload, 4);
    forall i | 0 <= i < |words|
      ensures words[i] == BigEndian(m.info[4 + 4 * i .. 8 + 4 * i])
    {
      assert payload[4 * i .. 4 * i + 4] == m.info[4 + 4 * i .. 8 + 4 * i];
    }
  }

  /**
   * Image element k is bytes 4+2k .. 5+2k of the image part, read big-endian, and the image
   * has info[1] rows of info[0] columns; the other parts are passed through as received.
   */
  lemma ReadImage(m: Message)
    requires Read(m).Decoded?
    ensures var f := Read(m).frame;
      && |f.info| >= 2 && f.image.rows == f.info[1] && f.image.cols == f.info[0] && Shaped(f.image)
      && 2 * |f.image.pixels| == |Payload(m.image)|
      && f.start == m.start && f.h5File == m.h5File && f.tifFile == m.tifFile && f.params == m.params && f.end == m.end
      && forall k :: 0 <= k < |f.image.pixels| ==> f.image.pixels[k] == BigEndian(m.image[4 + 2 * k .. 6 + 2 * k])
  {
    ReadParts(m);
    var pixels := Read(m).frame.image.pixels;
    var payload := Payload(m.image);
    FromBufferElements(payload, 2);
    forall k | 0 <= k < |pixels|
      ensures pixels[k] == BigEndian(m.image[4 + 2 * k .. 6 + 2 * k])
    {
      assert payload[2 * k .. 2 * k + 2] == m.image[4 + 2 * k .. 6 + 2 * k];
    }
  }

  /** Row-major placement: `image[0, r, c]` is element r * info[0] + c of the image part. */
  lemma ReadPixel(m: Message, r: nat, c: nat)
    requires Read(m).Decoded?
    requires r < Read(m).frame.image.rows && c < Read(m).frame.image.cols
    ensures var img := Read(m).frame.image;
      var k := r * img.cols + c;
      Shaped(img) && 0 <= k && 6 + 2 * k <= |m.image| && Pixel(img, r, c) == BigEndian(m.image[4 + 2 * k .. 6 + 2 * k])
  {
    ReadImage(m);
    var img := Read(m).frame.image;
    RowMajorIndex(r, c, img.rows, img.cols);
    assert |img.pixels| > 0;
    assert |m.image| == |Payload(m.image)| + 4;
    PixelBytes(img, m.image, r, c);
  }

  lemma PixelBytes(img: Image, raw: bytes, r: nat, c: nat)
    requires Shaped(img) && r < img.rows && c < img.cols
    requires 2 * |img.pixels| + 4 <= |raw|
    requires forall k :: 0 <= k < |img.pixels| ==> img.pixels[k] == BigEndian(raw[4 + 2 * k .. 6 + 2 * k])
    ensures var k := r * img.cols + c;
      0 <= k && 6 + 2 * k <= |raw| && Pixel(img, r, c) == BigEndian(raw[4 + 2 * k .. 6 + 2 * k])
  {
    RowMajorIndex(r, c, img.rows, img.cols);
  }

  /**
   * Round trip: a message whose info part is a 4-byte header followed by the words `info`
   * and whose image part is a 4-byte header followed by info[0] * info[1] 16-bit values
   * decodes to exactly those words and an image of info[1] rows by info[0] columns holding
   * those values in row-major order.
   */
  lemma ReadOfEncoded(start: bytes, end: bytes, infoHeader: bytes, imageHeader: bytes,
                      info: seq<nat>, pixels: seq<nat>, h5File: bytes, tifFile: bytes, params: bytes)
    requires |infoHeader| == 4 && |imageHeader| == 4
    requires StartsWith(start, START_TAG) && StartsWith(end, END_TAG)
    requires |info| >= 2 && forall i :: 0 <= i < |info| ==> info[i] < Pow256(4)
    requires forall k :: 0 <= k < |pixels| ==> pixels[k] < Pow256(2)
    requires |pixels| == info[0] * info[1]
    ensures Read(Message(start, imageHeader + Pack(pixels, 2), infoHeader + Pack(info, 4), h5File, tifFile, params, end))
         == Decoded(Frame(start, Image(info[1], info[0], pixels), info, h5File, tifFile, params, end))
  {
    var m := Message(start, imageHeader + Pack(pixels, 2), infoHeader + Pack(info, 4), h5File, tifFile, params, end);
    assert Payload(m.info) == Pack(info, 4);
    if |pixels| == 0 {
      assert Payload(m.image) == [] == Pack(pixels, 2);
    } else {
      assert Payload(m.image) == Pack(pixels, 2);
    }
    FromBufferOfPack(info, 4);
    FromBufferOfPack(pixels, 2);
    assert |pixels| == info[1] * info[0];
  }
}
