/**
 * `FrameGenerator` (a store of frames that fills in its shape fields lazily) and
 * `PVABroadcaster.adjust_dtype` (byte-order normalisation before a broadcast).
 */
module PvaInstance {
  import opened Wrappers
  import opened Decoder

  /** The numpy element types frames can have; the host is little-endian, so UInt16 is '<u2'. */
  datatype Dtype = UInt8 | UInt16 | UInt16BE | UInt32 | Int16 | Float32 | Float64

  /** numpy's itemsize: the bytes one element takes. */
  function ItemSize(t: Dtype): (n: nat)
    ensures 1 <= n <= 8
  {
    match t
    case UInt8 => 1
    case UInt16 | UInt16BE | Int16 => 2
    case UInt32 | Float32 => 4
    case Float64 => 8
  }

  /** A numpy array: element type, shape, and the element values in C order. */
  datatype NdArray = NdArray(dtype: Dtype, shape: seq<nat>, values: seq<int>)

  /**
   * adjust_dtype: native uint16 data is returned as it is with the caller's dtype name,
   * big-endian uint16 data is converted to native uint16 (same shape, same values) with
   * dtype 'uint16', and any other element type makes the function return nothing.
   */
  function AdjustDtype(frameData: NdArray, dtype: string): (r: Option<(NdArray, string)>)
    ensures r.Some? <==> frameData.dtype == UInt16 || frameData.dtype == UInt16BE
    ensures r.Some? ==> r.value.0.dtype == UInt16 && r.value.0.shape == frameData.shape && r.value.0.values == frameData.values
    ensures frameData.dtype == UInt16 ==> r == Some((frameData, dtype))
    ensures frameData.dtype == UInt16BE ==> r.Some? && r.value.1 == "uint16"
  {
    if frameData.dtype == UInt16 then Some((frameData, dtype))
    else if frameData.dtype == UInt16BE then Some((NdArray(UInt16, frameData.shape, frameData.values), "uint16"))
    else None
  }

  /** Adjusting already adjusted data changes nothing. */
  lemma AdjustDtypeIdempotent(frameData: NdArray, dtype: string)
    requires AdjustDtype(frameData, dtype).Some?
    ensures var (data, name) := AdjustDtype(frameData, dtype).value; AdjustDtype(data, name) == Some((data, name))
  {
  }

  /**
   * The image `read` hands to a broadcaster is big-endian uint16 of shape (rows, cols);
   * frameProducer's adjust_dtype turns it into native uint16 with the same shape and values.
   */
  lemma AdjustReadImage(img: Image, dtype: string)
    ensures AdjustDtype(NdArray(UInt16BE, [img.rows, img.cols], img.pixels), dtype)
         == Some((NdArray(UInt16, [img.rows, img.cols], img.pixels), "uint16"))
  {
  }

  /** One frame: `rows` lists of `cols` values. */
  type Plane = seq<seq<int>>

  /** The generator's `frames`: a 3-D numpy array of shape (|planes|, rows, cols). */
  datatype FrameStack = FrameStack(dtype: Dtype, rows: nat, cols: nat, planes: seq<Plane>)

  predicate WellShaped(s: FrameStack)
  {
    forall i :: 0 <= i < |s.planes| ==>
      |s.planes[i]| == s.rows && forall r :: 0 <= r < s.rows ==> |s.planes[i][r]| == s.cols
  }

  /** Python truthiness of an optional string: neither None nor "". */
  predicate Truthy(name: Option<string>)
  {
    name.Some? && name.value != ""
  }

  /** The fields of a generator, as one value. */
  datatype GeneratorState = GeneratorState(
    frames: Option<FrameStack>, nInputFrames: nat, rows: nat, cols: nat,
    dtype: Option<Dtype>, compressorName: Option<string>)

  /** What getFrameInfo leaves behind: the shape fields filled from `frames` the first time, otherwise no change. */
  function AfterFrameInfo(s: GeneratorState): (t: GeneratorState)
    ensures t.frames == s.frames && t.compressorName == s.compressorName
  {
    if s.frames.Some? && s.nInputFrames == 0 then
      var f := s.frames.value;
      s.(nInputFrames := |f.planes|, rows := f.rows, cols := f.cols, dtype := Some(f.dtype))
    else s
  }

  /**
   * getFrameInfo is idempotent: a second call leaves the fields as the first left them,
   * and once nInputFrames is non-zero (or frames is None) a call changes nothing.
   */
  lemma FrameInfoIdempotent(s: GeneratorState)
    ensures AfterFrameInfo(AfterFrameInfo(s)) == AfterFrameInfo(s)
    ensures s.nInputFrames != 0 || s.frames.None? ==> AfterFrameInfo(s) == s
  {
  }

  datatype FrameInfo = FrameInfo(nInputFrames: nat, rows: nat, cols: nat, dtype: Option<Dtype>, compressorName: Option<string>)

  /** Why a size getter raises: `frames` is None, `frames` has no frame 0, or `len(None)`. */
  datatype SizeError = FramesNotSet | NoFrameZero | NoFrameData

  class FrameGenerator {
    var frames: Option<FrameStack>
    var nInputFrames: nat
    var rows: nat
    var cols: nat
    var dtype: Option<Dtype>
    var compressorName: Option<string>

    /** The frames are well shaped, and a non-zero frame count was taken from them together with rows, cols and dtype. */
    ghost predicate Valid()
      reads this
    {
      && (frames.Some? ==> WellShaped(frames.value))
      && (nInputFrames != 0 ==>
            && frames.Some?
            && nInputFrames == |frames.value.planes|
            && rows == frames.value.rows && cols == frames.value.cols
            && dtype == Some(frames.value.dtype))
    }

    function State(): GeneratorState
      reads this
    {
      GeneratorState(frames, nInputFrames, rows, cols, dtype, compressorName)
    }

    /** A fresh generator holds no frames, so every lookup gives None. */
    constructor ()
      ensures Valid()
      ensures State() == GeneratorState(None, 0, 0, 0, None, None)
      ensures forall frameId :: GetFrameData(frameId).None?
    {
      frames := None;
      nInputFrames := 0;
      rows := 0;
      cols := 0;
      dtype := None;
      compressorName := None;
    }

    /** getFrameData: frame `frameId` when 0 <= frameId < nInputFrames, otherwise None. */
    function GetFrameData(frameId: int): (r: Option<Plane>)
      reads this
      requires Valid()
      ensures r.Some? <==> 0 <= frameId < nInputFrames
      ensures r.Some? ==> frames.Some? && frameId < |frames.value.planes| && r.value == frames.value.planes[frameId]
    {
      if frameId < nInputFrames && frameId >= 0 then Some(frames.value.planes[frameId]) else None
    }

    /** getFrameInfo: fills nInputFrames, rows, cols and dtype from `frames` on the first call that finds it set. */
    method GetFrameInfo() returns (info: FrameInfo)
      requires Valid()
      modifies this
      ensures Valid()
      ensures State() == AfterFrameInfo(old(State()))
      ensures info == FrameInfo(nInputFrames, rows, cols, dtype, compressorName)
    {
      if frames.Some? && nInputFrames == 0 {
        nInputFrames, rows, cols := |frames.value.planes|, frames.value.rows, frames.value.cols;
        dtype := Some(frames.value.dtype);
      }
      return FrameInfo(nInputFrames, rows, cols, dtype, compressorName);
    }

    /** getUncompressedFrameSize: rows * cols * the item size of the frames' elements. */
    function GetUncompressedFrameSize(): (r: Result<nat, SizeError>)
      reads this
      requires Valid()
      ensures frames.None? ==> r == Err(FramesNotSet)
      ensures frames.Some? ==> (r.Ok? <==> |frames.value.planes| > 0)
      ensures r.Ok? ==> r.value == rows * cols * ItemSize(frames.value.dtype)
    {
      if frames.None? then Err(FramesNotSet)
      else if |frames.value.planes| == 0 then Err(NoFrameZero)
      else Ok(rows * cols * ItemSize(frames.value.dtype))
    }

    /**
     * getCompressedFrameSize: with a compressor name, the length of frame 0 (its number of
     * rows), which raises when there is no frame 0 to look up; without one, the uncompressed size.
     */
    function GetCompressedFrameSize(): (r: Result<nat, SizeError>)
      reads this
      requires Valid()
      ensures Truthy(compressorName) ==> (r.Ok? <==> nInputFrames > 0)
      ensures Truthy(compressorName) && r.Ok? ==> r.value == frames.value.rows
      ensures !Truthy(compressorName) ==> r == GetUncompressedFrameSize()
    {
      if Truthy(compressorName) then
        match GetFrameData(0)
        case None => Err(NoFrameData)
        case Some(frame) => Ok(|frame|)
      else GetUncompressedFrameSize()
    }
  }

  /**
   * Once getFrameInfo has counted at least one frame, the uncompressed size is the number
   * of bytes in one frame of the stack: its rows times its columns times the item size.
   */
  lemma UncompressedSizeIsFrameBytes(g: FrameGenerator)
    requires g.Valid() && g.nInputFrames > 0
    ensures var f := g.frames.value;
      g.GetUncompressedFrameSize() == Ok(f.rows * f.cols * ItemSize(f.dtype))
      && |f.planes[0]| == f.rows && (f.rows > 0 ==> |f.planes[0][0]| == f.cols)
  {
  }
}
