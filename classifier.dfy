/**
 * `ReadBCSTomoData.is_final`, `is_delete`, `is_garbage` and `is_null_frame`, and the
 * order in which the monitor loop applies them.
 */
module Classifier {
  import opened Bytes
  import opened Decoder

  /** The bytes of "-writedone". */
  const FINAL_TAG: bytes := [0x2D, 0x77, 0x72, 0x69, 0x74, 0x65, 0x64, 0x6F, 0x6E, 0x65]
  /** The bytes of "-delete". */
  const DELETE_TAG: bytes := [0x2D, 0x64, 0x65, 0x6C, 0x65, 0x74, 0x65]
  /** The bytes of "meta data". */
  const GARBAGE_TAG: bytes := [0x6D, 0x65, 0x74, 0x61, 0x20, 0x64, 0x61, 0x74, 0x61]

  predicate IsFinal(f: Frame)
  {
    StartsWith(f.params, FINAL_TAG)
  }

  /** Defined by the reader, but the monitor loop never consults it. */
  predicate IsDelete(f: Frame)
  {
    StartsWith(f.params, DELETE_TAG)
  }

  predicate IsGarbage(f: Frame)
  {
    StartsWith(f.params, GARBAGE_TAG)
  }

  /** shape[1] + shape[2] <= 3: a degenerate start- or end-of-scan marker. */
  predicate IsNullFrame(f: Frame)
  {
    f.image.rows + f.image.cols <= 3
  }

  datatype FrameClass = Final | Garbage | Null | Valid

  /**
   * The if/elif chain of the monitor loop: the first test that holds decides, in the
   * order final, garbage, null; a frame passing none of them is broadcast.
   */
  function Classify(f: Frame): (c: FrameClass)
    ensures c == Final <==> IsFinal(f)
    ensures c == Garbage <==> !IsFinal(f) && IsGarbage(f)
    ensures c == Null <==> !IsFinal(f) && !IsGarbage(f) && IsNullFrame(f)
    ensures c == Valid <==> !IsFinal(f) && !IsGarbage(f) && !IsNullFrame(f)
  {
    if IsFinal(f) then Final
    else if IsGarbage(f) then Garbage
    else if IsNullFrame(f) then Null
    else Valid
  }

  /** No parameter block starts with both "-writedone" and "meta data". */
  lemma FinalAndGarbageExclusive(f: Frame)
    ensures !(IsFinal(f) && IsGarbage(f))
  {
    assert IsFinal(f) ==> f.params[0] == FINAL_TAG[0];
    assert IsGarbage(f) ==> f.params[0] == GARBAGE_TAG[0];
  }

  /**
   * The "-delete" marker is not a class of its own: such a frame is not final and not
   * garbage, so the shape alone decides between null and valid.
   */
  lemma DeleteFramesClassifiedByShape(f: Frame)
    requires IsDelete(f)
    ensures Classify(f) == (if IsNullFrame(f) then Null else Valid)
  {
    assert f.params[0] == DELETE_TAG[0] && f.params[1] == DELETE_TAG[1];
    assert |f.params| < |FINAL_TAG| || f.params[..|FINAL_TAG|][1] != FINAL_TAG[1];
    assert |f.params| < |GARBAGE_TAG| || f.params[..|GARBAGE_TAG|][0] != GARBAGE_TAG[0];
  }

  /** The null boundary: 1 row by 2 columns is null, 2 rows by 2 columns is not. */
  lemma NullBoundary(f: Frame)
    ensures f.image.rows == 1 && f.image.cols == 2 ==> IsNullFrame(f)
    ensures f.image.rows == 2 && f.image.cols == 2 ==> !IsNullFrame(f)
    ensures f.image.rows + f.image.cols >= 4 && !IsFinal(f) && !IsGarbage(f) ==> Classify(f) == Valid
  {
  }
}
