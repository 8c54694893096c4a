/**
 * Byte strings and the big-endian word decoding that `numpy.frombuffer` performs
 * with the dtypes ">u2" and ">u4".
 */
module Bytes {
  import opened Wrappers

  type byte = x: int | 0 <= x < 256
  type bytes = seq<byte>

  /** 256 to the power n: one more than the largest value n bytes can hold. */
  function Pow256(n: nat): (p: nat)
    ensures p >= 1
  {
    if n == 0 then 1 else 256 * Pow256(n - 1)
  }

  /** The unsigned value of `s` read most significant byte first. */
  function BigEndian(s: bytes): (v: nat)
    ensures v < Pow256(|s|)
  {
    if s == [] then 0 else BigEndian(s[..|s| - 1]) * 256 + s[|s| - 1]
  }

  /** The `w` bytes that hold `v` most significant byte first (the inverse of BigEndian). */
  function ToBigEndian(v: nat, w: nat): (s: bytes)
    requires v < Pow256(w)
    ensures |s| == w
  {
    if w == 0 then [] else ToBigEndian(v / 256, w - 1) + [v % 256]
  }

  lemma {:induction false} BigEndianOfToBigEndian(v: nat, w: nat)
    requires v < Pow256(w)
    ensures BigEndian(ToBigEndian(v, w)) == v
  {
    if w > 0 {
      var s := ToBigEndian(v, w);
      assert s[..|s| - 1] == ToBigEndian(v / 256, w - 1);
      BigEndianOfToBigEndian(v / 256, w - 1);
    }
  }

  /**
   * The whole `w`-byte words at the front of `b`, each read big-endian; any
   * trailing partial word is not part of the result.
   */
  function Words(b: bytes, w: nat): (r: seq<nat>)
    requires w > 0
    ensures w * |r| <= |b| < w * |r| + w
    decreases |b|
  {
    if |b| < w then []
    else
      var rest := Words(b[w..], w);
      assert w * (|rest| + 1) == w * |rest| + w;
      [BigEndian(b[..w])] + rest
  }

  /** Word i of `Words(b, w)` is the big-endian value of bytes w*i .. w*i+w-1 of `b`. */
  lemma {:induction false} WordsAt(b: bytes, w: nat, i: nat)
    requires w > 0 && i < |Words(b, w)|
    ensures w * i + w <= |b| && Words(b, w)[i] == BigEndian(b[w * i .. w * i + w])
    decreases i
  {
    var rest := Words(b[w..], w);
    if i > 0 {
      WordsAt(b[w..], w, i - 1);
      assert w * i == w * (i - 1) + w;
      assert b[w..][w * (i - 1) .. w * (i - 1) + w] == b[w * i .. w * i + w];
    }
  }

  /**
   * numpy.frombuffer(b, dtype) for an unsigned big-endian dtype of `w` bytes:
   * the buffer must hold a whole number of elements, otherwise it raises.
   */
  function FromBuffer(b: bytes, w: nat): (r: Option<seq<nat>>)
    requires w > 0
    ensures r.Some? ==> w * |r.value| == |b|
  {
    var words := Words(b, w);
    if w * |words| == |b| then Some(words) else None
  }

  /** Element i of a successful FromBuffer is the big-endian value of bytes w*i .. w*i+w-1. */
  lemma FromBufferElements(b: bytes, w: nat)
    requires w > 0 && FromBuffer(b, w).Some?
    ensures var r := FromBuffer(b, w).value;
      forall i :: 0 <= i < |r| ==> w * i + w <= |b| && r[i] == BigEndian(b[w * i .. w * i + w])
  {
    var words := Words(b, w);
    forall i | 0 <= i < |words| ensures w * i + w <= |b| && words[i] == BigEndian(b[w * i .. w * i + w]) {
      WordsAt(b, w, i);
    }
  }

  /** For the two element sizes the decoder uses, FromBuffer fails exactly when the size is not a multiple. */
  lemma FromBufferWhole(b: bytes, w: nat)
    requires w == 2 || w == 4
    ensures FromBuffer(b, w).Some? <==> |b| % w == 0
  {
    var n := |Words(b, w)|;
    if w == 2 {
      assert 2 * n <= |b| < 2 * n + 2;
    } else {
      assert 4 * n <= |b| < 4 * n + 4;
    }
  }

  /** The inverse of FromBuffer: each value written as `w` big-endian bytes, one after another. */
  function Pack(vals: seq<nat>, w: nat): (b: bytes)
    requires forall i :: 0 <= i < |vals| ==> vals[i] < Pow256(w)
    ensures |b| == w * |vals|
  {
    if vals == [] then [] else ToBigEndian(vals[0], w) + Pack(vals[1..], w)
  }

  lemma {:induction false} WordsOfPack(vals: seq<nat>, w: nat)
    requires w > 0
    requires forall i :: 0 <= i < |vals| ==> vals[i] < Pow256(w)
    ensures Words(Pack(vals, w), w) == vals
  {
    if vals != [] {
      var b := Pack(vals, w);
      assert b[..w] == ToBigEndian(vals[0], w);
      assert b[w..] == Pack(vals[1..], w);
      BigEndianOfToBigEndian(vals[0], w);
      WordsOfPack(vals[1..], w);
    }
  }

  /** Decoding what Pack wrote gives back exactly the packed values. */
  lemma FromBufferOfPack(vals: seq<nat>, w: nat)
    requires w > 0
    requires forall i :: 0 <= i < |vals| ==> vals[i] < Pow256(w)
    ensures FromBuffer(Pack(vals, w), w) == Some(vals)
  {
    WordsOfPack(vals, w);
  }

  /** Python's `bytes.startswith`. */
  predicate StartsWith(s: bytes, prefix: bytes)
  {
    |prefix| <= |s| && s[..|prefix|] == prefix
  }

  /** `bytes.decode()` for ASCII input: each byte becomes the character with that code. */
  function Text(b: bytes): (s: string)
    ensures |s| == |b| && forall i :: 0 <= i < |b| ==> s[i] as int == b[i]
  {
    seq(|b|, i requires 0 <= i < |b| => b[i] as char)
  }
}
