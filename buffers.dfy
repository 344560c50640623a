/**
 * The byte-level operations of JavaScript typed arrays and Node buffers that
 * the core relies on: bulk `set`/`copy` into an array, and big-endian
 * unsigned integer writes with their range check.
 */
module Buffers {

  /** An element of a `Buffer` (a `Uint8Array`). */
  type byte = x: int | 0 <= x < 256

  /**
   * `TypedArray.prototype.set` and `Buffer.prototype.copy`: overwrites `a`
   * from index `at` with the elements of `src` and leaves every other
   * element alone.
   */
  method SetAt<T>(a: array<T>, src: seq<T>, at: nat)
    requires at + |src| <= a.Length
    modifies a
    ensures a[..at + |src|] == old(a[..at]) + src
    ensures a[at..at + |src|] == src
    ensures forall k | at + |src| <= k < a.Length :: a[k] == old(a[k])
  {
    var i := 0;
    while i < |src|
      invariant 0 <= i <= |src|
      invariant forall k | 0 <= k < a.Length :: a[k] == if at <= k < at + i then src[k - at] else old(a[k])
    {
      a[at + i] := src[i];
      i := i + 1;
    }
    assert a[..at + |src|] == old(a[..at]) + src;
    assert a[at..at + |src|] == src;
  }

  function Pow256(n: nat): (r: nat)
    ensures r > 0
  {
    if n == 0 then 1 else 256 * Pow256(n - 1)
  }

  /** `v` as `n` big-endian bytes, most significant first; bits above `8 * n` are dropped. */
  function BigEndian(v: nat, n: nat): (r: seq<byte>)
    ensures |r| == n
  {
    if n == 0 then [] else BigEndian(v / 256, n - 1) + [v % 256]
  }

  /** The unsigned integer that big-endian bytes denote. */
  function FromBigEndian(bs: seq<byte>): nat
  {
    if bs == [] then 0 else FromBigEndian(bs[..|bs| - 1]) * 256 + bs[|bs| - 1]
  }

  /** Decoding undoes encoding for every value that fits in `n` bytes. */
  lemma {:induction false} BigEndianRoundTrip(v: nat, n: nat)
    requires v < Pow256(n)
    ensures FromBigEndian(BigEndian(v, n)) == v
  {
    if n > 0 {
      BigEndianRoundTrip(v / 256, n - 1);
      var bs := BigEndian(v, n);
      assert bs[..n - 1] == BigEndian(v / 256, n - 1);
    }
  }

  /**
   * `buf.writeUIntBE(value, offset, width)` as Node's `writeUInt16BE` and
   * `writeUInt32BE` do it: a value outside `0 .. 256^width - 1` is refused
   * (Node throws a `RangeError`) and nothing is written; otherwise the bytes
   * are stored low byte last.
   */
  method WriteUIntBE(buf: array<byte>, value: nat, offset: nat, width: nat) returns (ok: bool)
    requires offset + width <= buf.Length
    modifies buf
    ensures ok <==> value < Pow256(width)
    ensures ok ==> buf[..offset + width] == old(buf[..offset]) + BigEndian(value, width)
    ensures ok ==> forall k | offset + width <= k < buf.Length :: buf[k] == old(buf[k])
    ensures !ok ==> buf[..] == old(buf[..])
  {
    ok := value < Pow256(width);
    if !ok {
      return;
    }
    var v, i := value, width;
    while i > 0
      invariant 0 <= i <= width
      invariant BigEndian(value, width) == BigEndian(v, i) + buf[offset + i..offset + width]
      invariant forall k | 0 <= k < buf.Length && !(offset + i <= k < offset + width) :: buf[k] == old(buf[k])
    {
      ghost var suffix := buf[offset + i..offset + width];
      buf[offset + i - 1] := v % 256;
      assert buf[offset + i - 1..offset + width] == [v % 256] + suffix;
      v, i := v / 256, i - 1;
    }
    assert buf[..offset] == old(buf[..offset]);
    assert buf[..offset + width] == buf[..offset] + buf[offset..offset + width];
  }
}
