/** Bytes, fixed-width unsigned integers and the little-endian layout used by the
    WS2 wire format (Go's encoding/binary.LittleEndian). */
module Encoding {

  type byte = x: int | 0 <= x < 0x100
  type u32 = x: int | 0 <= x < 0x1_0000_0000
  type u64 = x: int | 0 <= x < 0x1_0000_0000_0000_0000

  /** A float64, kept as the bit pattern math.Float64bits gives for it. Every
      value the wire format carries (NaN payloads and -0.0 included) is one. */
  type Float = u64

  const TWO_32: int := 0x1_0000_0000
  const TWO_64: int := 0x1_0000_0000_0000_0000

  /** Go's conversion uint32(n) of a non-negative int: the low 32 bits. */
  function ToU32(n: nat): (r: u32)
    ensures n < TWO_32 ==> r == n
    ensures (r - n) % TWO_32 == 0
  {
    n % TWO_32
  }

  function Pow256(n: nat): (r: nat)
    ensures r > 0
  {
    if n == 0 then 1 else 256 * Pow256(n - 1)
  }

  lemma Pow256Widths()
    ensures Pow256(4) == TWO_32 && Pow256(8) == TWO_64
  {
    assert Pow256(2) == 0x1_0000;
    assert Pow256(4) == 0x1_0000 * Pow256(2) by {
      assert Pow256(4) == 256 * (256 * Pow256(2));
    }
    assert Pow256(6) == 0x1_0000 * Pow256(4);
    assert Pow256(8) == 0x1_0000 * Pow256(6);
  }

  /** The n low-order bytes of x, least significant first. */
  function LittleEndian(x: nat, n: nat): (r: seq<byte>)
    ensures |r| == n
  {
    if n == 0 then [] else [x % 256] + LittleEndian(x / 256, n - 1)
  }

  /** The number whose little-endian bytes are bs. */
  function FromLittleEndian(bs: seq<byte>): (r: nat)
    ensures r < Pow256(|bs|)
  {
    if bs == [] then 0 else bs[0] + 256 * FromLittleEndian(bs[1..])
  }

  /** Decoding undoes encoding for every value that fits in n bytes. */
  lemma {:induction false} FromToLittleEndian(x: nat, n: nat)
    requires x < Pow256(n)
    ensures FromLittleEndian(LittleEndian(x, n)) == x
  {
    if n > 0 {
      var bs := LittleEndian(x, n);
      assert bs[1..] == LittleEndian(x / 256, n - 1);
      FromToLittleEndian(x / 256, n - 1);
    }
  }

  /** Encoding undoes decoding: every byte string is the encoding of its value. */
  lemma {:induction false} ToFromLittleEndian(bs: seq<byte>)
    ensures LittleEndian(FromLittleEndian(bs), |bs|) == bs
  {
    if bs != [] {
      var v := FromLittleEndian(bs);
      var rest := FromLittleEndian(bs[1..]);
      assert v % 256 == bs[0] && v / 256 == rest;
      ToFromLittleEndian(bs[1..]);
      assert LittleEndian(v, |bs|) == [bs[0]] + bs[1..];
    }
  }

  /** binary.LittleEndian.PutUint32 */
  function Le32(x: u32): (r: seq<byte>)
    ensures |r| == 4
  {
    LittleEndian(x, 4)
  }

  /** binary.LittleEndian.PutUint64 */
  function Le64(x: u64): (r: seq<byte>)
    ensures |r| == 8
  {
    LittleEndian(x, 8)
  }

  /** binary.LittleEndian.Uint32(buf[off:off+4]) */
  function U32At(buf: seq<byte>, off: nat): (r: u32)
    requires off + 4 <= |buf|
  {
    Pow256Widths();
    FromLittleEndian(buf[off..off + 4])
  }

  /** binary.LittleEndian.Uint64(buf[off:off+8]) */
  function U64At(buf: seq<byte>, off: nat): (r: u64)
    requires off + 8 <= |buf|
  {
    Pow256Widths();
    FromLittleEndian(buf[off..off + 8])
  }

  /** Reading a 32-bit word where one was written gives it back. */
  lemma U32RoundTrip(buf: seq<byte>, off: nat, x: u32)
    requires off + 4 <= |buf| && buf[off..off + 4] == Le32(x)
    ensures U32At(buf, off) == x
  {
    Pow256Widths();
    FromToLittleEndian(x, 4);
  }

  /** The four bytes a 32-bit word was read from are its encoding. */
  lemma U32Encodes(buf: seq<byte>, off: nat)
    requires off + 4 <= |buf|
    ensures Le32(U32At(buf, off)) == buf[off..off + 4]
  {
    ToFromLittleEndian(buf[off..off + 4]);
  }

  /** The eight bytes a 64-bit word was read from are its encoding. */
  lemma U64Encodes(buf: seq<byte>, off: nat)
    requires off + 8 <= |buf|
    ensures Le64(U64At(buf, off)) == buf[off..off + 8]
  {
    ToFromLittleEndian(buf[off..off + 8]);
  }

  /** Reading a 64-bit word where one was written gives it back. */
  lemma U64RoundTrip(buf: seq<byte>, off: nat, x: u64)
    requires off + 8 <= |buf| && buf[off..off + 8] == Le64(x)
    ensures U64At(buf, off) == x
  {
    Pow256Widths();
    FromToLittleEndian(x, 8);
  }

  /** The words of xs laid out one after another, 8 little-endian bytes each. */
  function Words(xs: seq<u64>): (r: seq<byte>)
    ensures |r| == 8 * |xs|
  {
    if xs == [] then [] else Le64(xs[0]) + Words(xs[1..])
  }

  lemma {:induction false} WordsAppend(a: seq<u64>, b: seq<u64>)
    ensures Words(a + b) == Words(a) + Words(b)
  {
    if a == [] {
      assert a + b == b;
    } else {
      assert (a + b)[0] == a[0] && (a + b)[1..] == a[1..] + b;
      WordsAppend(a[1..], b);
    }
  }

  /** The n words read at offsets off, off+8, ..., in order. */
  function WordsAt(buf: seq<byte>, off: nat, n: nat): (r: seq<u64>)
    requires off + 8 * n <= |buf|
    ensures |r| == n
  {
    seq(n, k requires 0 <= k < n => U64At(buf, off + 8 * k))
  }

  /** Reading back the words that were written recovers them exactly. */
  lemma {:induction false} WordsAtWords(buf: seq<byte>, off: nat, xs: seq<u64>)
    requires off + 8 * |xs| <= |buf| && buf[off..off + 8 * |xs|] == Words(xs)
    ensures WordsAt(buf, off, |xs|) == xs
    decreases |xs|
  {
    if xs != [] {
      var n := |xs|;
      var w := buf[off..off + 8 * n];
      assert w == Le64(xs[0]) + Words(xs[1..]);
      assert buf[off..off + 8] == w[..8];
      U64RoundTrip(buf, off, xs[0]);
      assert buf[off + 8..off + 8 + 8 * (n - 1)] == w[8..];
      WordsAtWords(buf, off + 8, xs[1..]);
      assert WordsAt(buf, off, n) == [U64At(buf, off)] + WordsAt(buf, off + 8, n - 1);
    }
  }

  /** The bytes the words were read from are exactly their encoding. */
  lemma {:induction false} WordsOfWordsAt(buf: seq<byte>, off: nat, n: nat)
    requires off + 8 * n <= |buf|
    ensures Words(WordsAt(buf, off, n)) == buf[off..off + 8 * n]
    decreases n
  {
    if n > 0 {
      var ws := WordsAt(buf, off, n);
      assert ws[1..] == WordsAt(buf, off + 8, n - 1);
      U64Encodes(buf, off);
      WordsOfWordsAt(buf, off + 8, n - 1);
      assert buf[off..off + 8 * n] == buf[off..off + 8] + buf[off + 8..off + 8 + 8 * (n - 1)];
    }
  }
}
