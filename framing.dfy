/** The wire format both implementations share: a payload cut into
    fixed-size slices, and the frame `[index:2 BE][total:2 BE][payload]`.
    The Kotlin `ChunkUtils` object and the Python `protocol` module are each
    proved against these definitions. */
module Framing {
  import opened Common

  /** The slices joined in order: `b"".join(chunks)` in Python, and what
      `ChunkUtils.reassemble` leaves in its buffer. */
  function Concat(chunks: seq<seq<byte>>): seq<byte>
  {
    if chunks == [] then [] else chunks[0] + Concat(chunks[1..])
  }

  /** `chunks.sumOf { it.size }`. */
  function TotalLength(chunks: seq<seq<byte>>): nat
  {
    if chunks == [] then 0 else |chunks[0]| + TotalLength(chunks[1..])
  }

  lemma {:induction false} ConcatLength(chunks: seq<seq<byte>>)
    ensures |Concat(chunks)| == TotalLength(chunks)
  {
    if chunks != [] {
      ConcatLength(chunks[1..]);
    }
  }

  /** Joining two runs of slices is joining their joins. */
  lemma {:induction false} ConcatAppend(a: seq<seq<byte>>, b: seq<seq<byte>>)
    ensures Concat(a + b) == Concat(a) + Concat(b)
  {
    if a != [] {
      assert (a + b)[1..] == a[1..] + b;
      ConcatAppend(a[1..], b);
    } else {
      assert a + b == b;
    }
  }

  /** Slice k of the join starts at the summed lengths of slices 0..k-1. */
  lemma ConcatAt(chunks: seq<seq<byte>>, k: nat)
    requires k < |chunks|
    ensures TotalLength(chunks[..k]) + |chunks[k]| <= |Concat(chunks)|
    ensures Concat(chunks)[TotalLength(chunks[..k]) .. TotalLength(chunks[..k]) + |chunks[k]|] == chunks[k]
  {
    assert chunks == chunks[..k] + ([chunks[k]] + chunks[k + 1..]);
    ConcatAppend(chunks[..k], [chunks[k]] + chunks[k + 1..]);
    ConcatLength(chunks[..k]);
    assert Concat([chunks[k]] + chunks[k + 1..]) == chunks[k] + Concat(chunks[k + 1..]);
  }

  function CeilDiv(n: nat, d: nat): nat
    requires d >= 1
  {
    (n + d - 1) / d
  }

  /** `data` cut every `size` bytes, the last slice holding the remainder. */
  function Slices(data: seq<byte>, size: int): seq<seq<byte>>
    requires size >= 1
    decreases |data|
  {
    if |data| == 0 then []
    else
      var n := Min(size, |data|);
      [data[..n]] + Slices(data[n..], size)
  }

  /** Reassembling the slices gives the payload back. */
  lemma {:induction false} SlicesRoundTrip(data: seq<byte>, size: int)
    requires size >= 1
    ensures Concat(Slices(data, size)) == data
    decreases |data|
  {
    if |data| != 0 {
      var n := Min(size, |data|);
      SlicesRoundTrip(data[n..], size);
      assert data == data[..n] + data[n..];
    }
  }

  lemma CeilDivStep(n: nat, d: nat)
    requires d >= 1 && n > d
    ensures CeilDiv(n, d) == CeilDiv(n - d, d) + 1
  {
    var x := n - 1;
    var q, r := x / d, x % d;
    assert x == d * q + r;
    assert n + d - 1 == d * (q + 1) + r;
    DivUnique(n + d - 1, d, q + 1, r);
  }

  lemma CeilDivSmall(n: nat, d: nat)
    requires 1 <= n <= d
    ensures CeilDiv(n, d) == 1
  {
    assert d <= n + d - 1 < 2 * d;
  }

  /** There are ceil(|data| / size) slices; none when the payload is empty. */
  lemma {:induction false} SlicesCount(data: seq<byte>, size: int)
    requires size >= 1
    ensures |Slices(data, size)| == CeilDiv(|data|, size)
    decreases |data|
  {
    if |data| == 0 {
    } else if |data| <= size {
      CeilDivSmall(|data|, size);
    } else {
      SlicesCount(data[size..], size);
      CeilDivStep(|data|, size);
    }
  }

  /** Every slice but the last is `size` long; the last is non-empty and
      at most `size` long. */
  lemma {:induction false} SlicesShape(data: seq<byte>, size: int)
    requires size >= 1
    ensures forall k :: 0 <= k < |Slices(data, size)| - 1 ==> |Slices(data, size)[k]| == size
    ensures |Slices(data, size)| > 0 ==> 1 <= |Slices(data, size)[|Slices(data, size)| - 1]| <= size
    decreases |data|
  {
    if |data| > size {
      SlicesShape(data[size..], size);
      var rest := Slices(data[size..], size);
      assert Slices(data, size) == [data[..size]] + rest;
      assert rest != [];
    }
  }

  /** Slice k is `data[k*size : k*size+size]`, the element the Python list
      comprehension produces for `i = k*size`. */
  lemma {:induction false} SlicesAt(data: seq<byte>, size: int, k: nat)
    requires size >= 1 && k < |Slices(data, size)|
    ensures k * size < |data|
    ensures Slices(data, size)[k] == data[k * size .. Min(k * size + size, |data|)]
    decreases |data|
  {
    var n := Min(size, |data|);
    var rest := Slices(data[n..], size);
    assert Slices(data, size) == [data[..n]] + rest;
    if k > 0 {
      assert n == size;
      SlicesAt(data[n..], size, k - 1);
      var lo := (k - 1) * size;
      var hi := Min(lo + size, |data| - n);
      assert k * size == n + lo;
      assert Min(k * size + size, |data|) == n + hi;
      SliceOfSlice(data, n, lo, hi);
    }
  }

  lemma SliceOfSlice(s: seq<byte>, n: int, lo: int, hi: int)
    requires 0 <= n <= |s| && 0 <= lo <= hi <= |s| - n
    ensures s[n..][lo..hi] == s[n + lo .. n + hi]
  {
  }

  /** `(x shr 8).toByte()` in Kotlin and `(x >> 8) & 0xFF` in Python, as
      an unsigned octet: the high byte of the low 16 bits of `x`. */
  function Hi(x: int): byte
  {
    (x / 0x100) % 0x100
  }

  /** `x.toByte()` in Kotlin and `x & 0xFF` in Python, as an unsigned octet. */
  function Lo(x: int): byte
  {
    x % 0x100
  }

  /** `((hi and 0xFF) shl 8) or (lo and 0xFF)`: the bit fields are disjoint,
      so the `or` is an addition. */
  function Be16(hi: byte, lo: byte): uint16
  {
    hi * 0x100 + lo
  }

  /** The frame for chunk `index` of `total`. */
  function Frame(index: int, total: int, payload: seq<byte>): seq<byte>
  {
    [Hi(index), Lo(index), Hi(total), Lo(total)] + payload
  }

  /** A 16-bit field reads back as the low 16 bits of the value written. */
  lemma Be16OfHiLo(x: int)
    ensures Be16(Hi(x), Lo(x)) == x % 0x1_0000
  {
    var q, r := x / 0x1_0000, x % 0x1_0000;
    DivUnique(x, 0x100, 0x100 * q + r / 0x100, r % 0x100);
    DivUnique(x / 0x100, 0x100, q, r / 0x100);
  }

  /** Both bytes of a value repeat every 65536. */
  lemma HiLoWrap(x: int)
    ensures Hi(x + 0x1_0000) == Hi(x) && Lo(x + 0x1_0000) == Lo(x)
  {
    DivUnique(x + 0x1_0000, 0x100, x / 0x100 + 0x100, x % 0x100);
  }

  /** Decoding a frame's fields and encoding them again rebuilds the frame:
      the other direction of the frame round trip. */
  lemma FrameOfFields(f: seq<byte>)
    requires |f| >= 4
    ensures Frame(Be16(f[0], f[1]), Be16(f[2], f[3]), f[4..]) == f
  {
    assert f == [f[0], f[1], f[2], f[3]] + f[4..];
  }
}
