/** The Android side's frame codec, `object ChunkUtils`. `chunk`,
    `reassemble` and `encodeChunk` build their results step by step and are
    methods proved against the definitions in `Framing`; the decoders are
    single expressions and are functions. A `ByteArray` that is only read is
    a `seq<byte>`; a buffer the code writes into is an `array<byte>`. */
module ChunkUtils {
  import opened Common
  import opened Framing

  /** `chunk(data, chunkSize)`: copies `data[offset until end]` into a list
      while advancing `offset`. With `chunkSize == 0` the Kotlin loop never
      advances, and a negative size makes `copyOfRange` throw, so callers
      must pass at least 1 (they pass `DEFAULT_CHUNK_SIZE`). */
  method Chunk(data: seq<byte>, chunkSize: int32) returns (chunks: seq<seq<byte>>)
    requires chunkSize >= 1
    ensures chunks == Slices(data, chunkSize)
    ensures Concat(chunks) == data
    ensures |chunks| == CeilDiv(|data|, chunkSize)
  {
    chunks := [];
    var offset := 0;
    while offset < |data|
      invariant 0 <= offset <= |data|
      invariant chunks + Slices(data[offset..], chunkSize) == Slices(data, chunkSize)
    {
      var end := Min(offset + chunkSize, |data|);
      assert data[offset..][..end - offset] == data[offset..end];
      assert data[offset..][end - offset..] == data[end..];
      chunks := chunks + [data[offset..end]];
      offset := end;
    }
    SlicesRoundTrip(data, chunkSize);
    SlicesCount(data, chunkSize);
  }

  /** `src.copyInto(dst, at)`: overwrites `dst[at until at + src.size]`
      with `src` and leaves the rest of `dst` alone. */
  method CopyInto(src: seq<byte>, dst: array<byte>, at: nat)
    requires at + |src| <= dst.Length
    modifies dst
    ensures dst[..] == old(dst[..at]) + src + old(dst[at + |src|..])
  {
    for i := 0 to |src|
      invariant forall j :: 0 <= j < dst.Length ==>
        dst[j] == if at <= j < at + i then src[j - at] else old(dst[j])
    {
      dst[at + i] := src[i];
    }
    assert dst[..] == old(dst[..at]) + src + old(dst[at + |src|..]);
  }

  lemma {:induction false} TotalLengthAppend(a: seq<seq<byte>>, b: seq<seq<byte>>)
    ensures TotalLength(a + b) == TotalLength(a) + TotalLength(b)
  {
    if a != [] {
      assert (a + b)[1..] == a[1..] + b;
      TotalLengthAppend(a[1..], b);
    } else {
      assert a + b == b;
    }
  }

  /** `reassemble(chunks)`: allocates `sumOf { it.size }` bytes and copies
      each chunk in at a running offset; the buffer then holds the chunks
      joined in order. */
  method Reassemble(chunks: seq<seq<byte>>) returns (result: array<byte>)
    ensures fresh(result)
    ensures result[..] == Concat(chunks)
  {
    result := new byte[TotalLength(chunks)];
    var offset := 0;
    for i := 0 to |chunks|
      invariant offset == TotalLength(chunks[..i])
      invariant result.Length == TotalLength(chunks)
      invariant offset <= result.Length
      invariant result[..offset] == Concat(chunks[..i])
    {
      assert chunks[..i + 1] == chunks[..i] + [chunks[i]];
      assert chunks == chunks[..i + 1] + chunks[i + 1..];
      TotalLengthAppend(chunks[..i], [chunks[i]]);
      TotalLengthAppend(chunks[..i + 1], chunks[i + 1..]);
      ConcatAppend(chunks[..i], [chunks[i]]);
      assert Concat([chunks[i]]) == chunks[i];
      CopyInto(chunks[i], result, offset);
      offset := offset + |chunks[i]|;
    }
    assert chunks[..|chunks|] == chunks;
  }

  /** Kotlin's arithmetic `shr 8` on an `Int`: a floor division, which is
      Dafny's `/` for a positive divisor. */
  function Shr8(x: int32): int32
  {
    x / 0x100
  }

  /** `encodeChunk(index, total, payload)`: writes the two 16-bit header
      fields big-endian (each as `toByte()` of the shifted value, so only
      the low 16 bits survive) and copies the payload after them. */
  method EncodeChunk(index: int32, total: int32, payload: seq<byte>) returns (buf: array<byte>)
    ensures fresh(buf)
    ensures buf[..] == Frame(index, total, payload)
  {
    buf := new byte[4 + |payload|];
    buf[0] := Lo(Shr8(index));
    buf[1] := Lo(index);
    buf[2] := Lo(Shr8(total));
    buf[3] := Lo(total);
    CopyInto(payload, buf, 4);
  }

  /** `decodeChunkIndex(frame)`: reads bytes 0 and 1 without a length
      check, so a shorter frame throws. */
  function DecodeChunkIndex(frame: seq<byte>): uint16
    requires |frame| >= 2
  {
    Be16(frame[0], frame[1])
  }

  /** `decodeTotalChunks(frame)`: reads bytes 2 and 3. */
  function DecodeTotalChunks(frame: seq<byte>): uint16
    requires |frame| >= 4
  {
    Be16(frame[2], frame[3])
  }

  /** `decodePayload(frame)`: `copyOfRange(4, frame.size)`, which throws
      below four bytes. */
  function DecodePayload(frame: seq<byte>): seq<byte>
    requires |frame| >= 4
  {
    frame[4..]
  }

  /** Decoding an encoded frame gives back the payload and the header
      fields reduced to 16 bits: exactly the inputs when they lie in
      0..65535, and `index mod 65536` for a larger (or negative) index,
      since `encodeChunk` does not range-check. */
  lemma EncodeDecode(index: int32, total: int32, payload: seq<byte>)
    ensures |Frame(index, total, payload)| == 4 + |payload|
    ensures DecodeChunkIndex(Frame(index, total, payload)) == index % 0x1_0000
    ensures DecodeTotalChunks(Frame(index, total, payload)) == total % 0x1_0000
    ensures DecodePayload(Frame(index, total, payload)) == payload
    ensures 0 <= index < 0x1_0000 ==> DecodeChunkIndex(Frame(index, total, payload)) == index
    ensures 0 <= total < 0x1_0000 ==> DecodeTotalChunks(Frame(index, total, payload)) == total
  {
    Be16OfHiLo(index);
    Be16OfHiLo(total);
  }

  /** Re-encoding a decoded frame rebuilds it byte for byte. */
  lemma DecodeEncode(frame: seq<byte>)
    requires |frame| >= 4
    ensures Frame(DecodeChunkIndex(frame), DecodeTotalChunks(frame), DecodePayload(frame)) == frame
  {
    FrameOfFields(frame);
  }

  /** The unit test `encode then decode frame`: (3, 10, "test"). */
  lemma EncodeThenDecodeTest()
    ensures var f := Frame(3, 10, [0x74, 0x65, 0x73, 0x74]);
      DecodeChunkIndex(f) == 3 && DecodeTotalChunks(f) == 10 && DecodePayload(f) == [0x74, 0x65, 0x73, 0x74]
  {
    EncodeDecode(3, 10, [0x74, 0x65, 0x73, 0x74]);
  }

  /** The unit test `chunk count is correct`: 50 bytes in slices of 17 make
      three slices of 17, 17 and 16 bytes. */
  lemma ChunkCountTest(data: seq<byte>)
    requires |data| == 50
    ensures |Slices(data, 17)| == 3
    ensures |Slices(data, 17)[0]| == 17 && |Slices(data, 17)[1]| == 17 && |Slices(data, 17)[2]| == 16
  {
    SlicesCount(data, 17);
    SlicesAt(data, 17, 0);
    SlicesAt(data, 17, 1);
    SlicesAt(data, 17, 2);
  }
}
