/** The Pi sender's frame codec (`protocol.py`): pure functions that raise
    `ValueError` on bad arguments, modelled as `Failure`. Its docstring says
    it is compatible with the Android `ChunkUtils`; the lemmas at the end
    prove where it is and where it is not. */
module Protocol {
  import opened Common
  import opened Framing
  import Constants
  import ChunkUtils

  /** Python's `data[lo:hi]` for `0 <= lo <= hi`: both ends are clamped to
      the length of `data`. */
  function PySlice(data: seq<byte>, lo: nat, hi: nat): seq<byte>
    requires lo <= hi
  {
    data[Min(lo, |data|) .. Min(hi, |data|)]
  }

  /** The comprehension
      `[data[i : i + chunk_size] for i in range(0, len(data), chunk_size)]`:
      the k-th element is the slice starting at `k * chunk_size`. */
  function SliceComprehension(data: seq<byte>, chunkSize: int): seq<seq<byte>>
    requires chunkSize >= 1
  {
    seq(CeilDiv(|data|, chunkSize), k requires 0 <= k < CeilDiv(|data|, chunkSize) =>
      PySlice(data, k * chunkSize, k * chunkSize + chunkSize))
  }

  /** The comprehension cuts the same slices as `Framing.Slices`, the
      specification the Kotlin `chunk` loop is proved against; so both
      sides chunk a payload identically. */
  lemma ChunkIsSlices(data: seq<byte>, chunkSize: int)
    requires chunkSize >= 1
    ensures SliceComprehension(data, chunkSize) == Slices(data, chunkSize)
  {
    SlicesCount(data, chunkSize);
    var table := SliceComprehension(data, chunkSize);
    forall k | 0 <= k < |table|
      ensures table[k] == Slices(data, chunkSize)[k]
    {
      SlicesAt(data, chunkSize, k);
    }
  }

  /** `chunk(data, chunk_size)`: rejects a size below 1, then cuts the
      slices of the comprehension. */
  function Chunk(data: seq<byte>, chunkSize: int): (r: Result<seq<seq<byte>>, string>)
    ensures r.Failure? <==> chunkSize <= 0
    ensures r.Success? ==> r.value == Slices(data, chunkSize)
    ensures r.Success? ==> Reassemble(r.value) == data
    ensures r.Success? ==> |r.value| == CeilDiv(|data|, chunkSize)
  {
    if chunkSize <= 0 then Failure("chunk_size must be positive")
    else
      ChunkIsSlices(data, chunkSize);
      SlicesRoundTrip(data, chunkSize);
      SlicesCount(data, chunkSize);
      Success(SliceComprehension(data, chunkSize))
  }

  /** `reassemble(chunks)`: `b"".join(chunks)`. */
  function Reassemble(chunks: seq<seq<byte>>): (r: seq<byte>)
    ensures |r| == TotalLength(chunks)
  {
    ConcatLength(chunks);
    Concat(chunks)
  }

  /** `encode_chunk(index, total, payload)`: rejects negative fields, then
      writes `[(i >> 8) & 0xFF, i & 0xFF, (t >> 8) & 0xFF, t & 0xFF]` and the
      payload. Larger fields are truncated to 16 bits without complaint. */
  function EncodeChunk(index: int, total: int, payload: seq<byte>): (r: Result<seq<byte>, string>)
    ensures r.Failure? <==> index < 0 || total < 0
    ensures r.Success? ==> |r.value| == 4 + |payload|
    ensures r.Success? ==> DecodeChunkIndex(r.value) == Success(index % 0x1_0000)
    ensures r.Success? ==> DecodeTotalChunks(r.value) == Success(total % 0x1_0000)
    ensures r.Success? ==> DecodePayload(r.value) == Success(payload)
  {
    if index < 0 || total < 0 then Failure("index and total must be >= 0")
    else
      Be16OfHiLo(index);
      Be16OfHiLo(total);
      Success(Frame(index, total, payload))
  }

  /** `decode_chunk_index(frame)`. */
  function DecodeChunkIndex(frame: seq<byte>): (r: Result<uint16, string>)
    ensures r.Failure? <==> |frame| < 4
  {
    if |frame| < 4 then Failure("frame too short") else Success(Be16(frame[0], frame[1]))
  }

  /** `decode_total_chunks(frame)`. */
  function DecodeTotalChunks(frame: seq<byte>): (r: Result<uint16, string>)
    ensures r.Failure? <==> |frame| < 4
  {
    if |frame| < 4 then Failure("frame too short") else Success(Be16(frame[2], frame[3]))
  }

  /** `decode_payload(frame)`. */
  function DecodePayload(frame: seq<byte>): (r: Result<seq<byte>, string>)
    ensures r.Failure? <==> |frame| < 4
    ensures r.Success? ==> |r.value| == |frame| - 4
  {
    if |frame| < 4 then Failure("frame too short") else Success(frame[4..])
  }

  /** `build_frames(alert, chunk_size)` given the serialised alert: frame i
      carries index i, the slice count, and slice i. */
  function BuildFrames(serialized: seq<byte>, chunkSize: int): (r: Result<seq<seq<byte>>, string>)
    ensures r.Failure? <==> chunkSize <= 0
    ensures r.Success? ==> |r.value| == CeilDiv(|serialized|, chunkSize)
  {
    var parts := Chunk(serialized, chunkSize);
    if parts.Failure? then Failure(parts.error)
    else
      var total := |parts.value|;
      Success(seq(total, i requires 0 <= i < total => EncodeChunk(i, total, parts.value[i]).value))
  }

  /** Frame i of `build_frames` decodes to i (mod 2^16), the slice count,
      and slice i. */
  lemma BuildFramesAt(serialized: seq<byte>, chunkSize: int, i: int)
    requires chunkSize >= 1
    requires 0 <= i < |BuildFrames(serialized, chunkSize).value|
    ensures var frames := BuildFrames(serialized, chunkSize).value;
      && DecodeChunkIndex(frames[i]) == Success(i % 0x1_0000)
      && DecodeTotalChunks(frames[i]) == Success(|frames| % 0x1_0000)
      && DecodePayload(frames[i]) == Success(Slices(serialized, chunkSize)[i])
  {
    var parts := Chunk(serialized, chunkSize).value;
    var frames := BuildFrames(serialized, chunkSize).value;
    assert frames[i] == EncodeChunk(i, |parts|, parts[i]).value;
  }

  /** Every frame `build_frames` produces decodes to its own position (mod
      2^16), the same total in every frame, and its slice of the payload. */
  lemma BuildFramesDecode(serialized: seq<byte>, chunkSize: int)
    requires chunkSize >= 1
    ensures var frames := BuildFrames(serialized, chunkSize).value;
      forall i :: 0 <= i < |frames| ==>
        && DecodeChunkIndex(frames[i]) == Success(i % 0x1_0000)
        && DecodeTotalChunks(frames[i]) == Success(|frames| % 0x1_0000)
        && DecodePayload(frames[i]) == Success(Slices(serialized, chunkSize)[i])
  {
    forall i | 0 <= i < |BuildFrames(serialized, chunkSize).value|
      ensures var frames := BuildFrames(serialized, chunkSize).value;
        && DecodeChunkIndex(frames[i]) == Success(i % 0x1_0000)
        && DecodeTotalChunks(frames[i]) == Success(|frames| % 0x1_0000)
        && DecodePayload(frames[i]) == Success(Slices(serialized, chunkSize)[i])
    {
      BuildFramesAt(serialized, chunkSize, i);
    }
  }

  /** The payloads decoded from the frames of `build_frames`, joined in
      order, give the serialised alert back. */
  lemma BuildFramesRoundTrip(serialized: seq<byte>, chunkSize: int)
    requires chunkSize >= 1
    ensures var frames := BuildFrames(serialized, chunkSize).value;
      Reassemble(seq(|frames|, i requires 0 <= i < |frames| => DecodePayload(frames[i]).value)) == serialized
  {
    var frames := BuildFrames(serialized, chunkSize).value;
    var parts := Slices(serialized, chunkSize);
    var payloads := seq(|frames|, i requires 0 <= i < |frames| => DecodePayload(frames[i]).value);
    forall i | 0 <= i < |frames|
      ensures payloads[i] == parts[i]
    {
      BuildFramesAt(serialized, chunkSize, i);
    }
    SlicesCount(serialized, chunkSize);
    assert payloads == parts;
    SlicesRoundTrip(serialized, chunkSize);
  }

  /** What the module docstring claims: on well-formed frames the Python
      decoders read exactly what the Kotlin decoders read, and for header
      fields in 0..65535 both encoders write the same bytes. The sides part
      on 2- and 3-byte frames, where Kotlin's `decodeChunkIndex` still
      reads a value and Python raises. */
  lemma DecodersAgree(frame: seq<byte>, index: int, total: int, payload: seq<byte>)
    ensures |frame| >= 4 ==>
      && DecodeChunkIndex(frame) == Success(ChunkUtils.DecodeChunkIndex(frame))
      && DecodeTotalChunks(frame) == Success(ChunkUtils.DecodeTotalChunks(frame))
      && DecodePayload(frame) == Success(ChunkUtils.DecodePayload(frame))
    ensures 2 <= |frame| < 4 ==> DecodeChunkIndex(frame).Failure?
    ensures 0 <= index < 0x1_0000 && 0 <= total < 0x1_0000 ==>
      && EncodeChunk(index, total, payload) == Success(Frame(index, total, payload))
      && ChunkUtils.DecodeChunkIndex(Frame(index, total, payload)) == index
      && ChunkUtils.DecodeTotalChunks(Frame(index, total, payload)) == total
  {
    if 0 <= index < 0x1_0000 && 0 <= total < 0x1_0000 {
      ChunkUtils.EncodeDecode(index, total, payload);
    }
  }

  /** The unit test `test_chunk_count` and both round-trip tests: 50 bytes
      in slices of 17 give three slices, and chunking then reassembling a
      payload returns it. */
  lemma ProtocolTests(data: seq<byte>, size: int)
    requires size >= 1
    ensures Chunk(data, size).Success? && Reassemble(Chunk(data, size).value) == data
    ensures |data| == 50 && size == 17 ==> |Chunk(data, size).value| == 3
  {
  }
}
