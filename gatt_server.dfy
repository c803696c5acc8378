/** The Android gateway's GATT server (`class GattServer`). The Bluetooth
    stack is outside the model: `start` receives the JSON bytes of the alert,
    the callbacks are methods called with the characteristic's UUID and the
    request, and the value passed to `sendResponse` is returned instead of
    being sent. `server` is kept only as whether it is open. */
module GattServer {
  import opened Common
  import opened Framing
  import ChunkUtils
  import BleConstants

  /** The frame `onCharacteristicReadRequest` serves while the requested
      index is `idx`: the chunk at `idx`, or an empty payload
      (`getOrElse { ByteArray(0) }`) when there is none. */
  function ServedFrame(chunks: seq<seq<byte>>, idx: int): seq<byte>
  {
    Frame(idx, |chunks|, if 0 <= idx < |chunks| then chunks[idx] else [])
  }

  /** A served frame carries the requested index and the chunk count, and
      its payload is that chunk; past the end it is a bare 4-byte header
      with an empty payload. */
  lemma ServedFrameDecodes(chunks: seq<seq<byte>>, idx: int)
    requires 0 <= idx < 0x1_0000 && |chunks| < 0x1_0000
    ensures |ServedFrame(chunks, idx)| >= 4
    ensures ChunkUtils.DecodeChunkIndex(ServedFrame(chunks, idx)) == idx
    ensures ChunkUtils.DecodeTotalChunks(ServedFrame(chunks, idx)) == |chunks|
    ensures idx < |chunks| ==> ChunkUtils.DecodePayload(ServedFrame(chunks, idx)) == chunks[idx]
    ensures idx >= |chunks| ==> |ServedFrame(chunks, idx)| == 4 && ChunkUtils.DecodePayload(ServedFrame(chunks, idx)) == []
  {
    var payload := if 0 <= idx < |chunks| then chunks[idx] else [];
    ChunkUtils.EncodeDecode(idx, |chunks|, payload);
  }

  class Server {
    /** `server != null`. */
    var open: bool
    var chunks: seq<seq<byte>>
    var requestedChunkIndex: int

    /** The index comes from two bytes, and the chunk count is an `Int`. */
    ghost predicate Valid()
      reads this
    {
      0 <= requestedChunkIndex < 0x1_0000 && |chunks| < 0x8000_0000
    }

    constructor()
      ensures Valid()
      ensures !open && chunks == [] && requestedChunkIndex == 0
    {
      open := false;
      chunks := [];
      requestedChunkIndex := 0;
    }

    /** `start(alert)` given the serialised alert `raw`: cuts it into
        17-byte chunks and opens the server. The requested index is not
        reset, so a restarted server keeps the index of its last session. */
    method Start(raw: seq<byte>)
      requires Valid()
      requires |raw| < 0x8000_0000
      modifies this
      ensures Valid()
      ensures open
      ensures chunks == Slices(raw, BleConstants.DEFAULT_CHUNK_SIZE)
      ensures Concat(chunks) == raw
      ensures requestedChunkIndex == old(requestedChunkIndex)
    {
      var table := ChunkUtils.Chunk(raw, BleConstants.DEFAULT_CHUNK_SIZE);
      assert CeilDiv(|raw|, 17) <= |raw|;
      chunks := table;
      open := true;
    }

    /** `onCharacteristicWriteRequest`: a write of at least two bytes to the
        control characteristic sets the requested index to their big-endian
        value; any other write changes nothing. Every write that asks for a
        response is acknowledged with success while the server is open,
        whatever it contained. */
    method OnCharacteristicWriteRequest(uuid: string, responseNeeded: bool, value: seq<byte>)
      returns (acknowledged: bool)
      requires Valid()
      modifies this
      ensures Valid()
      ensures uuid == BleConstants.CONTROL_CHAR_UUID && |value| >= 2 ==>
        requestedChunkIndex == Be16(value[0], value[1])
      ensures !(uuid == BleConstants.CONTROL_CHAR_UUID && |value| >= 2) ==>
        requestedChunkIndex == old(requestedChunkIndex)
      ensures chunks == old(chunks) && open == old(open)
      ensures acknowledged <==> responseNeeded && open
    {
      if uuid == BleConstants.CONTROL_CHAR_UUID && |value| >= 2 {
        requestedChunkIndex := Be16(value[0], value[1]);
      }
      acknowledged := responseNeeded && open;
    }

    /** `onCharacteristicReadRequest`: a read of the alert characteristic is
        answered with the frame for the requested index; it never throws
        and changes nothing. Reads of other characteristics, and reads while
        the server is closed, get no response. */
    method OnCharacteristicReadRequest(uuid: string) returns (response: Option<seq<byte>>)
      requires Valid()
      ensures uuid == BleConstants.ALERT_CHAR_UUID && open ==>
        response == Some(ServedFrame(chunks, requestedChunkIndex))
      ensures !(uuid == BleConstants.ALERT_CHAR_UUID && open) ==> response == None
    {
      response := None;
      if uuid == BleConstants.ALERT_CHAR_UUID {
        var idx := requestedChunkIndex;
        var payload := if idx < |chunks| then chunks[idx] else [];
        var frame := ChunkUtils.EncodeChunk(idx, |chunks|, payload);
        if open {
          response := Some(frame[..]);
        }
      }
    }

    /** `stop()`: closes the server; the chunk table and index stay. */
    method Stop()
      modifies this
      ensures !open
      ensures chunks == old(chunks) && requestedChunkIndex == old(requestedChunkIndex)
    {
      open := false;
    }
  }

  /** One round against a started server: writing `[i shr 8, i]` and then
      reading serves chunk i with the chunk count, for every i below the
      count, as long as the count fits the 16-bit header. */
  lemma RequestServesChunk(chunks: seq<seq<byte>>, i: int)
    requires 0 <= i < |chunks| < 0x1_0000
    ensures Be16(Hi(i), Lo(i)) == i
    ensures ServedFrame(chunks, Be16(Hi(i), Lo(i))) == Frame(i, |chunks|, chunks[i])
    ensures ChunkUtils.DecodePayload(ServedFrame(chunks, i)) == chunks[i]
  {
    Be16OfHiLo(i);
    ServedFrameDecodes(chunks, i);
  }
}
