/** The Pi sender's BlueZ peripheral (`ble_server.py`): the shared
    `RuntimeState`, the two characteristics and the advertisement that read
    and write it, and the server object that owns it. D-Bus registration,
    the adapter lookup and re-advertising are outside the model; the JSON
    serialiser is the function `serialize` the state is created with. */
module BleServer {
  import opened Common
  import opened Framing
  import Constants
  import Protocol
  import ChunkUtils
  import opened AlertModel

  /** `build_frames(alert)` at the default chunk size, given the serialised
      alert. */
  function FramesOf(serialized: seq<byte>): (frames: seq<seq<byte>>)
    ensures |frames| == CeilDiv(|serialized|, Constants.DEFAULT_CHUNK_SIZE)
  {
    Protocol.BuildFrames(serialized, Constants.DEFAULT_CHUNK_SIZE).value
  }

  /** The body of `current_frame()` over a frame table and an index: the
      frame at the index, or `b""` when the index is out of range. */
  function CurrentFrameOf(frames: seq<seq<byte>>, idx: int): seq<byte>
  {
    if idx < 0 || idx >= |frames| then [] else frames[idx]
  }

  /** `RuntimeState`: the published alert, its frames and the index the
      last control write asked for. */
  class RuntimeState {
    const serialize: AlertPacket -> seq<byte>
    var alert: AlertPacket
    var frames: seq<seq<byte>>
    var requestedChunkIndex: int

    /** The frames always belong to the current alert, and the index came
        from two bytes (or is the initial 0). */
    ghost predicate Valid()
      reads this
    {
      frames == FramesOf(serialize(alert)) && 0 <= requestedChunkIndex < 0x1_0000
    }

    /** The dataclass constructor as `BluezBeConnectServer.__init__` calls
        it: the frames of the initial alert and the default index 0. */
    constructor(serialize: AlertPacket -> seq<byte>, initialAlert: AlertPacket)
      ensures Valid()
      ensures this.serialize == serialize
      ensures alert == initialAlert && requestedChunkIndex == 0
    {
      this.serialize := serialize;
      alert := initialAlert;
      frames := FramesOf(serialize(initialAlert));
      requestedChunkIndex := 0;
    }

    /** `update_alert(alert)`: replaces the alert, rebuilds its frames and
        resets the index to 0. */
    method UpdateAlert(a: AlertPacket)
      modifies this
      ensures Valid()
      ensures alert == a && frames == FramesOf(serialize(a)) && requestedChunkIndex == 0
    {
      alert := a;
      frames := FramesOf(serialize(a));
      requestedChunkIndex := 0;
    }

    /** `current_frame()`: the frame at the requested index, or `b""` when
        the index is out of range. */
    function CurrentFrame(): (r: seq<byte>)
      reads this
      ensures 0 <= requestedChunkIndex < |frames| ==> r == frames[requestedChunkIndex]
      ensures !(0 <= requestedChunkIndex < |frames|) ==> r == []
    {
      CurrentFrameOf(frames, requestedChunkIndex)
    }

    /** The frame served for an index in range carries that index, the
        frame count and the matching slice of the serialised alert; out of
        range it is empty, so every decoder rejects it. */
    lemma CurrentFrameDecodes()
      requires Valid()
      ensures var idx := requestedChunkIndex;
        idx < |frames| ==>
          && Protocol.DecodeChunkIndex(CurrentFrame()) == Success(idx)
          && Protocol.DecodeTotalChunks(CurrentFrame()) == Success(|frames| % 0x1_0000)
          && Protocol.DecodePayload(CurrentFrame()) ==
               Success(Slices(serialize(alert), Constants.DEFAULT_CHUNK_SIZE)[idx])
      ensures requestedChunkIndex >= |frames| ==>
        && CurrentFrame() == []
        && Protocol.DecodeChunkIndex(CurrentFrame()).Failure?
        && Protocol.DecodePayload(CurrentFrame()).Failure?
    {
      var idx := requestedChunkIndex;
      if idx < |frames| {
        assert CurrentFrame() == frames[idx];
        FrameFields(serialize(alert), frames, idx);
      } else {
        assert CurrentFrame() == [];
      }
    }
  }

  /** Frame i of a frame table built at the default chunk size carries i,
      the frame count and slice i. */
  lemma FrameFields(serialized: seq<byte>, frames: seq<seq<byte>>, i: int)
    requires frames == FramesOf(serialized) && 0 <= i < |frames| && i < 0x1_0000
    ensures Protocol.DecodeChunkIndex(frames[i]) == Success(i)
    ensures Protocol.DecodeTotalChunks(frames[i]) == Success(|frames| % 0x1_0000)
    ensures Protocol.DecodePayload(frames[i]) == Success(Slices(serialized, Constants.DEFAULT_CHUNK_SIZE)[i])
  {
    assert frames == Protocol.BuildFrames(serialized, Constants.DEFAULT_CHUNK_SIZE).value;
    DivUnique(i, 0x1_0000, 0, i);
    Protocol.BuildFramesAt(serialized, Constants.DEFAULT_CHUNK_SIZE, i);
  }

  /** `AlertCharacteristic`: readable, serves the current frame. */
  class AlertCharacteristic {
    const state: RuntimeState

    constructor(state: RuntimeState)
      ensures this.state == state
    {
      this.state := state;
    }

    /** `ReadValue(options)`: returns `current_frame()`; a read changes
        nothing. */
    method ReadValue() returns (frame: seq<byte>)
      requires state.Valid()
      ensures frame == state.CurrentFrame()
      ensures |frame| == 0 || |frame| >= 4
    {
      frame := state.CurrentFrame();
      if 0 <= state.requestedChunkIndex < |state.frames| {
        FrameLength(state);
      }
    }
  }

  /** A frame of a valid state has at least the 4 header bytes. */
  lemma FrameLength(s: RuntimeState)
    requires 0 <= s.requestedChunkIndex < |s.frames|
    requires s.frames == FramesOf(s.serialize(s.alert))
    ensures |s.frames[s.requestedChunkIndex]| >= 4
  {
    Protocol.BuildFramesAt(s.serialize(s.alert), Constants.DEFAULT_CHUNK_SIZE, s.requestedChunkIndex);
  }

  /** `ControlCharacteristic`: writable, sets the requested index. */
  class ControlCharacteristic {
    const state: RuntimeState

    constructor(state: RuntimeState)
      ensures this.state == state
    {
      this.state := state;
    }

    /** `WriteValue(value, options)`: a write shorter than two bytes is
        ignored; otherwise the first two bytes, big-endian, become the
        requested index. The alert and its frames are untouched. */
    method WriteValue(value: seq<byte>)
      requires state.Valid()
      modifies state
      ensures state.Valid()
      ensures |value| < 2 ==> state.requestedChunkIndex == old(state.requestedChunkIndex)
      ensures |value| >= 2 ==> state.requestedChunkIndex == Be16(value[0], value[1])
      ensures state.alert == old(state.alert) && state.frames == old(state.frames)
    {
      if |value| < 2 {
        return;
      }
      var idx := (value[0] as int) * 0x100 + value[1] as int;
      state.requestedChunkIndex := idx;
    }
  }

  /** `BeConnectAdvertisement`: its `ManufacturerData` property. */
  class Advertisement {
    const state: RuntimeState

    constructor(state: RuntimeState)
      ensures this.state == state
    {
      this.state := state;
    }

    /** `ManufacturerData`: one entry, under the manufacturer id, holding
        `metadata_payload` of the current alert; the property raises when
        that does (a `fetchedAt` outside the signed 32-bit range). */
    function ManufacturerData(): (r: Result<map<int, seq<byte>>, string>)
      reads state
      ensures r.Success? <==> -0x8000_0000 <= state.alert.fetchedAt < 0x8000_0000
      ensures r.Success? ==>
        && r.value.Keys == {Constants.MANUFACTURER_ID}
        && r.value[Constants.MANUFACTURER_ID] ==
             Constants.MetadataPayload(state.alert.alertId, state.alert.severity, state.alert.fetchedAt).value
        && |r.value[Constants.MANUFACTURER_ID]| == 9
        && r.value[Constants.MANUFACTURER_ID][0] == Constants.SeverityToByte(state.alert.severity)
    {
      var payload := Constants.MetadataPayload(state.alert.alertId, state.alert.severity, state.alert.fetchedAt);
      if payload.Failure? then Failure(payload.error)
      else Success(map[Constants.MANUFACTURER_ID := payload.value])
    }
  }

  /** `BluezBeConnectServer`: owns the state and the objects that share
      it. */
  class BluezServer {
    const state: RuntimeState
    const alertChar: AlertCharacteristic
    const controlChar: ControlCharacteristic
    const advertisement: Advertisement

    /** The objects exported on the bus all see the one state. */
    ghost predicate Shared()
      reads this
    {
      alertChar.state == state && controlChar.state == state && advertisement.state == state
    }

    /** `__init__(initial_alert)` and the objects `start` exports: the
        state holds the frames of the initial alert and index 0. */
    constructor(serialize: AlertPacket -> seq<byte>, initialAlert: AlertPacket)
      ensures Shared() && state.Valid()
      ensures fresh(state)
      ensures state.serialize == serialize
      ensures state.alert == initialAlert && state.frames == FramesOf(serialize(initialAlert))
      ensures state.requestedChunkIndex == 0
    {
      var s := new RuntimeState(serialize, initialAlert);
      state := s;
      alertChar := new AlertCharacteristic(s);
      controlChar := new ControlCharacteristic(s);
      advertisement := new Advertisement(s);
    }

    /** `update_alert(alert)`: hands the alert to the state; the
        advertisement then reports the new alert's metadata. */
    method UpdateAlert(a: AlertPacket)
      requires Shared()
      modifies state
      ensures Shared() && state.Valid()
      ensures state.alert == a && state.frames == FramesOf(state.serialize(a))
      ensures state.requestedChunkIndex == 0
    {
      state.UpdateAlert(a);
    }
  }
}
