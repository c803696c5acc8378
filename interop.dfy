/** The receiver's download loop against each of the two gateways. A
    gateway is seen by the client as a `GattClient.Peer`; the peers below
    are what the Android `GattServer` callbacks and the Pi's characteristics
    answer to a control write followed by a read, and the methods check that
    against the server objects themselves. */
module Interop {
  import opened Common
  import opened Framing
  import ChunkUtils
  import BleConstants
  import GattServer
  import GattClient
  import BleServer
  import Protocol

  /** The index a request selects; a request shorter than two bytes leaves
      the previous index `idle` in place. */
  function Selected(request: seq<byte>, idle: int): int
  {
    if |request| >= 2 then Be16(request[0], request[1]) else idle
  }

  /** The Android gateway with chunk table `chunks`. */
  function AndroidPeer(chunks: seq<seq<byte>>, idle: int): GattClient.Peer
  {
    GattClient.Peer(
      true,
      {BleConstants.ALERT_CHAR_UUID, BleConstants.CONTROL_CHAR_UUID},
      i => true,
      i => Some(GattServer.ServedFrame(chunks, Selected(GattClient.Request(i), idle))))
  }

  /** The Pi gateway serving `frames`. */
  function PiPeer(frames: seq<seq<byte>>, idle: int): GattClient.Peer
  {
    GattClient.Peer(
      true,
      {BleConstants.ALERT_CHAR_UUID, BleConstants.CONTROL_CHAR_UUID},
      i => true,
      i => Some(BleServer.CurrentFrameOf(frames, Selected(GattClient.Request(i), idle))))
  }

  /** Round i of the client against an open Android server: the control
      write of `Request(i)`, then the read of the alert characteristic,
      answered as `AndroidPeer` says. */
  method AndroidRound(server: GattServer.Server, i: nat)
    returns (acknowledged: bool, response: Option<seq<byte>>)
    requires server.Valid() && server.open
    modifies server
    ensures server.Valid() && server.open && server.chunks == old(server.chunks)
    ensures acknowledged
    ensures response == AndroidPeer(server.chunks, old(server.requestedChunkIndex)).answer(i)
  {
    acknowledged := server.OnCharacteristicWriteRequest(BleConstants.CONTROL_CHAR_UUID, true, GattClient.Request(i));
    response := server.OnCharacteristicReadRequest(BleConstants.ALERT_CHAR_UUID);
  }

  /** Round i of the client against the Pi server: `WriteValue` of
      `Request(i)` on the control characteristic, then `ReadValue` on the
      alert characteristic, answered as `PiPeer` says. */
  method PiRound(server: BleServer.BluezServer, i: nat) returns (frame: seq<byte>)
    requires server.Shared() && server.state.Valid()
    modifies server.state
    ensures server.Shared() && server.state.Valid()
    ensures server.state.frames == old(server.state.frames)
    ensures Some(frame) == PiPeer(server.state.frames, old(server.state.requestedChunkIndex)).answer(i)
  {
    server.controlChar.WriteValue(GattClient.Request(i));
    frame := server.alertChar.ReadValue();
  }

  /** A non-empty alert whose 17-byte chunks number fewer than 65536
      downloads intact from an Android gateway, in one round per chunk,
      whatever index the server was left at. */
  lemma AndroidDownload(raw: seq<byte>, idle: int, fuel: nat)
    requires 1 <= |raw| && CeilDiv(|raw|, 17) < 0x1_0000
    requires fuel >= CeilDiv(|raw|, 17)
    ensures GattClient.Download(AndroidPeer(Slices(raw, 17), idle), fuel) == Success(raw)
    ensures GattClient.RoundCount(AndroidPeer(Slices(raw, 17), idle), fuel) == CeilDiv(|raw|, 17)
  {
    var parts := Slices(raw, 17);
    var peer := AndroidPeer(parts, idle);
    SlicesCount(raw, 17);
    forall i | 0 <= i < |parts|
      ensures peer.answer(i).Some?
      ensures GattClient.CarriesChunk(peer.answer(i).value, parts, i)
    {
      GattServer.RequestServesChunk(parts, i);
      GattServer.ServedFrameDecodes(parts, i);
    }
    assert GattClient.Honest(peer, parts);
    GattClient.HonestDownload(peer, parts, fuel);
    SlicesRoundTrip(raw, 17);
  }

  /** The Pi answers request i with its frame i. */
  lemma PiAnswers(frames: seq<seq<byte>>, idle: int, i: int)
    requires 0 <= i < |frames| < 0x1_0000
    ensures PiPeer(frames, idle).answer(i) == Some(frames[i])
  {
    Be16OfHiLo(i);
    DivUnique(i, 0x1_0000, 0, i);
  }

  /** Frame i of `build_frames`, read by the Pi's own decoders. */
  lemma PiFrameFields(serialized: seq<byte>, i: int)
    requires 0 <= i < |BleServer.FramesOf(serialized)| < 0x1_0000
    ensures |Slices(serialized, 17)| == |BleServer.FramesOf(serialized)|
    ensures var f := BleServer.FramesOf(serialized)[i];
      && Protocol.DecodeChunkIndex(f) == Success(i)
      && Protocol.DecodeTotalChunks(f) == Success(|BleServer.FramesOf(serialized)|)
      && Protocol.DecodePayload(f) == Success(Slices(serialized, 17)[i])
  {
    var frames := BleServer.FramesOf(serialized);
    SlicesCount(serialized, 17);
    assert frames == Protocol.BuildFrames(serialized, 17).value;
    DivUnique(|frames|, 0x1_0000, 0, |frames|);
    DivUnique(i, 0x1_0000, 0, i);
    Protocol.BuildFramesAt(serialized, 17, i);
  }

  /** Frame i of `build_frames` carries slice i and the slice count. */
  lemma PiFrameCarries(serialized: seq<byte>, i: int)
    requires 0 <= i < |BleServer.FramesOf(serialized)| < 0x1_0000
    ensures |Slices(serialized, 17)| == |BleServer.FramesOf(serialized)|
    ensures GattClient.CarriesChunk(BleServer.FramesOf(serialized)[i], Slices(serialized, 17), i)
  {
    PiFrameFields(serialized, i);
    Protocol.DecodersAgree(BleServer.FramesOf(serialized)[i], 0, 0, []);
  }

  /** The same for a Pi gateway serving `build_frames` of the serialised
      alert. */
  lemma PiDownload(serialized: seq<byte>, idle: int, fuel: nat)
    requires 1 <= |serialized| && CeilDiv(|serialized|, 17) < 0x1_0000
    requires fuel >= CeilDiv(|serialized|, 17)
    ensures GattClient.Download(PiPeer(BleServer.FramesOf(serialized), idle), fuel) == Success(serialized)
    ensures GattClient.RoundCount(PiPeer(BleServer.FramesOf(serialized), idle), fuel) == CeilDiv(|serialized|, 17)
  {
    var parts := Slices(serialized, 17);
    var frames := BleServer.FramesOf(serialized);
    var peer := PiPeer(frames, idle);
    SlicesCount(serialized, 17);
    forall i | 0 <= i < |parts|
      ensures peer.answer(i).Some?
      ensures GattClient.CarriesChunk(peer.answer(i).value, parts, i)
    {
      PiAnswers(frames, idle, i);
      PiFrameCarries(serialized, i);
    }
    assert GattClient.Honest(peer, parts);
    GattClient.HonestDownload(peer, parts, fuel);
    SlicesRoundTrip(serialized, 17);
  }

  /** An Android gateway with an empty chunk table answers every request
      with a header announcing 0 chunks; the client never reaches its exit
      test and keeps requesting for as long as the fuel lasts (in the
      source, forever). */
  lemma AndroidEmptyStalls(idle: int, fuel: nat)
    ensures GattClient.Download(AndroidPeer([], idle), fuel) == Failure(GattClient.Stalled)
    ensures GattClient.RoundCount(AndroidPeer([], idle), fuel) == fuel
  {
    var peer := AndroidPeer([], idle);
    forall i: nat ensures GattClient.AnnouncesNothing(peer.answer(i)) {
      AndroidEmptyAnswer(idle, i);
    }
    GattClient.ZeroTotalStalls(peer, map[], 0, fuel);
  }

  lemma AndroidEmptyAnswer(idle: int, i: nat)
    ensures GattClient.AnnouncesNothing(AndroidPeer([], idle).answer(i))
  {
    var idx := Selected(GattClient.Request(i), idle);
    assert AndroidPeer([], idle).answer(i) == Some(GattServer.ServedFrame([], idx));
    assert GattServer.ServedFrame([], idx) == Frame(idx, 0, []);
    GattClient.EmptyFrameAnnouncesNothing(idx);
  }

  /** Asked for an index past the last chunk, the two gateways degrade
      differently: Android answers a 4-byte header carrying the index, the
      chunk count and an empty payload, which the client stores as an empty
      chunk; the Pi answers no bytes at all, which the client rejects as a
      short frame. */
  lemma DegradedReadsDiffer(raw: seq<byte>, idx: int)
    requires CeilDiv(|raw|, 17) <= idx < 0x1_0000
    ensures var f := GattServer.ServedFrame(Slices(raw, 17), idx);
      && |f| == 4 && ChunkUtils.DecodeChunkIndex(f) == idx
      && ChunkUtils.DecodeTotalChunks(f) == CeilDiv(|raw|, 17)
      && ChunkUtils.DecodePayload(f) == []
    ensures BleServer.CurrentFrameOf(BleServer.FramesOf(raw), idx) == []
  {
    SlicesCount(raw, 17);
    GattServer.ServedFrameDecodes(Slices(raw, 17), idx);
  }

  /** A client round asking the Pi for an index past its last frame ends the
      download with a short-frame error. */
  lemma PiPastEndAborts(frames: seq<seq<byte>>, idle: int, idx: nat, chunks: map<int, seq<byte>>, fuel: nat)
    requires |frames| <= idx < 0x1_0000 && fuel >= 1
    ensures GattClient.RunRounds(PiPeer(frames, idle), chunks, idx, fuel) ==
      GattClient.Aborted(GattClient.ShortFrame(idx), idx + 1)
  {
    Be16OfHiLo(idx);
    assert PiPeer(frames, idle).answer(idx) == Some([]);
  }
}
