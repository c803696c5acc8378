/** The Android receiver's GATT client (`class GattClient`). The Bluetooth
    stack's callbacks become data: a `Peer` says whether the connection
    comes up, which characteristics the service offers, the status of each
    write and the answer to the read that follows it. The coroutine plumbing
    is replaced by its sequential order, recorded as a log of events. The
    source loop has no round limit; the model gives it `fuel`, and running
    out is the extra outcome `Stalled`. */
module GattClient {
  import opened Common
  import opened Framing
  import ChunkUtils
  import BleConstants

  /** The gateway as the client sees it. Round i writes the bytes
      `Request(i)`; `ack(i)` is the success flag the write callback then
      reports, and `answer(i)` the value the read callback delivers after
      it: `None` when the read's status is not success. A gateway that
      looks only at the bytes it is sent is a peer whose `answer(i)` is a
      function of `Request(i)`, as the peers in `Interop` are. */
  datatype Peer = Peer(
    connects: bool,
    characteristics: set<string>,
    ack: nat -> bool,
    answer: nat -> Option<seq<byte>>)

  /** Why `downloadAlert` returns a failed `Result`. `ShortFrame` is the
      exception a frame below 4 bytes raises in the decoders; `Stalled`
      exists only in the model, when the fuel runs out. */
  datatype DownloadError =
    | ConnectFailed
    | CharacteristicNotFound(uuid: string)
    | NullRead(index: int)
    | ShortFrame(index: int)
    | MissingChunk(index: int)
    | Stalled

  /** What the client does on the link, in order. */
  datatype Event =
    | ConnectGatt
    | WriteControl(request: seq<byte>)
    | AwaitAck(success: bool)
    | ReadAlert
    | Close

  /** `byteArrayOf((index shr 8).toByte(), index.toByte())`. The two
      truncated bytes depend on the index only modulo 65536, which is how
      the definition is written; `RequestBytes` gives back the shifts. */
  function Request(index: nat): seq<byte>
  {
    if index < 0x1_0000 then [Hi(index), Lo(index)] else Request(index - 0x1_0000)
  }

  /** Every request is the high and the low byte of the index. */
  lemma {:induction false} RequestBytes(index: nat)
    ensures Request(index) == [Hi(index), Lo(index)]
    decreases index
  {
    if index >= 0x1_0000 {
      RequestBytes(index - 0x1_0000);
      HiLoWrap(index - 0x1_0000);
    }
  }

  /** The requested index reads back from its two bytes while it fits in
      16 bits. */
  lemma RequestDecodes(index: int)
    requires 0 <= index < 0x1_0000
    ensures |Request(index)| == 2 && Be16(Request(index)[0], Request(index)[1]) == index
  {
    Be16OfHiLo(index);
  }

  /** How the loop ended: by its exit test, with the stored chunks, the last
      decoded total and the number of rounds; or by an error in some
      round. */
  datatype LoopEnd =
    | Exited(chunks: map<int, seq<byte>>, total: uint16, rounds: nat)
    | Aborted(error: DownloadError, rounds: nat)

  /** What one pass of the loop body leads to: the end of the loop, or the
      next pass with the updated chunks. */
  datatype Pass =
    | Ends(end: LoopEnd)
    | Continues(chunks: map<int, seq<byte>>)

  /** One pass of the `while (true)` body in round `index`: request, fail
      on a null or short frame, store the payload under its decoded index,
      and stop once the number of stored indices equals the decoded
      total. */
  function Step(peer: Peer, chunks: map<int, seq<byte>>, index: nat): (p: Pass)
    ensures p.Ends? ==> p.end.rounds == index + 1
  {
    var frame := peer.answer(index);
    if frame.None? then Ends(Aborted(NullRead(index), index + 1))
    else if |frame.value| < 4 then Ends(Aborted(ShortFrame(index), index + 1))
    else
      var next := chunks[ChunkUtils.DecodeChunkIndex(frame.value) := ChunkUtils.DecodePayload(frame.value)];
      var total := ChunkUtils.DecodeTotalChunks(frame.value);
      if |next| == total then Ends(Exited(next, total, index + 1))
      else Continues(next)
  }

  /** The loop from round `index` on, with the chunks stored so far. */
  function RunRounds(peer: Peer, chunks: map<int, seq<byte>>, index: nat, fuel: nat): (r: LoopEnd)
    ensures r.rounds >= index
    decreases fuel
  {
    if fuel == 0 then Aborted(Stalled, index)
    else
      match Step(peer, chunks, index)
      case Ends(end) => end
      case Continues(next) => RunRounds(peer, next, index + 1, fuel - 1)
  }

  /** The loop from a round whose pass goes on is the loop from the next
      round. */
  lemma RunRoundsContinues(peer: Peer, chunks: map<int, seq<byte>>, index: nat, fuel: nat)
    requires fuel >= 1 && Step(peer, chunks, index).Continues?
    ensures RunRounds(peer, chunks, index, fuel) == RunRounds(peer, Step(peer, chunks, index).chunks, index + 1, fuel - 1)
  {
  }

  /** A read that yields no value aborts the loop in that round, whatever
      was stored before. */
  lemma NullReadAborts(peer: Peer, chunks: map<int, seq<byte>>, index: nat, fuel: nat)
    requires fuel >= 1 && peer.answer(index).None?
    ensures RunRounds(peer, chunks, index, fuel) == Aborted(NullRead(index), index + 1)
  {
  }

  /** A frame too short for its header aborts the loop in that round. */
  lemma ShortFrameAborts(peer: Peer, chunks: map<int, seq<byte>>, index: nat, fuel: nat)
    requires fuel >= 1 && peer.answer(index).Some? && |peer.answer(index).value| < 4
    ensures RunRounds(peer, chunks, index, fuel) == Aborted(ShortFrame(index), index + 1)
  {
  }

  /** `(0 until n).map { chunks[it] ?: error("Missing chunk $it") }`: the
      stored payloads in index order, or the first index that is absent. */
  function Ordered(chunks: map<int, seq<byte>>, n: nat): (r: Result<seq<seq<byte>>, DownloadError>)
    ensures r.Success? <==> forall i :: 0 <= i < n ==> i in chunks
    ensures r.Success? ==> |r.value| == n && forall i :: 0 <= i < n ==> r.value[i] == chunks[i]
    ensures r.Failure? ==>
      && r.error.MissingChunk?
      && 0 <= r.error.index < n && r.error.index !in chunks
      && forall i :: 0 <= i < r.error.index ==> i in chunks
  {
    if n == 0 then Success([])
    else
      var prefix := Ordered(chunks, n - 1);
      if prefix.Failure? then prefix
      else if n - 1 in chunks then Success(prefix.value + [chunks[n - 1]])
      else Failure(MissingChunk(n - 1))
  }

  /** The result of `downloadAlert(device)` against `peer`. */
  function Download(peer: Peer, fuel: nat): (r: Result<seq<byte>, DownloadError>)
  {
    if !peer.connects then Failure(ConnectFailed)
    else if BleConstants.ALERT_CHAR_UUID !in peer.characteristics then
      Failure(CharacteristicNotFound(BleConstants.ALERT_CHAR_UUID))
    else if BleConstants.CONTROL_CHAR_UUID !in peer.characteristics then
      Failure(CharacteristicNotFound(BleConstants.CONTROL_CHAR_UUID))
    else
      var end := RunRounds(peer, map[], 0, fuel);
      if end.Aborted? then Failure(end.error)
      else
        var ordered := Ordered(end.chunks, end.total);
        if ordered.Failure? then Failure(ordered.error)
        else Success(Concat(ordered.value))
  }

  /** The events of round i: the request write, the wait for its
      acknowledgement, then the data read. */
  function RoundEvents(peer: Peer, i: nat): seq<Event>
  {
    [WriteControl(Request(i)), AwaitAck(peer.ack(i)), ReadAlert]
  }

  /** The events of rounds 0 to n - 1. */
  function RoundsTrace(peer: Peer, n: nat): seq<Event>
  {
    if n == 0 then [] else RoundsTrace(peer, n - 1) + RoundEvents(peer, n - 1)
  }

  /** A round's events extend the trace of the rounds before it. */
  lemma TraceStep(start: seq<Event>, before: seq<Event>, after: seq<Event>, peer: Peer, n: nat)
    requires before == start + RoundsTrace(peer, n)
    requires after == before + RoundEvents(peer, n)
    ensures after == start + RoundsTrace(peer, n + 1)
  {
  }

  /** How many rounds the download performs. */
  function RoundCount(peer: Peer, fuel: nat): nat
  {
    if peer.connects && BleConstants.ALERT_CHAR_UUID in peer.characteristics
       && BleConstants.CONTROL_CHAR_UUID in peer.characteristics
    then RunRounds(peer, map[], 0, fuel).rounds
    else 0
  }

  /** The events of one `downloadAlert`: connect, the rounds, and the close
      of `.also { disconnect() }`. */
  function DownloadTrace(peer: Peer, fuel: nat): seq<Event>
  {
    [ConnectGatt] + RoundsTrace(peer, RoundCount(peer, fuel)) + [Close]
  }

  class Client {
    /** `gatt != null`. */
    var connected: bool
    /** Everything the client has done on the link. */
    var events: seq<Event>

    constructor()
      ensures !connected && events == []
    {
      connected := false;
      events := [];
    }

    /** `connect(device)`: `gatt` is assigned by `connectGatt` before the
        connection is awaited, so it is set even when the connection
        fails. */
    method Connect(peer: Peer) returns (ready: bool)
      modifies this
      ensures connected && ready == peer.connects
      ensures events == old(events) + [ConnectGatt]
    {
      connected := true;
      events := events + [ConnectGatt];
      ready := peer.connects;
    }

    /** `requireChar(uuid)`: whether the service offers the characteristic;
        the caller raises when it does not. */
    method RequireChar(peer: Peer, uuid: string) returns (found: bool)
      ensures found <==> connected && uuid in peer.characteristics
    {
      found := connected && uuid in peer.characteristics;
    }

    /** `requestChunk(controlChar, alertChar, index)` followed by
        `readChannel.receive()`: writes the two request bytes, waits for the
        acknowledgement without looking at its flag, then reads. */
    method RequestChunk(peer: Peer, index: nat) returns (frame: Option<seq<byte>>)
      requires connected
      modifies this
      ensures connected
      ensures events == old(events) + RoundEvents(peer, index)
      ensures frame == peer.answer(index)
    {
      var req := [Hi(index), Lo(index)];
      RequestBytes(index);
      events := events + [WriteControl(req)];
      var acked := peer.ack(index);
      events := events + [AwaitAck(acked)];
      events := events + [ReadAlert];
      frame := peer.answer(index);
    }

    /** `disconnect()`: closes and clears `gatt` if it is set. */
    method Disconnect()
      modifies this
      ensures !connected
      ensures events == old(events) + if old(connected) then [Close] else []
    {
      if connected {
        events := events + [Close];
      }
      connected := false;
    }

    /** The body of `runCatching { ... }` in `downloadAlert`. */
    method Fetch(peer: Peer, fuel: nat) returns (r: Result<seq<byte>, DownloadError>)
      modifies this
      ensures connected
      ensures r == Download(peer, fuel)
      ensures events == old(events) + [ConnectGatt] + RoundsTrace(peer, RoundCount(peer, fuel))
    {
      var ready := Connect(peer);
      if !ready {
        return Failure(ConnectFailed);
      }
      var hasAlert := RequireChar(peer, BleConstants.ALERT_CHAR_UUID);
      if !hasAlert {
        return Failure(CharacteristicNotFound(BleConstants.ALERT_CHAR_UUID));
      }
      var hasControl := RequireChar(peer, BleConstants.CONTROL_CHAR_UUID);
      if !hasControl {
        return Failure(CharacteristicNotFound(BleConstants.CONTROL_CHAR_UUID));
      }
      r := Transfer(peer, fuel);
    }

    /** The rounds and the reassembly of `downloadAlert`, once both
        characteristics are found. */
    method Transfer(peer: Peer, fuel: nat) returns (r: Result<seq<byte>, DownloadError>)
      requires connected && peer.connects
      requires BleConstants.ALERT_CHAR_UUID in peer.characteristics
      requires BleConstants.CONTROL_CHAR_UUID in peer.characteristics
      modifies this
      ensures connected
      ensures r == Download(peer, fuel)
      ensures events == old(events) + RoundsTrace(peer, RoundCount(peer, fuel))
    {
      var end := Rounds(peer, fuel);
      if end.Aborted? {
        return Failure(end.error);
      }
      var ordered := Ordered(end.chunks, end.total);
      if ordered.Failure? {
        return Failure(ordered.error);
      }
      var joined := ChunkUtils.Reassemble(ordered.value);
      r := Success(joined[..]);
    }

    /** The `while (true)` loop of `downloadAlert`: requests chunk after
        chunk, storing each payload under its decoded index, until the
        number of stored indices equals the last decoded total; a null or
        short frame ends it with an error. */
    method Rounds(peer: Peer, fuel: nat) returns (end: LoopEnd)
      requires connected
      modifies this
      ensures connected
      ensures end == RunRounds(peer, map[], 0, fuel)
      ensures events == old(events) + RoundsTrace(peer, end.rounds)
    {
      var start := events;
      ghost var spec := RunRounds(peer, map[], 0, fuel);
      var chunks: map<int, seq<byte>> := map[];
      var index: nat := 0;
      var remaining := fuel;
      var stop: Option<LoopEnd> := None;
      while stop.None?
        invariant connected
        invariant stop.None? ==> RunRounds(peer, chunks, index, remaining) == spec
        invariant stop.Some? ==> stop.value == spec && stop.value.rounds == index
        invariant events == start + RoundsTrace(peer, index)
        decreases remaining, if stop.None? then 1 else 0
      {
        if remaining == 0 {
          stop := Some(Aborted(Stalled, index));
        } else {
          ghost var before := events;
          var pass := Round(peer, chunks, index);
          TraceStep(start, before, events, peer, index);
          if pass.Ends? {
            stop := Some(pass.end);
          } else {
            RunRoundsContinues(peer, chunks, index, remaining);
            chunks := pass.chunks;
          }
          index := index + 1;
          remaining := remaining - 1;
        }
      }
      end := stop.value;
    }

    /** One pass of the loop body. */
    method Round(peer: Peer, chunks: map<int, seq<byte>>, index: nat) returns (pass: Pass)
      requires connected
      modifies this
      ensures connected
      ensures events == old(events) + RoundEvents(peer, index)
      ensures pass == Step(peer, chunks, index)
    {
      var frame := RequestChunk(peer, index);
      if frame.None? {
        return Ends(Aborted(NullRead(index), index + 1));
      }
      if |frame.value| < 4 {
        return Ends(Aborted(ShortFrame(index), index + 1));
      }
      var chunkIdx := ChunkUtils.DecodeChunkIndex(frame.value);
      var totalChunks := ChunkUtils.DecodeTotalChunks(frame.value);
      var next := chunks[chunkIdx := ChunkUtils.DecodePayload(frame.value)];
      if |next| == totalChunks {
        return Ends(Exited(next, totalChunks, index + 1));
      }
      pass := Continues(next);
    }

    /** `downloadAlert(device)`: the fetch, then exactly one `disconnect`,
        whatever the outcome. */
    method DownloadAlert(peer: Peer, fuel: nat) returns (r: Result<seq<byte>, DownloadError>)
      modifies this
      ensures !connected
      ensures r == Download(peer, fuel)
      ensures events == old(events) + DownloadTrace(peer, fuel)
    {
      r := Fetch(peer, fuel);
      Disconnect();
    }
  }

  /** The acknowledgement's success flag is never inspected: peers that
      differ only in it lead to the same result and the same rounds. */
  lemma AckIgnored(peer: Peer, ack: nat -> bool, fuel: nat)
    ensures Download(peer.(ack := ack), fuel) == Download(peer, fuel)
    ensures RoundCount(peer.(ack := ack), fuel) == RoundCount(peer, fuel)
  {
    RoundsIgnoreAck(peer, peer.(ack := ack), map[], 0, fuel);
  }

  lemma {:induction false} RoundsIgnoreAck(p: Peer, q: Peer, chunks: map<int, seq<byte>>, index: nat, fuel: nat)
    requires p.answer == q.answer
    ensures RunRounds(p, chunks, index, fuel) == RunRounds(q, chunks, index, fuel)
    decreases fuel
  {
    if fuel > 0 {
      var frame := p.answer(index);
      if frame.Some? && |frame.value| >= 4 {
        var next := chunks[ChunkUtils.DecodeChunkIndex(frame.value) := ChunkUtils.DecodePayload(frame.value)];
        RoundsIgnoreAck(p, q, next, index + 1, fuel - 1);
      }
    }
  }

  /** The loop leaves through its exit test only with as many stored
      indices as the last decoded total. */
  lemma ExitTest(peer: Peer, chunks: map<int, seq<byte>>, index: nat, fuel: nat)
    ensures var end := RunRounds(peer, chunks, index, fuel);
      end.Exited? ==> |end.chunks| == end.total && index < end.rounds <= index + fuel
  {
    ExitTestRec(peer, chunks, index, fuel);
  }

  lemma {:induction false} ExitTestRec(peer: Peer, chunks: map<int, seq<byte>>, index: nat, fuel: nat)
    ensures var end := RunRounds(peer, chunks, index, fuel);
      end.Exited? ==> |end.chunks| == end.total && index < end.rounds <= index + fuel
    decreases fuel
  {
    if fuel > 0 {
      var frame := peer.answer(index);
      if frame.Some? && |frame.value| >= 4 {
        var next := chunks[ChunkUtils.DecodeChunkIndex(frame.value) := ChunkUtils.DecodePayload(frame.value)];
        ExitTestRec(peer, next, index + 1, fuel - 1);
      }
    }
  }

  /** The first k chunks, as the loop stores them from an honest peer. */
  function Received(parts: seq<seq<byte>>, k: nat): map<int, seq<byte>>
    requires k <= |parts|
  {
    if k == 0 then map[] else Received(parts, k - 1)[k - 1 := parts[k - 1]]
  }

  lemma {:induction false} ReceivedShape(parts: seq<seq<byte>>, k: nat)
    requires k <= |parts|
    ensures forall i :: i in Received(parts, k) <==> 0 <= i < k
    ensures forall i :: 0 <= i < k ==> Received(parts, k)[i] == parts[i]
    ensures |Received(parts, k)| == k
  {
    if k > 0 {
      ReceivedShape(parts, k - 1);
    }
  }

  /** A frame that decodes to chunk i of `parts`, with `|parts|` as total. */
  ghost predicate CarriesChunk(f: seq<byte>, parts: seq<seq<byte>>, i: int)
    requires 0 <= i < |parts|
  {
    |f| >= 4 && ChunkUtils.DecodeChunkIndex(f) == i && ChunkUtils.DecodeTotalChunks(f) == |parts|
    && ChunkUtils.DecodePayload(f) == parts[i]
  }

  /** A peer that connects, offers both characteristics and answers
      request i with a frame carrying chunk i of `parts`. */
  ghost predicate Honest(peer: Peer, parts: seq<seq<byte>>)
  {
    && peer.connects
    && BleConstants.ALERT_CHAR_UUID in peer.characteristics
    && BleConstants.CONTROL_CHAR_UUID in peer.characteristics
    && forall i :: 0 <= i < |parts| ==> Serves(peer, parts, i)
  }

  /** The answer to request i carries chunk i. */
  ghost predicate Serves(peer: Peer, parts: seq<seq<byte>>, i: int)
    requires 0 <= i < |parts|
  {
    peer.answer(i).Some? && CarriesChunk(peer.answer(i).value, parts, i)
  }

  /** The answers to requests k, k + 1, ... carry their chunks, stated one
      request at a time. */
  ghost predicate ServesFrom(peer: Peer, parts: seq<seq<byte>>, k: nat)
    decreases |parts| - k
  {
    k >= |parts| || (Serves(peer, parts, k) && ServesFrom(peer, parts, k + 1))
  }

  lemma {:induction false} ServesFromAll(peer: Peer, parts: seq<seq<byte>>, k: nat)
    requires forall i :: k <= i < |parts| ==> Serves(peer, parts, i)
    ensures ServesFrom(peer, parts, k)
    decreases |parts| - k
  {
    if k < |parts| {
      ServesFromAll(peer, parts, k + 1);
    }
  }

  /** One round against a peer serving chunk k stores chunk k under k. */
  lemma HonestStep(peer: Peer, parts: seq<seq<byte>>, k: nat, fuel: nat)
    requires k < |parts| && fuel >= 1
    requires Serves(peer, parts, k)
    ensures RunRounds(peer, Received(parts, k), k, fuel) ==
      if k + 1 == |parts| then Exited(Received(parts, k + 1), |parts|, k + 1)
      else RunRounds(peer, Received(parts, k + 1), k + 1, fuel - 1)
  {
    RoundStores(peer, Received(parts, k), k, fuel, peer.answer(k).value);
    ReceivedShape(parts, k + 1);
  }

  lemma {:induction false} HonestRounds(peer: Peer, parts: seq<seq<byte>>, k: nat, fuel: nat)
    requires k < |parts| && fuel >= |parts| - k
    requires ServesFrom(peer, parts, k)
    ensures RunRounds(peer, Received(parts, k), k, fuel) == Exited(Received(parts, |parts|), |parts|, |parts|)
    decreases |parts| - k
  {
    HonestStep(peer, parts, k, fuel);
    if k + 1 < |parts| {
      HonestRounds(peer, parts, k + 1, fuel - 1);
    }
  }

  /** Against an honest peer with N chunks, 1 <= N < 65536, the download
      takes exactly N rounds and returns the chunks joined in order, once
      the fuel allows N rounds. */
  lemma HonestDownload(peer: Peer, parts: seq<seq<byte>>, fuel: nat)
    requires Honest(peer, parts)
    requires 1 <= |parts| < 0x1_0000 && fuel >= |parts|
    ensures Download(peer, fuel) == Success(Concat(parts))
    ensures RoundCount(peer, fuel) == |parts|
  {
    ServesFromAll(peer, parts, 0);
    HonestRounds(peer, parts, 0, fuel);
    OrderedReceived(parts);
  }

  /** All of the chunks received, read back in index order, are the
      chunks. */
  lemma OrderedReceived(parts: seq<seq<byte>>)
    ensures Ordered(Received(parts, |parts|), |parts|) == Success(parts)
  {
    ReceivedShape(parts, |parts|);
    var ordered := Ordered(Received(parts, |parts|), |parts|);
    assert ordered.value == parts;
  }

  /** A peer whose frames all announce 0 chunks is never done: a frame
      stores at least one index, which never equals 0, so the loop runs for
      as long as the fuel lasts (in the source, forever). */
  lemma {:induction false} ZeroTotalStalls(peer: Peer, chunks: map<int, seq<byte>>, index: nat, fuel: nat)
    requires forall i: nat :: AnnouncesNothing(peer.answer(i))
    ensures RunRounds(peer, chunks, index, fuel) == Aborted(Stalled, index + fuel)
    decreases fuel
  {
    if fuel > 0 {
      var f := peer.answer(index).value;
      var next := chunks[ChunkUtils.DecodeChunkIndex(f) := ChunkUtils.DecodePayload(f)];
      MapNonEmpty(next, ChunkUtils.DecodeChunkIndex(f));
      RoundStores(peer, chunks, index, fuel, f);
      ZeroTotalStalls(peer, next, index + 1, fuel - 1);
    }
  }

  /** A frame with a full header whose chunk count is 0. */
  predicate AnnouncesNothing(answer: Option<seq<byte>>)
  {
    answer.Some? && |answer.value| >= 4 && ChunkUtils.DecodeTotalChunks(answer.value) == 0
  }

  /** Every header-only frame announcing 0 chunks is such a frame. */
  lemma EmptyFrameAnnouncesNothing(index: int)
    ensures AnnouncesNothing(Some(Frame(index, 0, [])))
  {
  }

  /** A round that reads a frame with a full header stores its payload
      under its index, then exits or goes on with the next index. */
  lemma RoundStores(peer: Peer, chunks: map<int, seq<byte>>, index: nat, fuel: nat, f: seq<byte>)
    requires fuel >= 1 && peer.answer(index) == Some(f) && |f| >= 4
    ensures var next := chunks[ChunkUtils.DecodeChunkIndex(f) := ChunkUtils.DecodePayload(f)];
      RunRounds(peer, chunks, index, fuel) ==
        if |next| == ChunkUtils.DecodeTotalChunks(f) then Exited(next, ChunkUtils.DecodeTotalChunks(f), index + 1)
        else RunRounds(peer, next, index + 1, fuel - 1)
  {
  }

  /** The events of rounds 0 to n - 1 lie three to a round, in order. */
  lemma {:induction false} RoundsTraceAt(peer: Peer, n: nat, r: nat)
    requires r < n
    ensures |RoundsTrace(peer, n)| == 3 * n && RoundsTrace(peer, n)[3 * r .. 3 * r + 3] == RoundEvents(peer, r)
  {
    RoundsTraceLength(peer, n - 1);
    var prev := RoundsTrace(peer, n - 1);
    var t := prev + RoundEvents(peer, n - 1);
    assert RoundsTrace(peer, n) == t;
    if r < n - 1 {
      RoundsTraceAt(peer, n - 1, r);
      assert t[3 * r .. 3 * r + 3] == prev[3 * r .. 3 * r + 3];
    } else {
      assert t[3 * r .. 3 * r + 3] == RoundEvents(peer, n - 1);
    }
  }

  lemma {:induction false} RoundsTraceLength(peer: Peer, n: nat)
    ensures |RoundsTrace(peer, n)| == 3 * n
  {
    if n > 0 {
      RoundsTraceLength(peer, n - 1);
    }
  }

  lemma {:induction false} RoundsTraceNoClose(peer: Peer, n: nat)
    ensures Close !in RoundsTrace(peer, n)
  {
    if n > 0 {
      RoundsTraceNoClose(peer, n - 1);
    }
  }

  /** Each download connects first and closes exactly once, at the end,
      whatever its outcome; in between, round r writes the request
      `[r shr 8, r]`, waits for the acknowledgement, and only then reads. */
  lemma DownloadTraceShape(peer: Peer, fuel: nat)
    ensures var t := DownloadTrace(peer, fuel);
      && |t| == 3 * RoundCount(peer, fuel) + 2
      && t[0] == ConnectGatt && t[|t| - 1] == Close
      && (forall j :: 0 <= j < |t| - 1 ==> t[j] != Close)
      && forall r :: 0 <= r < RoundCount(peer, fuel) ==>
           t[3 * r + 1] == WriteControl(Request(r)) && t[3 * r + 2].AwaitAck? && t[3 * r + 3] == ReadAlert
  {
    var n := RoundCount(peer, fuel);
    var rounds := RoundsTrace(peer, n);
    RoundsTraceLength(peer, n);
    RoundsTraceNoClose(peer, n);
    Bracketed(ConnectGatt, rounds, Close);
    forall r | 0 <= r < n
      ensures rounds[3 * r] == WriteControl(Request(r)) && rounds[3 * r + 1].AwaitAck? && rounds[3 * r + 2] == ReadAlert
    {
      RoundsTraceAt(peer, n, r);
      var e := rounds[3 * r .. 3 * r + 3];
      assert rounds[3 * r] == e[0] && rounds[3 * r + 1] == e[1] && rounds[3 * r + 2] == e[2];
    }
  }

  /** The positions of a sequence between two end markers. */
  lemma Bracketed<T>(a: T, s: seq<T>, b: T)
    ensures var t := [a] + s + [b];
      && |t| == |s| + 2 && t[0] == a && t[|t| - 1] == b
      && forall j :: 1 <= j <= |s| ==> t[j] == s[j - 1]
  {
  }

  /** No chunk is requested unless the connection is up and both
      characteristics are found. */
  lemma NoRequestWithoutCharacteristics(peer: Peer, fuel: nat)
    requires !peer.connects || BleConstants.ALERT_CHAR_UUID !in peer.characteristics
      || BleConstants.CONTROL_CHAR_UUID !in peer.characteristics
    ensures DownloadTrace(peer, fuel) == [ConnectGatt, Close]
    ensures Download(peer, fuel).Failure?
  {
  }
}
