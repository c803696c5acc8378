/** The Android gateway's advertiser (`class BleAdvertiser`): the 9-byte
    manufacturer data it packs for an alert, the `isSupported` guard and the
    callback field that `start` sets and `stop` clears. The Bluetooth stack
    is outside the model: whether the adapter offers an LE advertiser is an
    input, the advertisement put on air is a field, and the messages handed
    to `onError` are returned in order. */
module BleAdvertiser {
  import opened Common
  import opened Encoding
  import Constants
  import BleConstants

  /** `severityByte`: 4, 3, 2, 1 for the four named levels and 0 for any
      other string; it is the Pi's `severity_to_byte`. */
  function SeverityByte(severity: string): (b: byte)
    ensures b == Constants.SeverityToByte(severity)
    ensures b <= 4
  {
    match severity
    case "Extreme" => 4
    case "Severe" => 3
    case "Moderate" => 2
    case "Minor" => 1
    case _ => 0
  }

  /** The `meta` buffer of `start`: the severity byte, the UTF-16
      `String.hashCode` of the alert id from its low byte up, then the low 32
      bits of `fetchedAt` (`toInt()`) written by `putInt`, most significant
      byte first. */
  function Meta(alertId: string, severity: string, fetchedAt: int64): (m: seq<byte>)
    ensures |m| == 9
    ensures m[0] == SeverityByte(severity)
    ensures ReadLe32(m[1..5]) == ToUint32(JavaHash(Utf16(alertId)))
    ensures ReadBe32(m[5..9]) == ToInt32(ToUint32(fetchedAt))
  {
    var hash := JavaHash(Utf16(alertId));
    var low := ToInt32(ToUint32(fetchedAt));
    Le32OfLow(hash);
    Le32RoundTrip(ToUint32(hash));
    Be32RoundTrip(low);
    var m := [SeverityByte(severity)] + Le32(hash) + Be32(low);
    assert m[1..5] == Le32(hash) && m[5..9] == Be32(low);
    m
  }

  /** The packing of `start`: `ByteBuffer.allocate(9)` filled one `put` at
      a time; `hash shr k` then `toByte()` keeps bits k..k+7 of the hash. */
  method BuildMeta(alertId: string, severity: string, fetchedAt: int64) returns (meta: array<byte>)
    ensures fresh(meta)
    ensures meta[..] == Meta(alertId, severity, fetchedAt)
  {
    meta := new byte[9];
    meta[0] := SeverityByte(severity);
    var hash := JavaHash(Utf16(alertId));
    meta[1] := hash % 0x100;
    meta[2] := (hash / 0x100) % 0x100;
    meta[3] := (hash / 0x1_0000) % 0x100;
    meta[4] := (hash / 0x100_0000) % 0x100;
    var low := ToInt32(ToUint32(fetchedAt));
    meta[5] := (low / 0x100_0000) % 0x100;
    meta[6] := (low / 0x1_0000) % 0x100;
    meta[7] := (low / 0x100) % 0x100;
    meta[8] := low % 0x100;
    assert meta[..] == [SeverityByte(severity)] + Le32(hash) + Be32(low);
  }

  /** The advertisement `start` hands to `startAdvertising`: the service
      UUID and one manufacturer-data entry. */
  datatype AdvertiseData = AdvertiseData(serviceUuid: string, manufacturerData: map<int, seq<byte>>)

  const NOT_SUPPORTED: string := "BLE peripheral advertising not supported on this device"
  const UNAVAILABLE: string := "BluetoothLeAdvertiser unavailable"

  /** One advertising set the adapter runs, keyed by the callback object
      that `start` created for it (callbacks are numbered in creation
      order). */
  datatype Advertising = Advertising(callback: nat, data: AdvertiseData)

  /** The sets still running after `stopAdvertising(c)`: only the set
      started under callback `c` ends, and the others keep their order. */
  function StopSet(sets: seq<Advertising>, c: nat): (r: seq<Advertising>)
    ensures forall x :: x in r <==> x in sets && x.callback != c
    ensures |r| <= |sets|
  {
    if sets == [] then []
    else if sets[0].callback == c then StopSet(sets[1..], c)
    else [sets[0]] + StopSet(sets[1..], c)
  }

  /** Stopping a callback that started nothing changes nothing. */
  lemma {:induction false} StopSetAbsent(sets: seq<Advertising>, c: nat)
    requires forall x :: x in sets ==> x.callback != c
    ensures StopSet(sets, c) == sets
  {
    if sets != [] {
      StopSetAbsent(sets[1..], c);
      assert sets == [sets[0]] + sets[1..];
    }
  }

  /** Stopping the callback of the last set started leaves the earlier
      sets, when each callback started at most one set. */
  lemma StopSetLast(sets: seq<Advertising>, x: Advertising)
    requires forall y :: y in sets ==> y.callback != x.callback
    ensures StopSet(sets + [x], x.callback) == sets
  {
    StopSetAppend(sets, [x], x.callback);
    StopSetAbsent(sets, x.callback);
    assert StopSet([x], x.callback) == [];
  }

  lemma {:induction false} StopSetAppend(s: seq<Advertising>, t: seq<Advertising>, c: nat)
    ensures StopSet(s + t, c) == StopSet(s, c) + StopSet(t, c)
  {
    if s != [] {
      StopSetAppend(s[1..], t, c);
      assert (s + t)[1..] == s[1..] + t;
    } else {
      assert s + t == t;
    }
  }

  class Advertiser {
    /** `isSupported`: `adapter.isMultipleAdvertisementSupported`. */
    const supported: bool
    /** The callback object held in `callback`, if any. */
    var callback: Option<nat>
    /** How many callback objects `start` has created so far. */
    var created: nat
    /** The advertising sets the adapter runs that this object started, in
        the order they went on air. A set whose callback was overwritten by
        a later `start` stays here: `stop` cannot reach it any more. */
    var onAir: seq<Advertising>

    /** Every callback number was handed out by `start`, and each one
        started at most one set. */
    ghost predicate Valid()
      reads this
    {
      && (callback.Some? ==> callback.value < created)
      && (forall i :: 0 <= i < |onAir| ==> onAir[i].callback < created)
      && Increasing(onAir)
    }

    constructor(supported: bool)
      ensures this.supported == supported
      ensures Valid()
      ensures callback == None && created == 0 && onAir == []
    {
      this.supported := supported;
      callback := None;
      created := 0;
      onAir := [];
    }

    /** `start(alert, onError)`. Unsupported hardware: one error and no
        other effect. Otherwise a new callback replaces the one held and,
        when the adapter offers an LE advertiser, the alert's advertisement
        goes on air under it, next to any set an earlier `start` left
        running; when it does not, the error is reported instead. */
    method Start(alertId: string, severity: string, fetchedAt: int64, advertiserAvailable: bool)
      returns (errors: seq<string>)
      requires Valid()
      modifies this
      ensures Valid()
      ensures !supported ==> errors == [NOT_SUPPORTED] && callback == old(callback)
                             && created == old(created) && onAir == old(onAir)
      ensures supported ==> callback == Some(old(created)) && created == old(created) + 1
      ensures supported && advertiserAvailable ==> errors == []
      ensures supported && advertiserAvailable ==>
        onAir == old(onAir) + [Advertising(old(created), AlertAdvert(alertId, severity, fetchedAt))]
      ensures supported && !advertiserAvailable ==> errors == [UNAVAILABLE] && onAir == old(onAir)
    {
      if !supported {
        return [NOT_SUPPORTED];
      }
      var meta := BuildMeta(alertId, severity, fetchedAt);
      var data := AdvertiseData(BleConstants.SERVICE_UUID, map[BleConstants.MANUFACTURER_ID := meta[..]]);
      var c := created;
      callback := Some(c);
      created := created + 1;
      if advertiserAvailable {
        onAir := onAir + [Advertising(c, data)];
        errors := [];
      } else {
        errors := [UNAVAILABLE];
      }
    }

    /** `stop()`: when a callback is held and the adapter offers an LE
        advertiser, stops the set started under that callback; in every
        case clears the callback, so a second `stop` changes nothing. */
    method Stop(advertiserAvailable: bool)
      requires Valid()
      modifies this
      ensures Valid()
      ensures callback == None && created == old(created)
      ensures old(callback).Some? && advertiserAvailable ==> onAir == StopSet(old(onAir), old(callback).value)
      ensures old(callback).None? || !advertiserAvailable ==> onAir == old(onAir)
    {
      if callback.Some? && advertiserAvailable {
        StopSetIncreasing(onAir, callback.value);
        onAir := StopSet(onAir, callback.value);
      }
      callback := None;
    }
  }

  /** Sets listed in the order their callbacks were created. */
  ghost predicate Increasing(sets: seq<Advertising>)
  {
    forall i, j :: 0 <= i < j < |sets| ==> sets[i].callback < sets[j].callback
  }

  /** Stopping one callback keeps the sets in creation order. */
  lemma {:induction false} StopSetIncreasing(sets: seq<Advertising>, c: nat)
    requires Increasing(sets)
    ensures Increasing(StopSet(sets, c))
  {
    if sets != [] {
      StopSetIncreasing(sets[1..], c);
      var rest := StopSet(sets[1..], c);
      forall y | y in rest
        ensures sets[0].callback < y.callback
      {
        var k :| 0 <= k < |sets[1..]| && sets[1..][k] == y;
        assert sets[k + 1] == y;
      }
    }
  }

  /** The advertisement `start` builds for an alert. */
  function AlertAdvert(alertId: string, severity: string, fetchedAt: int64): (r: AdvertiseData)
    ensures r.serviceUuid == BleConstants.SERVICE_UUID
    ensures r.manufacturerData.Keys == {BleConstants.MANUFACTURER_ID}
    ensures |r.manufacturerData[BleConstants.MANUFACTURER_ID]| == 9
  {
    AdvertiseData(BleConstants.SERVICE_UUID, map[BleConstants.MANUFACTURER_ID := Meta(alertId, severity, fetchedAt)])
  }

  /** `start(a)`, `start(b)`, `stop()` on supporting hardware: the second
      `start` overwrote the callback of the first, so `stop` ends only
      `b`'s set and `a`'s stays on air. */
  method RestartThenStop(a: string, b: string, severity: string, fetchedAt: int64)
    returns (left: seq<Advertising>, held: Option<nat>)
    ensures left == [Advertising(0, AlertAdvert(a, severity, fetchedAt))]
    ensures held == None
  {
    var adv := new Advertiser(true);
    var errors := adv.Start(a, severity, fetchedAt, true);
    errors := adv.Start(b, severity, fetchedAt, true);
    StopSetLast(adv.onAir[..1], adv.onAir[1]);
    assert adv.onAir == adv.onAir[..1] + [adv.onAir[1]];
    adv.Stop(true);
    left, held := adv.onAir, adv.callback;
  }

  /** For an alert id inside the Basic Multilingual Plane and a `fetchedAt`
      that fits a signed 32-bit value, the Android gateway advertises
      exactly the bytes the Pi sender does. */
  lemma MetaMatchesPi(alertId: string, severity: string, fetchedAt: int64)
    requires InBmp(alertId)
    requires -0x8000_0000 <= fetchedAt < 0x8000_0000
    ensures Constants.MetadataPayload(alertId, severity, fetchedAt) == Success(Meta(alertId, severity, fetchedAt))
  {
    BmpUnitsArePoints(alertId);
    Le32OfLow(JavaHash(Utf16(alertId)));
    Int32Views(0, fetchedAt);
  }

  /** Above the Basic Multilingual Plane the two gateways disagree: for the
      one-character id U+1F600 the JVM hashes the surrogate pair
      D83D DE00 to 1772899, while the Pi hashes the code point to 128512. */
  lemma SurrogateHashDiffers()
    ensures var id := "\U{1F600}";
      && ReadLe32(Meta(id, "Minor", 0)[1..5]) == 1772899
      && ReadLe32(Constants.MetadataPayload(id, "Minor", 0).value[1..5]) == 128512
  {
    var id := "\U{1F600}";
    assert Utf16(id) == [0xD83D, 0xDE00] by {
      assert Utf16(id[1..]) == [];
    }
    assert [0xD83D, 0xDE00][..1] == [0xD83D];
    assert HashAcc([0xD83D, 0xDE00]) == 1772899;
    assert CodePoints(id) == [0x1F600];
    assert HashAcc([0x1F600]) == 128512;
  }

  /** A `fetchedAt` outside the signed 32-bit range: the Pi's payload
      raises, while the Android gateway advertises its low 32 bits, which
      read back as a different value with the same low bits. */
  lemma FetchedAtWraps(alertId: string, severity: string, fetchedAt: int64)
    requires !(-0x8000_0000 <= fetchedAt < 0x8000_0000)
    ensures Constants.MetadataPayload(alertId, severity, fetchedAt).Failure?
    ensures var back := ReadBe32(Meta(alertId, severity, fetchedAt)[5..9]);
      back != fetchedAt && ToUint32(back) == ToUint32(fetchedAt)
  {
    Int32Views(ToUint32(fetchedAt), 0);
  }
}
