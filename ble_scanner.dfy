/** The Android receiver's scanner (`class BleScanner`): a registry of
    sighted gateways keyed by device address. The scan itself is outside
    the model; `onScanResult` is a method called with the sighting and the
    clock reading, and it returns the list it hands to `onBeaconsUpdated`.
    The `LinkedHashMap` is a map together with its keys in insertion
    order. */
module BleScanner {
  import opened Common

  /** A Kotlin `Byte`. */
  type int8 = x: int | -0x80 <= x < 0x80

  /** `toByte()` of an octet: its bits read as a signed value. */
  function ToInt8(b: byte): int8
  {
    if b >= 0x80 then b - 0x100 else b
  }

  datatype BeaconInfo = BeaconInfo(address: string, rssi: int, lastSeen: int, severityByte: int8)

  /** What `onScanResult` reads from a `ScanResult`: the device address,
      the signal strength and the manufacturer data under the BeConnect
      id, if the advertisement has any. */
  datatype Sighting = Sighting(address: string, rssi: int, manufacturerData: Option<seq<byte>>)

  /** `mfr?.getOrElse(0) { 0 } ?: 0`: byte 0 of the manufacturer data, or 0
      when the data is absent or empty. */
  function SeverityOf(mfr: Option<seq<byte>>): (sev: int8)
    ensures mfr.Some? && |mfr.value| > 0 ==> sev == ToInt8(mfr.value[0])
    ensures mfr.None? || |mfr.value| == 0 ==> sev == 0
  {
    if mfr.Some? && |mfr.value| > 0 then ToInt8(mfr.value[0]) else 0
  }

  /** The severity codes of the advertisement (0 to 4) read back unchanged
      as signed bytes. */
  lemma SeverityCodesSurvive(mfr: seq<byte>)
    requires |mfr| > 0 && mfr[0] <= 4
    ensures SeverityOf(Some(mfr)) == mfr[0]
  {
  }

  class Scanner {
    /** `scanCallback != null`. */
    var scanning: bool
    var beacons: map<string, BeaconInfo>
    /** The keys of `beacons` in insertion order. */
    var order: seq<string>

    /** Every address is listed once, and each record sits under its own
        address. */
    ghost predicate Valid()
      reads this
    {
      && (forall i, j :: 0 <= i < j < |order| ==> order[i] != order[j])
      && (forall a :: a in beacons <==> a in order)
      && (forall a :: a in beacons ==> beacons[a].address == a)
    }

    constructor()
      ensures Valid()
      ensures !scanning && beacons == map[] && order == []
    {
      scanning := false;
      beacons := map[];
      order := [];
    }

    /** `beacons.values.toList()`: the records in insertion order. */
    function Snapshot(): (list: seq<BeaconInfo>)
      reads this
      requires Valid()
      ensures |list| == |order|
      ensures forall i :: 0 <= i < |list| ==> list[i] == beacons[order[i]]
    {
      seq(|order|, i reads this requires 0 <= i < |order| && Valid() => beacons[order[i]])
    }

    /** `start()`: installs a fresh callback, whether or not one is already
        installed; the registry is kept. */
    method Start()
      modifies this
      ensures scanning
      ensures beacons == old(beacons) && order == old(order)
    {
      scanning := true;
    }

    /** `stop()`: removes the callback; the registry is kept for the next
        `start`. */
    method Stop()
      modifies this
      ensures !scanning
      ensures beacons == old(beacons) && order == old(order)
    {
      scanning := false;
    }

    /** `onScanResult`: records the sighting under its address, replacing
        any earlier record for it (an address keeps its place in the
        order), and passes the updated list on. */
    method OnScanResult(s: Sighting, now: int) returns (list: seq<BeaconInfo>)
      requires Valid()
      modifies this
      ensures Valid()
      ensures beacons == old(beacons)[s.address := BeaconInfo(s.address, s.rssi, now, SeverityOf(s.manufacturerData))]
      ensures order == if s.address in old(beacons) then old(order) else old(order) + [s.address]
      ensures scanning == old(scanning)
      ensures list == Snapshot()
    {
      var sev := SeverityOf(s.manufacturerData);
      if s.address !in beacons {
        order := order + [s.address];
      }
      beacons := beacons[s.address := BeaconInfo(s.address, s.rssi, now, sev)];
      list := Snapshot();
    }
  }

  /** The list handed to `onBeaconsUpdated` holds one record per address
      seen so far and no address twice. */
  lemma SnapshotDistinct(sc: Scanner)
    requires sc.Valid()
    ensures forall i, j :: 0 <= i < j < |sc.Snapshot()| ==>
      sc.Snapshot()[i].address != sc.Snapshot()[j].address
    ensures forall a :: a in sc.beacons <==> exists i :: 0 <= i < |sc.Snapshot()| && sc.Snapshot()[i].address == a
  {
    var list := sc.Snapshot();
    forall a | a in sc.beacons
      ensures exists i :: 0 <= i < |list| && list[i].address == a
    {
      var i :| 0 <= i < |sc.order| && sc.order[i] == a;
      assert list[i].address == a;
    }
  }

  /** After a sighting of address a, the registry's record for a carries
      that sighting (last write wins), and every other address keeps its
      record. */
  lemma SightingWins(before: map<string, BeaconInfo>, s: Sighting, now: int, b: string)
    ensures var after := before[s.address := BeaconInfo(s.address, s.rssi, now, SeverityOf(s.manufacturerData))];
      && after[s.address].rssi == s.rssi && after[s.address].lastSeen == now
      && after[s.address].severityByte == SeverityOf(s.manufacturerData)
      && (b != s.address ==> (b in after <==> b in before) && (b in before ==> after[b] == before[b]))
  {
  }
}
