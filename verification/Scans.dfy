/** Scanning the bus with either binding, and the mapping of live devices that
    python-cec hands out (libcec_driver.py, `scan` and `power`). */
module Scans {
  import opened Prelude
  import opened Transports
  import opened SwigDrivers

  const MAX_LOGICAL_ADDRESS := 14

  /** What is told of a device beside its address. */
  datatype Description = Description(
    osdString: string, vendor: string, physicalAddress: string, cecVersion: string, isOn: bool)

  function EntryAt(address: int, d: Description): Entry {
    Entry(address, d.osdString, d.vendor, d.physicalAddress, d.cecVersion, d.isOn)
  }

  // ------------------------------------------------------------------ SWIG

  ghost predicate Lists(entries: seq<Entry>, address: int) {
    exists i :: 0 <= i < |entries| && entries[i].address == address
  }

  /** Field by field. */
  predicate Describes(e: Entry, d: Description) {
    && e.osdString == d.osdString && e.vendor == d.vendor && e.physicalAddress == d.physicalAddress
    && e.cecVersion == d.cecVersion && e.isOn == d.isOn
  }

  /** One entry for every logical address that is active, in order. */
  ghost predicate ListsActive(entries: seq<Entry>, active: int -> bool, describe: int -> Description) {
    && Increasing(entries)
    && (forall i :: 0 <= i < |entries| ==>
          var a := entries[i].address;
          0 <= a <= 14 && active(a) && Describes(entries[i], describe(a)))
    && (forall a :: 0 <= a <= 14 && active(a) ==> Lists(entries, a))
  }

  /** `SwigDriver.scan`. */
  method ScanSwig(lib: Option<nat>, active: int -> bool, describe: int -> Description)
    returns (r: Result<seq<Entry>, Failure>)
    ensures lib.None? ==> r == Err(Unavailable(NotOpen))
    ensures lib.Some? ==> r.Ok? && ListsActive(r.value, active, describe)
  {
    if lib.None? {
      return Err(Unavailable(NotOpen));
    }
    var devices := [];
    for address := 0 to MAX_LOGICAL_ADDRESS + 1
      invariant Increasing(devices)
      invariant forall i :: 0 <= i < |devices| ==>
          var a := devices[i].address;
          0 <= a < address && active(a) && Describes(devices[i], describe(a))
      invariant forall a :: 0 <= a < address && active(a) ==> Lists(devices, a)
    {
      if !active(address) {
        continue;
      }
      ghost var before := devices;
      devices := devices + [EntryAt(address, describe(address))];
      assert devices[|before|].address == address;
      forall a | 0 <= a < address && active(a) ensures Lists(devices, a) {
        var i :| 0 <= i < |before| && before[i].address == a;
        assert devices[i].address == a;
      }
    }
    return Ok(devices);
  }

  lemma {:induction false} MapHolds(entries: seq<Entry>, address: int)
    ensures address in DeviceMap(entries) ==>
              exists i :: 0 <= i < |entries| && entries[i].address == address
                && DeviceMap(entries)[address] == FromEntry(entries[i])
  {
    if entries != [] {
      var n := |entries| - 1;
      MapHolds(entries[..n], address);
      if address == entries[n].address {
        assert DeviceMap(entries)[address] == FromEntry(entries[n]);
      } else if address in DeviceMap(entries) {
        var i :| 0 <= i < n && entries[..n][i].address == address
          && DeviceMap(entries[..n])[address] == FromEntry(entries[..n][i]);
        assert entries[i].address == address && DeviceMap(entries)[address] == FromEntry(entries[i]);
      }
    }
  }

  lemma {:induction false} SpreadOut(entries: seq<Entry>, n: nat)
    requires Increasing(entries) && n <= |entries|
    requires forall i :: 0 <= i < |entries| ==> 0 <= entries[i].address
    ensures n > 0 ==> entries[n - 1].address >= n - 1
  {
    if n > 1 {
      SpreadOut(entries, n - 1);
    }
  }

  /** The status built from a scan knows a device exactly at the active
      addresses, and a search of the list finds the same one. */
  lemma StatusFollowsScan(entries: seq<Entry>, active: int -> bool, describe: int -> Description, address: int)
    requires ListsActive(entries, active, describe)
    ensures |DeviceMap(entries)| == |entries| <= 15
    ensures address in DeviceMap(entries) <==> 0 <= address <= 14 && active(address)
    ensures address in DeviceMap(entries) ==>
              var d := describe(address);
              DeviceMap(entries)[address] ==
                CecDevice(address, d.osdString, d.vendor, d.physicalAddress, d.cecVersion, Some(d.isOn))
  {
    StatusHasEveryDevice(entries, address);
    SearchFinds(entries, address);
    MapHolds(entries, address);
    SpreadOut(entries, |entries|);
    assert address in DeviceMap(entries) ==> Lists(entries, address);
  }

  // ------------------------------------------------------------ python-cec

  /** The properties a scan reads of a device; reading one may raise. */
  datatype Names = Names(osdString: string, vendor: string, physicalAddress: string, cecVersion: string)

  /** A `cec.Device`: what it says of itself, and how it takes two requests. */
  datatype LiveDevice = LiveDevice(names: Answer<Names>, isOn: Answer<bool>, powerOn: Answer<bool>) {
    /** Everything a scan reads of it can be read. */
    predicate Answers() {
      names.Returned? && isOn.Returned?
    }
  }

  /** What `list_devices` returns. */
  class Mapping {
    var devices: map<int, LiveDevice>

    constructor (devices: map<int, LiveDevice>)
      ensures this.devices == devices
    {
      this.devices := devices;
    }

    /** `devices.clear()`. */
    method Clear()
      modifies this
      ensures devices == map[]
    {
      devices := map[];
    }
  }

  function EntryOf(address: int, d: LiveDevice): Entry
    requires d.Answers()
  {
    Entry(address, d.names.value.osdString, d.names.value.vendor, d.names.value.physicalAddress,
          d.names.value.cecVersion, d.isOn.value)
  }

  /** The smallest of some numbers. */
  lemma HasSmallest(keys: set<int>)
    requires |keys| > 0
    ensures exists k :: k in keys && forall other :: other in keys ==> k <= other
  {
    assert (forall k :: k !in keys) ==> keys == {};
    var some :| some in keys;
    var rest := keys - {some};
    if |rest| > 0 {
      HasSmallest(rest);
      var k :| k in rest && forall other :: other in rest ==> k <= other;
      var least := if k < some then k else some;
      assert least in keys && forall other :: other in keys ==> other == some || other in rest;
    } else {
      assert forall other :: other in keys ==> other == some || other in rest;
    }
  }

  /** `sorted` on the addresses of a mapping. */
  function Sorted(keys: set<int>): seq<int> {
    if |keys| == 0 then [] else
    HasSmallest(keys);
    var k :| k in keys && forall other :: other in keys ==> k <= other;
    [k] + Sorted(keys - {k})
  }

  lemma {:induction false} SortedListsKeys(keys: set<int>)
    ensures forall i, j :: 0 <= i < j < |Sorted(keys)| ==> Sorted(keys)[i] < Sorted(keys)[j]
    ensures forall k :: k in keys <==> k in Sorted(keys)
  {
    if |keys| > 0 {
      var first := Sorted(keys)[0];
      var rest := Sorted(keys - {first});
      SortedListsKeys(keys - {first});
      assert Sorted(keys) == [first] + rest;
      assert forall i :: 0 <= i < |rest| ==> rest[i] in rest;
      assert forall k :: k in Sorted(keys) <==> k == first || k in Sorted(keys - {first});
    }
  }

  lemma {:induction false} SortedHasKeys(keys: set<int>, i: nat)
    requires i < |Sorted(keys)|
    ensures Sorted(keys)[i] in keys
  {
    if i > 0 {
      SortedHasKeys(keys - {Sorted(keys)[0]}, i - 1);
    }
  }

  /** Field by field. */
  predicate IsRead(e: Entry, d: LiveDevice) {
    && d.Answers()
    && e.osdString == d.names.value.osdString && e.vendor == d.names.value.vendor
    && e.physicalAddress == d.names.value.physicalAddress && e.cecVersion == d.names.value.cecVersion
    && e.isOn == d.isOn.value
  }

  predicate Returns(devices: map<int, LiveDevice>, address: int) {
    address in devices && devices[address].Answers()
  }

  /** The entries of these addresses, in this order. */
  ghost predicate Renders(devices: map<int, LiveDevice>, addresses: seq<int>, entries: seq<Entry>) {
    && |entries| == |addresses|
    && forall j :: 0 <= j < |addresses| ==>
         Returns(devices, addresses[j]) && entries[j].address == addresses[j] &&
         IsRead(entries[j], devices[addresses[j]])
  }

  /** One entry for every device of the mapping, in order of address. */
  ghost predicate ListsMapping(devices: map<int, LiveDevice>, entries: seq<Entry>) {
    && Increasing(entries)
    && (forall i :: 0 <= i < |entries| ==>
          var a := entries[i].address;
          Returns(devices, a) && IsRead(entries[i], devices[a]))
    && (forall a :: a in devices ==> Lists(entries, a))
  }

  lemma RendersAll(devices: map<int, LiveDevice>, entries: seq<Entry>)
    requires Renders(devices, Sorted(devices.Keys), entries)
    ensures ListsMapping(devices, entries)
  {
    var addresses := Sorted(devices.Keys);
    SortedListsKeys(devices.Keys);
    forall a | a in devices ensures Lists(entries, a) {
      var i :| 0 <= i < |addresses| && addresses[i] == a;
      assert entries[i].address == a;
    }
  }

  /** The last device asked raised, and the earlier ones did not. */
  ghost predicate AsksUntilRaised(devices: map<int, LiveDevice>, asked: seq<int>)
    requires asked != []
  {
    && (forall j :: 0 <= j < |asked| - 1 ==> Returns(devices, asked[j]))
    && asked[|asked| - 1] in devices && !devices[asked[|asked| - 1]].Answers()
  }

  lemma NextDevice(devices: map<int, LiveDevice>, i: nat)
    requires i < |Sorted(devices.Keys)|
    ensures Sorted(devices.Keys)[i] in devices
    ensures Sorted(devices.Keys)[..i + 1] == Sorted(devices.Keys)[..i] + [Sorted(devices.Keys)[i]]
  {
    SortedHasKeys(devices.Keys, i);
  }

  /** The list `scan` builds; `asked` are the devices that were read. */
  method ListDevices(devices: map<int, LiveDevice>) returns (r: Answer<seq<Entry>>, asked: seq<int>)
    ensures asked <= Sorted(devices.Keys)
    ensures r.Raised? ==> asked != [] && AsksUntilRaised(devices, asked)
    ensures r.Returned? ==> ListsMapping(devices, r.value) && asked == Sorted(devices.Keys)
  {
    var addresses := Sorted(devices.Keys);
    var entries := [];
    for i := 0 to |addresses|
      invariant Renders(devices, addresses[..i], entries)
    {
      NextDevice(devices, i);
      if !devices[addresses[i]].Answers() {
        return Raised, addresses[..i + 1];
      }
      entries := entries + [EntryOf(addresses[i], devices[addresses[i]])];
    }
    assert addresses[..|addresses|] == addresses;
    RendersAll(devices, entries);
    return Returned(entries), addresses;
  }

  /** `PythonCecDriver.scan` on the mapping it obtained. */
  method ScanPython(mapping: Mapping) returns (r: Answer<seq<Entry>>, asked: seq<int>)
    modifies mapping
    ensures mapping.devices == map[]
    ensures asked <= Sorted(old(mapping.devices).Keys)
    ensures r.Raised? ==> asked != [] && AsksUntilRaised(old(mapping.devices), asked)
    ensures r.Returned? ==> ListsMapping(old(mapping.devices), r.value) && asked == Sorted(old(mapping.devices).Keys)
  {
    r, asked := ListDevices(mapping.devices);
    mapping.Clear();
  }

  /** `PythonCecDriver.power`, turning a device on. */
  method TurnOnPython(mapping: Mapping, destination: int) returns (r: Answer<bool>)
    modifies mapping
    ensures mapping.devices == map[]
    ensures r == if destination in old(mapping.devices) then old(mapping.devices)[destination].powerOn
                 else Returned(false)
  {
    r := if destination in mapping.devices then mapping.devices[destination].powerOn else Returned(false);
    mapping.Clear();
  }

  /** The status built from such a scan is the mapping, device by device. */
  lemma StatusFollowsMapping(devices: map<int, LiveDevice>, entries: seq<Entry>, address: int)
    requires ListsMapping(devices, entries)
    ensures |DeviceMap(entries)| == |entries|
    ensures address in DeviceMap(entries) <==> address in devices
    ensures address in devices ==>
              && devices[address].Answers()
              && var names := devices[address].names.value;
                 DeviceMap(entries)[address] ==
                   CecDevice(address, names.osdString, names.vendor, names.physicalAddress, names.cecVersion,
                             Some(devices[address].isOn.value))
  {
    StatusHasEveryDevice(entries, address);
    SearchFinds(entries, address);
    MapHolds(entries, address);
    assert address in devices ==> Lists(entries, address);
  }
}
