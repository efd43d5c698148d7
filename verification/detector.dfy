/** The recovery device classifier of RecoveryModeDetector.cs: which Plug and Play
    entries are Apple devices in Recovery, DFU or WTF mode. The WMI query is an
    input: the sequence of entries it enumerates. */
module Detector {
  import opened Wrappers
  import opened Seqs
  import opened Text

  /** Apple's USB vendor id, as it appears in a Windows device id. */
  const AppleVendorId: string := "05AC"

  /** The product ids of the recovery-type modes, in the order they are tried. */
  const RecoveryModePids: seq<string> := ["1281", "1227", "1222"]

  /** One `Win32_PnPEntity` as the scan reads it. `Unreadable` is an entry whose
      properties throw when read; a missing property is `None` (C# null). */
  datatype PnpEntry = Unreadable | Entry(deviceId: Option<string>, name: Option<string>)

  /** The `RecoveryDevice` record. */
  datatype RecoveryDevice = RecoveryDevice(
    name: string, deviceId: string, mode: string, vendorId: string, productId: string)

  /** The mode name of a product id: total, with "Unknown Mode" for every other id. */
  function GetDeviceMode(productId: string): (m: string)
    ensures m == "Recovery Mode" <==> productId == "1281"
    ensures m == "DFU Mode" <==> productId == "1227"
    ensures m == "WTF Mode" <==> productId == "1222"
    ensures m == "Unknown Mode" <==> productId !in RecoveryModePids
  {
    match productId
    case "1281" => "Recovery Mode"
    case "1227" => "DFU Mode"
    case "1222" => "WTF Mode"
    case _ => "Unknown Mode"
  }

  /** The device id names Apple's vendor id (case-insensitively). */
  predicate IsAppleId(deviceId: string) {
    ContainsIgnoreCase(deviceId, "VID_" + AppleVendorId)
  }

  /** The device id names product id `pid` (case-insensitively). */
  predicate HasPid(deviceId: string, pid: string) {
    ContainsIgnoreCase(deviceId, "PID_" + pid)
  }

  /** The recovery device an entry contributes to the scan, if any: the first
      listed product id the device id mentions decides the mode. */
  function Classify(e: PnpEntry): (r: Option<RecoveryDevice>)
    ensures r.Some? <==>
      e.Entry? && e.deviceId.Some? && e.name.Some? && IsAppleId(e.deviceId.value)
      && exists k :: 0 <= k < |RecoveryModePids| && HasPid(e.deviceId.value, RecoveryModePids[k])
    ensures r.Some? ==>
      r.value.deviceId == e.deviceId.value && r.value.name == e.name.value
      && r.value.vendorId == AppleVendorId && r.value.productId in RecoveryModePids
      && HasPid(r.value.deviceId, r.value.productId)
      && r.value.mode == GetDeviceMode(r.value.productId) && r.value.mode != "Unknown Mode"
      && forall k :: 0 <= k < |RecoveryModePids| && RecoveryModePids[k] == r.value.productId ==>
           forall j :: 0 <= j < k ==> !HasPid(r.value.deviceId, RecoveryModePids[j])
  {
    match e
    case Unreadable => None
    case Entry(id, name) =>
      if id.None? || name.None? || !IsAppleId(id.value) then None
      else
        match FirstIndex(RecoveryModePids, pid => HasPid(id.value, pid))
        case None => None
        case Some(k) =>
          var pid := RecoveryModePids[k];
          Some(RecoveryDevice(name.value, id.value, GetDeviceMode(pid), AppleVendorId, pid))
  }

  /** The devices a scan yields: each entry's contribution, in scan order. */
  function RecoveryDevicesOf(scan: seq<PnpEntry>): seq<RecoveryDevice> {
    if scan == [] then []
    else
      var rest := RecoveryDevicesOf(scan[..|scan| - 1]);
      match Classify(scan[|scan| - 1])
      case Some(d) => rest + [d]
      case None => rest
  }

  /** `GetRecoveryDevices`: the loop over the enumerated entries. */
  method GetRecoveryDevices(scan: seq<PnpEntry>) returns (devices: seq<RecoveryDevice>)
    ensures devices == RecoveryDevicesOf(scan)
  {
    devices := [];
    var i := 0;
    while i < |scan|
      invariant 0 <= i <= |scan|
      invariant devices == RecoveryDevicesOf(scan[..i])
    {
      assert scan[..i + 1][..i] == scan[..i];
      var d := ClassifyEntry(scan[i]);
      if d.Some? {
        devices := devices + [d.value];
      }
      i := i + 1;
    }
    assert scan[..|scan|] == scan;
  }

  /** The body of that loop for one entry: the inner loop over the product
      ids, with its `break` at the first id the device id carries. */
  method ClassifyEntry(e: PnpEntry) returns (d: Option<RecoveryDevice>)
    ensures d == Classify(e)
  {
    d := None;
    if e.Entry? && e.deviceId.Some? && e.name.Some? {
      var deviceId, name := e.deviceId.value, e.name.value;
      if IsAppleId(deviceId) {
        var k := 0;
        while k < |RecoveryModePids|
          invariant 0 <= k <= |RecoveryModePids|
          invariant forall j :: 0 <= j < k ==> !HasPid(deviceId, RecoveryModePids[j])
          invariant d == None
        {
          var pid := RecoveryModePids[k];
          if HasPid(deviceId, pid) {
            FirstIndexAt(RecoveryModePids, p => HasPid(deviceId, p), k);
            d := Some(RecoveryDevice(name, deviceId, GetDeviceMode(pid), AppleVendorId, pid));
            return;
          }
          k := k + 1;
        }
        FirstIndexNone(RecoveryModePids, p => HasPid(deviceId, p));
      }
    }
  }

  /** `IsRecoveryModeAvailable`: the scan found at least one device. */
  method IsRecoveryModeAvailable(scan: seq<PnpEntry>) returns (available: bool)
    ensures available <==> exists i :: 0 <= i < |scan| && Classify(scan[i]).Some?
  {
    var devices := GetRecoveryDevices(scan);
    available := |devices| > 0;
    EmptyIffNoneQualifies(scan);
  }

  /** The device list is empty exactly when no entry qualifies. */
  lemma {:induction false} EmptyIffNoneQualifies(scan: seq<PnpEntry>)
    ensures RecoveryDevicesOf(scan) == [] <==> forall i :: 0 <= i < |scan| ==> Classify(scan[i]).None?
  {
    if scan != [] {
      var init := scan[..|scan| - 1];
      EmptyIffNoneQualifies(init);
      assert forall i :: 0 <= i < |init| ==> init[i] == scan[i];
      if Classify(scan[|scan| - 1]).None? {
        assert RecoveryDevicesOf(scan) == RecoveryDevicesOf(init);
      }
    }
  }

  /** The scan is compositional: the devices of two consecutive runs of entries
      are the devices of each, in order. So every entry contributes at most one
      device, the result keeps the scan order, and an unreadable entry drops
      out without affecting the others. */
  lemma {:induction false} RecoveryDevicesOfAppend(a: seq<PnpEntry>, b: seq<PnpEntry>)
    ensures RecoveryDevicesOf(a + b) == RecoveryDevicesOf(a) + RecoveryDevicesOf(b)
    decreases |b|
  {
    if b == [] {
      assert a + b == a;
    } else {
      var b' := b[..|b| - 1];
      assert (a + b)[..|a + b| - 1] == a + b';
      assert (a + b)[|a + b| - 1] == b[|b| - 1];
      RecoveryDevicesOfAppend(a, b');
      var x, y := RecoveryDevicesOf(a), RecoveryDevicesOf(b');
      match Classify(b[|b| - 1])
      case Some(d) =>
        assert x + y + [d] == x + (y + [d]);
      case None =>
    }
  }

  /** A single entry yields its classification and nothing else. */
  lemma RecoveryDevicesOfOne(e: PnpEntry)
    ensures RecoveryDevicesOf([e]) == match Classify(e) case Some(d) => [d] case None => []
  {
    assert [e][..0] == [];
  }

  /** An unreadable entry is skipped and the scan carries on past it. */
  lemma UnreadableSkipped(a: seq<PnpEntry>, b: seq<PnpEntry>)
    ensures RecoveryDevicesOf(a + [Unreadable] + b) == RecoveryDevicesOf(a + b)
  {
    RecoveryDevicesOfAppend(a + [Unreadable], b);
    RecoveryDevicesOfAppend(a, [Unreadable]);
    RecoveryDevicesOfOne(Unreadable);
    RecoveryDevicesOfAppend(a, b);
  }

  /** No more devices than entries. */
  lemma {:induction false} AtMostOnePerEntry(scan: seq<PnpEntry>)
    ensures |RecoveryDevicesOf(scan)| <= |scan|
  {
    if scan != [] {
      AtMostOnePerEntry(scan[..|scan| - 1]);
    }
  }

  /** Every returned device is an Apple device in a listed mode, its id names that
      product id, and its mode is never "Unknown Mode". */
  lemma {:induction false} DevicesWellFormed(scan: seq<PnpEntry>)
    ensures forall d :: d in RecoveryDevicesOf(scan) ==>
      d.vendorId == AppleVendorId && d.productId in RecoveryModePids
      && IsAppleId(d.deviceId) && HasPid(d.deviceId, d.productId)
      && d.mode == GetDeviceMode(d.productId) && d.mode != "Unknown Mode"
  {
    if scan != [] {
      DevicesWellFormed(scan[..|scan| - 1]);
      var e := scan[|scan| - 1];
      if Classify(e).Some? {
        assert IsAppleId(e.deviceId.value);
      }
    }
  }
}
