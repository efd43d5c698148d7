/** The USB model shared by IRecoveryProtocol.cs and RecoveryModeHelper.cs
    (LibUsbDotNet). The bus is an oracle: the registry list it enumerates, which
    registries open, and which transfers the device accepts given everything that
    was sent before. Every USB action is recorded in a trace. */
module Usb {
  import opened Wrappers
  import opened Seqs
  import opened Ascii

  const AppleVendorId: int := 0x05AC
  const RecoveryModePid: int := 0x1281
  const DfuModePid: int := 0x1227

  /** bmRequestType of a vendor request to the device, host to device
      (section 9.3 of the USB 2.0 specification). */
  const VendorOut: int := 0x40

  /** An eight-byte setup packet, field by field. */
  datatype SetupPacket = SetupPacket(requestType: int, request: int, value: int, index: int, length: int)

  /** One enumerated device: ids, whether opening it succeeds, whether the
      opened device is a whole device (`IUsbDevice`, which has configurations
      and interfaces), and whether opening its bulk endpoints succeeds. */
  datatype UsbRegistry = UsbRegistry(
    vid: int, pid: int, opens: bool, whole: bool, writerOpens: bool, readerOpens: bool)

  datatype UsbEvent =
    | OpenAttempt(device: nat)
    | SetConfiguration(config: int)
    | ClaimInterface(iface: int)
    | OpenWriter(endpoint: int)
    | OpenReader(endpoint: int)
    | BulkWrite(endpoint: int, data: seq<byte>, timeout: int)
    | ControlTransfer(setup: SetupPacket, data: seq<byte>)
    | ReleaseInterface(iface: int)
    | CloseDevice
    | Delay(ms: nat)

  /** Which transfers the device accepts, given the trace so far. */
  type Accepts = (seq<UsbEvent>, UsbEvent) -> bool

  /** `UsbDevice.AllDevices` (None when enumerating throws) and the device's answers. */
  datatype Bus = Bus(devices: Option<seq<UsbRegistry>>, accepts: Accepts)

  /** Outcome of one operation: its result and the trace after it. */
  datatype Step = Step(ok: bool, trace: seq<UsbEvent>)

  /** A transfer: the only events whose success the device decides. */
  predicate IsTransfer(e: UsbEvent) {
    e.BulkWrite? || e.ControlTransfer?
  }

  /** No transfer happens in this stretch of trace. */
  predicate NoTransfer(t: seq<UsbEvent>) {
    forall i :: 0 <= i < |t| ==> !IsTransfer(t[i])
  }

  /** Apple, in Recovery or DFU mode (the WTF id 0x1222 is not searched for). */
  predicate IsRecoveryTarget(r: UsbRegistry) {
    r.vid == AppleVendorId && (r.pid == RecoveryModePid || r.pid == DfuModePid)
  }

  /** The open attempts made on the targets among the first `n` registries. */
  function OpenAttempts(devs: seq<UsbRegistry>, n: nat): seq<UsbEvent>
    requires n <= |devs|
  {
    if n == 0 then []
    else OpenAttempts(devs, n - 1) + (if IsRecoveryTarget(devs[n - 1]) then [OpenAttempt(n - 1)] else [])
  }

  /** Open attempts are made on targets only, and are not transfers. */
  lemma {:induction false} OpenAttemptsOnTargets(devs: seq<UsbRegistry>, n: nat)
    requires n <= |devs|
    ensures NoTransfer(OpenAttempts(devs, n))
    ensures forall e :: e in OpenAttempts(devs, n) ==>
      e.OpenAttempt? && e.device < n && IsRecoveryTarget(devs[e.device])
  {
    if n > 0 {
      OpenAttemptsOnTargets(devs, n - 1);
    }
  }

  /** Every target among the first `n` registries is attempted. */
  lemma {:induction false} OpenAttemptsComplete(devs: seq<UsbRegistry>, n: nat, i: nat)
    requires i < n <= |devs| && IsRecoveryTarget(devs[i])
    ensures OpenAttempt(i) in OpenAttempts(devs, n)
  {
    if i < n - 1 {
      OpenAttemptsComplete(devs, n - 1, i);
    }
  }

  /** A Recovery or DFU device that opens. */
  predicate OpensAsTarget(r: UsbRegistry) {
    IsRecoveryTarget(r) && r.opens
  }

  /** The first registry that is a target and opens. */
  function FirstOpened(devs: seq<UsbRegistry>): Option<nat> {
    FirstIndex(devs, OpensAsTarget)
  }

  /** The first registry with the given ids (`AllDevices.Find(finder)`). */
  function FindDevice(devs: seq<UsbRegistry>, vid: int, pid: int): Option<nat> {
    FirstIndex(devs, (r: UsbRegistry) => r.vid == vid && r.pid == pid)
  }

  /** `(short)n`: the C# narrowing cast to a signed 16-bit value. */
  function ToInt16(n: int): (r: int)
    ensures -0x8000 <= r < 0x8000
    ensures (r - n) % 0x1_0000 == 0
  {
    (n + 0x8000) % 0x1_0000 - 0x8000
  }

  /** A transfer the device is asked to perform, appended to the trace. */
  function Transfer(accepts: Accepts, t: seq<UsbEvent>, e: UsbEvent): (r: Step)
    requires IsTransfer(e)
    ensures r.trace == t + [e] && (r.ok <==> accepts(t, e))
  {
    Step(accepts(t, e), t + [e])
  }

  /** The transfers of a trace, in order. */
  function Transfers(t: seq<UsbEvent>): seq<UsbEvent> {
    if t == [] then []
    else Transfers(t[..|t| - 1]) + (if IsTransfer(t[|t| - 1]) then [t[|t| - 1]] else [])
  }

  /** Transfers distribute over concatenation. */
  lemma {:induction false} TransfersAppend(a: seq<UsbEvent>, b: seq<UsbEvent>)
    ensures Transfers(a + b) == Transfers(a) + Transfers(b)
    decreases |b|
  {
    if b == [] {
      assert a + b == a;
    } else {
      assert (a + b)[..|a + b| - 1] == a + b[..|b| - 1];
      TransfersAppend(a, b[..|b| - 1]);
    }
  }

  /** A stretch without transfers contributes none. */
  lemma {:induction false} TransfersNone(t: seq<UsbEvent>)
    requires NoTransfer(t)
    ensures Transfers(t) == []
  {
    if t != [] {
      TransfersNone(t[..|t| - 1]);
    }
  }

  /** The transfers made between two points of a growing trace add up. */
  lemma TransfersSplit(t: seq<UsbEvent>, u: seq<UsbEvent>, v: seq<UsbEvent>)
    requires IsPrefix(t, u) && IsPrefix(u, v)
    ensures IsPrefix(t, v)
    ensures Transfers(v[|t|..]) == Transfers(u[|t|..]) + Transfers(v[|u|..])
  {
    assert v[|t|..] == u[|t|..] + v[|u|..];
    TransfersAppend(u[|t|..], v[|u|..]);
  }

  /** A stretch with exactly one transfer, `e`, has `e` as its only transfer. */
  lemma TransfersSingle(a: seq<UsbEvent>, e: UsbEvent, b: seq<UsbEvent>)
    requires NoTransfer(a) && IsTransfer(e) && NoTransfer(b)
    ensures Transfers(a + [e] + b) == [e]
  {
    TransfersNone(a);
    TransfersNone(b);
    TransfersAppend(a + [e], b);
    TransfersAppend(a, [e]);
    assert [e][..0] == [];
  }

  /** A delay is not a transfer. */
  lemma TransfersDelay(t: seq<UsbEvent>, ms: nat)
    ensures IsPrefix(t, t + [Delay(ms)]) && Transfers((t + [Delay(ms)])[|t|..]) == []
  {
    assert (t + [Delay(ms)])[|t|..] == [Delay(ms)];
    assert [Delay(ms)][..0] == [];
  }
}
