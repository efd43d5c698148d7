/** RecoveryModeHelper.cs: the chain of strategies that try to bring a device
    out of recovery mode, and the two raw control-transfer fallbacks. The
    native-API and command-line strategies are outcome inputs here; the USB
    strategies run on the bus model. */
module RecoveryHelper {
  import opened Wrappers
  import opened Seqs
  import opened Usb
  import IRecovery
  import Detector

  /** The strategies, in the order the chain tries them. */
  datatype Strategy = NativeApi | IrecoveryCli | DirectUsb | AlternateUsb

  /** How a strategy whose logic is not modelled here ended. */
  datatype Outcome = Succeeded | Failed | Threw

  /** The strategies the chain may try: the first two only when the Apple
      driver support check passed. */
  function Applicable(hasDrivers: bool): seq<Strategy> {
    if hasDrivers then [NativeApi, IrecoveryCli, DirectUsb, AlternateUsb] else [DirectUsb, AlternateUsb]
  }

  /** The zero vendor request both fallbacks send: request 0, value 0, index 0,
      no data. */
  function ZeroRequest(): UsbEvent {
    ControlTransfer(SetupPacket(VendorOut, 0, 0, 0, 0), [])
  }

  /** Configuration and interface claim, made on a whole device only. */
  function ClaimEvents(reg: UsbRegistry): seq<UsbEvent> {
    if reg.whole then [SetConfiguration(1), ClaimInterface(0)] else []
  }

  /** Interface release, made on a whole device only. */
  function ReleaseEvents(reg: UsbRegistry): seq<UsbEvent> {
    if reg.whole then [ReleaseInterface(0)] else []
  }

  /** The session `TryExitViaUSB` holds on the device it opened: claim it if it
      is a whole device, send the zero request, release, and close in the
      `finally`. */
  function SessionPlan(accepts: Accepts, reg: UsbRegistry, t: seq<UsbEvent>): Step {
    var sent := Transfer(accepts, t + ClaimEvents(reg), ZeroRequest());
    Step(sent.ok, sent.trace + ReleaseEvents(reg) + [CloseDevice])
  }

  /** The session sends the zero request and nothing else, succeeds exactly
      when the device accepts that request, and ends with the device closed. */
  lemma SessionSendsOnlyZeroRequest(accepts: Accepts, reg: UsbRegistry, t: seq<UsbEvent>)
    ensures var r := SessionPlan(accepts, reg, t);
      IsPrefix(t, r.trace) && Transfers(r.trace[|t|..]) == [ZeroRequest()]
      && r.trace[|r.trace| - 1] == CloseDevice
      && exists p :: |t| <= p < |r.trace| && r.trace[p] == ZeroRequest()
                     && (r.ok <==> accepts(r.trace[..p], ZeroRequest()))
  {
    var r := SessionPlan(accepts, reg, t);
    var claim, release := ClaimEvents(reg), ReleaseEvents(reg);
    assert r.trace[|t|..] == claim + [ZeroRequest()] + (release + [CloseDevice]);
    TransfersSingle(claim, ZeroRequest(), release + [CloseDevice]);
    assert r.trace[..|t| + |claim|] == t + claim;
  }

  /** `TryExitViaUSB`: the registry loop, with `break` at the first Recovery or
      DFU device that opens, then the session on it. Enumeration failure is
      caught and yields false. */
  function ViaUsbPlan(bus: Bus, t: seq<UsbEvent>): Step {
    if bus.devices.None? then Step(false, t)
    else
      var devs := bus.devices.value;
      match FirstOpened(devs)
      case None => Step(false, t + OpenAttempts(devs, |devs|))
      case Some(k) => SessionPlan(bus.accepts, devs[k], t + OpenAttempts(devs, k + 1))
  }

  /** `TryExitViaUSB` fails without a transfer when no device opens; when one
      opens, it is the first Recovery or DFU device that opens, and the
      session on it follows the open attempts. */
  lemma ViaUsbPlanCases(bus: Bus, t: seq<UsbEvent>)
    ensures var r := ViaUsbPlan(bus, t);
      IsPrefix(t, r.trace)
      && (bus.devices.None? || FirstOpened(bus.devices.value).None? ==> !r.ok && NoTransfer(r.trace[|t|..]))
      && (bus.devices.Some? && FirstOpened(bus.devices.value).Some? ==>
            var k := FirstOpened(bus.devices.value).value;
            var u := t + OpenAttempts(bus.devices.value, k + 1);
            IsPrefix(t, u) && NoTransfer(u[|t|..]) && r == SessionPlan(bus.accepts, bus.devices.value[k], u))
  {
    if bus.devices.Some? {
      var devs := bus.devices.value;
      match FirstOpened(devs)
      case None =>
        OpenAttemptsOnTargets(devs, |devs|);
        assert ViaUsbPlan(bus, t).trace[|t|..] == OpenAttempts(devs, |devs|);
      case Some(k) =>
        OpenAttemptsOnTargets(devs, k + 1);
        assert (t + OpenAttempts(devs, k + 1))[|t|..] == OpenAttempts(devs, k + 1);
        assert IsPrefix(t, SessionPlan(bus.accepts, devs[k], t + OpenAttempts(devs, k + 1)).trace);
    }
  }

  /** `TryExitViaUSB` makes at most one transfer, the zero request. */
  lemma ViaUsbAtMostZeroRequest(bus: Bus, t: seq<UsbEvent>)
    ensures var r := ViaUsbPlan(bus, t);
      IsPrefix(t, r.trace) && (Transfers(r.trace[|t|..]) == [] || Transfers(r.trace[|t|..]) == [ZeroRequest()])
      && (r.ok ==> Transfers(r.trace[|t|..]) == [ZeroRequest()] && r.trace[|r.trace| - 1] == CloseDevice)
  {
    var r := ViaUsbPlan(bus, t);
    ViaUsbPlanCases(bus, t);
    if bus.devices.None? || FirstOpened(bus.devices.value).None? {
      TransfersNone(r.trace[|t|..]);
    } else {
      var devs := bus.devices.value;
      var k := FirstOpened(devs).value;
      SessionAfterOpens(bus.accepts, devs[k], t, t + OpenAttempts(devs, k + 1));
    }
  }

  /** A session after open attempts that made no transfer: the zero request
      is the only transfer since `t`. */
  lemma SessionAfterOpens(accepts: Accepts, reg: UsbRegistry, t: seq<UsbEvent>, u: seq<UsbEvent>)
    requires IsPrefix(t, u) && NoTransfer(u[|t|..])
    ensures var r := SessionPlan(accepts, reg, u);
      IsPrefix(t, r.trace) && Transfers(r.trace[|t|..]) == [ZeroRequest()]
      && r.trace[|r.trace| - 1] == CloseDevice
  {
    var r := SessionPlan(accepts, reg, u);
    SessionSendsOnlyZeroRequest(accepts, reg, u);
    TransfersSplit(t, u, r.trace);
    TransfersNone(u[|t|..]);
  }

  /** `TryExitViaUSB`. */
  method TryExitViaUsb(bus: Bus, t: seq<UsbEvent>) returns (ok: bool, trace: seq<UsbEvent>)
    ensures Step(ok, trace) == ViaUsbPlan(bus, t)
  {
    if bus.devices.None? {
      return false, t;
    }
    var devs := bus.devices.value;
    trace := t;
    var usbDevice: Option<nat> := None;
    var i := 0;
    while i < |devs|
      invariant 0 <= i <= |devs|
      invariant trace == t + OpenAttempts(devs, i)
      invariant forall j :: 0 <= j < i ==> !OpensAsTarget(devs[j])
      invariant usbDevice.None?
    {
      assert OpenAttempts(devs, i + 1) == OpenAttempts(devs, i) + (if IsRecoveryTarget(devs[i]) then [OpenAttempt(i)] else []);
      if IsRecoveryTarget(devs[i]) {
        trace := trace + [OpenAttempt(i)];
        if devs[i].opens {
          FirstIndexAt(devs, OpensAsTarget, i);
          assert FirstOpened(devs) == Some(i) && trace == t + OpenAttempts(devs, i + 1);
          assert ViaUsbPlan(bus, t) == SessionPlan(bus.accepts, devs[i], trace);
          usbDevice := Some(i);
          break;
        }
      }
      i := i + 1;
    }
    if usbDevice.None? {
      FirstIndexNone(devs, OpensAsTarget);
      return false, trace;
    }
    var reg := devs[usbDevice.value];
    trace := trace + ClaimEvents(reg);
    ok := bus.accepts(trace, ZeroRequest());
    trace := trace + [ZeroRequest()] + ReleaseEvents(reg) + [CloseDevice];
  }

  /** `SendRebootCommand`: nothing is sent unless the classifier finds a
      recovery device; then `TryExitViaUSB`. */
  method SendRebootCommand(scan: seq<Detector.PnpEntry>, bus: Bus, t: seq<UsbEvent>)
    returns (ok: bool, trace: seq<UsbEvent>)
    ensures Detector.RecoveryDevicesOf(scan) == [] ==> !ok && trace == t
    ensures Detector.RecoveryDevicesOf(scan) != [] ==> Step(ok, trace) == ViaUsbPlan(bus, t)
  {
    var recoveryDevices := Detector.GetRecoveryDevices(scan);
    if |recoveryDevices| == 0 {
      return false, t;
    }
    ok, trace := TryExitViaUsb(bus, t);
  }

  /** One `UsbDevice.OpenUsbDevice(finder)`: the first registry with the ids,
      opened once; None when there is none or it does not open. */
  function OpenByIds(devs: seq<UsbRegistry>, pid: int, t: seq<UsbEvent>): (Option<nat>, seq<UsbEvent>) {
    match FindDevice(devs, AppleVendorId, pid)
    case None => (None, t)
    case Some(k) => (if devs[k].opens then Some(k) else None, t + [OpenAttempt(k)])
  }

  /** The device search of `TryExitWithWinUSB`: the Recovery id, then the DFU
      id only when the first search gave no device. */
  function WinUsbOpen(devs: seq<UsbRegistry>, t: seq<UsbEvent>): (Option<nat>, seq<UsbEvent>) {
    var (recovery, t1) := OpenByIds(devs, RecoveryModePid, t);
    if recovery.Some? then (recovery, t1) else OpenByIds(devs, DfuModePid, t1)
  }

  /** The search opens a Recovery-id device when one is listed first, falls
      back to the DFU id, makes no transfer, and the device it returns opened. */
  lemma WinUsbOpenChoice(devs: seq<UsbRegistry>, t: seq<UsbEvent>)
    ensures var (device, u) := WinUsbOpen(devs, t);
      IsPrefix(t, u) && NoTransfer(u[|t|..])
      && (device.Some? ==>
            device.value < |devs| && devs[device.value].opens && devs[device.value].vid == AppleVendorId
            && (devs[device.value].pid == RecoveryModePid || devs[device.value].pid == DfuModePid))
      && (FindDevice(devs, AppleVendorId, RecoveryModePid).Some? ==>
            |u| > |t| && u[|t|] == OpenAttempt(FindDevice(devs, AppleVendorId, RecoveryModePid).value)
            && (devs[FindDevice(devs, AppleVendorId, RecoveryModePid).value].opens
                ==> device == FindDevice(devs, AppleVendorId, RecoveryModePid)))
      && (device.None? <==>
            (FindDevice(devs, AppleVendorId, RecoveryModePid).None?
             || !devs[FindDevice(devs, AppleVendorId, RecoveryModePid).value].opens)
            && (FindDevice(devs, AppleVendorId, DfuModePid).None?
             || !devs[FindDevice(devs, AppleVendorId, DfuModePid).value].opens))
  {
    var (recovery, t1) := OpenByIds(devs, RecoveryModePid, t);
    assert t1[|t|..] == [] || t1[|t|..] == [t1[|t|]];
    if recovery.None? {
      var (dfu, t2) := OpenByIds(devs, DfuModePid, t1);
      assert t2[|t|..] == t1[|t|..] + t2[|t1|..];
    }
  }

  /** `TryExitWithWinUSB`: on the device the search opened, the zero request,
      then `Close` in the `finally`. */
  function WinUsbPlan(bus: Bus, t: seq<UsbEvent>): Step {
    if bus.devices.None? then Step(false, t)
    else
      var (device, u) := WinUsbOpen(bus.devices.value, t);
      if device.None? then Step(false, u)
      else
        var sent := Transfer(bus.accepts, u, ZeroRequest());
        Step(sent.ok, sent.trace + [CloseDevice])
  }

  /** `TryExitWithWinUSB` fails without a transfer when no device opened;
      otherwise it sends only the zero request, succeeds iff the device accepts
      it, and closes the device. */
  lemma WinUsbPlanProperties(bus: Bus, t: seq<UsbEvent>)
    ensures var r := WinUsbPlan(bus, t);
      IsPrefix(t, r.trace)
      && (bus.devices.None? || WinUsbOpen(bus.devices.value, t).0.None? ==> !r.ok && Transfers(r.trace[|t|..]) == [])
      && (bus.devices.Some? && WinUsbOpen(bus.devices.value, t).0.Some? ==>
            var u := WinUsbOpen(bus.devices.value, t).1;
            Transfers(r.trace[|t|..]) == [ZeroRequest()] && r.trace[|r.trace| - 1] == CloseDevice
            && r.trace[|u|] == ZeroRequest() && (r.ok <==> bus.accepts(u, ZeroRequest())))
  {
    if bus.devices.Some? {
      var (device, u) := WinUsbOpen(bus.devices.value, t);
      WinUsbOpenChoice(bus.devices.value, t);
      var r := WinUsbPlan(bus, t);
      if device.None? {
        TransfersNone(u[|t|..]);
      } else {
        assert r.trace[|t|..] == u[|t|..] + [ZeroRequest()] + [CloseDevice];
        TransfersSingle(u[|t|..], ZeroRequest(), [CloseDevice]);
      }
    }
  }

  /** `TryExitWithWinUSB`. */
  method TryExitWithWinUsb(bus: Bus, t: seq<UsbEvent>) returns (ok: bool, trace: seq<UsbEvent>)
    ensures Step(ok, trace) == WinUsbPlan(bus, t)
  {
    if bus.devices.None? {
      return false, t;
    }
    var devs := bus.devices.value;
    var device;
    device, trace := OpenByIds(devs, RecoveryModePid, t).0, OpenByIds(devs, RecoveryModePid, t).1;
    if device.None? {
      // try DFU mode
      device, trace := OpenByIds(devs, DfuModePid, trace).0, OpenByIds(devs, DfuModePid, trace).1;
    }
    if device.None? {
      return false, trace;
    }
    ok := bus.accepts(trace, ZeroRequest());
    trace := trace + [ZeroRequest(), CloseDevice];
  }

  /** Whether each applicable strategy would succeed when reached, in order.
      The USB strategies share the bus, so the second sees the first's trace. */
  function Results(hasDrivers: bool, native: Outcome, cli: Outcome, bus: Bus, t: seq<UsbEvent>): (r: seq<bool>)
    ensures |r| == |Applicable(hasDrivers)|
  {
    var direct := IRecovery.ExitPlan(bus, t);
    var usb := [direct.ok, ViaUsbPlan(bus, direct.trace).ok];
    if hasDrivers then [native == Succeeded, cli == Succeeded] + usb else usb
  }

  /** The outcome of the chain: its result, the strategies tried, the trace. */
  datatype Chain = Chain(ok: bool, attempted: seq<Strategy>, trace: seq<UsbEvent>)

  /** `ExitRecoveryMode` as a value. A native or command-line strategy that
      threw counts as failed, as its `catch` moves on to the next strategy. */
  function ChainPlan(hasDrivers: bool, native: Outcome, cli: Outcome, bus: Bus, t: seq<UsbEvent>): Chain {
    if hasDrivers && native == Succeeded then Chain(true, [NativeApi], t)
    else if hasDrivers && cli == Succeeded then Chain(true, [NativeApi, IrecoveryCli], t)
    else
      var before := if hasDrivers then [NativeApi, IrecoveryCli] else [];
      var direct := IRecovery.ExitPlan(bus, t);
      if direct.ok then Chain(true, before + [DirectUsb], direct.trace)
      else
        var alternate := ViaUsbPlan(bus, direct.trace);
        Chain(alternate.ok, before + [DirectUsb, AlternateUsb], alternate.trace)
  }

  /** The chain tries the applicable strategies in their fixed order, stops at
      the first that succeeds, and returns that strategy's result; it reaches
      the last strategy only when all before it failed. */
  lemma ChainShortCircuits(hasDrivers: bool, native: Outcome, cli: Outcome, bus: Bus, t: seq<UsbEvent>)
    ensures var c := ChainPlan(hasDrivers, native, cli, bus, t);
      var results := Results(hasDrivers, native, cli, bus, t);
      0 < |c.attempted| && IsPrefix(c.attempted, Applicable(hasDrivers))
      && (forall i :: 0 <= i < |c.attempted| - 1 ==> !results[i])
      && c.ok == results[|c.attempted| - 1]
      && (!c.ok ==> c.attempted == Applicable(hasDrivers))
  {
  }

  /** The chain returns false exactly when every applicable strategy fails. */
  lemma ChainFailsIffAllFail(hasDrivers: bool, native: Outcome, cli: Outcome, bus: Bus, t: seq<UsbEvent>)
    ensures !ChainPlan(hasDrivers, native, cli, bus, t).ok
      <==> forall i :: 0 <= i < |Applicable(hasDrivers)| ==> !Results(hasDrivers, native, cli, bus, t)[i]
  {
    ChainShortCircuits(hasDrivers, native, cli, bus, t);
  }

  /** Without driver support only the two USB strategies are tried, and the
      native and command-line outcomes do not matter. */
  lemma ChainWithoutDrivers(native: Outcome, cli: Outcome, native': Outcome, cli': Outcome, bus: Bus, t: seq<UsbEvent>)
    ensures ChainPlan(false, native, cli, bus, t) == ChainPlan(false, native', cli', bus, t)
    ensures NativeApi !in ChainPlan(false, native, cli, bus, t).attempted
    ensures IrecoveryCli !in ChainPlan(false, native, cli, bus, t).attempted
  {
  }

  /** The USB trace is touched only by the USB strategies: when a native or
      command-line strategy succeeds, nothing was sent on the bus. */
  lemma ChainUsbOnlyWhenReached(hasDrivers: bool, native: Outcome, cli: Outcome, bus: Bus, t: seq<UsbEvent>)
    ensures var c := ChainPlan(hasDrivers, native, cli, bus, t);
      IsPrefix(t, c.trace) && (DirectUsb !in c.attempted ==> c.trace == t)
  {
    var direct := IRecovery.ExitPlan(bus, t);
    IRecovery.ExitPlanSafety(bus, t);
    ViaUsbPlanCases(bus, direct.trace);
  }

  /** `ExitRecoveryMode`: the strategies in order, each exception caught, the
      first success returning true. */
  method ExitRecoveryMode(hasDrivers: bool, native: Outcome, cli: Outcome, bus: Bus, t: seq<UsbEvent>)
    returns (ok: bool, attempted: seq<Strategy>, trace: seq<UsbEvent>)
    ensures Chain(ok, attempted, trace) == ChainPlan(hasDrivers, native, cli, bus, t)
  {
    attempted := [];
    trace := t;
    if hasDrivers {
      // method 0: the native API
      attempted := attempted + [NativeApi];
      if native == Succeeded {
        return true, attempted, trace;
      }
      // method 0.5: the irecovery command line
      attempted := attempted + [IrecoveryCli];
      if cli == Succeeded {
        return true, attempted, trace;
      }
    }
    // method 1: IRecoveryProtocol
    attempted := attempted + [DirectUsb];
    ok, trace := IRecovery.IRecoveryProtocol.ExitRecoveryMode(bus, t);
    if ok {
      return true, attempted, trace;
    }
    // method 2: the alternative USB request
    attempted := attempted + [AlternateUsb];
    ok, trace := TryExitViaUsb(bus, trace);
  }
}
