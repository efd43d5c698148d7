/** IRecoveryProtocol.cs: a session with one Apple device in Recovery or DFU
    mode over LibUsbDotNet. The session object holds the opened device, the
    bulk endpoint writer and reader; commands are ASCII text on endpoint 0x04. */
module IRecovery {
  import opened Wrappers
  import opened Seqs
  import opened Ascii
  import opened Usb

  const UsbConfiguration: int := 1
  const UsbInterface: int := 0
  const UsbTimeout: int := 5000
  const EndpointOut: int := 0x04
  const EndpointIn: int := 0x85

  /** The commands `Reboot` sends. */
  const RebootCommand: string := "reboot"
  const SetAutoBootCommand: string := "setenv auto-boot true"
  const SaveEnvCommand: string := "saveenv"

  /** The bulk write that carries one command: its ASCII bytes and a newline. */
  function CommandWrite(command: string): UsbEvent {
    BulkWrite(EndpointOut, AsciiBytes(command + "\n"), UsbTimeout)
  }

  /** The control transfer `Reboot` falls back to: request 0, value 0, index 0,
      an empty payload. */
  function RebootControl(): UsbEvent {
    ControlTransfer(SetupPacket(VendorOut, 0, 0, 0, 0), [])
  }

  /** What `Open` does to a device once it has opened: configuration and
      interface for a whole device, then both endpoints. Failures are ignored. */
  function SetupEvents(r: UsbRegistry): seq<UsbEvent> {
    (if r.whole then [SetConfiguration(UsbConfiguration), ClaimInterface(UsbInterface)] else [])
    + [OpenWriter(EndpointOut), OpenReader(EndpointIn)]
  }

  /** What `Close` does to an open device. */
  function CloseEvents(r: UsbRegistry): (t: seq<UsbEvent>)
    ensures NoTransfer(t) && |t| > 0 && t[|t| - 1] == CloseDevice
    ensures ReleaseInterface(UsbInterface) in t <==> r.whole
  {
    (if r.whole then [ReleaseInterface(UsbInterface)] else []) + [CloseDevice]
  }

  /** The outcome of `Open`: the registry kept, and the trace after it. */
  datatype Opening = Opening(chosen: Option<nat>, trace: seq<UsbEvent>)

  /** `Open` on the bus, as a value: the registry kept and the trace after it. */
  function OpenPlan(bus: Bus, t: seq<UsbEvent>): Opening {
    if bus.devices.None? then Opening(None, t)
    else
      var devs := bus.devices.value;
      match FirstOpened(devs)
      case None => Opening(None, t + OpenAttempts(devs, |devs|))
      case Some(k) => Opening(Some(k), t + OpenAttempts(devs, k + 1) + SetupEvents(devs[k]))
  }

  /** `OpenPlan` when registry `i` is the first target that opens. */
  lemma OpenPlanFound(bus: Bus, t: seq<UsbEvent>, i: nat)
    requires bus.devices.Some? && i < |bus.devices.value| && OpensAsTarget(bus.devices.value[i])
    requires forall j :: 0 <= j < i ==> !OpensAsTarget(bus.devices.value[j])
    ensures OpenPlan(bus, t) ==
      Opening(Some(i), t + OpenAttempts(bus.devices.value, i) + [OpenAttempt(i)] + SetupEvents(bus.devices.value[i]))
  {
    FirstIndexAt(bus.devices.value, OpensAsTarget, i);
  }

  /** `OpenPlan` when no target opens. */
  lemma OpenPlanNotFound(bus: Bus, t: seq<UsbEvent>)
    requires bus.devices.Some?
    requires forall j :: 0 <= j < |bus.devices.value| ==> !OpensAsTarget(bus.devices.value[j])
    ensures OpenPlan(bus, t) == Opening(None, t + OpenAttempts(bus.devices.value, |bus.devices.value|))
  {
    FirstIndexNone(bus.devices.value, OpensAsTarget);
  }

  /** `Open` keeps the first Recovery or DFU device that opens, skipping
      matching devices that fail to open, and makes no transfer. */
  lemma OpenPlanChoice(bus: Bus, t: seq<UsbEvent>)
    ensures var o := OpenPlan(bus, t);
      IsPrefix(t, o.trace) && NoTransfer(o.trace[|t|..])
      && (o.chosen.Some? ==>
        bus.devices.Some? && o.chosen.value < |bus.devices.value|
        && IsRecoveryTarget(bus.devices.value[o.chosen.value]) && bus.devices.value[o.chosen.value].opens
        && forall j :: 0 <= j < o.chosen.value ==> !OpensAsTarget(bus.devices.value[j]))
      && (o.chosen.None? ==>
        bus.devices.None? || forall j :: 0 <= j < |bus.devices.value| ==> !OpensAsTarget(bus.devices.value[j]))
  {
    var o := OpenPlan(bus, t);
    if bus.devices.Some? {
      var devs := bus.devices.value;
      var n := if o.chosen.Some? then o.chosen.value + 1 else |devs|;
      var tail := if o.chosen.Some? then SetupEvents(devs[o.chosen.value]) else [];
      assert o.trace[|t|..] == OpenAttempts(devs, n) + tail;
      OpenAttemptsOnTargets(devs, n);
    }
  }

  /** `SendCommand` on a connected device: fails with nothing sent when there is
      no writer; otherwise writes the command and succeeds iff the device
      accepts the write. */
  function SendPlan(writer: bool, accepts: Accepts, t: seq<UsbEvent>, command: string): (r: Step)
    ensures IsPrefix(t, r.trace)
    ensures !writer ==> !r.ok && r.trace == t
    ensures writer ==> (r.ok <==> accepts(t, CommandWrite(command)))
    ensures writer ==> r.trace == t + [CommandWrite(command)] + (if r.ok then [Delay(100)] else [])
  {
    if !writer then Step(false, t)
    else
      var s := Transfer(accepts, t, CommandWrite(command));
      if s.ok then Step(true, s.trace + [Delay(100)]) else s
  }

  /** The only transfer `SendCommand` makes is the command's write. */
  lemma SendPlanTransfers(writer: bool, accepts: Accepts, t: seq<UsbEvent>, command: string)
    ensures var r := SendPlan(writer, accepts, t, command);
      Transfers(r.trace[|t|..]) == if writer then [CommandWrite(command)] else []
  {
    var r := SendPlan(writer, accepts, t, command);
    if writer {
      var w := [CommandWrite(command)];
      var rest := r.trace[|t| + 1..];
      assert r.trace[|t|..] == w + rest;
      TransfersAppend(w, rest);
      assert Transfers(w) == w by {
        assert w[..0] == [];
      }
      TransfersNone(rest);
    } else {
      assert r.trace[|t|..] == [];
    }
  }

  /** `SendControlTransfer` on a connected device: a vendor, host-to-device
      setup packet whose wLength is the payload length (0 for no payload),
      narrowed to 16 bits as the source's `short` cast does. */
  function ControlPlan(accepts: Accepts, t: seq<UsbEvent>, request: int, value: int, index: int,
                       data: Option<seq<byte>>): (r: Step)
    ensures |r.trace| == |t| + 1 && r.trace[..|t|] == t && r.trace[|t|].ControlTransfer?
    ensures r.trace[|t|].setup.requestType == VendorOut && r.trace[|t|].setup.request == request
      && r.trace[|t|].setup.value == value && r.trace[|t|].setup.index == index
    ensures r.trace[|t|].data == data.GetOr([])
    ensures r.trace[|t|].setup.length == ToInt16(|data.GetOr([])|)
    ensures r.ok <==> accepts(t, r.trace[|t|])
  {
    var payload := data.GetOr([]);
    Transfer(accepts, t, ControlTransfer(SetupPacket(VendorOut, request, value, index, ToInt16(|payload|)), payload))
  }

  /** The second reboot method: "setenv auto-boot true" and "saveenv", whose
      results are ignored, each followed by 200 ms, then "reboot", which decides. */
  function AutoBootPlan(writer: bool, accepts: Accepts, t: seq<UsbEvent>): Step {
    var setenv := SendPlan(writer, accepts, t, SetAutoBootCommand);
    var saveenv := SendPlan(writer, accepts, setenv.trace + [Delay(200)], SaveEnvCommand);
    SendPlan(writer, accepts, saveenv.trace + [Delay(200)], RebootCommand)
  }

  /** `Reboot` on a connected device: the three methods in turn. */
  function RebootPlan(writer: bool, accepts: Accepts, t: seq<UsbEvent>): Step {
    var m1 := SendPlan(writer, accepts, t, RebootCommand);
    if m1.ok then Step(true, m1.trace + [Delay(500)])
    else
      var m2 := AutoBootPlan(writer, accepts, m1.trace);
      if m2.ok then m2
      else ControlPlan(accepts, m2.trace, 0, 0, 0, Some([]))
  }

  /** The transfers `Reboot` makes when every method fails. */
  function RebootSequence(writer: bool): seq<UsbEvent> {
    if writer then
      [CommandWrite(RebootCommand), CommandWrite(SetAutoBootCommand), CommandWrite(SaveEnvCommand),
       CommandWrite(RebootCommand), RebootControl()]
    else [RebootControl()]
  }

  /** A transfer whose success makes `Reboot` return true. */
  predicate IsDeciding(e: UsbEvent) {
    e == CommandWrite(RebootCommand) || e == RebootControl()
  }

  /** A command followed by a pause transfers the command's write and nothing else. */
  lemma SendThenDelay(writer: bool, accepts: Accepts, t: seq<UsbEvent>, command: string, ms: nat)
    ensures var u := SendPlan(writer, accepts, t, command).trace + [Delay(ms)];
      IsPrefix(t, u) && Transfers(u[|t|..]) == if writer then [CommandWrite(command)] else []
  {
    var s := SendPlan(writer, accepts, t, command);
    SendPlanTransfers(writer, accepts, t, command);
    TransfersDelay(s.trace, ms);
    TransfersSplit(t, s.trace, s.trace + [Delay(ms)]);
  }

  /** The second method writes its three commands, in order, and nothing else;
      only the last write decides its result. */
  lemma AutoBootPlanTransfers(writer: bool, accepts: Accepts, t: seq<UsbEvent>)
    ensures var r := AutoBootPlan(writer, accepts, t);
      IsPrefix(t, r.trace)
      && Transfers(r.trace[|t|..]) ==
        (if writer then [CommandWrite(SetAutoBootCommand), CommandWrite(SaveEnvCommand), CommandWrite(RebootCommand)] else [])
  {
    ThreeSends(writer, accepts, t, SetAutoBootCommand, SaveEnvCommand, RebootCommand);
  }

  /** Three commands, each followed by a pause but the last: their writes in order. */
  lemma ThreeSends(writer: bool, accepts: Accepts, t: seq<UsbEvent>, c1: string, c2: string, c3: string)
    ensures var a := SendPlan(writer, accepts, t, c1).trace + [Delay(200)];
      var b := SendPlan(writer, accepts, a, c2).trace + [Delay(200)];
      var r := SendPlan(writer, accepts, b, c3);
      IsPrefix(t, r.trace)
      && Transfers(r.trace[|t|..]) ==
        (if writer then [CommandWrite(c1), CommandWrite(c2), CommandWrite(c3)] else [])
  {
    var a := SendPlan(writer, accepts, t, c1).trace + [Delay(200)];
    var b := SendPlan(writer, accepts, a, c2).trace + [Delay(200)];
    var r := SendPlan(writer, accepts, b, c3);
    SendThenDelay(writer, accepts, t, c1, 200);
    TwoSends(writer, accepts, a, c2, c3);
    TransfersSplit(t, a, r.trace);
    PrependToTwo(CommandWrite(c1), CommandWrite(c2), CommandWrite(c3));
  }

  /** Two commands with a pause between them: the two writes in order. */
  lemma TwoSends(writer: bool, accepts: Accepts, t: seq<UsbEvent>, c1: string, c2: string)
    ensures var a := SendPlan(writer, accepts, t, c1).trace + [Delay(200)];
      var r := SendPlan(writer, accepts, a, c2);
      IsPrefix(t, r.trace)
      && Transfers(r.trace[|t|..]) == (if writer then [CommandWrite(c1), CommandWrite(c2)] else [])
  {
    var a := SendPlan(writer, accepts, t, c1).trace + [Delay(200)];
    var r := SendPlan(writer, accepts, a, c2);
    SendThenDelay(writer, accepts, t, c1, 200);
    SendPlanTransfers(writer, accepts, a, c2);
    TransfersSplit(t, a, r.trace);
  }

  /** Where the last transfer of `s` sits, or -1 when `s` makes none. */
  function LastTransferAt(s: seq<UsbEvent>): (i: int)
    ensures -1 <= i < |s|
    ensures 0 <= i ==> IsTransfer(s[i])
    ensures NoTransfer(s[i + 1..])
  {
    if s == [] then -1
    else if IsTransfer(s[|s| - 1]) then |s| - 1
    else
      var i := LastTransferAt(s[..|s| - 1]);
      assert s[i + 1..] == s[..|s| - 1][i + 1..] + [s[|s| - 1]];
      i
  }

  /** A transfer followed only by pauses is the last transfer. */
  lemma {:induction false} LastTransferBeforePauses(u: seq<UsbEvent>, e: UsbEvent, pauses: seq<UsbEvent>)
    requires IsTransfer(e) && NoTransfer(pauses)
    ensures LastTransferAt(u + [e] + pauses) == |u|
    decreases |pauses|
  {
    var s := u + [e] + pauses;
    if pauses != [] {
      var shorter := pauses[..|pauses| - 1];
      assert s[..|s| - 1] == u + [e] + shorter;
      LastTransferBeforePauses(u, e, shorter);
    }
  }

  /** The transfers of a `Reboot` run follow the fallback order and stop at the
      first success: a successful run ends on one of the two "reboot" writes or
      the control transfer, and a failed run has tried all of them; the run
      succeeds exactly when the device accepted its last transfer. */
  predicate FollowsFallback(writer: bool, accepts: Accepts, t: seq<UsbEvent>, r: Step) {
    IsPrefix(t, r.trace)
    && var ts := Transfers(r.trace[|t|..]);
    IsPrefix(ts, RebootSequence(writer))
    && (r.ok ==> |ts| > 0 && IsDeciding(ts[|ts| - 1]))
    && (!r.ok ==> ts == RebootSequence(writer))
    && var k := LastTransferAt(r.trace);
    |t| <= k && (r.ok <==> accepts(r.trace[..k], r.trace[k]))
  }

  /** Method 1 succeeded: `Reboot` succeeds after the one "reboot" write. */
  lemma RebootByFirstMethod(writer: bool, accepts: Accepts, t: seq<UsbEvent>)
    requires writer && accepts(t, CommandWrite(RebootCommand))
    ensures var r := RebootPlan(writer, accepts, t);
      r.ok && Transfers(r.trace[|t|..]) == [CommandWrite(RebootCommand)]
    ensures FollowsFallback(writer, accepts, t, RebootPlan(writer, accepts, t))
  {
    var reboot := CommandWrite(RebootCommand);
    var m1 := SendPlan(writer, accepts, t, RebootCommand);
    var u := m1.trace + [Delay(500)];
    SendPlanTransfers(writer, accepts, t, RebootCommand);
    TransfersDelay(m1.trace, 500);
    TransfersSplit(t, m1.trace, u);
    assert Transfers(u[|t|..]) == [reboot];
    assert IsPrefix([reboot], RebootSequence(writer));
    assert u == t + [reboot] + [Delay(100), Delay(500)];
    LastTransferBeforePauses(t, reboot, [Delay(100), Delay(500)]);
    assert u[..|t|] == t;
  }

  /** The writes of methods 1 and 2, in order: all of `RebootSequence` but
      the control transfer. */
  function FirstTwoMethods(writer: bool): (w: seq<UsbEvent>)
    ensures RebootSequence(writer) == w + [RebootControl()]
  {
    if writer then
      [CommandWrite(RebootCommand), CommandWrite(SetAutoBootCommand), CommandWrite(SaveEnvCommand),
       CommandWrite(RebootCommand)]
    else []
  }

  /** Method 1 failed: methods 1 and 2 make their writes in order. */
  lemma RebootThroughSecondMethod(writer: bool, accepts: Accepts, t: seq<UsbEvent>)
    requires !SendPlan(writer, accepts, t, RebootCommand).ok
    ensures var m2 := AutoBootPlan(writer, accepts, SendPlan(writer, accepts, t, RebootCommand).trace);
      IsPrefix(t, m2.trace) && Transfers(m2.trace[|t|..]) == FirstTwoMethods(writer)
  {
    FourSends(writer, accepts, t, RebootCommand, SetAutoBootCommand, SaveEnvCommand, RebootCommand);
  }

  /** One command, then three more each but the last followed by a pause:
      the four writes in order. */
  lemma FourSends(writer: bool, accepts: Accepts, t: seq<UsbEvent>, c0: string, c1: string, c2: string, c3: string)
    ensures var m1 := SendPlan(writer, accepts, t, c0).trace;
      var a := SendPlan(writer, accepts, m1, c1).trace + [Delay(200)];
      var b := SendPlan(writer, accepts, a, c2).trace + [Delay(200)];
      var r := SendPlan(writer, accepts, b, c3);
      IsPrefix(t, r.trace)
      && Transfers(r.trace[|t|..]) ==
        (if writer then [CommandWrite(c0), CommandWrite(c1), CommandWrite(c2), CommandWrite(c3)] else [])
  {
    var m1 := SendPlan(writer, accepts, t, c0).trace;
    var a := SendPlan(writer, accepts, m1, c1).trace + [Delay(200)];
    var b := SendPlan(writer, accepts, a, c2).trace + [Delay(200)];
    var r := SendPlan(writer, accepts, b, c3);
    SendPlanTransfers(writer, accepts, t, c0);
    ThreeSends(writer, accepts, m1, c1, c2, c3);
    TransfersSplit(t, m1, r.trace);
    PrependToThree(CommandWrite(c0), CommandWrite(c1), CommandWrite(c2), CommandWrite(c3));
  }

  /** Method 2 succeeded: `Reboot` succeeds, its final "reboot" write ending
      the run after the four writes of methods 1 and 2. */
  lemma RebootBySecondMethod(writer: bool, accepts: Accepts, t: seq<UsbEvent>)
    requires !SendPlan(writer, accepts, t, RebootCommand).ok
    requires AutoBootPlan(writer, accepts, SendPlan(writer, accepts, t, RebootCommand).trace).ok
    ensures var r := RebootPlan(writer, accepts, t);
      r.ok && Transfers(r.trace[|t|..]) == FirstTwoMethods(writer)
    ensures FollowsFallback(writer, accepts, t, RebootPlan(writer, accepts, t))
  {
    var m1 := SendPlan(writer, accepts, t, RebootCommand);
    var setenv := SendPlan(writer, accepts, m1.trace, SetAutoBootCommand);
    var saveenv := SendPlan(writer, accepts, setenv.trace + [Delay(200)], SaveEnvCommand);
    var b := saveenv.trace + [Delay(200)];
    var m2 := SendPlan(writer, accepts, b, RebootCommand);
    assert m2 == AutoBootPlan(writer, accepts, m1.trace);
    RebootThroughSecondMethod(writer, accepts, t);
    assert RebootPlan(writer, accepts, t) == m2;
    AppendExtends(FirstTwoMethods(writer), [RebootControl()]);
    LastTransferBeforePauses(b, CommandWrite(RebootCommand), [Delay(100)]);
    assert m2.trace[..|b|] == b;
  }

  /** Methods 1 and 2 failed: every transfer of the fallback order is made,
      and the control transfer, the last, decides the result. */
  lemma RebootByControlTransfer(writer: bool, accepts: Accepts, t: seq<UsbEvent>)
    requires !SendPlan(writer, accepts, t, RebootCommand).ok
    requires !AutoBootPlan(writer, accepts, SendPlan(writer, accepts, t, RebootCommand).trace).ok
    ensures var m2 := AutoBootPlan(writer, accepts, SendPlan(writer, accepts, t, RebootCommand).trace);
      var r := RebootPlan(writer, accepts, t);
      r.trace == m2.trace + [RebootControl()] && (r.ok <==> accepts(m2.trace, RebootControl()))
      && Transfers(r.trace[|t|..]) == RebootSequence(writer)
    ensures FollowsFallback(writer, accepts, t, RebootPlan(writer, accepts, t))
  {
    var m2 := AutoBootPlan(writer, accepts, SendPlan(writer, accepts, t, RebootCommand).trace);
    RebootThroughSecondMethod(writer, accepts, t);
    ControlAfter(accepts, t, m2.trace, FirstTwoMethods(writer));
    var r := RebootPlan(writer, accepts, t);
    assert r == ControlPlan(accepts, m2.trace, 0, 0, 0, Some([]));
    assert r.trace == m2.trace + [RebootControl()] + [];
    LastTransferBeforePauses(m2.trace, RebootControl(), []);
    assert r.trace[..|m2.trace|] == m2.trace;
    FallbackExhausted(writer, accepts, t, r);
  }

  /** A run that made every transfer of the fallback order, and whose result
      is its last transfer's, follows it. */
  lemma FallbackExhausted(writer: bool, accepts: Accepts, t: seq<UsbEvent>, r: Step)
    requires IsPrefix(t, r.trace) && Transfers(r.trace[|t|..]) == RebootSequence(writer)
    requires var k := LastTransferAt(r.trace);
      |t| <= k && (r.ok <==> accepts(r.trace[..k], r.trace[k]))
    ensures FollowsFallback(writer, accepts, t, r)
  {
    AppendExtends(RebootSequence(writer), []);
  }

  /** The fallback control transfer adds itself to the transfers so far. */
  lemma ControlAfter(accepts: Accepts, t: seq<UsbEvent>, u: seq<UsbEvent>, before: seq<UsbEvent>)
    requires IsPrefix(t, u) && Transfers(u[|t|..]) == before
    ensures var c := ControlPlan(accepts, u, 0, 0, 0, Some([]));
      IsPrefix(t, c.trace) && Transfers(c.trace[|t|..]) == before + [RebootControl()]
  {
    var c := ControlPlan(accepts, u, 0, 0, 0, Some([]));
    assert c.trace == u + [RebootControl()];
    assert Transfers(c.trace[|u|..]) == [RebootControl()] by {
      assert c.trace[|u|..] == [RebootControl()];
      assert [RebootControl()][..0] == [];
    }
    TransfersSplit(t, u, c.trace);
  }

  /** A sequence is a prefix of itself followed by anything. */
  lemma AppendExtends(a: seq<UsbEvent>, b: seq<UsbEvent>)
    ensures IsPrefix(a, a + b)
  {
    assert (a + b)[..|a|] == a;
  }

  /** `Reboot`'s transfers follow the fallback order, and its result is
      whether the device accepted the last of them (`FollowsFallback`); in
      particular the results of "setenv" and "saveenv" decide nothing. */
  lemma RebootPlanOrder(writer: bool, accepts: Accepts, t: seq<UsbEvent>)
    ensures FollowsFallback(writer, accepts, t, RebootPlan(writer, accepts, t))
  {
    var m1 := SendPlan(writer, accepts, t, RebootCommand);
    if m1.ok {
      RebootByFirstMethod(writer, accepts, t);
    } else if AutoBootPlan(writer, accepts, m1.trace).ok {
      RebootBySecondMethod(writer, accepts, t);
    } else {
      RebootByControlTransfer(writer, accepts, t);
    }
  }

  /** The static `ExitRecoveryMode`: open, reboot only if the open succeeded,
      and close in every case (the `finally`). */
  function ExitPlan(bus: Bus, history: seq<UsbEvent>): Step {
    var o := OpenPlan(bus, history);
    OpenPlanChoice(bus, history);
    if o.chosen.None? then Step(false, o.trace)
    else
      var reg := bus.devices.value[o.chosen.value];
      var r := RebootPlan(reg.writerOpens, bus.accepts, o.trace);
      Step(r.ok, r.trace + CloseEvents(reg))
  }

  /** `ExitRecoveryMode` only extends the trace; when no device opened it made
      no transfer (`Reboot` was never called); when one opened, the session
      ends with the device closed, after `Reboot`'s fallback transfers. */
  lemma ExitPlanSafety(bus: Bus, history: seq<UsbEvent>)
    ensures var r := ExitPlan(bus, history);
      IsPrefix(history, r.trace)
      && (OpenPlan(bus, history).chosen.None? ==> !r.ok && NoTransfer(r.trace[|history|..]))
      && (OpenPlan(bus, history).chosen.Some? ==> r.trace[|r.trace| - 1] == CloseDevice)
  {
    OpenPlanChoice(bus, history);
    if OpenPlan(bus, history).chosen.Some? {
      ExitPlanOpened(bus, history);
    }
  }

  /** With a device open, the session is the open, the reboot, and the close. */
  lemma ExitPlanOpened(bus: Bus, history: seq<UsbEvent>)
    requires OpenPlan(bus, history).chosen.Some?
    ensures var r := ExitPlan(bus, history);
      IsPrefix(history, r.trace) && r.trace[|r.trace| - 1] == CloseDevice
  {
    var o := OpenPlan(bus, history);
    OpenPlanChoice(bus, history);
    var reg := bus.devices.value[o.chosen.value];
    var r := RebootPlan(reg.writerOpens, bus.accepts, o.trace);
    RebootPlanOrder(reg.writerOpens, bus.accepts, o.trace);
    var close := CloseEvents(reg);
    assert ExitPlan(bus, history).trace == r.trace + close;
    PrefixOfAppend(history, o.trace, r.trace, close);
  }

  /** A prefix of a prefix of `s` is a prefix of `s` followed by anything. */
  lemma PrefixOfAppend(a: seq<UsbEvent>, b: seq<UsbEvent>, s: seq<UsbEvent>, more: seq<UsbEvent>)
    requires IsPrefix(a, b) && IsPrefix(b, s)
    ensures IsPrefix(a, s + more)
  {
    assert (s + more)[..|a|] == s[..|a|] == b[..|a|];
  }

  /** Some registry among the first `n` is a Recovery or DFU device. */
  predicate AnyTarget(devs: seq<UsbRegistry>, n: nat)
    requires n <= |devs|
  {
    n > 0 && (AnyTarget(devs, n - 1) || IsRecoveryTarget(devs[n - 1]))
  }

  /** The session object. `device` is the index of the opened registry. */
  class IRecoveryProtocol {
    const bus: Bus
    var device: Option<nat>
    var isOpen: bool
    var writer: bool
    var reader: bool
    var trace: seq<UsbEvent>

    ghost predicate Valid()
      reads this
    {
      (device.Some? ==> bus.devices.Some? && device.value < |bus.devices.value|)
      && (isOpen ==> device.Some?)
    }

    /** `IsConnected`: a device is held and it is open. */
    predicate IsConnected()
      reads this
    {
      device.Some? && isOpen
    }

    /** The registry the held device was opened from. */
    function Registry(): UsbRegistry
      reads this
      requires Valid() && device.Some?
    {
      bus.devices.value[device.value]
    }

    constructor (bus: Bus, history: seq<UsbEvent>)
      ensures Valid() && this.bus == bus && trace == history
      ensures device.None? && !isOpen && !writer && !reader
    {
      this.bus := bus;
      device := None;
      isOpen := false;
      writer := false;
      reader := false;
      trace := history;
    }

    /** `Open`: the registry loop, with `continue` past devices that fail to
        open and `return true` at the first one that opens. A failed open
        leaves the device field null, as `UsbRegistry.Open(out device)` does. */
    method Open() returns (ok: bool)
      requires Valid()
      modifies this
      ensures Valid()
      ensures ok == OpenPlan(bus, old(trace)).chosen.Some? && trace == OpenPlan(bus, old(trace)).trace
      ensures ok ==> (device == OpenPlan(bus, old(trace)).chosen && isOpen
        && writer == (Registry().writerOpens || old(writer)) && reader == (Registry().readerOpens || old(reader)))
      ensures !ok ==> writer == old(writer) && reader == old(reader)
      ensures !ok && bus.devices.Some? && AnyTarget(bus.devices.value, |bus.devices.value|) ==> device.None? && !isOpen
      ensures !ok && (bus.devices.None? || !AnyTarget(bus.devices.value, |bus.devices.value|))
        ==> device == old(device) && isOpen == old(isOpen)
    {
      if bus.devices.None? {
        return false;
      }
      var devs := bus.devices.value;
      ghost var t0 := trace;
      var t, dev, devOpen := trace, device, isOpen;
      var i := 0;
      while i < |devs|
        invariant 0 <= i <= |devs|
        invariant t == t0 + OpenAttempts(devs, i)
        invariant forall j :: 0 <= j < i ==> !OpensAsTarget(devs[j])
        invariant AnyTarget(devs, i) ==> dev.None? && !devOpen
        invariant !AnyTarget(devs, i) ==> dev == old(device) && devOpen == old(isOpen)
        invariant device == old(device) && isOpen == old(isOpen) && trace == old(trace)
        invariant writer == old(writer) && reader == old(reader)
      {
        var reg := devs[i];
        assert OpenAttempts(devs, i + 1) == OpenAttempts(devs, i) + (if IsRecoveryTarget(reg) then [OpenAttempt(i)] else []);
        if IsRecoveryTarget(reg) {
          t := t + [OpenAttempt(i)];
          if reg.opens {
            OpenPlanFound(bus, t0, i);
            device, isOpen := Some(i), true;
            // configuration, interface claim and both endpoints, failures ignored
            trace := t + SetupEvents(reg);
            writer := writer || reg.writerOpens;
            reader := reader || reg.readerOpens;
            return true;
          }
          dev, devOpen := None, false;
        }
        i := i + 1;
      }
      OpenPlanNotFound(bus, t0);
      device, isOpen, trace := dev, devOpen, t;
      ok := false;
    }

    /** `SendCommand`: refused with nothing sent unless connected; otherwise
        as `SendPlan`. Only the trace changes. */
    method SendCommand(command: string) returns (ok: bool)
      modifies this`trace
      ensures !old(IsConnected()) ==> !ok && trace == old(trace)
      ensures old(IsConnected()) ==> Step(ok, trace) == SendPlan(writer, bus.accepts, old(trace), command)
    {
      if !IsConnected() {
        return false;
      }
      if !writer {
        return false;
      }
      var e := CommandWrite(command);
      ok := bus.accepts(trace, e);
      trace := trace + [e];
      if ok {
        trace := trace + [Delay(100)];
      }
    }

    /** `SendControlTransfer`: refused with nothing sent unless connected;
        otherwise as `ControlPlan`. */
    method SendControlTransfer(request: int, value: int, index: int, data: Option<seq<byte>>) returns (ok: bool)
      modifies this`trace
      ensures !old(IsConnected()) ==> !ok && trace == old(trace)
      ensures old(IsConnected()) ==> Step(ok, trace) == ControlPlan(bus.accepts, old(trace), request, value, index, data)
    {
      if !IsConnected() {
        return false;
      }
      var payload := data.GetOr([]);
      var e := ControlTransfer(SetupPacket(VendorOut, request, value, index, ToInt16(|payload|)), payload);
      ok := bus.accepts(trace, e);
      trace := trace + [e];
    }

    /** `Reboot`: refused with nothing sent unless connected; otherwise the
        three-method fallback of `RebootPlan`. */
    method Reboot() returns (ok: bool)
      modifies this`trace
      ensures !old(IsConnected()) ==> !ok && trace == old(trace)
      ensures old(IsConnected()) ==> Step(ok, trace) == RebootPlan(writer, bus.accepts, old(trace))
    {
      if !IsConnected() {
        return false;
      }
      ok := SendCommand(RebootCommand);
      if ok {
        trace := trace + [Delay(500)];
        return true;
      }
      var _ := SendCommand(SetAutoBootCommand);
      trace := trace + [Delay(200)];
      var _ := SendCommand(SaveEnvCommand);
      trace := trace + [Delay(200)];
      ok := SendCommand(RebootCommand);
      if ok {
        return true;
      }
      ok := SendControlTransfer(0, 0, 0, Some([]));
    }

    /** `Close`: releases interface 0 of a whole device, then closes it; only
        when a device is held and open. */
    method Close()
      requires Valid()
      modifies this`isOpen, this`trace
      ensures Valid()
      ensures old(IsConnected()) ==> !isOpen && trace == old(trace) + CloseEvents(Registry())
      ensures !old(IsConnected()) ==> isOpen == old(isOpen) && trace == old(trace)
    {
      if IsConnected() {
        if Registry().whole {
          trace := trace + [ReleaseInterface(UsbInterface)];
        }
        trace := trace + [CloseDevice];
        isOpen := false;
      }
    }

    /** The static `ExitRecoveryMode` on a fresh session: as `ExitPlan`. */
    static method ExitRecoveryMode(bus: Bus, history: seq<UsbEvent>) returns (ok: bool, trace: seq<UsbEvent>)
      ensures Step(ok, trace) == ExitPlan(bus, history)
    {
      var protocol := new IRecoveryProtocol(bus, history);
      var connected := protocol.Open();
      OpenPlanChoice(bus, history);
      if connected {
        ok := protocol.Reboot();
      } else {
        ok := false;
      }
      protocol.Close();
      trace := protocol.trace;
    }
  }
}
