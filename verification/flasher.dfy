/** BootloaderFlasher.cs: the iBSS/iBEC flashing sequence, the irecovery
    launches it makes, the poll for a recovery device and the parser of
    `irecovery -q` output. The host is an oracle: which files exist, the
    exit code and output of each irecovery launch, and what the device scan
    finds at each poll. Delays and launches are recorded in a trace. */
module Flasher {
  import opened Wrappers
  import opened Text
  import opened Ascii
  import Detector

  /** The command-line tool every step launches, kept in the `libs` folder. */
  const IrecoveryExe: string := "irecovery.exe"

  /** The default number of polls of `WaitForRecoveryMode`, one per second. */
  const DefaultMaxWaitSeconds: int := 30

  /** Pause between two polls. */
  const PollDelayMs: nat := 1000

  datatype Event =
    | Scan             // one device scan
    | Wait(ms: nat)    // Task.Delay(ms)
    | Launch(arguments: string)  // a start of irecovery.exe attempted with these arguments

  /** The world outside the program. `exitCode` and `output` are given the
      trace so far and the arguments; None stands for a process that could
      not be started or waited for (an exception the method catches). */
  datatype Host = Host(
    fileExists: string -> bool,
    exitCode: (seq<Event>, string) -> Option<int>,
    output: (seq<Event>, string) -> Option<string>)

  /** The result of a step and the events it added. */
  datatype Outcome = Outcome(ok: bool, events: seq<Event>)

  function ToolPath(libsPath: string): string {
    Combine(libsPath, IrecoveryExe)
  }

  /** `-f "<file>"`: send a file. */
  function FileArguments(filePath: string): string {
    "-f \"" + filePath + "\""
  }

  /** `-c "<command>"`: send a command. */
  function CommandArguments(command: string): string {
    "-c \"" + command + "\""
  }

  // ----- SendFile and SendCommand -----

  /** `SendFile`: nothing is launched when the file or the tool is missing;
      otherwise the tool is launched once and the send succeeds exactly when
      it exits with code 0. */
  function SendFile(host: Host, libsPath: string, filePath: string, history: seq<Event>): (r: Outcome)
    ensures r.events == [] <==> !host.fileExists(filePath) || !host.fileExists(ToolPath(libsPath))
    ensures r.events != [] ==> r.events == [Launch(FileArguments(filePath))]
    ensures r.ok <==> r.events != [] && host.exitCode(history, FileArguments(filePath)) == Some(0)
  {
    if !host.fileExists(filePath) || !host.fileExists(ToolPath(libsPath)) then Outcome(false, [])
    else
      var args := FileArguments(filePath);
      Outcome(host.exitCode(history, args) == Some(0), [Launch(args)])
  }

  /** `SendCommand`: nothing is launched when the tool is missing; otherwise
      the command is passed as `-c "<command>"` and succeeds exactly when
      the tool exits with code 0. */
  function SendCommand(host: Host, libsPath: string, command: string, history: seq<Event>): (r: Outcome)
    ensures r.events == [] <==> !host.fileExists(ToolPath(libsPath))
    ensures r.events != [] ==> r.events == [Launch(CommandArguments(command))]
    ensures r.ok <==> r.events != [] && host.exitCode(history, CommandArguments(command)) == Some(0)
  {
    if !host.fileExists(ToolPath(libsPath)) then Outcome(false, [])
    else
      var args := CommandArguments(command);
      Outcome(host.exitCode(history, args) == Some(0), [Launch(args)])
  }

  // ----- WaitForRecoveryMode -----

  /** A scan that finds at least one recovery device. */
  predicate Found(entries: seq<Detector.PnpEntry>) {
    Detector.RecoveryDevicesOf(entries) != []
  }

  /** The events of polls `i` .. `max - 1`: each poll scans, and the loop
      stops at the first scan that finds a device or waits a second. */
  function WaitEvents(scan: nat -> seq<Detector.PnpEntry>, i: nat, max: int): seq<Event>
    decreases max - i
  {
    if i >= max then []
    else if Found(scan(i)) then [Scan]
    else [Scan, Wait(PollDelayMs)] + WaitEvents(scan, i + 1, max)
  }

  /** `n` unsuccessful polls. */
  function IdlePolls(n: nat): (t: seq<Event>)
    ensures |t| == 2 * n
  {
    if n == 0 then [] else [Scan, Wait(PollDelayMs)] + IdlePolls(n - 1)
  }

  /** When poll `k` is the first to find a device, the wait is `k - i` idle
      polls and one more scan: it returns without waiting again. */
  lemma {:induction false} WaitEventsFirst(scan: nat -> seq<Detector.PnpEntry>, i: nat, max: int, k: nat)
    requires i <= k < max && Found(scan(k))
    requires forall j :: i <= j < k ==> !Found(scan(j))
    ensures WaitEvents(scan, i, max) == IdlePolls(k - i) + [Scan]
    decreases k - i
  {
    if i < k {
      WaitEventsFirst(scan, i + 1, max, k);
    }
  }

  /** When no poll finds a device, the wait is `max - i` idle polls: at most
      `max` scans, never more. */
  lemma {:induction false} WaitEventsNone(scan: nat -> seq<Detector.PnpEntry>, i: nat, max: int)
    requires forall j :: i <= j < max ==> !Found(scan(j))
    ensures WaitEvents(scan, i, max) == IdlePolls(if i < max then max - i else 0)
    decreases max - i
  {
    if i < max {
      WaitEventsNone(scan, i + 1, max);
    }
  }

  /** `WaitForRecoveryMode`: polls at most `maxWaitSeconds` times and
      reports success at the first poll that finds a device. */
  method WaitForRecoveryMode(scan: nat -> seq<Detector.PnpEntry>, maxWaitSeconds: int)
    returns (found: bool, events: seq<Event>)
    ensures found <==> exists i :: 0 <= i < maxWaitSeconds && Found(scan(i))
    ensures events == WaitEvents(scan, 0, maxWaitSeconds)
  {
    events := [];
    var i: nat := 0;
    while i < maxWaitSeconds
      invariant forall j :: 0 <= j < i ==> !Found(scan(j))
      invariant WaitEvents(scan, 0, maxWaitSeconds) == events + WaitEvents(scan, i, maxWaitSeconds)
      decreases maxWaitSeconds - i
    {
      var devices := Detector.GetRecoveryDevices(scan(i));
      if |devices| > 0 {
        return true, events + [Scan];
      }
      events := events + [Scan, Wait(PollDelayMs)];
      i := i + 1;
    }
    return false, events;
  }

  // ----- FlashBootloadersAsync -----

  /** The two delays after each bootloader: processing, then the mode change. */
  const SettleDelays: seq<Event> := [Wait(3000), Wait(2000)]

  /** Whether some poll of the default wait finds a device. */
  predicate DeviceAppears(scan: nat -> seq<Detector.PnpEntry>) {
    exists i :: 0 <= i < DefaultMaxWaitSeconds && Found(scan(i))
  }

  /** The flashing sequence: verify the device is in recovery mode, send
      iBSS, settle, send iBEC, settle; a failed step ends it with false. */
  function FlashPlan(host: Host, libsPath: string, scan: nat -> seq<Detector.PnpEntry>,
                     ibssPath: string, ibecPath: string): Outcome
  {
    var w := WaitEvents(scan, 0, DefaultMaxWaitSeconds);
    if !DeviceAppears(scan) then Outcome(false, w)
    else
      var ibss := SendFile(host, libsPath, ibssPath, w);
      if !ibss.ok then Outcome(false, w + ibss.events)
      else
        var t1 := w + ibss.events + SettleDelays;
        var ibec := SendFile(host, libsPath, ibecPath, t1);
        if !ibec.ok then Outcome(false, t1 + ibec.events)
        else Outcome(true, t1 + ibec.events + SettleDelays)
  }

  /** `FlashBootloadersAsync`. `signedBlobs` plays no part in the sequence
      or its result. */
  method FlashBootloaders(host: Host, libsPath: string, scan: nat -> seq<Detector.PnpEntry>,
                          ibssPath: string, ibecPath: string,
                          signedBlobs: Option<map<string, seq<byte>>>)
    returns (ok: bool, trace: seq<Event>)
    ensures Outcome(ok, trace) == FlashPlan(host, libsPath, scan, ibssPath, ibecPath)
  {
    var found;
    found, trace := WaitForRecoveryMode(scan, DefaultMaxWaitSeconds);
    if !found {
      return false, trace;
    }
    var ibss := SendFile(host, libsPath, ibssPath, trace);
    trace := trace + ibss.events;
    if !ibss.ok {
      return false, trace;
    }
    trace := trace + SettleDelays;
    var ibec := SendFile(host, libsPath, ibecPath, trace);
    trace := trace + ibec.events;
    if !ibec.ok {
      return false, trace;
    }
    trace := trace + SettleDelays;
    return true, trace;
  }

  /** The irecovery launches in a trace, in order. */
  function Launches(t: seq<Event>): seq<string> {
    if t == [] then []
    else Launches(t[..|t| - 1]) + (if t[|t| - 1].Launch? then [t[|t| - 1].arguments] else [])
  }

  lemma {:induction false} LaunchesAppend(a: seq<Event>, b: seq<Event>)
    ensures Launches(a + b) == Launches(a) + Launches(b)
    decreases |b|
  {
    if b == [] {
      assert a + b == a;
    } else {
      assert (a + b)[..|a + b| - 1] == a + b[..|b| - 1];
      LaunchesAppend(a, b[..|b| - 1]);
    }
  }

  /** Waiting launches nothing. */
  lemma {:induction false} WaitLaunchesNothing(scan: nat -> seq<Detector.PnpEntry>, i: nat, max: int)
    ensures Launches(WaitEvents(scan, i, max)) == []
    decreases max - i
  {
    if i < max && !Found(scan(i)) {
      WaitLaunchesNothing(scan, i + 1, max);
      LaunchesAppend([Scan, Wait(PollDelayMs)], WaitEvents(scan, i + 1, max));
      assert Launches([Scan, Wait(PollDelayMs)]) == Launches([Scan]) == [];
    }
  }

  /** The launches of one send: none, or the file's. */
  lemma SendLaunches(host: Host, libsPath: string, filePath: string, history: seq<Event>)
    ensures var r := SendFile(host, libsPath, filePath, history);
      Launches(r.events) == if r.events == [] then [] else [FileArguments(filePath)]
  {
    var r := SendFile(host, libsPath, filePath, history);
    if r.events != [] {
      assert Launches(r.events) == Launches([]) + [FileArguments(filePath)];
    }
  }

  /** The order of the launches: nothing before the device is found, iBSS
      first, iBEC only after iBSS was sent successfully; a successful run
      launched exactly those two. */
  lemma FlashLaunchOrder(host: Host, libsPath: string, scan: nat -> seq<Detector.PnpEntry>,
                         ibssPath: string, ibecPath: string)
    ensures var r := FlashPlan(host, libsPath, scan, ibssPath, ibecPath);
      var ibss := SendFile(host, libsPath, ibssPath, WaitEvents(scan, 0, DefaultMaxWaitSeconds));
      && (!DeviceAppears(scan) ==> Launches(r.events) == [])
      && (DeviceAppears(scan) && !ibss.ok ==> Launches(r.events) == Launches(ibss.events))
      && (r.ok <==> DeviceAppears(scan) && ibss.ok
                    && SendFile(host, libsPath, ibecPath, WaitEvents(scan, 0, DefaultMaxWaitSeconds) + ibss.events + SettleDelays).ok)
      && (r.ok ==> Launches(r.events) == [FileArguments(ibssPath), FileArguments(ibecPath)])
  {
    var w := WaitEvents(scan, 0, DefaultMaxWaitSeconds);
    var ibss := SendFile(host, libsPath, ibssPath, w);
    WaitLaunchesNothing(scan, 0, DefaultMaxWaitSeconds);
    if DeviceAppears(scan) {
      SendLaunches(host, libsPath, ibssPath, w);
      LaunchesAppend(w, ibss.events);
      if ibss.ok {
        FlashLaunchesBoth(host, libsPath, w, ibssPath, ibecPath);
      }
    }
  }

  /** Once iBSS is sent, a successful iBEC send makes the launches those two. */
  lemma FlashLaunchesBoth(host: Host, libsPath: string, w: seq<Event>, ibssPath: string, ibecPath: string)
    requires Launches(w) == [] && SendFile(host, libsPath, ibssPath, w).ok
    ensures var t1 := w + SendFile(host, libsPath, ibssPath, w).events + SettleDelays;
      var ibec := SendFile(host, libsPath, ibecPath, t1);
      ibec.ok ==> Launches(t1 + ibec.events + SettleDelays) == [FileArguments(ibssPath), FileArguments(ibecPath)]
  {
    var ibss := SendFile(host, libsPath, ibssPath, w);
    var t1 := w + ibss.events + SettleDelays;
    var ibec := SendFile(host, libsPath, ibecPath, t1);
    SendLaunches(host, libsPath, ibssPath, w);
    SendLaunches(host, libsPath, ibecPath, t1);
    SettledLaunches(w, ibss.events);
    SettledLaunches(t1, ibec.events);
  }

  /** The settling delays after a send launch nothing. */
  lemma SettledLaunches(t: seq<Event>, e: seq<Event>)
    ensures Launches(t + e + SettleDelays) == Launches(t) + Launches(e)
  {
    assert Launches(SettleDelays) == Launches([Wait(3000)]) == [];
    LaunchesAppend(t, e);
    LaunchesAppend(t + e, SettleDelays);
  }

  // ----- GetDeviceInfo -----

  /** Whether a line of `irecovery -q` output holds a `key: value` pair. */
  predicate HasColon(line: string) {
    ':' in line
  }

  /** The key of a line: the trimmed text before its first colon. */
  function LineKey(line: string): string
    requires HasColon(line)
  {
    Trim(line[..FirstPos(line, ':')])
  }

  /** The value of a line: the trimmed text after its first colon. */
  function LineValue(line: string): string
    requires HasColon(line)
  {
    Trim(line[FirstPos(line, ':') + 1..])
  }

  /** The dictionary built from the lines, in order: a later line with the
      same key replaces the value of an earlier one. */
  function InfoOf(lines: seq<string>): map<string, string> {
    if lines == [] then map[]
    else
      var m := InfoOf(lines[..|lines| - 1]);
      var line := lines[|lines| - 1];
      if HasColon(line) then m[LineKey(line) := LineValue(line)] else m
  }

  /** Some line of `lines` with a colon has the key `k`. */
  predicate HasKeyLine(lines: seq<string>, k: string) {
    exists i :: 0 <= i < |lines| && HasColon(lines[i]) && LineKey(lines[i]) == k
  }

  /** A line with the key is among the earlier lines or is the last one. */
  lemma HasKeyLineSnoc(init: seq<string>, line: string, k: string)
    ensures HasKeyLine(init + [line], k) <==> HasKeyLine(init, k) || (HasColon(line) && LineKey(line) == k)
  {
    var lines := init + [line];
    if HasKeyLine(init, k) {
      var i :| 0 <= i < |init| && HasColon(init[i]) && LineKey(init[i]) == k;
      assert lines[i] == init[i];
    }
    if HasColon(line) && LineKey(line) == k {
      assert lines[|init|] == line;
    }
    if HasKeyLine(lines, k) {
      var i :| 0 <= i < |lines| && HasColon(lines[i]) && LineKey(lines[i]) == k;
      if i < |init| {
        assert init[i] == lines[i];
      }
    }
  }

  /** A key is in the dictionary exactly when some line with a colon has it. */
  lemma {:induction false} InfoKeys(lines: seq<string>, k: string)
    ensures k in InfoOf(lines) <==> HasKeyLine(lines, k)
    decreases |lines|
  {
    if lines != [] {
      var init := lines[..|lines| - 1];
      InfoKeys(init, k);
      assert init + [lines[|lines| - 1]] == lines;
      HasKeyLineSnoc(init, lines[|lines| - 1], k);
    }
  }

  /** A key's value comes from the last line that has that key. */
  lemma {:induction false} InfoLastLine(lines: seq<string>, i: nat)
    requires i < |lines| && HasColon(lines[i])
    requires forall j :: i < j < |lines| && HasColon(lines[j]) ==> LineKey(lines[j]) != LineKey(lines[i])
    ensures LineKey(lines[i]) in InfoOf(lines) && InfoOf(lines)[LineKey(lines[i])] == LineValue(lines[i])
    decreases |lines|
  {
    var init := lines[..|lines| - 1];
    if i < |init| {
      assert forall j :: i < j < |init| ==> init[j] == lines[j];
      InfoLastLine(init, i);
    }
  }

  /** Trimming keeps only characters of the text it trims. */
  lemma TrimWithin(s: string, c: char)
    requires c in Trim(s)
    ensures c in s
  {
    TrimMiddle(s);
    var i, j :| 0 <= i <= j <= |s| && Trim(s) == s[i..j];
    var k :| 0 <= k < |Trim(s)| && Trim(s)[k] == c;
    assert s[i + k] == c;
  }

  /** Keys never contain a colon. */
  lemma KeyHasNoColon(line: string)
    requires HasColon(line)
    ensures ':' !in LineKey(line)
  {
    if ':' in LineKey(line) {
      TrimWithin(line[..FirstPos(line, ':')], ':');
    }
  }

  /** One more line updates the dictionary built so far. */
  lemma InfoOfStep(lines: seq<string>, i: nat)
    requires i < |lines|
    ensures InfoOf(lines[..i + 1]) == if HasColon(lines[i]) then InfoOf(lines[..i])[LineKey(lines[i]) := LineValue(lines[i])] else InfoOf(lines[..i])
  {
    assert lines[..i + 1][..i] == lines[..i];
  }

  /** One line of `irecovery -q` output: a line with a colon sets its key to
      its value, any other line is skipped. */
  method AddLine(info: map<string, string>, line: string) returns (r: map<string, string>)
    ensures HasColon(line) ==> r == info[LineKey(line) := LineValue(line)]
    ensures !HasColon(line) ==> r == info
  {
    r := info;
    if ':' in line {
      var colon := FirstPos(line, ':');
      var key, value := Trim(line[..colon]), Trim(line[colon + 1..]);
      r := info[key := value];
    }
  }

  /** The parsing loop of `GetDeviceInfo`: split at line feeds, then fill
      the dictionary line by line. */
  method ParseDeviceInfo(output: string) returns (info: map<string, string>)
    ensures info == InfoOf(Split(output, '\n'))
  {
    var lines := Split(output, '\n');
    info := map[];
    var i := 0;
    while i < |lines|
      invariant 0 <= i <= |lines|
      invariant info == InfoOf(lines[..i])
    {
      InfoOfStep(lines, i);
      info := AddLine(info, lines[i]);
      i := i + 1;
    }
    assert lines[..|lines|] == lines;
  }

  /** `GetDeviceInfo`: `irecovery -q` parsed into a dictionary; empty when
      the tool is missing or cannot be run. */
  method GetDeviceInfo(host: Host, libsPath: string, history: seq<Event>)
    returns (info: map<string, string>)
    ensures !host.fileExists(ToolPath(libsPath)) ==> info == map[]
    ensures host.fileExists(ToolPath(libsPath)) ==>
      info == match host.output(history, "-q")
              case None => map[]
              case Some(output) => InfoOf(Split(output, '\n'))
  {
    info := map[];
    if !host.fileExists(ToolPath(libsPath)) {
      return;
    }
    var output := host.output(history, "-q");
    if output.Some? {
      info := ParseDeviceInfo(output.value);
    }
  }
}
