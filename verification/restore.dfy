/** RestoreManager.cs: the eight-stage restore run, its guard against a second
    run, the progress it reports, and the helpers it calls for its stages.
    Everything the stages ask of the outside world (the IPSW archive, device
    lists, lockdown, the signing server, irecovery) is an input. */
module Restore {
  import opened Wrappers
  import opened Text
  import opened Ascii
  import opened Seqs
  import Detector
  import Firmware
  import Tss
  import Flasher

  // ----- ExtractValueFromPlist -----

  const StringOpen: string := "<string>"
  const StringClose: string := "</string>"

  /** The `<key>…</key>` element naming `key`. */
  function KeyTag(key: string): string {
    "<key>" + key + "</key>"
  }

  /** `ExtractValueFromPlist`: the text between the first `<string>` after the
      first `<key>key</key>` and the next `</string>`; None when any of the
      three is missing. */
  function ExtractValueFromPlist(content: string, key: string): Option<string> {
    var keyIndex := IndexOf(content, KeyTag(key), 0);
    if keyIndex == -1 then None
    else
      var valueStart := IndexOf(content, StringOpen, keyIndex);
      if valueStart == -1 then None
      else
        var valueEnd := IndexOf(content, StringClose, valueStart);
        if valueEnd == -1 || valueEnd < valueStart + |StringOpen| then None
        else Some(content[valueStart + |StringOpen|..valueEnd])
  }

  /** A tag cannot start at a position whose character, or the next one,
      differs from the tag's. */
  lemma NoMatchAt(s: string, t: string, p: nat)
    requires |t| >= 2
    requires p + |t| <= |s| ==> s[p] != t[0] || s[p + 1] != t[1]
    ensures !MatchAt(s, t, p)
  {
  }

  /** No `</string>` starts inside a `<string>`. */
  lemma NoCloseInsideOpen(s: string, b: nat)
    requires MatchAt(s, StringOpen, b)
    ensures forall p :: b <= p < b + |StringOpen| ==> !MatchAt(s, StringClose, p)
  {
    forall p | b <= p < b + |StringOpen|
      ensures !MatchAt(s, StringClose, p)
    {
      if p + |StringClose| <= |s| {
        assert s[b..b + |StringOpen|] == StringOpen;
        assert s[p] == StringOpen[p - b];
        if p == b {
          assert s[p + 1] == StringOpen[1];
        }
      }
      NoMatchAt(s, StringClose, p);
    }
  }

  /** A match with no match before it, from `from` on, is what IndexOf finds. */
  lemma IndexOfIs(s: string, t: string, from: nat, q: int)
    requires from <= q && from <= |s| && MatchAt(s, t, q)
    requires forall p :: from <= p < q ==> !MatchAt(s, t, p)
    ensures IndexOf(s, t, from) == q
  {
  }

  /** The key tag holds '<' only where its two tags start. */
  lemma KeyTagChars(key: string, i: int)
    requires '<' !in key && 0 <= i < |KeyTag(key)| && i != 0 && i != 5 + |key|
    ensures KeyTag(key)[i] != '<'
  {
    var tag := KeyTag(key);
    if 5 <= i < 5 + |key| {
      assert tag[i] == key[i - 5];
    }
  }

  /** After a key tag at `a`, the first `<string>` is the one at `b` when
      no `<` stands between the tag and it. */
  lemma OpenFound(s: string, key: string, a: nat, b: nat)
    requires '<' !in key && MatchAt(s, KeyTag(key), a) && MatchAt(s, StringOpen, b)
    requires a + |KeyTag(key)| <= b
    requires forall p :: a + |KeyTag(key)| <= p < b ==> s[p] != '<'
    ensures IndexOf(s, StringOpen, a) == b
  {
    var tag := KeyTag(key);
    forall p | a <= p < b
      ensures !MatchAt(s, StringOpen, p)
    {
      if p < a + |tag| {
        assert s[a..a + |tag|] == tag;
        assert s[p] == tag[p - a];
        if p - a == 0 || p - a == 5 + |key| {
          assert s[p + 1] == tag[p - a + 1];
        } else {
          KeyTagChars(key, p - a);
        }
      }
      NoMatchAt(s, StringOpen, p);
    }
    IndexOfIs(s, StringOpen, a, b);
  }

  /** After a `<string>` at `b`, the first `</string>` is the one at `c`
      when no `<` stands in the value between them. */
  lemma CloseFound(s: string, b: nat, c: nat)
    requires MatchAt(s, StringOpen, b) && MatchAt(s, StringClose, c)
    requires b + |StringOpen| <= c
    requires forall p :: b + |StringOpen| <= p < c ==> s[p] != '<'
    ensures IndexOf(s, StringClose, b) == c
  {
    NoCloseInsideOpen(s, b);
    forall p | b + |StringOpen| <= p < c
      ensures !MatchAt(s, StringClose, p)
    {
      NoMatchAt(s, StringClose, p);
    }
    IndexOfIs(s, StringClose, b, c);
  }

  /** The extractor's result on a plist whose first `<key>key</key>` is at
      `a`, followed, with no `<` in between, by `<string>` at `b`, a value
      without `<`, and `</string>` at `c`: the value. */
  lemma ExtractValueOfEntry(s: string, key: string, a: nat, b: nat, c: nat)
    requires '<' !in key
    requires MatchAt(s, KeyTag(key), a) && forall p :: 0 <= p < a ==> !MatchAt(s, KeyTag(key), p)
    requires a + |KeyTag(key)| <= b && MatchAt(s, StringOpen, b)
    requires b + |StringOpen| <= c && MatchAt(s, StringClose, c)
    requires forall p :: a + |KeyTag(key)| <= p < b ==> s[p] != '<'
    requires forall p :: b + |StringOpen| <= p < c ==> s[p] != '<'
    ensures ExtractValueFromPlist(s, key) == Some(s[b + |StringOpen|..c])
  {
    IndexOfIs(s, KeyTag(key), 0, a);
    OpenFound(s, key, a, b);
    CloseFound(s, b, c);
    ExtractAt(s, key, a, b, c);
  }

  /** The extractor's result in terms of the three positions it finds. */
  lemma ExtractAt(s: string, key: string, a: nat, b: nat, c: nat)
    requires a <= |s| && IndexOf(s, KeyTag(key), 0) == a
    requires IndexOf(s, StringOpen, a) == b && b + |StringOpen| <= c
    requires IndexOf(s, StringClose, b) == c
    ensures ExtractValueFromPlist(s, key) == Some(s[b + |StringOpen|..c])
  {
  }

  /** Without the key there is no value. */
  lemma ExtractValueMissingKey(content: string, key: string)
    requires !Contains(content, KeyTag(key))
    ensures ExtractValueFromPlist(content, key) == None
  {
    ContainsIndexOf(content, KeyTag(key));
  }

  /** Text after a missing `<string>`: a key with no string value after it
      gives nothing. */
  lemma ExtractValueWithoutString(s: string, key: string, a: nat)
    requires a <= |s| && IndexOf(s, KeyTag(key), 0) == a
    requires forall p :: a <= p ==> !MatchAt(s, StringOpen, p)
    ensures ExtractValueFromPlist(s, key) == None
  {
  }

  // ----- ValidateIPSW -----

  /** The version information read from an IPSW. */
  datatype IpswInfo = IpswInfo(version: string, buildVersion: string)

  /** The default of each piece of version information. */
  const Unknown: string := "Unknown"

  /** The IPSW as the program finds it: whether the file exists, its
      entries (None when the archive cannot be opened), and the text a
      `StreamReader` reads from an entry's bytes (None when reading throws). */
  datatype IpswFile = IpswFile(
    present: bool,
    archive: Option<seq<Firmware.ZipEntry>>,
    readText: seq<byte> -> Option<string>)

  /** The version information of a `Restore.plist`. */
  function InfoOfRestorePlist(content: string): IpswInfo {
    IpswInfo(ExtractValueFromPlist(content, "ProductVersion").GetOr(Unknown),
             ExtractValueFromPlist(content, "ProductBuildVersion").GetOr(Unknown))
  }

  /** Whether the archive holds an entry of that name, ignoring case. */
  predicate HasEntry(zip: seq<Firmware.ZipEntry>, name: string) {
    Firmware.LocateFile(zip, name).Some?
  }

  /** `ValidateIPSW`: None where the method returns false (a missing file,
      an archive that cannot be read, neither plist present, or a
      `Restore.plist` that cannot be read); otherwise the version and build
      from `Restore.plist`, or both "Unknown" when only the build manifest
      is present. */
  function ValidateIpsw(f: IpswFile): Option<IpswInfo>
  {
    if !f.present || f.archive.None? then None
    else
      var zip := f.archive.value;
      var restore := Firmware.LocateFile(zip, "Restore.plist");
      if restore.None? then
        if Firmware.LocateFile(zip, "BuildManifest.plist").None? then None
        else Some(IpswInfo(Unknown, Unknown))
      else
        var e := zip[restore.value];
        if !e.readable then None
        else
          match f.readText(e.data)
          case None => None
          case Some(content) => Some(InfoOfRestorePlist(content))
  }

  /** `ValidateIPSW` accepts a file exactly when it exists, opens as an
      archive, holds `Restore.plist` or `BuildManifest.plist`, and its
      `Restore.plist`, if any, can be read; the version information is then
      read from `Restore.plist`, or is "Unknown" twice without one. */
  lemma ValidateIpswAccepts(f: IpswFile)
    ensures var r := ValidateIpsw(f);
      (r.Some? <==>
        (f.present && f.archive.Some?
         && (HasEntry(f.archive.value, "Restore.plist") || HasEntry(f.archive.value, "BuildManifest.plist"))
         && (HasEntry(f.archive.value, "Restore.plist") ==>
               var e := f.archive.value[Firmware.LocateFile(f.archive.value, "Restore.plist").value];
               e.readable && f.readText(e.data).Some?)))
      && (r.Some? && !HasEntry(f.archive.value, "Restore.plist") ==> r.value == IpswInfo(Unknown, Unknown))
      && (r.Some? && HasEntry(f.archive.value, "Restore.plist") ==>
            var e := f.archive.value[Firmware.LocateFile(f.archive.value, "Restore.plist").value];
            r.value == InfoOfRestorePlist(f.readText(e.data).value))
  {
  }

  /** A version field is "Unknown" exactly when the plist holds no value for
      it, or holds the text "Unknown". */
  lemma InfoFieldsFromPlist(content: string)
    ensures var info := InfoOfRestorePlist(content);
      (info.version != Unknown ==> ExtractValueFromPlist(content, "ProductVersion") == Some(info.version))
      && (ExtractValueFromPlist(content, "ProductVersion").None? ==> info.version == Unknown)
      && (info.buildVersion != Unknown ==> ExtractValueFromPlist(content, "ProductBuildVersion") == Some(info.buildVersion))
      && (ExtractValueFromPlist(content, "ProductBuildVersion").None? ==> info.buildVersion == Unknown)
  {
  }

  // ----- WaitForDevice -----

  /** Polls of `WaitForDevice`, one a second. */
  const DeviceWaitPolls: nat := 30

  /** Poll `i` sees a device: one listed in normal mode, or one in recovery mode. */
  predicate DeviceSeen(normalCount: nat -> nat, scan: nat -> seq<Detector.PnpEntry>, i: nat) {
    normalCount(i) > 0 || Flasher.Found(scan(i))
  }

  /** Some poll of `WaitForDevice` sees a device. */
  predicate DeviceFound(normalCount: nat -> nat, scan: nat -> seq<Detector.PnpEntry>) {
    exists i :: 0 <= i < DeviceWaitPolls && DeviceSeen(normalCount, scan, i)
  }

  /** `WaitForDevice`: up to 30 polls, each asking first for devices in
      normal mode (`normalCount(i)`) and then for recovery devices
      (`scan(i)`); true at the first poll that sees one. `polls` is the
      number of polls made. */
  method WaitForDevice(normalCount: nat -> nat, scan: nat -> seq<Detector.PnpEntry>)
    returns (found: bool, polls: nat)
    ensures found <==> DeviceFound(normalCount, scan)
    ensures found ==> 1 <= polls <= DeviceWaitPolls && DeviceSeen(normalCount, scan, polls - 1)
    ensures found ==> forall j :: 0 <= j < polls - 1 ==> !DeviceSeen(normalCount, scan, j)
    ensures !found ==> polls == DeviceWaitPolls
  {
    var i := 0;
    while i < DeviceWaitPolls
      invariant 0 <= i <= DeviceWaitPolls
      invariant forall j :: 0 <= j < i ==> !DeviceSeen(normalCount, scan, j)
    {
      var devices := [];
      if normalCount(i) == 0 {
        devices := Detector.GetRecoveryDevices(scan(i));
      }
      if normalCount(i) > 0 || |devices| > 0 {
        assert DeviceSeen(normalCount, scan, i);
        return true, i + 1;
      }
      i := i + 1;
    }
    return false, DeviceWaitPolls;
  }

  // ----- GetDeviceProductType -----

  /** `GetDeviceProductType`: the lockdown value "ProductType" of the first
      device, or "Unknown" when no device answers or the value is absent. */
  function DeviceProductType(l: Tss.Lockdown): (r: string)
    ensures r == Unknown || (Tss.Connected(l) && "ProductType" in l.values && r == l.values["ProductType"])
    ensures Tss.Connected(l) && "ProductType" in l.values ==> r == l.values["ProductType"]
  {
    if Tss.Connected(l) && "ProductType" in l.values then l.values["ProductType"] else Unknown
  }

  /** The product type read here and the one the signing request reads
      agree whenever a device answers. */
  lemma ProductTypeAgreesWithSigning(l: Tss.Lockdown)
    ensures Tss.Connected(l) ==> DeviceProductType(l) == Tss.GetDeviceInfo(l).productType
    ensures !Tss.Connected(l) ==> DeviceProductType(l) == Unknown && Tss.GetDeviceInfo(l).productType == ""
  {
  }

  // ----- PrepareDeviceForRestore -----

  /** Polls for the device to reappear in recovery mode, one a second. */
  const RecoveryWaitPolls: nat := 20

  /** Some poll after the request to enter recovery mode finds the device. */
  predicate ReachesRecovery(scan: nat -> seq<Detector.PnpEntry>) {
    exists i :: 0 <= i < RecoveryWaitPolls && Flasher.Found(scan(i))
  }

  /** Whether `PrepareDeviceForRestore` returns true. */
  predicate Prepared(initial: seq<Detector.PnpEntry>, l: Tss.Lockdown, enterOk: bool,
                     scan: nat -> seq<Detector.PnpEntry>) {
    Flasher.Found(initial) || (Tss.Connected(l) && enterOk && ReachesRecovery(scan))
  }

  /** `PrepareDeviceForRestore`: true at once when a recovery device is
      already present (`initial`); otherwise the first normal-mode device is
      asked to enter recovery mode (`entered`) when it answers, and, when it
      accepts (`enterOk`), up to 20 polls of `scan`, one a second, wait for
      it to appear in recovery mode. */
  method PrepareDevice(initial: seq<Detector.PnpEntry>, l: Tss.Lockdown, enterOk: bool,
                       scan: nat -> seq<Detector.PnpEntry>)
    returns (ok: bool, entered: bool)
    ensures ok <==> Prepared(initial, l, enterOk, scan)
    ensures Flasher.Found(initial) ==> !entered
    ensures !Flasher.Found(initial) ==> (entered <==> Tss.Connected(l))
  {
    var devices := Detector.GetRecoveryDevices(initial);
    if |devices| > 0 {
      return true, false;
    }
    if !Tss.Connected(l) {
      return false, false;
    }
    entered := true;
    if !enterOk {
      return false, entered;
    }
    var polled;
    ok, polled := Flasher.WaitForRecoveryMode(scan, RecoveryWaitPolls);
  }

  // ----- LoadRamdiskAndKernel -----

  /** The command that sends a file through `SendCommand`. */
  function SendFileCommand(path: string): string {
    "sendfile \"" + path + "\""
  }

  /** What one image step adds to the trace, and whether it ended the
      method early (a launch that threw, caught as success). */
  datatype Step = Step(aborted: bool, events: seq<Flasher.Event>)

  /** Sending the device tree: one command when the component was found,
      then a one-second pause; its result does not matter. */
  function DeviceTreeEvents(host: Flasher.Host, libsPath: string, deviceTree: Option<string>,
                            history: seq<Flasher.Event>): seq<Flasher.Event>
  {
    if deviceTree.None? then []
    else Flasher.SendCommand(host, libsPath, SendFileCommand(deviceTree.value), history).events
         + [Flasher.Wait(1000)]
  }

  /** The ramdisk or the kernel step: skipped unless the image was found
      and its file exists; otherwise irecovery is started on it directly
      (a missing tool or a failed start throws, ending the method), then a
      pause of two seconds, the boot `command`, and a pause of `settleMs`.
      The exit code of the direct launch only changes the log. */
  function ImageStep(host: Flasher.Host, libsPath: string, image: Option<string>, command: string,
                     settleMs: nat, history: seq<Flasher.Event>): Step
  {
    if image.None? || !host.fileExists(image.value) then Step(false, [])
    else
      var args := Flasher.FileArguments(image.value);
      if !host.fileExists(Flasher.ToolPath(libsPath)) || host.exitCode(history, args).None? then
        Step(true, [Flasher.Launch(args)])
      else
        var sent := [Flasher.Launch(args), Flasher.Wait(2000)];
        Step(false, sent + Flasher.SendCommand(host, libsPath, command, history + sent).events
                    + [Flasher.Wait(settleMs)])
  }

  /** The command that makes iBEC take the ramdisk just sent. */
  const RamdiskCommand: string := "ramdisk"
  /** The command that boots the kernel just sent. */
  const BootCommand: string := "bootx"

  /** The trace of `LoadRamdiskAndKernel`: device tree, ramdisk with the
      "ramdisk" command, kernel with the "bootx" command. */
  function LoadEvents(host: Flasher.Host, libsPath: string, c: Firmware.FirmwareComponents,
                      history: seq<Flasher.Event>): seq<Flasher.Event>
  {
    var dt := DeviceTreeEvents(host, libsPath, c.deviceTree, history);
    var rd := ImageStep(host, libsPath, c.restoreRamdisk, RamdiskCommand, 2000, history + dt);
    if rd.aborted then dt + rd.events
    else dt + rd.events + ImageStep(host, libsPath, c.kernelcache, BootCommand, 3000, history + dt + rd.events).events
  }

  /** `LoadRamdiskAndKernel`: always true (every failure is logged and
      ignored, an exception included); `events` is what it did. */
  method LoadRamdiskAndKernel(host: Flasher.Host, libsPath: string, c: Firmware.FirmwareComponents,
                              history: seq<Flasher.Event>)
    returns (ok: bool, events: seq<Flasher.Event>)
    ensures ok
    ensures events == LoadEvents(host, libsPath, c, history)
  {
    ok := true;
    events := [];
    if c.deviceTree.Some? {
      var sent := Flasher.SendCommand(host, libsPath, SendFileCommand(c.deviceTree.value), history);
      events := sent.events + [Flasher.Wait(1000)];
    }
    var ramdisk := ImageStep(host, libsPath, c.restoreRamdisk, RamdiskCommand, 2000, history + events);
    assert history + (events + ramdisk.events) == history + events + ramdisk.events;
    events := events + ramdisk.events;
    if ramdisk.aborted {
      return;
    }
    var kernel := ImageStep(host, libsPath, c.kernelcache, BootCommand, 3000, history + events);
    events := events + kernel.events;
  }

  /** Pauses launch nothing. */
  lemma WaitLaunches(ms: nat)
    ensures Flasher.Launches([Flasher.Wait(ms)]) == []
  {
    assert [Flasher.Wait(ms)][..0] == [];
  }

  /** One launch in a trace of its own. */
  lemma LaunchLaunches(args: string)
    ensures Flasher.Launches([Flasher.Launch(args)]) == [args]
  {
    assert [Flasher.Launch(args)][..0] == [];
  }

  /** An image step that runs to the end launches the image and then its
      boot command. */
  lemma ImageStepLaunches(host: Flasher.Host, libsPath: string, image: string, command: string,
                          settleMs: nat, history: seq<Flasher.Event>)
    requires host.fileExists(image) && host.fileExists(Flasher.ToolPath(libsPath))
    requires host.exitCode(history, Flasher.FileArguments(image)).Some?
    ensures var st := ImageStep(host, libsPath, Some(image), command, settleMs, history);
      !st.aborted && Flasher.Launches(st.events) == [Flasher.FileArguments(image), Flasher.CommandArguments(command)]
  {
    var args := Flasher.FileArguments(image);
    var sent := [Flasher.Launch(args), Flasher.Wait(2000)];
    var cmd := Flasher.SendCommand(host, libsPath, command, history + sent);
    LaunchLaunches(args);
    WaitLaunches(2000);
    Flasher.LaunchesAppend([Flasher.Launch(args)], [Flasher.Wait(2000)]);
    assert [Flasher.Launch(args)] + [Flasher.Wait(2000)] == sent;
    LaunchLaunches(Flasher.CommandArguments(command));
    assert cmd.events == [Flasher.Launch(Flasher.CommandArguments(command))];
    Flasher.LaunchesAppend(sent, cmd.events);
    WaitLaunches(settleMs);
    Flasher.LaunchesAppend(sent + cmd.events, [Flasher.Wait(settleMs)]);
  }

  /** With the tool present, sending the device tree launches irecovery
      once, with its `sendfile` command. */
  lemma DeviceTreeLaunches(host: Flasher.Host, libsPath: string, path: string, history: seq<Flasher.Event>)
    requires host.fileExists(Flasher.ToolPath(libsPath))
    ensures Flasher.Launches(DeviceTreeEvents(host, libsPath, Some(path), history))
      == [Flasher.CommandArguments(SendFileCommand(path))]
  {
    var cmd := Flasher.CommandArguments(SendFileCommand(path));
    assert DeviceTreeEvents(host, libsPath, Some(path), history) == [Flasher.Launch(cmd)] + [Flasher.Wait(1000)];
    LaunchLaunches(cmd);
    WaitLaunches(1000);
    Flasher.LaunchesAppend([Flasher.Launch(cmd)], [Flasher.Wait(1000)]);
  }

  /** With the tool present, every image found and on disk, and every direct
      launch started, the method launches irecovery five times, in this
      order: the device tree, the ramdisk, "ramdisk", the kernel, "bootx". */
  lemma LoadLaunchOrder(host: Flasher.Host, libsPath: string, c: Firmware.FirmwareComponents,
                        history: seq<Flasher.Event>)
    requires host.fileExists(Flasher.ToolPath(libsPath))
    requires c.deviceTree.Some? && c.restoreRamdisk.Some? && c.kernelcache.Some?
    requires host.fileExists(c.restoreRamdisk.value) && host.fileExists(c.kernelcache.value)
    requires forall t :: host.exitCode(t, Flasher.FileArguments(c.restoreRamdisk.value)).Some?
    requires forall t :: host.exitCode(t, Flasher.FileArguments(c.kernelcache.value)).Some?
    ensures Flasher.Launches(LoadEvents(host, libsPath, c, history)) ==
      [Flasher.CommandArguments(SendFileCommand(c.deviceTree.value)),
       Flasher.FileArguments(c.restoreRamdisk.value), Flasher.CommandArguments(RamdiskCommand),
       Flasher.FileArguments(c.kernelcache.value), Flasher.CommandArguments(BootCommand)]
  {
    var dt := DeviceTreeEvents(host, libsPath, c.deviceTree, history);
    DeviceTreeLaunches(host, libsPath, c.deviceTree.value, history);
    var rd := ImageStep(host, libsPath, c.restoreRamdisk, RamdiskCommand, 2000, history + dt);
    ImageStepLaunches(host, libsPath, c.restoreRamdisk.value, RamdiskCommand, 2000, history + dt);
    var kn := ImageStep(host, libsPath, c.kernelcache, BootCommand, 3000, history + dt + rd.events);
    ImageStepLaunches(host, libsPath, c.kernelcache.value, BootCommand, 3000, history + dt + rd.events);
    assert LoadEvents(host, libsPath, c, history) == dt + rd.events + kn.events;
    Flasher.LaunchesAppend(dt, rd.events);
    Flasher.LaunchesAppend(dt + rd.events, kn.events);
    var d, r, k := Flasher.Launches(dt), Flasher.Launches(rd.events), Flasher.Launches(kn.events);
    FiveInOrder(d[0], r[0], r[1], k[0], k[1]);
  }

  /** Launches of the three steps, joined. */
  lemma FiveInOrder<T>(a: T, b: T, c: T, d: T, e: T)
    ensures [a] + [b, c] + [d, e] == [a, b, c, d, e]
  {
  }

  /** A ramdisk launch that throws ends the method: the kernel is never
      sent and the device is never told to boot. */
  lemma LoadStopsAfterFailedRamdisk(host: Flasher.Host, libsPath: string, c: Firmware.FirmwareComponents,
                                    history: seq<Flasher.Event>)
    requires c.restoreRamdisk.Some? && host.fileExists(c.restoreRamdisk.value)
    requires !host.fileExists(Flasher.ToolPath(libsPath))
    ensures Flasher.Launches(LoadEvents(host, libsPath, c, history)) == [Flasher.FileArguments(c.restoreRamdisk.value)]
  {
    var dt := DeviceTreeEvents(host, libsPath, c.deviceTree, history);
    assert dt == [] || dt == [Flasher.Wait(1000)];
    if dt != [] {
      WaitLaunches(1000);
    }
    LaunchLaunches(Flasher.FileArguments(c.restoreRamdisk.value));
    Flasher.LaunchesAppend(dt, [Flasher.Launch(Flasher.FileArguments(c.restoreRamdisk.value))]);
  }

  // ----- progress -----

  /** The simulated progress of `PerformActualRestore`: 70 + 2i for each of
      its ten steps. */
  function SimulatedProgress(): (p: seq<int>)
    ensures |p| == 10 && forall i :: 0 <= i < 10 ==> p[i] == 70 + 2 * i
  {
    seq(10, i requires 0 <= i < 10 => 70 + 2 * i)
  }

  /** The progress of the last two stages: 70, the simulated steps, 95, 100. */
  function FinishProgress(): seq<int> {
    [70] + SimulatedProgress() + [95, 100]
  }

  /** The progress reported from extraction on, by a run that got that far:
      nothing when a bootloader is missing, 30 and 40 when flashing fails,
      otherwise 30, 40, 55 and the progress of the last two stages. */
  function FirmwareProgress(extracted: bool, flashed: bool): seq<int> {
    if !extracted then []
    else if !flashed then [30, 40]
    else [30, 40, 55] + FinishProgress()
  }

  /** The progress values a run reports when it passes `stages` stages
      (0, 1, 2, 3, 5 or 8). */
  function ProgressOf(stages: nat): seq<int> {
    if stages == 0 then [5]
    else if stages == 1 then [5, 10]
    else if stages == 2 then [5, 10, 15]
    else [5, 10, 15, 20] + FirmwareProgress(stages >= 5, stages >= 8)
  }

  /** The last two stages report 70, the simulated steps, 95 and 100, in
      order. */
  lemma FinishNonDecreasing()
    ensures var f := FinishProgress();
      NonDecreasing(f) && |f| == 13 && f[0] == 70 && f[12] == 100
  {
    var sim := SimulatedProgress();
    NonDecreasingAppend([70], sim);
    NonDecreasingAppend([70] + sim, [95, 100]);
  }

  /** The progress from extraction on never moves back and, when there is
      any, starts at 30. */
  lemma FirmwareNonDecreasing(extracted: bool, flashed: bool)
    ensures var f := FirmwareProgress(extracted, flashed);
      NonDecreasing(f) && (f != [] ==> f[0] == 30 && f[|f| - 1] <= 100)
      && (extracted && flashed ==> f != [] && f[|f| - 1] == 100)
  {
    if extracted && flashed {
      var finish := FinishProgress();
      FinishNonDecreasing();
      NonDecreasingAppend([30, 40, 55], finish);
    }
  }

  /** The progress bar never moves back, starts at 5, stays within 0..100,
      and a successful run ends at 100. */
  lemma ProgressNeverDecreases(stages: nat)
    ensures var p := ProgressOf(stages);
      NonDecreasing(p) && p != [] && p[0] == 5
      && (forall i :: 0 <= i < |p| ==> 0 <= p[i] <= 100)
      && (stages >= 8 ==> p[|p| - 1] == 100)
  {
    var p := ProgressOf(stages);
    if stages >= 3 {
      var f := FirmwareProgress(stages >= 5, stages >= 8);
      FirmwareNonDecreasing(stages >= 5, stages >= 8);
      NonDecreasingAppend([5, 10, 15, 20], f);
    }
    NonDecreasingBounds(p);
  }

  // ----- RestoreDeviceAsync -----

  /** Everything a restore run observes, in the order the stages ask for it. */
  datatype Environment = Environment(
    ipsw: IpswFile,
    normalCount: nat -> nat,                       // devices in normal mode at each poll of WaitForDevice
    waitScan: nat -> seq<Detector.PnpEntry>,       // recovery scans of WaitForDevice
    productLockdown: Tss.Lockdown,                 // lockdown as GetDeviceProductType finds it
    prepareScan: seq<Detector.PnpEntry>,           // the first scan of PrepareDeviceForRestore
    prepareLockdown: Tss.Lockdown,                 // lockdown as PrepareDeviceForRestore finds it
    enterRecoveryOk: bool,                         // lockdownd_enter_recovery succeeded
    recoveryScan: nat -> seq<Detector.PnpEntry>,   // scans while waiting for recovery mode
    tempPath: string,
    guid: string,                                  // the scratch directory's Guid
    signingLockdown: Tss.Lockdown,                 // lockdown as TSSClient.GetDeviceInfo finds it
    sha1: seq<byte> -> seq<byte>,
    http: Tss.HttpOutcome,
    parse: string -> Option<seq<Tss.PlistNode>>,
    host: Flasher.Host,
    libsPath: string,
    flashScan: nat -> seq<Detector.PnpEntry>,      // scans of FlashBootloadersAsync's wait
    deleteFails: bool)                             // Directory.Delete throws in Cleanup

  function ScratchOf(env: Environment): string {
    Firmware.ScratchDirectory(env.tempPath, env.guid)
  }

  /** Both bootloaders were extracted. */
  predicate BootloadersExtracted(env: Environment) {
    env.ipsw.archive.Some?
    && Firmware.PathFor(env.ipsw.archive.value, ScratchOf(env), Firmware.IBSSKey).Some?
    && Firmware.PathFor(env.ipsw.archive.value, ScratchOf(env), Firmware.IBECKey).Some?
  }

  /** The flashing stage on the extracted bootloaders. */
  function FlashOf(env: Environment): Flasher.Outcome
    requires BootloadersExtracted(env)
  {
    var zip := env.ipsw.archive.value;
    Flasher.FlashPlan(env.host, env.libsPath, env.flashScan,
                      Firmware.PathFor(zip, ScratchOf(env), Firmware.IBSSKey).value,
                      Firmware.PathFor(zip, ScratchOf(env), Firmware.IBECKey).value)
  }

  /** How far a run gets: 0 when the IPSW is rejected, 1 when no device is
      seen, 2 when the device cannot be prepared, 3 when a bootloader is
      missing, 5 when flashing fails, 8 when every stage completes. */
  function StagesPassed(env: Environment): (n: nat)
    ensures n in {0, 1, 2, 3, 5, 8}
  {
    var front := FrontStages(env);
    if front < 3 then front
    else if !BootloadersExtracted(env) then 3
    else if !FlashOf(env).ok then 5
    else 8
  }

  /** How many of the first three stages pass: validation, detection and
      preparation. */
  function FrontStages(env: Environment): (n: nat)
    ensures n <= 3
  {
    if ValidateIpsw(env.ipsw).None? then 0
    else if !DeviceFound(env.normalCount, env.waitScan) then 1
    else if !Prepared(env.prepareScan, env.prepareLockdown, env.enterRecoveryOk, env.recoveryScan) then 2
    else 3
  }

  /** The signing stage never ends a run: whatever the device's identifiers,
      the server's answer or the hash, the run gets as far. This holds by
      construction, since `StagesPassed` never reads the signing inputs; it
      records that the program continues whatever the server answers. */
  lemma SigningNeverAborts(env: Environment, l: Tss.Lockdown, sha1: seq<byte> -> seq<byte>,
                           http: Tss.HttpOutcome, parse: string -> Option<seq<Tss.PlistNode>>)
    ensures StagesPassed(env.(signingLockdown := l, sha1 := sha1, http := http, parse := parse)) == StagesPassed(env)
  {
  }

  /** A run completes exactly when the IPSW is accepted, a device is seen
      and brought to recovery mode, both bootloaders are extracted and
      flashing succeeds. */
  lemma RunCompletes(env: Environment)
    ensures StagesPassed(env) == 8 <==>
      (ValidateIpsw(env.ipsw).Some? && DeviceFound(env.normalCount, env.waitScan)
       && Prepared(env.prepareScan, env.prepareLockdown, env.enterRecoveryOk, env.recoveryScan)
       && BootloadersExtracted(env) && FlashOf(env).ok)
  {
  }

  /** The rank of the first key from `from` on spelled `name`; 7 when no
      such key is spelled so. */
  function RankNamed(name: string, from: nat): (n: nat)
    requires from <= 7
    ensures from <= n <= 7
    ensures n < 7 ==> Firmware.KeyAt(n).Name() == name
    decreases 7 - from
  {
    if from == 7 then 7
    else if Firmware.KeyAt(from).Name() == name then from
    else RankNamed(name, from + 1)
  }

  /** `ComponentData` as the signing request lists it: in the order its
      entries were added, which is the order of the lookups. Its entries
      are exactly the keys present from rank `i` on, each under its name
      with its bytes, in rank order, so no name repeats. */
  function ComponentFiles(data: map<Firmware.ComponentKey, seq<byte>>, i: nat): (r: seq<(string, seq<byte>)>)
    requires i <= 7
    ensures |r| <= 7 - i
    ensures forall e :: e in r <==>
      exists j :: i <= j < 7 && Firmware.KeyAt(j) in data && e == (Firmware.KeyAt(j).Name(), data[Firmware.KeyAt(j)])
    ensures forall a :: 0 <= a < |r| ==> i <= RankNamed(r[a].0, 0) < 7
    ensures forall a, b :: 0 <= a < b < |r| ==> RankNamed(r[a].0, 0) < RankNamed(r[b].0, 0)
    decreases 7 - i
  {
    if i == 7 then []
    else
      var k := Firmware.KeyAt(i);
      (if k in data then [(k.Name(), data[k])] else []) + ComponentFiles(data, i + 1)
  }

  class RestoreManager {
    /** Set while a run is in progress; a second run is refused. */
    var isRestoring: bool
    /** The extractor of the latest run that reached extraction; it outlives
        the run. */
    var extractor: Firmware.FirmwareExtractor?
    /** Every value passed to the progress callback, in order. */
    var progress: seq<int>

    constructor ()
      ensures !isRestoring && extractor == null && progress == []
    {
      isRestoring := false;
      extractor := null;
      progress := [];
    }

    /** `PerformActualRestore`: ten steps of simulated progress; always true. */
    method PerformActualRestore() returns (ok: bool)
      modifies this`progress
      ensures ok
      ensures progress == old(progress) + SimulatedProgress()
    {
      var i := 0;
      while i < 10
        invariant 0 <= i <= 10
        invariant progress == old(progress) + SimulatedProgress()[..i]
      {
        progress := progress + [70 + i * 2];
        assert SimulatedProgress()[..i + 1] == SimulatedProgress()[..i] + [70 + i * 2];
        i := i + 1;
      }
      assert SimulatedProgress()[..10] == SimulatedProgress();
      return true;
    }

    /** `RestoreDeviceAsync`: refused while a run is in progress; otherwise
        the stages run in order, each failure ending the run with false,
        and afterwards the extractor (of this run, or of an earlier one when
        this run ended before extraction) deletes its scratch directory and
        the guard is cleared. */
    method RestoreDevice(env: Environment, ipswPath: string, eraseData: bool) returns (ok: bool)
      modifies this, extractor
      ensures old(isRestoring) ==> !ok && isRestoring && progress == old(progress) && extractor == old(extractor)
      ensures old(isRestoring) && extractor != null ==> unchanged(extractor)
      ensures !old(isRestoring) ==> !isRestoring
      ensures !old(isRestoring) ==> (ok <==> StagesPassed(env) == 8)
      ensures !old(isRestoring) ==> progress == old(progress) + ProgressOf(StagesPassed(env))
      ensures !old(isRestoring) && StagesPassed(env) >= 3 ==>
        extractor != null && fresh(extractor) && extractor.ipswPath == ipswPath
        && extractor.extractPath == ScratchOf(env)
        && extractor.scratchExists == env.deleteFails
      ensures !old(isRestoring) && StagesPassed(env) < 3 ==>
        extractor == old(extractor)
        && (extractor != null && !env.deleteFails ==> !extractor.scratchExists)
    {
      if isRestoring {
        return false;
      }
      isRestoring := true;
      ok := RunStages(env, ipswPath, eraseData);
      if extractor != null {
        extractor.Cleanup(env.deleteFails);
      }
      isRestoring := false;
    }

    /** The body of the `try` block: the eight stages. */
    method RunStages(env: Environment, ipswPath: string, eraseData: bool) returns (ok: bool)
      modifies this
      ensures isRestoring == old(isRestoring)
      ensures ok <==> StagesPassed(env) == 8
      ensures progress == old(progress) + ProgressOf(StagesPassed(env))
      ensures StagesPassed(env) >= 3 ==>
        extractor != null && fresh(extractor) && extractor.ipswPath == ipswPath
        && extractor.extractPath == ScratchOf(env) && extractor.scratchExists
      ensures StagesPassed(env) < 3 ==> extractor == old(extractor)
    {
      var info, productType, passed := RunFrontStages(env);
      if passed < 3 {
        return false;
      }
      ok := RunFirmwareStages(env, ipswPath, eraseData, info, productType);
      AppendAssoc(old(progress), [5, 10, 15, 20], FirmwareProgress(StagesPassed(env) >= 5, ok));
    }

    /** Stages 1 to 3, with the progress each reports: `passed` of them pass;
        when all do, `info` is what validation read and `productType` what
        the device reported. */
    method RunFrontStages(env: Environment) returns (info: IpswInfo, productType: string, passed: nat)
      modifies this`progress
      ensures passed == FrontStages(env)
      ensures passed == 3 ==> ValidateIpsw(env.ipsw) == Some(info)
      ensures passed < 3 ==> progress == old(progress) + ProgressOf(passed)
      ensures passed == 3 ==> progress == old(progress) + [5, 10, 15, 20]
    {
      progress := progress + [5];
      var validated := ValidateIpsw(env.ipsw);
      if validated.None? {
        return IpswInfo(Unknown, Unknown), Unknown, 0;
      }
      info := validated.value;
      progress := progress + [10];
      assert progress == old(progress) + [5, 10];
      var found, polls := WaitForDevice(env.normalCount, env.waitScan);
      if !found {
        return info, Unknown, 1;
      }
      productType := DeviceProductType(env.productLockdown);
      progress := progress + [15];
      assert progress == old(progress) + [5, 10, 15];
      var prepared, entered := PrepareDevice(env.prepareScan, env.prepareLockdown, env.enterRecoveryOk, env.recoveryScan);
      if !prepared {
        return info, productType, 2;
      }
      progress := progress + [20];
      assert progress == old(progress) + [5, 10, 15, 20];
      passed := 3;
    }

    /** Stages 4 to 8, once the first three passed: extraction, signing,
        flashing, loading, restore. */
    method RunFirmwareStages(env: Environment, ipswPath: string, eraseData: bool,
                             info: IpswInfo, productType: string)
      returns (ok: bool)
      requires FrontStages(env) == 3
      modifies this`extractor, this`progress
      ensures extractor != null && fresh(extractor) && extractor.ipswPath == ipswPath
        && extractor.extractPath == ScratchOf(env) && extractor.scratchExists
      ensures ok <==> StagesPassed(env) == 8
      ensures progress == old(progress) + FirmwareProgress(StagesPassed(env) >= 5, ok)
    {
      var c := ExtractStage(env, ipswPath, productType);
      if c.None? {
        assert StagesPassed(env) == 3;
        return false;
      }
      ok := FlashStages(env, info, productType, c.value);
      assert StagesPassed(env) == if ok then 8 else 5;
    }

    /** Stages 5 to 8 on the extracted components. */
    method FlashStages(env: Environment, info: IpswInfo, productType: string, c: Firmware.FirmwareComponents)
      returns (ok: bool)
      requires BootloadersExtracted(env) && c.iBSS.Some? && c.iBEC.Some?
      requires c.iBSS == Firmware.PathFor(env.ipsw.archive.value, ScratchOf(env), Firmware.IBSSKey)
      requires c.iBEC == Firmware.PathFor(env.ipsw.archive.value, ScratchOf(env), Firmware.IBECKey)
      modifies this`progress
      ensures ok <==> FlashOf(env).ok
      ensures progress == old(progress) + FirmwareProgress(true, ok)
    {
      progress := progress + [30];
      var blobs := SignStage(env, info, productType, c);
      progress := progress + [40];
      assert progress == old(progress) + [30, 40];
      var flashed, trace := Flasher.FlashBootloaders(env.host, env.libsPath, env.flashScan,
                                                     c.iBSS.value, c.iBEC.value, Some(blobs));
      if !flashed {
        return false;
      }
      progress := progress + [55];
      assert progress == old(progress) + [30, 40, 55];
      ok := FinishStages(env, c, trace);
      AppendAssoc(old(progress), [30, 40, 55], FinishProgress());
    }

    /** Stage 4: a new extractor, kept in the field, extracts the components;
        None when an archive cannot be read or a bootloader is missing. */
    method ExtractStage(env: Environment, ipswPath: string, productType: string)
      returns (c: Option<Firmware.FirmwareComponents>)
      modifies this`extractor
      ensures extractor != null && fresh(extractor) && extractor.ipswPath == ipswPath
        && extractor.extractPath == ScratchOf(env) && extractor.scratchExists
      ensures c.Some? <==> BootloadersExtracted(env)
      ensures c.Some? ==>
        c.value.iBSS.Some? && c.value.iBEC.Some?
        && c.value.iBSS == Firmware.PathFor(env.ipsw.archive.value, ScratchOf(env), Firmware.IBSSKey)
        && c.value.iBEC == Firmware.PathFor(env.ipsw.archive.value, ScratchOf(env), Firmware.IBECKey)
    {
      var fx := new Firmware.FirmwareExtractor(ipswPath);
      extractor := fx;
      var components := fx.ExtractComponents(env.ipsw.archive, productType, env.tempPath, env.guid);
      if components.None? || components.value.iBSS.None? || components.value.iBEC.None? {
        return None;
      }
      return components;
    }

    /** Stage 5: the signing request for the device, the IPSW's build and the
        extracted components; its answer never ends the run. */
    method SignStage(env: Environment, info: IpswInfo, productType: string, c: Firmware.FirmwareComponents)
      returns (blobs: map<string, seq<byte>>)
    {
      var request := Tss.GetDeviceInfo(env.signingLockdown).(
        buildVersion := info.buildVersion, productType := productType,
        firmwareFiles := ComponentFiles(c.componentData, 0));
      var response, posted := Tss.RequestSHSHBlobs(request, env.sha1, env.http, env.parse);
      blobs := response.signedBlobs;
    }

    /** Stages 7 and 8: loading the ramdisk and kernel, then the simulated
        restore; both always succeed. */
    method FinishStages(env: Environment, c: Firmware.FirmwareComponents, trace: seq<Flasher.Event>)
      returns (ok: bool)
      modifies this`progress
      ensures ok
      ensures progress == old(progress) + FinishProgress()
    {
      var loaded, events := LoadRamdiskAndKernel(env.host, env.libsPath, c, trace);
      progress := progress + [70];
      var restored := PerformActualRestore();
      progress := progress + [95, 100];
      AppendAssoc(old(progress), [70], SimulatedProgress());
      AppendAssoc(old(progress), [70] + SimulatedProgress(), [95, 100]);
      ok := loaded && restored;
    }
  }
}
