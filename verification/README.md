# iPhone recovery and restore tool — Dafny model

This project models the core of a Windows tool that brings an iPhone out of
Recovery or DFU mode and restores its firmware from an IPSW archive. The tool
has these parts:

- **Detection.** A WMI scan of Plug-and-Play devices finds Apple devices in
  Recovery, DFU or WTF mode.
- **Exiting Recovery mode.** A chain of strategies is tried in turn: Apple's
  native MobileDevice library, the `irecovery` command-line tool, and two raw
  USB sessions. The raw sessions are the iRecovery-protocol client and a
  LibUsbDotNet search that sends a zero control request to the first
  device that opens (`TryExitViaUSB`). The separate WinUSB method
  (`TryExitWithWINUSB`) sends the same request but is not part of the
  chain.
- **Restore.** The restore manager validates the IPSW and waits for the
  device. It then puts the device into Recovery mode and extracts the
  firmware components. It asks Apple's TSS server for signing blobs, flashes
  iBSS and iBEC with `irecovery`, loads the device tree, ramdisk and kernel,
  and reports progress.

Everything the program does to the outside world is modelled as a value the
caller passes in, and every effect is recorded in a trace:

- **USB.** A `Usb.Bus` lists the device registries. It also holds an
  `accepts` function that decides, from the trace so far, whether the device
  accepts a transfer. Every open, claim, transfer, delay and close is
  appended to a `Usb.UsbEvent` trace.
- **Processes and the file system.** A `Flasher.Host` says which files exist.
  It also gives the exit code and the output of an `irecovery` run, as a
  function of the trace so far and the arguments. Launches, scans and waits
  are recorded as `Flasher.Event`s.
- **WMI.** The device scan is a sequence of `Detector.PnpEntry` values. An
  entry whose properties cannot be read is `Unreadable`. A scan that changes
  over time is a function from the poll number to a scan.
- **The IPSW archive.** It is a sequence of `Firmware.ZipEntry` values, in
  archive order. Each entry has a name, a size, its bytes and whether it can
  be read.
- **The TSS server.** Its HTTP exchange is an `Tss.HttpOutcome`. The XML
  parser is a function from text to the document's node list. SHA-1 is an
  uninterpreted function on bytes.
- **The lockdown connection.** It is a `Tss.Lockdown` value: whether a device
  answers, and its property values.
- **The native MobileDevice library.** A `NativeApi.Native` value gives the
  results of the library calls. Every call made is recorded in the object's
  `calls` trace.

Each method that changes state is proved against a function of its inputs
(a plan or outcome function). The properties the program relies on are then
proved about those functions as lemmas:

- the order of fallbacks;
- that only the intended transfers are sent;
- the round trips of Base64, ASCII, `Split`/`Join` and paths;
- first-match choices;
- progress that never decreases.

## Model

| member | source | states |
|---|---|---|
| Ascii.AsciiBytesEncodes | IRecoveryProtocol.cs:157 | a command is encoded as one byte per character, every byte below 0x80; a byte equals its character's code exactly when the character is ASCII (or is '?') |
| Ascii.AsciiRoundTrip | IRecoveryProtocol.cs:157 | ASCII encoding followed by decoding gives the text back if and only if every character is ASCII |
| Ascii.AsciiBytesAppend | IRecoveryProtocol.cs:157 | encoding a command with "\n" appended gives the command's bytes followed by the newline's byte |
| Seqs.FirstIndex | RecoveryModeDetector.cs:55-69 | the first-match search used by every `foreach … break` loop: the index it returns satisfies the test and no earlier element does; None means no element does |
| Text.IndexOf | RestoreManager.cs:266-270 | `IndexOf` returns -1 exactly when the text does not occur from `from` on; otherwise it returns a position where the text occurs, with no earlier occurrence from `from` on |
| Text.ContainsIndexOf | RestoreManager.cs:266-267 | `Contains` holds exactly when `IndexOf` finds a position |
| Text.IndexOfAppend | RestoreManager.cs:266-270 | a first occurrence stays the first occurrence when text is appended |
| Text.LeadingSpace | BootloaderFlasher.cs:294-295 | counts exactly the white space at the start of the text |
| Text.TrailingSpace | BootloaderFlasher.cs:294-295 | counts exactly the white space at the end of the text |
| Text.TrimMiddle | BootloaderFlasher.cs:294-295 | `Trim` keeps a middle stretch of the text: everything it drops is white space, and what it keeps neither starts nor ends with white space |
| Text.Split | BootloaderFlasher.cs:286 | `Split` gives at least one piece, and no piece contains the separator |
| Text.JoinSplit | BootloaderFlasher.cs:286 | joining the pieces of a split with the same separator gives back the original text |
| Text.FirstPos | BootloaderFlasher.cs:291 | the position of the first colon in a line, or the line's length when it has none |
| Text.Combine | FirmwareExtractor.cs:207 | `Path.Combine` of a directory and a relative, non-empty name inserts exactly one backslash between them |
| Text.LastSeparator | AppleMobileDeviceAPI.cs:213 | the position of the last `\` or `/` in a path, or -1 when there is none |
| Text.DirectoryAndFileName | AppleMobileDeviceAPI.cs:213 | a path is its directory name, the separator and its file name |
| Text.SplitAtLastSeparator | FirmwareExtractor.cs:207 | the file name of `dir\name` is `name`, and its directory name is `dir` |
| Base64.ValueOf | TSSClient.cs:221 | a character that decodes is the alphabet character of the value it decodes to |
| Base64.ValueOfCharOf | TSSClient.cs:182 | every alphabet character decodes to the 6-bit value it encodes |
| Base64.EncodeLength | TSSClient.cs:182 | `ToBase64String` output has four characters for every started group of three bytes |
| Base64.RemoveSpace | TSSClient.cs:221 | the text `FromBase64String` decodes has no white space left and is no longer than the input |
| Base64.EncodeHasNoSpace | TSSClient.cs:182 | encoded text contains no white space, so decoding skips nothing in it |
| Base64.DecodeFullGroup | TSSClient.cs:221 | a group of four characters decodes to the three bytes it encodes |
| Base64.DecodeTwoByteGroup | TSSClient.cs:221 | a last group with one `=` decodes to the two bytes it encodes |
| Base64.DecodeOneByteGroup | TSSClient.cs:221 | a last group with `==` decodes to the byte it encodes |
| Base64.DecodeGroupsEncode | TSSClient.cs:182 | decoding the groups of any encoding gives the bytes back |
| Base64.DecodeEncode | TSSClient.cs:182 | round trip: `FromBase64String(ToBase64String(b)) == b` for every byte sequence |
| Usb.OpenAttemptsOnTargets | IRecoveryProtocol.cs:54-69 | the device search tries to open only Apple Recovery or DFU registries, and makes no transfer |
| Usb.OpenAttemptsComplete | RecoveryModeHelper.cs:266-276 | every Recovery or DFU registry before the stopping point is tried |
| Usb.ToInt16 | IRecoveryProtocol.cs:209 | the `(short)` cast gives a signed 16-bit value congruent to the length modulo 2^16 |
| Detector.GetDeviceMode | RecoveryModeDetector.cs:99-108 | each of "Recovery Mode", "DFU Mode" and "WTF Mode" is returned exactly for its product id; "Unknown Mode" exactly for any other id |
| Detector.Classify | RecoveryModeDetector.cs:45-69 | an entry is reported exactly when both properties are present, its id names Apple's vendor id and one of the recovery product ids; the device carries those fields, the first matching id in list order, and a mode other than Unknown |
| Detector.ClassifyEntry | RecoveryModeDetector.cs:45-70 | the loop body over the product ids computes `Classify` |
| Detector.GetRecoveryDevices | RecoveryModeDetector.cs:28-94 | the enumeration loop returns one device per qualifying entry, in scan order |
| Detector.IsRecoveryModeAvailable | RecoveryModeDetector.cs:113-116 | true exactly when some entry of the scan qualifies |
| Detector.EmptyIffNoneQualifies | RecoveryModeDetector.cs:40-83 | the device list is empty exactly when no entry qualifies |
| Detector.RecoveryDevicesOfAppend | RecoveryModeDetector.cs:40-83 | the devices of a scan are the devices of its parts, in order |
| Detector.RecoveryDevicesOfOne | RecoveryModeDetector.cs:42-72 | a one-entry scan gives the entry's device when it qualifies, nothing otherwise |
| Detector.UnreadableSkipped | RecoveryModeDetector.cs:74-78 | an entry whose properties cannot be read is skipped without affecting the rest |
| Detector.AtMostOnePerEntry | RecoveryModeDetector.cs:55-69 | the `break` gives at most one device per entry |
| Detector.DevicesWellFormed | RecoveryModeDetector.cs:52-67 | every reported device has Apple's vendor id, a recovery product id that occurs in its device id, and the matching known mode |
| IRecovery.CloseEvents | IRecoveryProtocol.cs:313-333 | closing makes no transfer, releases the interface exactly for a whole device, and ends with the device closed |
| IRecovery.OpenPlanFound | IRecoveryProtocol.cs:54-126 | when registry i is the first target that opens, the trace is the earlier attempts, the attempt on i, and i's setup |
| IRecovery.OpenPlanNotFound | IRecoveryProtocol.cs:54-131 | when no target opens, the trace holds the attempts on every target and nothing is chosen |
| IRecovery.OpenPlanChoice | IRecoveryProtocol.cs:54-131 | `Open` only extends the trace without a transfer; the device it keeps is the first Recovery or DFU device that opens; when it keeps none, no target opens |
| IRecovery.SendPlan | IRecoveryProtocol.cs:144-187 | without a writer nothing is sent and the call fails; with one, exactly the ASCII command plus "\n" is written to endpoint 0x04, the call succeeds exactly when the device accepts it, and success is followed by a 100 ms pause |
| IRecovery.SendPlanTransfers | IRecoveryProtocol.cs:157-174 | sending a command transfers that command's bulk write and nothing else |
| IRecovery.ControlPlan | IRecoveryProtocol.cs:204-214 | one vendor-out control transfer with the given request, value and index, the data (empty when none), the length cast to 16 bits; success exactly when the device accepts it |
| IRecovery.AutoBootPlanTransfers | IRecoveryProtocol.cs:253-261 | the second method writes `setenv auto-boot true`, `saveenv` and `reboot`, in that order, and nothing else |
| IRecovery.RebootByFirstMethod | IRecoveryProtocol.cs:244-249 | when the device accepts the `reboot` write, `Reboot` succeeds, and that write is its only transfer |
| IRecovery.RebootThroughSecondMethod | IRecoveryProtocol.cs:244-261 | the first two methods together transfer the four commands in order |
| IRecovery.RebootBySecondMethod | IRecoveryProtocol.cs:253-261 | when the first `reboot` write fails and the auto-boot sequence succeeds, `Reboot` succeeds after exactly the four writes of the two methods, in order |
| IRecovery.RebootByControlTransfer | IRecoveryProtocol.cs:265-273 | when both command methods fail, every fallback transfer is made, the zero control transfer last, and `Reboot` succeeds exactly when the device accepts that transfer |
| IRecovery.RebootPlanOrder | IRecoveryProtocol.cs:230-280 | `Reboot` makes a prefix of the fallback sequence (reboot command, auto-boot sequence, zero control transfer) and stops at the first method that succeeds; it succeeds exactly when the device accepted the last transfer it made, so the `setenv` and `saveenv` results decide nothing |
| IRecovery.FallbackExhausted | IRecoveryProtocol.cs:265-279 | a run that made every fallback transfer, and whose result is its last transfer's, follows the fallback order |
| IRecovery.ExitPlanSafety | IRecoveryProtocol.cs:338-366 | the static exit only extends the trace; when no device opens it fails without any transfer; when one opens the session ends with the device closed |
| IRecovery.ExitPlanOpened | IRecoveryProtocol.cs:338-366 | when a device opens, the last event is its close |
| IRecovery.IRecoveryProtocol.constructor | IRecoveryProtocol.cs:36-40 | a new client has no device, no endpoints and is not connected |
| IRecovery.IRecoveryProtocol.Open | IRecoveryProtocol.cs:46-139 | the new trace and device are those of the opening plan; endpoints are opened on success; a failed search that found a target drops the device |
| IRecovery.IRecoveryProtocol.SendCommand | IRecoveryProtocol.cs:144-187 | not connected: fails and changes nothing; connected: does what the send plan says |
| IRecovery.IRecoveryProtocol.SendControlTransfer | IRecoveryProtocol.cs:192-225 | not connected: fails and changes nothing; connected: does what the control plan says |
| IRecovery.IRecoveryProtocol.Reboot | IRecoveryProtocol.cs:230-280 | not connected: fails and changes nothing; connected: does what the reboot plan says |
| IRecovery.IRecoveryProtocol.Close | IRecoveryProtocol.cs:313-333 | a connected device is released and closed; otherwise nothing changes |
| IRecovery.IRecoveryProtocol.ExitRecoveryMode | IRecoveryProtocol.cs:338-366 | open, reboot and close in one session, as the exit plan says |
| RecoveryHelper.SessionSendsOnlyZeroRequest | RecoveryModeHelper.cs:287-320 | the USB session sends the zero vendor request and nothing else, succeeds exactly when the device accepts it, and always closes the device |
| RecoveryHelper.ViaUsbPlanCases | RecoveryModeHelper.cs:266-282 | with no device list or no openable target, the attempt fails without a transfer; otherwise the session runs on the first Recovery or DFU device that opens |
| RecoveryHelper.ViaUsbAtMostZeroRequest | RecoveryModeHelper.cs:259-327 | the attempt transfers nothing or exactly the zero request, and success implies the request was sent and the device closed |
| RecoveryHelper.TryExitViaUsb | RecoveryModeHelper.cs:259-327 | the search-and-session loop computes the USB plan |
| RecoveryHelper.SendRebootCommand | RecoveryModeHelper.cs:332-348 | with no recovery device in the scan it fails and touches no USB device; otherwise it runs the USB attempt |
| RecoveryHelper.WinUsbOpenChoice | RecoveryModeHelper.cs:358-371 | the WinUSB search tries the Recovery id first and the DFU id only when that gave no open device, makes no transfer, and returns an Apple Recovery or DFU device that opened |
| RecoveryHelper.WinUsbPlanProperties | RecoveryModeHelper.cs:353-399 | no opened device: fails without a transfer; otherwise only the zero request is sent, right after the search, success is its acceptance, and the device is closed |
| RecoveryHelper.TryExitWithWinUsb | RecoveryModeHelper.cs:353-399 | the method computes the WinUSB plan |
| RecoveryHelper.ChainShortCircuits | RecoveryModeHelper.cs:58-137 | strategies are tried in their fixed order, every one before the last tried failed, the result is the last tried strategy's, and a failure means all applicable strategies were tried |
| RecoveryHelper.ChainFailsIffAllFail | RecoveryModeHelper.cs:58-182 | the exit fails if and only if every applicable strategy fails |
| RecoveryHelper.ChainWithoutDrivers | RecoveryModeHelper.cs:46-53 | without the Apple drivers neither the native API nor the command-line tool is used, and their outcomes do not matter |
| RecoveryHelper.ChainUsbOnlyWhenReached | RecoveryModeHelper.cs:58-137 | USB traffic happens only when the chain reaches the USB strategies |
| RecoveryHelper.ExitRecoveryMode | RecoveryModeHelper.cs:32-183 | the method computes the strategy chain: result, strategies attempted and USB trace |
| Firmware.LocateIsFirst | FirmwareExtractor.cs:196-205 | the component search picks the first entry, in archive order, whose name contains the token ignoring case; none when no entry does |
| Firmware.LocateFileIsFirst | FirmwareExtractor.cs:238-242 | the file lookup picks the first entry whose name equals the file name ignoring case; none when there is none |
| Firmware.PatternsNeverChangeChoice | FirmwareExtractor.cs:189-205 | an entry matches one of the product-type patterns exactly when its name contains the bare component name, so the patterns never change the choice |
| Firmware.ExtractedIsFirstMention | FirmwareExtractor.cs:184-229 | a found component is the first entry mentioning the token, written under its own file name in the scratch directory; null exactly when no entry mentions it or the first that does cannot be extracted |
| Firmware.LargestIsUnique | FirmwareExtractor.cs:265-299 | at most one entry is the largest root-filesystem candidate as the scan picks it |
| Firmware.DataAfterStep | FirmwareExtractor.cs:67-153 | each lookup adds its component's bytes to `ComponentData` when found and leaves it unchanged otherwise |
| Firmware.NextResult | FirmwareExtractor.cs:84-153 | the lookup at a key's position changes `ComponentData` only at that key |
| Firmware.DataAfterAll | FirmwareExtractor.cs:67-153 | after all lookups a key is in `ComponentData` exactly when its component was found, with the bytes of the entry it was extracted from |
| Firmware.FirmwareExtractor.constructor | FirmwareExtractor.cs:34-38 | a new extractor has its IPSW path, no scratch directory and no files |
| Firmware.FirmwareExtractor.Write | FirmwareExtractor.cs:207-213 | a readable entry with a file name is written into the scratch directory under that name; otherwise nothing is written |
| Firmware.FirmwareExtractor.ExtractFile | FirmwareExtractor.cs:234-260 | extracts the entry named exactly (ignoring case) and records its bytes |
| Firmware.FirmwareExtractor.FindAndExtractComponent | FirmwareExtractor.cs:184-229 | the pattern loop returns the first entry mentioning the component, extracted, and records exactly that file |
| Firmware.FirmwareExtractor.ExtractInto | FirmwareExtractor.cs:84-153 | one component lookup, with its fallback token: the path, the `ComponentData` after it, and the scratch files with the bytes of the component's entry written to that path and nothing else changed |
| Firmware.FirmwareExtractor.FindRootFilesystem | FirmwareExtractor.cs:265-299 | returns the largest `.dmg` that is neither a ramdisk nor an update image, the first of equal sizes, or none |
| Firmware.FirmwareExtractor.ExtractComponents | FirmwareExtractor.cs:43-179 | creates the scratch directory `iPhoneTool_Restore_<guid>` under the temp path; an archive that cannot be opened is rethrown (modelled as None), the run fails, and nothing is written; otherwise every component is what the searches extract, and the scratch files are the old ones after every extraction write, in order |
| Firmware.FirmwareExtractor.ExtractAll | FirmwareExtractor.cs:67-171 | all component paths, the root filesystem and `ComponentData` are those of the searches; the scratch files are the old ones after the two property lists and the six components are written, in that order |
| Firmware.FirmwareExtractor.ExtractBootComponents | FirmwareExtractor.cs:84-108 | iBSS, iBEC and the device tree are the searched paths, `ComponentData` holds the first four lookups, and the three entries' bytes are written to those paths in order |
| Firmware.FirmwareExtractor.ExtractRestoreImages | FirmwareExtractor.cs:111-153 | kernel cache, restore ramdisk (falling back to "ramdisk") and logo (falling back to "applelogo"), `ComponentData` after all seven lookups, and the three entries' bytes written to those paths in order |
| Firmware.FirmwareExtractor.ExtractPlists | FirmwareExtractor.cs:66-81 | the build manifest and Restore.plist are extracted by exact name, in that order; `ComponentData` holds the manifest's bytes when it was found; the two writes are the only change to the scratch files |
| Firmware.StoredPaths | FirmwareExtractor.cs:234-260 | after a list of file writes a path exists exactly when it did before or some write went to it; a path no write went to keeps its bytes |
| Firmware.StoredLastWrite | FirmwareExtractor.cs:234-260 | the last write to a path decides its bytes |
| Firmware.ExtractedFilesHold | FirmwareExtractor.cs:43-179 | after extraction every component found is in the scratch directory, holding its entry's bytes unless a later step wrote the same path; every path no step wrote is unchanged |
| Firmware.FirmwareExtractor.Cleanup | FirmwareExtractor.cs:304-318 | an existing scratch directory is deleted with its files unless deletion fails; otherwise nothing changes |
| Tss.FileLines | TSSClient.cs:177-184 | five plist lines per firmware file |
| Tss.RequestIdentifiers | TSSClient.cs:146-190 | the request has 20 lines plus five per file, carries the ECID, chip id and board id in their integer elements, and ends with the closing tags |
| Tss.RequestDigests | TSSClient.cs:177-184 | file i's name is on line 18 + 5i and its Base64 SHA-1 digest three lines later, and that digest decodes back to the hash |
| Tss.AppendDigests | TSSClient.cs:177-184 | the loop appends every file's dictionary, in order |
| Tss.BuildTSSRequestPlist | TSSClient.cs:146-190 | the builder produces the text of the request lines, each ending in CR LF |
| Tss.PairedBlobsKeys | TSSClient.cs:212-229 | a key gets a blob exactly when some paired index has that key with a usable `<data>` value |
| Tss.PairedBlobsLast | TSSClient.cs:212-229 | a repeated key keeps the blob of its last usable pairing |
| Tss.ParseTSSResponse | TSSClient.cs:195-240 | the parse as written: the i-th `<key>` is paired with the i-th `<data>`, up to the shorter list; a document that fails to parse gives no blobs |
| Tss.PairingShiftsKeys | TSSClient.cs:207-215 | on a response with a string-valued key before the ticket, the written pairing files the ticket's bytes under the wrong key |
| Tss.EntryBlobsKeepTheirKey | TSSClient.cs:207-215 | in the intended parse every blob is the decoded `<data>` value that directly follows its own key |
| Tss.EntriesKeepTicket | TSSClient.cs:207-215 | on the same response the intended parse files the ticket under `ApImg4Ticket` |
| Tss.PairsListAlike | TSSClient.cs:207-215 | on a dictionary made only of key/data pairs, the i-th `<key>` and the i-th `<data>` are the i-th entry |
| Tss.ParsesAgreeOnDataOnlyAnswers | TSSClient.cs:207-229 | on such a dictionary the parse as written and the intended parse give the same blobs, so they differ only when some key has another kind of value |
| Tss.RequestSHSHBlobs | TSSClient.cs:48-141 | always reports success; a missing ECID gives no request and the invalid-ECID message; otherwise exactly the built plist is posted; blobs come only from a reply containing an approval marker, and then they are what `ParseTSSResponse`, as written, pairs from the parsed reply (none when it fails to parse) |
| Tss.GetDeviceInfo | TSSClient.cs:256-304 | no build version and no files; all identifiers empty when no device answers; otherwise each identifier is the value lockdown reports, or "Unknown" for the product type and "0" for the ECID, chip id and board id when it cannot be read |
| Tss.UnreadEcidSkipsSigning | TSSClient.cs:282-285 | signing is skipped for a missing ECID exactly when no device answers, it reports no ECID, or the ECID it reports is empty or zero |
| Flasher.SendFile | BootloaderFlasher.cs:103-184 | nothing is launched when the file or the tool is missing; otherwise `irecovery -f "<file>"` is launched once and succeeds exactly on exit code 0 |
| Flasher.SendCommand | BootloaderFlasher.cs:189-235 | nothing is launched when the tool is missing; otherwise `irecovery -c "<command>"` is launched once and succeeds exactly on exit code 0 |
| Flasher.WaitEventsFirst | BootloaderFlasher.cs:242-248 | when the device first appears at poll k, the wait is k idle polls and then a scan |
| Flasher.WaitEventsNone | BootloaderFlasher.cs:242-251 | when the device never appears, the wait is one idle poll per remaining second |
| Flasher.WaitForRecoveryMode | BootloaderFlasher.cs:240-252 | finds the device exactly when some scan within the time limit finds one, with the poll-and-wait events of the loop |
| Flasher.FlashBootloaders | BootloaderFlasher.cs:28-98 | the wait, iBSS send and iBEC send, as the flashing plan says |
| Flasher.WaitLaunchesNothing | BootloaderFlasher.cs:240-252 | waiting for the device launches no process |
| Flasher.SendLaunches | BootloaderFlasher.cs:103-176 | a file send launches the tool at most once, with the file's arguments |
| Flasher.FlashLaunchOrder | BootloaderFlasher.cs:40-91 | nothing is launched when the device never appears; iBEC is sent only after iBSS succeeds; success means both were sent, iBSS first |
| Flasher.FlashLaunchesBoth | BootloaderFlasher.cs:68-91 | after the settle delays a successful iBEC send follows the iBSS send |
| Flasher.InfoKeys | BootloaderFlasher.cs:286-298 | a key is in the device info exactly when some line with a colon has that trimmed key |
| Flasher.InfoLastLine | BootloaderFlasher.cs:286-298 | a repeated key keeps the value of its last line |
| Flasher.KeyHasNoColon | BootloaderFlasher.cs:291-294 | a key never contains a colon: the line is split at its first colon |
| Flasher.AddLine | BootloaderFlasher.cs:289-297 | a line with a colon sets its trimmed key to its trimmed value; any other line is ignored |
| Flasher.ParseDeviceInfo | BootloaderFlasher.cs:286-298 | the parse loop computes the info map of the output's lines |
| Flasher.GetDeviceInfo | BootloaderFlasher.cs:257-308 | no tool or no output gives an empty map; otherwise the parsed output of `irecovery -q` |
| Restore.ExtractValueOfEntry | RestoreManager.cs:262-281 | on a plist whose first `<key>K</key>` is followed by a `<string>` value, the extractor returns exactly that value |
| Restore.ExtractValueMissingKey | RestoreManager.cs:266-267 | without the key the extractor returns null |
| Restore.ExtractValueWithoutString | RestoreManager.cs:269-272 | a key with no `<string>` after it gives null |
| Restore.ValidateIpswAccepts | RestoreManager.cs:203-257 | the IPSW is accepted exactly when the file exists, the archive opens, one of the two plists is present and a present `Restore.plist` is readable; the info is then from `Restore.plist`, or "Unknown" twice |
| Restore.InfoFieldsFromPlist | RestoreManager.cs:234-241 | the version and build are the plist values when present and "Unknown" when absent |
| Restore.WaitForDevice | RestoreManager.cs:286-311 | finds the device exactly when one of the 30 polls sees it, and reports the first poll that did |
| Restore.DeviceProductType | RestoreManager.cs:316-358 | the connected device's product type, or "Unknown" |
| Restore.ProductTypeAgreesWithSigning | RestoreManager.cs:316-358 | the restore manager and the signing client read the same product type from a connected device |
| Restore.PrepareDevice | RestoreManager.cs:363-438 | succeeds exactly when the device is already in Recovery mode or reaches it within the polls after the enter request; the request is made only for a device not yet in Recovery mode |
| Restore.LoadRamdiskAndKernel | RestoreManager.cs:463-587 | always returns true, with the device tree, ramdisk and kernel steps as the load plan says |
| Restore.ImageStepLaunches | RestoreManager.cs:485-522 | a successful image step sends the file and then its command |
| Restore.DeviceTreeLaunches | RestoreManager.cs:470-482 | the device tree is sent as one `sendfile` command |
| Restore.LoadLaunchOrder | RestoreManager.cs:463-578 | when every step succeeds the launches are: device tree, ramdisk file, `ramdisk`, kernel file, `bootx` |
| Restore.LoadStopsAfterFailedRamdisk | RestoreManager.cs:580-586 | when the ramdisk send throws, nothing else is launched and the method still reports success |
| Restore.SimulatedProgress | RestoreManager.cs:624-629 | the simulated restore reports 70, 72, … 88 |
| Restore.FinishNonDecreasing | RestoreManager.cs:137-171 | the last stages report non-decreasing progress from 70 to 100 |
| Restore.FirmwareNonDecreasing | RestoreManager.cs:97-171 | progress from extraction on never decreases, starts at 30 and ends at 100 on success |
| Restore.ProgressNeverDecreases | RestoreManager.cs:58-169 | every run reports progress starting at 5, within 0..100, never decreasing, and ending at 100 when it completes |
| Restore.StagesPassed | RestoreManager.cs:43-180 | a run stops after 0, 1, 2, 3, 5 or 8 stages |
| Restore.FrontStages | RestoreManager.cs:58-95 | the first part of a run passes at most three stages |
| Restore.SigningNeverAborts | RestoreManager.cs:109-121 | the TSS exchange never changes how far a run gets |
| Restore.RunCompletes | RestoreManager.cs:61-143 | a run completes exactly when the IPSW validates, the device is found and prepared, both bootloaders are extracted and flashing succeeds |
| Restore.ComponentFiles | RestoreManager.cs:111-121 | the firmware files sent for signing are exactly the components present in `ComponentData`, each under its key's name with its bytes, in lookup order, with no name repeated |
| Restore.RestoreManager.constructor | RestoreManager.cs:18-28 | a new manager is idle, with no extractor and no progress |
| Restore.RestoreManager.PerformActualRestore | RestoreManager.cs:592-638 | reports the simulated progress steps and succeeds |
| Restore.RestoreManager.RestoreDevice | RestoreManager.cs:33-198 | a restore already running is refused without changes; otherwise the result is whether all stages passed, progress is that of the stages passed, and `isRestoring` is cleared |
| Restore.RestoreManager.RunStages | RestoreManager.cs:43-180 | succeeds exactly when all eight stages pass, with the progress of the stages passed and an extractor once extraction is reached |
| Restore.RestoreManager.RunFrontStages | RestoreManager.cs:58-95 | validation, device wait and preparation: the stages passed, the IPSW info and their progress |
| Restore.RestoreManager.RunFirmwareStages | RestoreManager.cs:97-179 | extraction, flashing and the final stages: success exactly when all pass, with their progress |
| Restore.RestoreManager.FlashStages | RestoreManager.cs:109-135 | flashing succeeds exactly when the bootloader flash does, with its progress |
| Restore.RestoreManager.ExtractStage | RestoreManager.cs:97-107 | creates the extractor; succeeds exactly when both bootloaders are extracted, with their paths |
| Restore.RestoreManager.FinishStages | RestoreManager.cs:137-171 | the last stages always succeed and report 70, the simulated steps, 95 and 100 |
| NativeApi.FirstExistingIsFirst | AppleMobileDeviceAPI.cs:190-211 | the library is loaded from the first candidate folder where it exists; none when it exists in none |
| NativeApi.DllDirectoryOfCandidate | AppleMobileDeviceAPI.cs:213 | the DLL directory set is the folder of the candidate |
| NativeApi.LoadCalls | AppleMobileDeviceAPI.cs:183-230 | loading the library never reboots a device |
| NativeApi.GuardedReboot | AppleMobileDeviceAPI.cs:141-158 | a reboot made right after a successful auto-boot request keeps every reboot guarded |
| NativeApi.MobileDeviceApi.constructor | AppleMobileDeviceAPI.cs:44-51 | the static state starts uninitialized, with no device, no library and no calls |
| NativeApi.MobileDeviceApi.LoadAppleLibraries | AppleMobileDeviceAPI.cs:183-230 | records the load calls; succeeds exactly when the library loads |
| NativeApi.MobileDeviceApi.FreeAllLibraries | AppleMobileDeviceAPI.cs:167-181 | frees a loaded library and clears the handle |
| NativeApi.MobileDeviceApi.Initialize | AppleMobileDeviceAPI.cs:53-84 | does nothing when already initialized; otherwise loads the library, registers the callbacks, and is initialized exactly when both succeed, freeing the library when registration fails |
| NativeApi.MobileDeviceApi.Shutdown | AppleMobileDeviceAPI.cs:86-105 | unregisters both callbacks and frees the library when initialized; always ends uninitialized |
| NativeApi.MobileDeviceApi.OnRecoveryDeviceConnected | AppleMobileDeviceAPI.cs:107-111 | remembers the connected device |
| NativeApi.MobileDeviceApi.OnRecoveryDeviceDisconnected | AppleMobileDeviceAPI.cs:113-120 | forgets the device only when it is the remembered one |
| NativeApi.MobileDeviceApi.ExitRecoveryMode | AppleMobileDeviceAPI.cs:122-165 | needs initialization and a device; sets auto-boot, reboots only when that returned 0, and succeeds exactly when both returned 0 |

## Left out

- Logging, console output, UI callbacks and the log text of every method are not modelled; only the progress values are.
- Time is not modelled. `Thread.Sleep` and `Task.Delay` become delay or wait events in the traces, and `async` methods run sequentially.
- The USB stack, WMI, `Process`, the file system, HTTP, the XML parser, SHA-1 and the native MobileDevice library are modelled as the values described above. Their own behaviour is not part of this model.
- `RestoreManager.CancelRestore` is not modelled: `restoreProcess` is never assigned, so the method never does anything.
- `RestoreManager.PerformRestore` and `RestoreManager.PerformRestoreWithIRecovery` are not modelled: nothing calls them.
- `RecoveryModeHelper.TryRestartDeviceViaDeviceManager` is not modelled: nothing calls it.
- `IRecoveryProtocol.GetDeviceInfo` is not modelled: it builds a diagnostic string from USB descriptors.
- `FirmwareExtractor.GetExtractPath` is the `extractPath` field of the model.
- `eraseData` of `RestoreDeviceAsync` is only logged by the program, so it has no effect in the model.
- Restore.RestoreManager.SignStage has no contract of its own. Its blobs go to the bootloader flasher, which does not use them, and `Restore.SigningNeverAborts` states what matters about the stage.
- Base64.Decode does not reject non-zero padding bits below the last encoded byte, which `FromBase64String` ignores as well.
- `StringComparison.OrdinalIgnoreCase` is modelled as folding ASCII letters only; culture-specific and non-ASCII case mappings are not modelled.
- `string.IndexOf(string)` is modelled as an ordinal search; culture-sensitive matching is not modelled.
- Text.Combine and the file-name helpers do not model drive-relative paths such as `C:dir` beyond the rooted check.
- Firmware.DataAfter takes `Dictionary` enumeration order as insertion order, so `ComponentFiles` lists the components in lookup order.
- An XML parse error in `ParseTSSResponse` is modelled as a document the parser rejects, which gives no blobs, because the exception comes before the loop.
- The "not eligible" branch of `RequestSHSHBlobs` differs from the other non-approved branch only in its log text, so they are one case.
- The WTF product id 0x1222 is detected by the WMI scan but not searched for by the USB paths, as in the program.
- Firmware.FirmwareExtractor.files is not linked to `Flasher.Host.fileExists`: the flasher's view of which files exist is an input of its own.
- Flasher.GetDeviceInfo does not record the `-q` start of irecovery.exe as a `Launch` event: it takes the history only to choose the tool's output, and returns no extended trace, unlike `SendFile` and `SendCommand`.
- Firmware.FirmwareExtractor.Write does not model a copy that fails after `File.Create`, which leaves a truncated file at the output path while the search returns null; the model writes nothing then, and `Cleanup` deletes the whole scratch directory either way.
- RecoveryHelper.ExitRecoveryMode takes the native strategy's outcome as an input; it is not derived from `NativeApi.MobileDeviceApi.ExitRecoveryMode`, whose own contract states that outcome.
- Form1.cs, Form1.Designer.cs, Program.cs, IDeviceRestore.cs, WinUSBRecovery.cs, AppleDeviceUSB.cs, LibimobiledeviceHelper.cs, CommandLineHelper.cs and libs/exit_recovery.py are not part of this model. Where the core calls the command-line helpers, their result is a `RecoveryHelper.Outcome` passed in.

## Findings

| source | as written | input that shows it | evidently intended | confidence | as-written member | corrected member |
|---|---|---|---|---|---|---|
| TSSClient.cs:207-215 | `ParseTSSResponse` collects all `<key>` elements and all `<data>` elements separately and pairs them by index | a response dict `<key>MESSAGE</key><string>SUCCESS</string><key>ApImg4Ticket</key><data>AAAA</data>` files the ticket's bytes under `MESSAGE` and drops `ApImg4Ticket` | each `<data>` value is filed under the key directly before it | not executed | Tss.PairingShiftsKeys | Tss.EntriesKeepTicket |

`Tss.RequestSHSHBlobs` runs `Tss.ParseTSSResponse`, the parse as written, as the program does.
`Tss.EntryBlobs` is the corrected parse, and `Tss.ParsesAgreeOnDataOnlyAnswers` shows that the two agree on every answer whose values are all `<data>`.
No other member reads the signed blobs, because the bootloader flasher ignores them, so the choice of parse changes nothing else in the model.
