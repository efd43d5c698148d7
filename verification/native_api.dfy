/** AppleMobileDeviceAPI.cs: the static state behind the native recovery API
    of Apple's MobileDevice library, modelled as one object. The library's
    entry points and the Windows calls are an oracle (`Native`), and every
    call the class makes into them is recorded in `calls`. */
module NativeApi {
  import opened Wrappers
  import opened Text
  import opened Seqs

  /** The two notification callbacks the class keeps alive. */
  datatype Callback = ConnectCallback | DisconnectCallback

  /** A call into native code. */
  datatype NativeCall =
    | SetDllDirectory(directory: string)
    | LoadLibrary(path: string)
    | FreeLibrary(handle: int)
    | Register                     // AMRestoreRegisterForDeviceNotifications
    | Unregister(callback: Callback)
    | SetAutoBoot(device: int)     // AMRecoveryModeDeviceSetAutoBoot(device, true)
    | Reboot(device: int)          // AMRecoveryModeDeviceReboot(device)

  /** What native code answers. Handles and devices are pointers, 0 being
      `IntPtr.Zero`; a recovery call that throws answers None. */
  datatype Native = Native(
    programFiles: string,
    commonFiles: string,
    programFilesX86: string,
    fileExists: string -> bool,
    setDllDirectory: string -> bool,
    loadLibrary: string -> int,
    registerResult: int,
    setAutoBoot: int -> Option<int>,
    reboot: int -> Option<int>)

  const DllFolder: string := "Apple\\Mobile Device Support"
  const DllName: string := "MobileDevice.dll"

  /** The three places `LoadAppleLibraries` looks for the library, in order. */
  function CandidatePaths(n: Native): seq<string> {
    [Combine(n.commonFiles, DllFolder + "\\" + DllName),
     Combine(n.programFiles, "Common Files\\" + DllFolder + "\\" + DllName),
     Combine(n.programFilesX86, "Common Files\\" + DllFolder + "\\" + DllName)]
  }

  /** The first candidate that exists. */
  function FirstExisting(n: Native): (r: Option<string>)
  {
    match FirstIndex(CandidatePaths(n), n.fileExists)
    case Some(i) => Some(CandidatePaths(n)[i])
    case None => None
  }

  /** The library is found exactly when a candidate exists, and the one found
      is the first that does. */
  lemma FirstExistingIsFirst(n: Native)
    ensures FirstExisting(n).None? <==> forall i :: 0 <= i < 3 ==> !n.fileExists(CandidatePaths(n)[i])
    ensures FirstExisting(n).Some? ==>
      exists i :: 0 <= i < 3
        && FirstExisting(n).value == CandidatePaths(n)[i] && n.fileExists(CandidatePaths(n)[i])
        && forall j :: 0 <= j < i ==> !n.fileExists(CandidatePaths(n)[j])
  {
    var paths := CandidatePaths(n);
    if FirstExisting(n).None? {
      assert FirstIndex(paths, n.fileExists).None?;
    }
  }

  /** The directory handed to `SetDllDirectory` for a candidate is the
      folder of MobileDevice.dll under the special folder it starts from. */
  lemma DllDirectoryOfCandidate(folder: string, sub: string)
    requires sub == DllFolder || sub == "Common Files\\" + DllFolder
    requires folder != [] && !IsDirectorySeparator(folder[|folder| - 1])
    ensures GetDirectoryName(Combine(folder, sub + "\\" + DllName)) == Combine(folder, sub)
  {
    var f := sub + "\\" + DllName;
    assert f[0] == sub[0] && f[1] == sub[1];
    assert Combine(folder, f) == folder + "\\" + f;
    assert Combine(folder, sub) == folder + "\\" + sub;
    assert folder + "\\" + f == (folder + "\\" + sub) + "\\" + DllName;
    SplitAtLastSeparator(folder + "\\" + sub, DllName);
  }

  /** The calls `LoadAppleLibraries` makes: none without a library; otherwise
      `SetDllDirectory` on its folder, and `LoadLibrary` when that succeeded. */
  function LoadCalls(n: Native): (r: seq<NativeCall>)
    ensures NoReboot(r)
  {
    match FirstExisting(n)
    case None => []
    case Some(p) =>
      [SetDllDirectory(GetDirectoryName(p))] + (if n.setDllDirectory(GetDirectoryName(p)) then [LoadLibrary(p)] else [])
  }

  /** The handle `LoadAppleLibraries` leaves behind when it starts from none:
      what `LoadLibrary` returned, or 0 when it was not called. */
  function LoadedHandle(n: Native): int {
    match FirstExisting(n)
    case None => 0
    case Some(p) => if n.setDllDirectory(GetDirectoryName(p)) then n.loadLibrary(p) else 0
  }

  /** Every reboot in the trace comes right after a `SetAutoBoot` on the same
      device that returned 0. */
  ghost predicate RebootsGuarded(calls: seq<NativeCall>, n: Native) {
    forall i :: 0 <= i < |calls| && calls[i].Reboot? ==>
      i > 0 && calls[i - 1] == SetAutoBoot(calls[i].device) && n.setAutoBoot(calls[i].device) == Some(0)
  }

  /** None of the calls is a reboot. */
  predicate NoReboot(more: seq<NativeCall>) {
    forall k :: 0 <= k < |more| ==> !more[k].Reboot?
  }

  /** Appending calls without a reboot keeps the guard. */
  lemma GuardedAppend(calls: seq<NativeCall>, more: seq<NativeCall>, n: Native)
    requires RebootsGuarded(calls, n)
    requires NoReboot(more)
    ensures RebootsGuarded(calls + more, n)
  {
    forall i | 0 <= i < |calls + more| && (calls + more)[i].Reboot?
      ensures i > 0 && (calls + more)[i - 1] == SetAutoBoot((calls + more)[i].device)
      ensures n.setAutoBoot((calls + more)[i].device) == Some(0)
    {
      assert i < |calls| ==> (calls + more)[i] == calls[i];
    }
  }

  /** A reboot right after a successful `SetAutoBoot` keeps the guard. */
  lemma GuardedReboot(calls: seq<NativeCall>, d: int, n: Native)
    requires RebootsGuarded(calls, n) && n.setAutoBoot(d) == Some(0)
    ensures RebootsGuarded(calls + [SetAutoBoot(d), Reboot(d)], n)
  {
    var t := calls + [SetAutoBoot(d), Reboot(d)];
    forall i | 0 <= i < |t| && t[i].Reboot?
      ensures i > 0 && t[i - 1] == SetAutoBoot(t[i].device) && n.setAutoBoot(t[i].device) == Some(0)
    {
      if i < |calls| {
        assert t[i] == calls[i] && t[i - 1] == calls[i - 1];
      }
    }
  }

  class MobileDeviceApi {
    const native: Native
    var isInitialized: bool
    /** The device of the last recovery-mode connection, 0 when none. */
    var recoveryDevice: int
    var libraryHandle: int
    /** Whether the callback delegates have been created. */
    var callbacksCreated: bool
    var calls: seq<NativeCall>

    /** The library is loaded exactly while the API is initialized, the
        callbacks exist by then, and no reboot is ever sent unguarded. */
    ghost predicate Valid()
      reads this
    {
      (isInitialized <==> libraryHandle != 0)
      && (isInitialized ==> callbacksCreated)
      && RebootsGuarded(calls, native)
    }

    /** The state when the class is first used. */
    constructor (native: Native)
      ensures Valid() && this.native == native
      ensures !isInitialized && recoveryDevice == 0 && libraryHandle == 0 && !callbacksCreated && calls == []
    {
      this.native := native;
      isInitialized := false;
      recoveryDevice := 0;
      libraryHandle := 0;
      callbacksCreated := false;
      calls := [];
    }

    /** `LoadAppleLibraries`: the first candidate that exists, its folder
        made the DLL directory, then the library loaded; false when no
        candidate exists, the folder is refused, or loading fails. */
    method LoadAppleLibraries() returns (ok: bool)
      modifies this`libraryHandle, this`calls
      ensures calls == old(calls) + LoadCalls(native)
      ensures ok <==> LoadedHandle(native) != 0 && |LoadCalls(native)| == 2
      ensures |LoadCalls(native)| == 2 ==> libraryHandle == LoadedHandle(native)
      ensures |LoadCalls(native)| < 2 ==> libraryHandle == old(libraryHandle)
    {
      var paths := CandidatePaths(native);
      var dllPath: Option<string> := None;
      var i := 0;
      while i < |paths|
        invariant 0 <= i <= |paths|
        invariant forall j :: 0 <= j < i ==> !native.fileExists(paths[j])
      {
        if native.fileExists(paths[i]) {
          FirstIndexAt(paths, native.fileExists, i);
          dllPath := Some(paths[i]);
          break;
        }
        i := i + 1;
      }
      if dllPath.None? {
        FirstIndexNone(paths, native.fileExists);
        return false;
      }
      var directory := GetDirectoryName(dllPath.value);
      calls := calls + [SetDllDirectory(directory)];
      if !native.setDllDirectory(directory) {
        return false;
      }
      libraryHandle := native.loadLibrary(dllPath.value);
      calls := calls + [LoadLibrary(dllPath.value)];
      ok := libraryHandle != 0;
    }

    /** `FreeAllLibraries`: a loaded library is freed and its handle cleared. */
    method FreeAllLibraries()
      modifies this`libraryHandle, this`calls
      ensures libraryHandle == 0
      ensures calls == old(calls) + (if old(libraryHandle) != 0 then [FreeLibrary(old(libraryHandle))] else [])
    {
      if libraryHandle != 0 {
        calls := calls + [FreeLibrary(libraryHandle)];
        libraryHandle := 0;
      }
    }

    /** `Initialize`: nothing when already initialized; otherwise, once the
        library is loaded, the callbacks are created and registered, and the
        API is initialized exactly when registration returns 0; a failed
        registration frees the library again. */
    method Initialize()
      requires Valid()
      modifies this`calls, this`libraryHandle, this`isInitialized, this`callbacksCreated
      ensures Valid()
      ensures old(isInitialized) ==>
        isInitialized && libraryHandle == old(libraryHandle)
        && calls == old(calls) && callbacksCreated == old(callbacksCreated)
      ensures !old(isInitialized) ==>
        var h := LoadedHandle(native);
        var loaded := h != 0 && |LoadCalls(native)| == 2;
        (isInitialized <==> loaded && native.registerResult == 0)
        && libraryHandle == (if isInitialized then h else 0)
        && callbacksCreated == (old(callbacksCreated) || loaded)
        && calls == old(calls) + LoadCalls(native)
                    + (if !loaded then []
                       else [Register] + (if native.registerResult == 0 then [] else [FreeLibrary(h)]))
    {
      if isInitialized {
        return;
      }
      var loaded := LoadAppleLibraries();
      GuardedAppend(old(calls), LoadCalls(native), native);
      if !loaded {
        return;
      }
      callbacksCreated := true;
      var result := native.registerResult;
      GuardedAppend(calls, [Register], native);
      calls := calls + [Register];
      if result == 0 {
        isInitialized := true;
      } else {
        GuardedAppend(calls, [FreeLibrary(libraryHandle)], native);
        FreeAllLibraries();
      }
    }

    /** `Shutdown`: nothing when not initialized; otherwise both callbacks
        are unregistered, the library freed and the API uninitialized. */
    method Shutdown()
      requires Valid()
      modifies this`calls, this`libraryHandle, this`isInitialized
      ensures Valid()
      ensures !isInitialized && libraryHandle == 0
      ensures !old(isInitialized) ==> calls == old(calls)
      ensures old(isInitialized) ==>
        calls == old(calls) + [Unregister(ConnectCallback), Unregister(DisconnectCallback), FreeLibrary(old(libraryHandle))]
    {
      if !isInitialized {
        return;
      }
      var unregister := [];
      if callbacksCreated {
        unregister := [Unregister(ConnectCallback), Unregister(DisconnectCallback)];
      }
      GuardedAppend(calls, unregister + [FreeLibrary(libraryHandle)], native);
      calls := calls + unregister;
      FreeAllLibraries();
      isInitialized := false;
    }

    /** `OnRecoveryDeviceConnected`: the new device replaces the stored one. */
    method OnRecoveryDeviceConnected(device: int)
      requires Valid()
      modifies this`recoveryDevice
      ensures Valid() && recoveryDevice == device
    {
      recoveryDevice := device;
    }

    /** `OnRecoveryDeviceDisconnected`: the stored device is cleared only
        when it is the one that left. */
    method OnRecoveryDeviceDisconnected(device: int)
      requires Valid()
      modifies this`recoveryDevice
      ensures Valid()
      ensures recoveryDevice == if device == old(recoveryDevice) then 0 else old(recoveryDevice)
    {
      if device == recoveryDevice {
        recoveryDevice := 0;
      }
    }

    /** `ExitRecoveryMode`: false without a native call when the API is not
        initialized or no device is stored; otherwise `SetAutoBoot` on the
        device, and `Reboot` only when that returned 0. True exactly when
        both returned 0. The stored device is left as it is. */
    method ExitRecoveryMode() returns (ok: bool)
      requires Valid()
      modifies this`calls
      ensures Valid()
      ensures !isInitialized || recoveryDevice == 0 ==> !ok && calls == old(calls)
      ensures isInitialized && recoveryDevice != 0 ==>
        calls == old(calls) + [SetAutoBoot(recoveryDevice)]
                 + (if native.setAutoBoot(recoveryDevice) == Some(0) then [Reboot(recoveryDevice)] else [])
      ensures ok <==>
        (isInitialized && recoveryDevice != 0
         && native.setAutoBoot(recoveryDevice) == Some(0) && native.reboot(recoveryDevice) == Some(0))
    {
      if !isInitialized || recoveryDevice == 0 {
        return false;
      }
      var device := recoveryDevice;
      var result := native.setAutoBoot(device);
      if result != Some(0) {
        GuardedAppend(calls, [SetAutoBoot(device)], native);
        calls := calls + [SetAutoBoot(device)];
        return false;
      }
      GuardedReboot(calls, device, native);
      calls := calls + [SetAutoBoot(device), Reboot(device)];
      result := native.reboot(device);
      ok := result == Some(0);
    }
  }
}
