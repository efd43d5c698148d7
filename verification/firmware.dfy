/** FirmwareExtractor.cs: which entries of an IPSW archive become the restore
    components, and the scratch directory they are extracted into. The archive
    is a list of entries; the scratch directory is a map from file path to
    contents. */
module Firmware {
  import opened Wrappers
  import opened Seqs
  import opened Text
  import opened Ascii

  /** One archive entry: its name, its recorded size, its contents, and
      whether its input stream can be opened. */
  datatype ZipEntry = ZipEntry(name: string, size: int, data: seq<byte>, readable: bool)

  /** The keys `ComponentData` is filled under. */
  datatype ComponentKey = BuildManifestKey | IBSSKey | IBECKey | DeviceTreeKey | KernelCacheKey | RestoreRamDiskKey | RestoreLogoKey {
    /** The dictionary key as the program spells it. */
    function Name(): string {
      match this
      case BuildManifestKey => "BuildManifest"
      case IBSSKey => "iBSS"
      case IBECKey => "iBEC"
      case DeviceTreeKey => "DeviceTree"
      case KernelCacheKey => "KernelCache"
      case RestoreRamDiskKey => "RestoreRamDisk"
      case RestoreLogoKey => "RestoreLogo"
    }

    /** The position of this key's lookup in `ExtractComponents`. */
    function Rank(): nat {
      match this
      case BuildManifestKey => 0
      case IBSSKey => 1
      case IBECKey => 2
      case DeviceTreeKey => 3
      case KernelCacheKey => 4
      case RestoreRamDiskKey => 5
      case RestoreLogoKey => 6
    }

    /** The name the component is searched for (for the build manifest, the
        exact entry name). */
    function Token(): string {
      match this
      case BuildManifestKey => "BuildManifest.plist"
      case IBSSKey => "iBSS"
      case IBECKey => "iBEC"
      case DeviceTreeKey => "DeviceTree"
      case KernelCacheKey => "kernelcache"
      case RestoreRamDiskKey => "RestoreRamDisk"
      case RestoreLogoKey => "RestoreLogo"
    }

    /** The name searched for when the first search finds nothing. */
    function Alternative(): Option<string> {
      match this
      case RestoreRamDiskKey => Some("ramdisk")
      case RestoreLogoKey => Some("applelogo")
      case _ => None
    }
  }

  /** Every key `ComponentData` can hold. */
  const AllKeys: set<ComponentKey> :=
    {BuildManifestKey, IBSSKey, IBECKey, DeviceTreeKey, KernelCacheKey, RestoreRamDiskKey, RestoreLogoKey}

  lemma InAllKeys(k: ComponentKey)
    ensures k in AllKeys && k.Rank() < 7
  {
    match k
    case BuildManifestKey =>
    case IBSSKey =>
    case IBECKey =>
    case DeviceTreeKey =>
    case KernelCacheKey =>
    case RestoreRamDiskKey =>
    case RestoreLogoKey =>
  }

  /** The result of `ExtractComponents`: the path of each extracted component
      (the root filesystem by entry name only) and the bytes read back. */
  datatype FirmwareComponents = FirmwareComponents(
    iBSS: Option<string>,
    iBEC: Option<string>,
    restoreRamdisk: Option<string>,
    kernelcache: Option<string>,
    deviceTree: Option<string>,
    restoreLogo: Option<string>,
    buildManifest: Option<string>,
    restore: Option<string>,
    systemImage: Option<string>,
    componentData: map<ComponentKey, seq<byte>>)

  // ----- entry selection -----

  /** The entry test of `FindAndExtractComponent`: the name contains `token`,
      ignoring case. */
  function Mentions(token: string): ZipEntry -> bool {
    (e: ZipEntry) => ContainsIgnoreCase(e.name, token)
  }

  /** The first entry, in archive order, whose name contains `token`,
      ignoring case. */
  function Locate(zip: seq<ZipEntry>, token: string): (r: Option<nat>)
    ensures r.Some? ==> r.value < |zip|
    decreases |zip|
  {
    if |zip| == 0 then None
    else if ContainsIgnoreCase(zip[0].name, token) then Some(0)
    else match Locate(zip[1..], token)
      case Some(i) => Some(i + 1)
      case None => None
  }

  /** `Locate` is the first-match search with the `Mentions` test. */
  lemma {:induction false} LocateIsFirstIndex(zip: seq<ZipEntry>, token: string)
    ensures Locate(zip, token) == FirstIndex(zip, Mentions(token))
    decreases |zip|
  {
    if |zip| > 0 {
      LocateIsFirstIndex(zip[1..], token);
    }
  }

  /** `Locate` finds the first entry whose name contains the token, and
      finds none only when no entry name contains it. */
  lemma LocateIsFirst(zip: seq<ZipEntry>, token: string)
    ensures var r := Locate(zip, token);
      (r.Some? ==> r.value < |zip| && ContainsIgnoreCase(zip[r.value].name, token)
                   && forall j :: 0 <= j < r.value ==> !ContainsIgnoreCase(zip[j].name, token))
      && (r.None? ==> forall j :: 0 <= j < |zip| ==> !ContainsIgnoreCase(zip[j].name, token))
  {
    LocateIsFirstIndex(zip, token);
    forall j | 0 <= j < |zip| ensures Mentions(token)(zip[j]) == ContainsIgnoreCase(zip[j].name, token) {
    }
  }

  /** The entry test of `ExtractFile`: the name equals `fileName`, ignoring case. */
  function Named(fileName: string): ZipEntry -> bool {
    (e: ZipEntry) => EqualsIgnoreCase(e.name, fileName)
  }

  /** The first entry named `fileName`, ignoring case (`ZipFile.GetEntry`). */
  function LocateFile(zip: seq<ZipEntry>, fileName: string): (r: Option<nat>)
    ensures r.Some? ==> r.value < |zip|
    decreases |zip|
  {
    if |zip| == 0 then None
    else if EqualsIgnoreCase(zip[0].name, fileName) then Some(0)
    else match LocateFile(zip[1..], fileName)
      case Some(i) => Some(i + 1)
      case None => None
  }

  /** `LocateFile` is the first-match search with the `Named` test. */
  lemma {:induction false} LocateFileIsFirstIndex(zip: seq<ZipEntry>, fileName: string)
    ensures LocateFile(zip, fileName) == FirstIndex(zip, Named(fileName))
    decreases |zip|
  {
    if |zip| > 0 {
      LocateFileIsFirstIndex(zip[1..], fileName);
    }
  }

  /** `LocateFile` finds the first entry with that name, ignoring case, and
      finds none only when no entry has it. */
  lemma LocateFileIsFirst(zip: seq<ZipEntry>, fileName: string)
    ensures var r := LocateFile(zip, fileName);
      (r.Some? ==> r.value < |zip| && EqualsIgnoreCase(zip[r.value].name, fileName)
                   && forall j :: 0 <= j < r.value ==> !EqualsIgnoreCase(zip[j].name, fileName))
      && (r.None? ==> forall j :: 0 <= j < |zip| ==> !EqualsIgnoreCase(zip[j].name, fileName))
  {
    LocateFileIsFirstIndex(zip, fileName);
    forall j | 0 <= j < |zip| ensures Named(fileName)(zip[j]) == EqualsIgnoreCase(zip[j].name, fileName) {
    }
  }

  /** The patterns `FindAndExtractComponent` tries; the second is matched
      literally, `.*` included. */
  function SearchPatterns(componentName: string, productType: string): seq<string> {
    [componentName + "." + productType, componentName + ".*" + productType, componentName]
  }

  /** The pattern test of `FindAndExtractComponent` for one entry name. */
  predicate MatchesAnyPattern(entryName: string, componentName: string, productType: string) {
    exists p | p in SearchPatterns(componentName, productType) ::
      ContainsIgnoreCase(entryName, p) || ContainsIgnoreCase(entryName, componentName)
  }

  /** The product-type patterns never change which entry is chosen: an entry
      matches some pattern exactly when its name contains the bare token. */
  lemma PatternsNeverChangeChoice(entryName: string, componentName: string, productType: string)
    ensures MatchesAnyPattern(entryName, componentName, productType) <==> ContainsIgnoreCase(entryName, componentName)
  {
    var patterns := SearchPatterns(componentName, productType);
    assert patterns[0] == componentName + ("." + productType);
    assert patterns[1] == componentName + (".*" + productType);
    if ContainsIgnoreCase(entryName, patterns[0]) {
      ContainsIgnoreCaseFront(entryName, componentName, "." + productType);
    }
    if ContainsIgnoreCase(entryName, patterns[1]) {
      ContainsIgnoreCaseFront(entryName, componentName, ".*" + productType);
    }
    assert patterns[2] == componentName;
  }

  /** Where an entry is written: the scratch directory joined with the entry's
      file name. An entry whose file name is empty (a directory entry) would be
      written onto the scratch directory itself, which fails; so does an entry
      whose stream cannot be opened. */
  function OutputPath(dir: string, e: ZipEntry, fileName: string): Option<string> {
    if e.readable && fileName != [] then Some(Combine(dir, fileName)) else None
  }

  /** What `FindAndExtractComponent` returns: the first entry mentioning the
      token, extracted; null when there is none or its extraction throws. */
  function Extracted(zip: seq<ZipEntry>, dir: string, token: string): Option<string> {
    match Locate(zip, token)
    case None => None
    case Some(k) => OutputPath(dir, zip[k], GetFileName(zip[k].name))
  }

  /** A found component is the first entry mentioning the token, written to
      the scratch directory under its own file name; when none is found,
      either no entry mentions the token or the first that does could not be
      extracted (the search does not go on to later entries). */
  lemma ExtractedIsFirstMention(zip: seq<ZipEntry>, dir: string, token: string)
    ensures var r := Extracted(zip, dir, token);
      (r.Some? ==> exists k :: 0 <= k < |zip| && ContainsIgnoreCase(zip[k].name, token)
                     && (forall j :: 0 <= j < k ==> !ContainsIgnoreCase(zip[j].name, token))
                     && zip[k].readable && GetFileName(zip[k].name) != []
                     && r.value == Combine(dir, GetFileName(zip[k].name)))
      && (r.None? <==>
            ((forall j :: 0 <= j < |zip| ==> !ContainsIgnoreCase(zip[j].name, token))
             || (Locate(zip, token).Some? && (!zip[Locate(zip, token).value].readable
                                              || GetFileName(zip[Locate(zip, token).value].name) == []))))
  {
    LocateIsFirst(zip, token);
  }

  /** What `ExtractFile` returns: the entry with exactly that name (case
      aside), extracted under that name. */
  function ExtractedFile(zip: seq<ZipEntry>, dir: string, fileName: string): Option<string> {
    match LocateFile(zip, fileName)
    case None => None
    case Some(k) => OutputPath(dir, zip[k], fileName)
  }

  /** A component with a fallback token: the fallback search runs only when
      the first search returned null. */
  function WithFallback(zip: seq<ZipEntry>, dir: string, token: string, alternative: string): Option<string> {
    var first := Extracted(zip, dir, token);
    if first.Some? then first else Extracted(zip, dir, alternative)
  }

  // ----- root filesystem -----

  /** A disk image that is neither a ramdisk nor an update image. */
  predicate IsRootCandidate(e: ZipEntry) {
    EndsWithIgnoreCase(e.name, ".dmg") && !ContainsIgnoreCase(e.name, "Ramdisk") && !ContainsIgnoreCase(e.name, "Update")
  }

  /** Entry `k` is the one `FindRootFilesystem` picks: a candidate of positive
      size, at least as large as every candidate, and strictly larger than the
      candidates before it. */
  predicate IsLargestAt(zip: seq<ZipEntry>, k: nat) {
    k < |zip| && IsRootCandidate(zip[k]) && zip[k].size > 0
    && (forall j :: 0 <= j < |zip| && IsRootCandidate(zip[j]) ==> zip[j].size <= zip[k].size)
    && (forall j :: 0 <= j < k && IsRootCandidate(zip[j]) ==> zip[j].size < zip[k].size)
  }

  /** At most one entry is the largest in that sense. */
  lemma LargestIsUnique(zip: seq<ZipEntry>, k: nat, m: nat)
    requires IsLargestAt(zip, k) && IsLargestAt(zip, m)
    ensures k == m
  {
  }

  /** The root filesystem choice: None exactly when no candidate has a
      positive size, otherwise the name of the largest candidate. */
  predicate IsRootFilesystemChoice(zip: seq<ZipEntry>, r: Option<string>) {
    (r.None? <==> forall j :: 0 <= j < |zip| && IsRootCandidate(zip[j]) ==> zip[j].size <= 0)
    && (r.Some? ==> exists k :: 0 <= k < |zip| && IsLargestAt(zip, k) && r.value == zip[k].name)
  }

  // ----- the extractor -----

  /** The bytes of the entry component `token` is found in. */
  function EntryData(zip: seq<ZipEntry>, token: string): seq<byte> {
    match Locate(zip, token)
    case Some(k) => zip[k].data
    case None => []
  }

  /** The path `ExtractComponents` reports for each keyed component: the
      build manifest by exact name, the others by token, with the
      alternative token searched when the first finds nothing. */
  function PathFor(zip: seq<ZipEntry>, dir: string, key: ComponentKey): Option<string> {
    if key == BuildManifestKey then ExtractedFile(zip, dir, key.Token())
    else if key.Alternative().Some? then WithFallback(zip, dir, key.Token(), key.Alternative().value)
    else Extracted(zip, dir, key.Token())
  }

  /** The bytes of the entry each keyed component is extracted from. */
  function BytesFor(zip: seq<ZipEntry>, dir: string, key: ComponentKey): seq<byte> {
    if key == BuildManifestKey then
      (match LocateFile(zip, key.Token()) case Some(k) => zip[k].data case None => [])
    else if key.Alternative().Some? && Extracted(zip, dir, key.Token()).None? then
      EntryData(zip, key.Alternative().value)
    else EntryData(zip, key.Token())
  }

  /** What the lookup for `key` contributes to `ComponentData`: the bytes of
      its entry when the component was found. */
  function Lookup(zip: seq<ZipEntry>, dir: string, key: ComponentKey): Option<seq<byte>> {
    if PathFor(zip, dir, key).Some? then Some(BytesFor(zip, dir, key)) else None
  }

  /** The key looked up at position `i` of `ExtractComponents`. */
  function KeyAt(i: nat): (k: ComponentKey)
    requires i < 7
    ensures k.Rank() == i
  {
    [BuildManifestKey, IBSSKey, IBECKey, DeviceTreeKey, KernelCacheKey, RestoreRamDiskKey, RestoreLogoKey][i]
  }

  /** The lookup results for every key, in the order `ExtractComponents`
      performs them (the order of `ComponentKey.Rank`). */
  function Results(zip: seq<ZipEntry>, dir: string): (r: seq<Option<seq<byte>>>)
    ensures |r| == 7
  {
    seq(7, i requires 0 <= i < 7 => Lookup(zip, dir, KeyAt(i)))
  }

  /** `ComponentData` once the lookups with the given results have run, in
      order: the keys whose lookup found something, with what it found. */
  function DataAfter(results: seq<Option<seq<byte>>>): map<ComponentKey, seq<byte>> {
    map k | k in AllKeys && k.Rank() < |results| && results[k.Rank()].Some? :: results[k.Rank()].value
  }

  /** Before any lookup, `ComponentData` is empty. */
  lemma DataAfterNone()
    ensures DataAfter([]) == map[]
  {
    assert DataAfter([]).Keys == {};
  }

  /** The next lookup adds its key exactly when it found something. */
  lemma DataAfterStep(results: seq<Option<seq<byte>>>, key: ComponentKey, r: Option<seq<byte>>)
    requires |results| == key.Rank()
    ensures r.Some? ==> DataAfter(results + [r]) == DataAfter(results)[key := r.value]
    ensures r.None? ==> DataAfter(results + [r]) == DataAfter(results)
  {
    if r.Some? {
      DataAfterFound(results, key, r.value);
    } else {
      DataAfterMissing(results, key);
    }
  }

  lemma DataAfterFound(results: seq<Option<seq<byte>>>, key: ComponentKey, v: seq<byte>)
    requires |results| == key.Rank()
    ensures DataAfter(results + [Some(v)]) == DataAfter(results)[key := v]
  {
    InAllKeys(key);
    var rs := results + [Some(v)];
    var before, after := DataAfter(results), DataAfter(rs);
    forall k | k in AllKeys
      ensures k.Rank() < |results| ==> rs[k.Rank()] == results[k.Rank()]
      ensures k.Rank() == |results| ==> k == key
    {
      RankIsInjective(k, key);
    }
    assert after.Keys == before.Keys + {key};
  }

  lemma DataAfterMissing(results: seq<Option<seq<byte>>>, key: ComponentKey)
    requires |results| == key.Rank()
    ensures DataAfter(results + [None]) == DataAfter(results)
  {
    var rs := results + [None];
    var before, after := DataAfter(results), DataAfter(rs);
    forall k | k in AllKeys
      ensures k.Rank() < |results| ==> rs[k.Rank()] == results[k.Rank()]
      ensures k.Rank() == |results| ==> k == key
    {
      RankIsInjective(k, key);
    }
    assert after.Keys == before.Keys;
  }

  /** Different keys have different ranks. */
  lemma RankIsInjective(a: ComponentKey, b: ComponentKey)
    ensures a.Rank() == b.Rank() ==> a == b
  {
  }

  /** The lookup for `key` extends `ComponentData` from the prefix before it
      to the prefix including it. */
  lemma NextResult(zip: seq<ZipEntry>, dir: string, key: ComponentKey)
    ensures key.Rank() < 7
    ensures var before, after := Results(zip, dir)[..key.Rank()], Results(zip, dir)[..key.Rank() + 1];
      DataAfter([]) == map[]
      && (Lookup(zip, dir, key).Some? ==> DataAfter(after) == DataAfter(before)[key := Lookup(zip, dir, key).value])
      && (Lookup(zip, dir, key).None? ==> DataAfter(after) == DataAfter(before))
  {
    ResultsAt(zip, dir, key);
    var results := Results(zip, dir);
    assert results[..key.Rank() + 1] == results[..key.Rank()] + [results[key.Rank()]];
    DataAfterStep(results[..key.Rank()], key, results[key.Rank()]);
    DataAfterNone();
  }

  /** The result recorded for `k` is the lookup for `k`. */
  lemma ResultsAt(zip: seq<ZipEntry>, dir: string, k: ComponentKey)
    ensures k.Rank() < 7 && Results(zip, dir)[k.Rank()] == Lookup(zip, dir, k)
  {
    InAllKeys(k);
    assert KeyAt(k.Rank()) == k by {
      match k
      case BuildManifestKey =>
      case IBSSKey =>
      case IBECKey =>
      case DeviceTreeKey =>
      case KernelCacheKey =>
      case RestoreRamDiskKey =>
      case RestoreLogoKey =>
    }
  }

  /** The prefix of the results after the last lookup is all of them. */
  lemma AllResults(zip: seq<ZipEntry>, dir: string)
    ensures Results(zip, dir)[..7] == Results(zip, dir)
  {
  }

  /** After all lookups, `ComponentData` holds exactly the found components,
      each with the bytes of the entry it was found in. */
  lemma DataAfterAll(zip: seq<ZipEntry>, dir: string, k: ComponentKey)
    ensures var data := DataAfter(Results(zip, dir));
      (k in data <==> PathFor(zip, dir, k).Some?) && (k in data ==> data[k] == BytesFor(zip, dir, k))
  {
    InAllKeys(k);
    ResultsAt(zip, dir, k);
  }

  /** What `ExtractComponents` reports for an archive extracted into `dir`:
      each component's path, the root filesystem's entry name and the bytes
      read back into `ComponentData`. */
  predicate ExtractedFrom(zip: seq<ZipEntry>, dir: string, c: FirmwareComponents) {
    c.buildManifest == PathFor(zip, dir, BuildManifestKey)
    && c.restore == ExtractedFile(zip, dir, "Restore.plist")
    && c.iBSS == PathFor(zip, dir, IBSSKey)
    && c.iBEC == PathFor(zip, dir, IBECKey)
    && c.deviceTree == PathFor(zip, dir, DeviceTreeKey)
    && c.kernelcache == PathFor(zip, dir, KernelCacheKey)
    && c.restoreRamdisk == PathFor(zip, dir, RestoreRamDiskKey)
    && c.restoreLogo == PathFor(zip, dir, RestoreLogoKey)
    && IsRootFilesystemChoice(zip, c.systemImage)
    && c.componentData == DataAfter(Results(zip, dir))
  }

  /** One file write of the extraction: where it went, if anywhere, and
      the bytes written. */
  type FileWrite = (Option<string>, seq<byte>)

  /** The scratch files after one write: a write that went nowhere
      changes nothing. */
  function Store(files: map<string, seq<byte>>, w: FileWrite): map<string, seq<byte>> {
    if w.0.Some? then files[w.0.value := w.1] else files
  }

  /** The scratch files after the given writes, in order; a later write to
      the same path replaces an earlier one. */
  function Stored(files: map<string, seq<byte>>, writes: seq<FileWrite>): map<string, seq<byte>>
    decreases |writes|
  {
    if writes == [] then files
    else Store(Stored(files, writes[..|writes| - 1]), writes[|writes| - 1])
  }

  /** A path is present after the writes exactly when it was before or some
      write went to it; a path no write went to keeps its bytes. */
  lemma {:induction false} StoredPaths(files: map<string, seq<byte>>, writes: seq<FileWrite>, p: string)
    ensures p in Stored(files, writes) <==>
      p in files || exists i :: 0 <= i < |writes| && writes[i].0 == Some(p)
    ensures (forall i :: 0 <= i < |writes| ==> writes[i].0 != Some(p)) && p in files ==>
      Stored(files, writes)[p] == files[p]
    decreases |writes|
  {
    if writes != [] {
      var n := |writes| - 1;
      StoredPaths(files, writes[..n], p);
      if exists i :: 0 <= i < |writes| && writes[i].0 == Some(p) {
        var i :| 0 <= i < |writes| && writes[i].0 == Some(p);
        if i < n {
          assert writes[..n][i].0 == Some(p);
        }
      }
      if (forall i :: 0 <= i < |writes| ==> writes[i].0 != Some(p)) {
        assert forall i :: 0 <= i < n ==> writes[..n][i].0 != Some(p);
      }
    }
  }

  /** The last write to a path decides its bytes. */
  lemma {:induction false} StoredLastWrite(files: map<string, seq<byte>>, writes: seq<FileWrite>, i: nat)
    requires i < |writes| && writes[i].0.Some?
    requires forall j :: i < j < |writes| ==> writes[j].0 != writes[i].0
    ensures writes[i].0.value in Stored(files, writes)
    ensures Stored(files, writes)[writes[i].0.value] == writes[i].1
    decreases |writes|
  {
    var n := |writes| - 1;
    if i < n {
      StoredLastWrite(files, writes[..n], i);
    }
  }

  /** The write made for `key`: its entry's bytes to its reported path. */
  function KeyWrite(zip: seq<ZipEntry>, dir: string, key: ComponentKey): FileWrite {
    (PathFor(zip, dir, key), BytesFor(zip, dir, key))
  }

  /** The writes for the keys of ranks `from` up to `to`, in rank order. */
  function KeyWrites(zip: seq<ZipEntry>, dir: string, from: nat, to: nat): (r: seq<FileWrite>)
    requires from <= to <= 7
    ensures |r| == to - from
    ensures forall j :: 0 <= j < to - from ==> r[j] == KeyWrite(zip, dir, KeyAt(from + j))
  {
    seq(to - from, j requires 0 <= j < to - from => KeyWrite(zip, dir, KeyAt(from + j)))
  }

  /** Writes made one list after another. */
  lemma {:induction false} StoredAppend(files: map<string, seq<byte>>, a: seq<FileWrite>, b: seq<FileWrite>)
    ensures Stored(files, a + b) == Stored(Stored(files, a), b)
    decreases |b|
  {
    if b == [] {
      assert a + b == a;
    } else {
      var front := b[..|b| - 1];
      assert (a + b)[..|a + b| - 1] == a + front;
      assert (a + b)[|a + b| - 1] == b[|b| - 1];
      StoredAppend(files, a, front);
    }
  }

  /** Two writes, one after the other. */
  lemma StoredTwo(files: map<string, seq<byte>>, writes: seq<FileWrite>)
    requires |writes| == 2
    ensures Stored(files, writes) == Store(Store(files, writes[0]), writes[1])
  {
    var first := writes[..1];
    assert writes[..|writes| - 1] == first;
    assert Stored(files, writes) == Store(Stored(files, first), writes[1]);
    assert first[..|first| - 1] == [];
    assert Stored(files, first) == Store(files, writes[0]);
  }

  /** Three writes, one after another. */
  lemma StoredThree(files: map<string, seq<byte>>, writes: seq<FileWrite>)
    requires |writes| == 3
    ensures Stored(files, writes) == Store(Store(Store(files, writes[0]), writes[1]), writes[2])
  {
    StoredTwo(files, writes[..2]);
    assert writes[..|writes| - 1] == writes[..2];
  }

  /** The bytes of the entry named `fileName`, as `ExtractFile` writes them. */
  function FileBytes(zip: seq<ZipEntry>, fileName: string): seq<byte> {
    match LocateFile(zip, fileName)
    case Some(k) => zip[k].data
    case None => []
  }

  /** The writes of the two property lists, each extracted by its exact
      name: the build manifest, then Restore.plist. */
  function PlistWrites(zip: seq<ZipEntry>, dir: string): (r: seq<FileWrite>)
    ensures |r| == 2
  {
    [KeyWrite(zip, dir, BuildManifestKey), (ExtractedFile(zip, dir, "Restore.plist"), FileBytes(zip, "Restore.plist"))]
  }

  /** Every write `ExtractComponents` makes, in order: the build manifest,
      Restore.plist, then the other keyed components by rank. */
  function ExtractionWrites(zip: seq<ZipEntry>, dir: string): (r: seq<FileWrite>)
    ensures |r| == 8
  {
    PlistWrites(zip, dir) + KeyWrites(zip, dir, 1, 7)
  }

  /** The files after the property lists, then the boot components, then
      the restore images are the files after every extraction write. */
  lemma ExtractionWritesStored(zip: seq<ZipEntry>, dir: string, f0: map<string, seq<byte>>,
                               f1: map<string, seq<byte>>, f2: map<string, seq<byte>>, f3: map<string, seq<byte>>)
    requires f1 == Stored(f0, PlistWrites(zip, dir))
    requires f2 == Stored(f1, KeyWrites(zip, dir, 1, 4))
    requires f3 == Stored(f2, KeyWrites(zip, dir, 4, 7))
    ensures f3 == Stored(f0, ExtractionWrites(zip, dir))
  {
    var plists, boot, images := PlistWrites(zip, dir), KeyWrites(zip, dir, 1, 4), KeyWrites(zip, dir, 4, 7);
    assert KeyWrites(zip, dir, 1, 7) == boot + images;
    assert ExtractionWrites(zip, dir) == (plists + boot) + images;
    StoredAppend(f0, plists + boot, images);
    StoredAppend(f0, plists, boot);
  }

  /** Where the write for `key` sits among `ExtractionWrites`. */
  function WriteIndex(key: ComponentKey): (i: nat)
    ensures i < 8
  {
    if key == BuildManifestKey then 0 else key.Rank() + 1
  }

  /** After extraction, every component found is in the scratch directory;
      unless a later component was written to the same path, it holds the
      bytes of the entry it was found in; and a path no step wrote keeps
      what it held. */
  lemma ExtractedFilesHold(zip: seq<ZipEntry>, dir: string, files: map<string, seq<byte>>,
                           key: ComponentKey, p: string)
    ensures var after := Stored(files, ExtractionWrites(zip, dir));
      (PathFor(zip, dir, key) == Some(p) ==> p in after)
      && (PathFor(zip, dir, key) == Some(p)
          && (forall j :: WriteIndex(key) < j < 8 ==> ExtractionWrites(zip, dir)[j].0 != Some(p))
          ==> after[p] == BytesFor(zip, dir, key))
      && ((forall j :: 0 <= j < 8 ==> ExtractionWrites(zip, dir)[j].0 != Some(p)) ==>
          (p in after <==> p in files) && (p in files ==> after[p] == files[p]))
  {
    var writes := ExtractionWrites(zip, dir);
    var i := WriteIndex(key);
    assert writes[i] == KeyWrite(zip, dir, key) by {
      if key != BuildManifestKey {
        assert writes[i] == KeyWrites(zip, dir, 1, 7)[i - 2];
      }
    }
    StoredPaths(files, writes, p);
    if PathFor(zip, dir, key) == Some(p) {
      assert writes[i].0 == Some(p);
      if forall j :: i < j < 8 ==> writes[j].0 != Some(p) {
        StoredLastWrite(files, writes, i);
      }
    }
  }

  /** The scratch directory: a fresh GUID-named folder under the temporary
      directory. */
  function ScratchDirectory(tempPath: string, guid: string): string {
    Combine(tempPath, ScratchPrefix + guid)
  }

  const ScratchPrefix: string := "iPhoneTool_Restore_"

  class FirmwareExtractor {
    const ipswPath: string
    /** The scratch directory; empty until `ExtractComponents` creates one. */
    var extractPath: string
    /** Whether the scratch directory exists. */
    var scratchExists: bool
    /** The files written into the scratch directory, by full path. */
    var files: map<string, seq<byte>>

    constructor (ipswPath: string)
      ensures this.ipswPath == ipswPath && extractPath == [] && !scratchExists && files == map[]
    {
      this.ipswPath := ipswPath;
      extractPath := [];
      scratchExists := false;
      files := map[];
    }

    /** Writes an entry's contents to `path`, or throws. */
    method Write(e: ZipEntry, fileName: string) returns (path: Option<string>)
      modifies this`files
      ensures path == OutputPath(extractPath, e, fileName)
      ensures path.Some? ==> files == old(files)[path.value := e.data]
      ensures path.None? ==> files == old(files)
    {
      if !e.readable || fileName == [] {
        return None;
      }
      var outputPath := Combine(extractPath, fileName);
      files := files[outputPath := e.data];
      return Some(outputPath);
    }

    /** `ExtractFile`: the entry named `fileName`, extracted under that name;
        null when it is absent or extraction throws. */
    method ExtractFile(zip: seq<ZipEntry>, fileName: string) returns (path: Option<string>)
      modifies this`files
      ensures path == ExtractedFile(zip, extractPath, fileName)
      ensures path.Some? ==> files == old(files)[path.value := zip[LocateFile(zip, fileName).value].data]
      ensures path.None? ==> files == old(files)
    {
      var entry := LocateFile(zip, fileName);
      if entry.None? {
        return None;
      }
      path := Write(zip[entry.value], fileName);
    }

    /** `FindAndExtractComponent`: for each entry in archive order, each
        pattern in turn; the first entry that matches is extracted. */
    method FindAndExtractComponent(zip: seq<ZipEntry>, componentName: string, productType: string)
      returns (path: Option<string>)
      modifies this`files
      ensures path == Extracted(zip, extractPath, componentName)
      ensures path.Some? ==> files == old(files)[path.value := EntryData(zip, componentName)]
      ensures path.None? ==> files == old(files)
    {
      var searchPatterns := SearchPatterns(componentName, productType);
      var i := 0;
      while i < |zip|
        invariant 0 <= i <= |zip|
        invariant forall j :: 0 <= j < i ==> !Mentions(componentName)(zip[j])
        invariant files == old(files)
      {
        var entryName := zip[i].name;
        PatternsNeverChangeChoice(entryName, componentName, productType);
        var k := 0;
        while k < |searchPatterns|
          invariant 0 <= k <= |searchPatterns|
          invariant k > 0 ==> !ContainsIgnoreCase(entryName, componentName)
          invariant files == old(files)
        {
          if ContainsIgnoreCase(entryName, searchPatterns[k]) || ContainsIgnoreCase(entryName, componentName) {
            assert Mentions(componentName)(zip[i]);
            FirstIndexAt(zip, Mentions(componentName), i);
            LocateIsFirstIndex(zip, componentName);
            path := Write(zip[i], GetFileName(entryName));
            return;
          }
          k := k + 1;
        }
        i := i + 1;
      }
      FirstIndexNone(zip, Mentions(componentName));
      LocateIsFirstIndex(zip, componentName);
      return None;
    }

    /** One step of `ExtractComponents`: find and extract a component (trying
        the alternative token when the first search returns null) and, when
        found, read the extracted file back into the data under `key`. */
    method ExtractInto(zip: seq<ZipEntry>, productType: string, key: ComponentKey,
                       data: map<ComponentKey, seq<byte>>)
      returns (path: Option<string>, data': map<ComponentKey, seq<byte>>)
      requires key != BuildManifestKey
      requires data == DataAfter(Results(zip, extractPath)[..key.Rank()])
      modifies this`files
      ensures path == PathFor(zip, extractPath, key)
      ensures files == Store(old(files), KeyWrite(zip, extractPath, key))
      ensures data' == DataAfter(Results(zip, extractPath)[..key.Rank() + 1])
    {
      path := FindAndExtractComponent(zip, key.Token(), productType);
      if path.None? && key.Alternative().Some? {
        path := FindAndExtractComponent(zip, key.Alternative().value, productType);
      }
      NextResult(zip, extractPath, key);
      data' := data;
      if path.Some? {
        data' := data'[key := files[path.value]];
      }
    }

    /** `FindRootFilesystem`: the scan keeping the largest candidate seen. */
    method FindRootFilesystem(zip: seq<ZipEntry>) returns (name: Option<string>)
      ensures IsRootFilesystemChoice(zip, name)
    {
      var largestDmg: Option<nat> := None;
      var largestSize := 0;
      var i := 0;
      while i < |zip|
        invariant 0 <= i <= |zip|
        invariant largestDmg.None? ==>
          largestSize == 0 && forall j :: 0 <= j < i && IsRootCandidate(zip[j]) ==> zip[j].size <= 0
        invariant largestDmg.Some? ==>
          largestDmg.value < i && largestSize == zip[largestDmg.value].size
          && IsRootCandidate(zip[largestDmg.value]) && largestSize > 0
          && (forall j :: 0 <= j < i && IsRootCandidate(zip[j]) ==> zip[j].size <= largestSize)
          && (forall j :: 0 <= j < largestDmg.value && IsRootCandidate(zip[j]) ==> zip[j].size < largestSize)
      {
        if IsRootCandidate(zip[i]) && zip[i].size > largestSize {
          largestSize := zip[i].size;
          largestDmg := Some(i);
        }
        i := i + 1;
      }
      if largestDmg.Some? {
        assert IsLargestAt(zip, largestDmg.value);
        return Some(zip[largestDmg.value].name);
      }
      return None;
    }

    /** `ExtractComponents`: creates the scratch directory, then extracts the
        components in their fixed order, reading each found one back into
        `ComponentData`. An archive that cannot be opened is rethrown (None). */
    method ExtractComponents(archive: Option<seq<ZipEntry>>, productType: string, tempPath: string, guid: string)
      returns (result: Option<FirmwareComponents>)
      modifies this
      ensures extractPath == ScratchDirectory(tempPath, guid) && scratchExists
      ensures archive.None? <==> result.None?
      ensures archive.Some? ==> ExtractedFrom(archive.value, extractPath, result.value)
      ensures archive.Some? ==> files == Stored(old(files), ExtractionWrites(archive.value, extractPath))
      ensures archive.None? ==> files == old(files)
    {
      extractPath := ScratchDirectory(tempPath, guid);
      scratchExists := true;
      if archive.None? {
        return None;
      }
      var c := ExtractAll(archive.value, productType);
      return Some(c);
    }

    /** The body of `ExtractComponents` once the archive is open. */
    method ExtractAll(zip: seq<ZipEntry>, productType: string) returns (c: FirmwareComponents)
      modifies this`files
      ensures ExtractedFrom(zip, extractPath, c)
      ensures files == Stored(old(files), ExtractionWrites(zip, extractPath))
    {
      var buildManifest, restore, data := ExtractPlists(zip);
      ghost var afterPlists := files;
      var iBSS, iBEC, deviceTree, kernelcache, restoreRamdisk, restoreLogo;
      iBSS, iBEC, deviceTree, data := ExtractBootComponents(zip, productType, data);
      ghost var afterBoot := files;
      kernelcache, restoreRamdisk, restoreLogo, data := ExtractRestoreImages(zip, productType, data);
      AllResults(zip, extractPath);
      ExtractionWritesStored(zip, extractPath, old(files), afterPlists, afterBoot, files);
      var systemImage := FindRootFilesystem(zip);
      c := FirmwareComponents(iBSS, iBEC, restoreRamdisk, kernelcache, deviceTree, restoreLogo,
                              buildManifest, restore, systemImage, data);
    }

    /** The first two steps of `ExtractComponents`: the build manifest, read
        back into the data, and Restore.plist, each by its exact name. */
    method ExtractPlists(zip: seq<ZipEntry>)
      returns (buildManifest: Option<string>, restore: Option<string>, data: map<ComponentKey, seq<byte>>)
      modifies this`files
      ensures buildManifest == PathFor(zip, extractPath, BuildManifestKey)
      ensures restore == ExtractedFile(zip, extractPath, "Restore.plist")
      ensures data == DataAfter(Results(zip, extractPath)[..1])
      ensures files == Stored(old(files), PlistWrites(zip, extractPath))
    {
      data := map[];
      buildManifest := ExtractFile(zip, "BuildManifest.plist");
      if buildManifest.Some? {
        data := data[BuildManifestKey := files[buildManifest.value]];
      }
      NextResult(zip, extractPath, BuildManifestKey);
      restore := ExtractFile(zip, "Restore.plist");
      StoredTwo(old(files), PlistWrites(zip, extractPath));
    }

    /** The iBSS, iBEC and DeviceTree steps of `ExtractComponents`. */
    method ExtractBootComponents(zip: seq<ZipEntry>, productType: string, data: map<ComponentKey, seq<byte>>)
      returns (iBSS: Option<string>, iBEC: Option<string>, deviceTree: Option<string>,
               data': map<ComponentKey, seq<byte>>)
      requires data == DataAfter(Results(zip, extractPath)[..1])
      modifies this`files
      ensures iBSS == PathFor(zip, extractPath, IBSSKey)
      ensures iBEC == PathFor(zip, extractPath, IBECKey)
      ensures deviceTree == PathFor(zip, extractPath, DeviceTreeKey)
      ensures files == Stored(old(files), KeyWrites(zip, extractPath, 1, 4))
      ensures data' == DataAfter(Results(zip, extractPath)[..4])
    {
      iBSS, data' := ExtractInto(zip, productType, IBSSKey, data);
      iBEC, data' := ExtractInto(zip, productType, IBECKey, data');
      deviceTree, data' := ExtractInto(zip, productType, DeviceTreeKey, data');
      StoredThree(old(files), KeyWrites(zip, extractPath, 1, 4));
    }

    /** The kernelcache, ramdisk and logo steps of `ExtractComponents`. */
    method ExtractRestoreImages(zip: seq<ZipEntry>, productType: string, data: map<ComponentKey, seq<byte>>)
      returns (kernelcache: Option<string>, restoreRamdisk: Option<string>, restoreLogo: Option<string>,
               data': map<ComponentKey, seq<byte>>)
      requires data == DataAfter(Results(zip, extractPath)[..4])
      modifies this`files
      ensures kernelcache == PathFor(zip, extractPath, KernelCacheKey)
      ensures restoreRamdisk == PathFor(zip, extractPath, RestoreRamDiskKey)
      ensures restoreLogo == PathFor(zip, extractPath, RestoreLogoKey)
      ensures files == Stored(old(files), KeyWrites(zip, extractPath, 4, 7))
      ensures data' == DataAfter(Results(zip, extractPath)[..7])
    {
      kernelcache, data' := ExtractInto(zip, productType, KernelCacheKey, data);
      restoreRamdisk, data' := ExtractInto(zip, productType, RestoreRamDiskKey, data');
      restoreLogo, data' := ExtractInto(zip, productType, RestoreLogoKey, data');
      StoredThree(old(files), KeyWrites(zip, extractPath, 4, 7));
    }

    /** `Cleanup`: deletes the scratch directory if it exists; a failed delete
        is swallowed and leaves it in place. */
    method Cleanup(deleteFails: bool)
      modifies this`scratchExists, this`files
      ensures old(scratchExists) && !deleteFails ==> !scratchExists && files == map[]
      ensures !old(scratchExists) || deleteFails ==> scratchExists == old(scratchExists) && files == old(files)
    {
      if scratchExists && !deleteFails {
        scratchExists := false;
        files := map[];
      }
    }
  }
}
