/** TSSClient.cs: the request for SHSH blobs sent to Apple's signing server
    and what is kept of its answer. The HTTP exchange, the XML parser and
    SHA-1 are inputs: the exchange as its outcome, the parser as the list of
    children of the top-level plist dictionary, SHA-1 as a function. */
module Tss {
  import opened Wrappers
  import opened Text
  import opened Ascii
  import opened Base64

  /** The identifiers and files of one signing request. The firmware files
      are listed in the order the dictionary enumerates them. */
  datatype TssRequest = TssRequest(
    ecid: string,
    chipId: string,
    boardId: string,
    productType: string,
    buildVersion: string,
    firmwareFiles: seq<(string, seq<byte>)>)

  /** What the signing step reports. */
  datatype TssResponse = TssResponse(success: bool, signedBlobs: map<string, seq<byte>>, errorMessage: string)

  /** How the HTTP exchange ended: an `HttpRequestException`, any other
      exception (a timeout, a failed read of the body), a status outside
      2xx, or a 2xx status with a body. */
  datatype HttpOutcome = NetworkError | OtherError | StatusError | Replied(body: string)

  /** A child of the top-level `<dict>` of a plist. */
  datatype PlistNode = KeyNode(text: string) | DataNode(text: string) | OtherNode

  const InvalidEcidMessage: string := "Invalid ECID - device info not properly retrieved"

  /** The ECID check that skips the signing request. */
  predicate EcidMissing(ecid: string) {
    ecid == "" || ecid == "0"
  }

  /** The markers of an approved request. */
  predicate Approved(body: string) {
    Contains(body, "<key>MESSAGE</key>") && Contains(body, "<string>SUCCESS</string>")
  }

  // ----- the request plist -----

  /** `StringBuilder.AppendLine` on Windows ends each line with CR LF. */
  function Line(s: string): string {
    s + "\r\n"
  }

  /** The text of a list of lines, as the builder appends them. */
  function PlistText(lines: seq<string>): string {
    if |lines| == 0 then [] else Line(lines[0]) + PlistText(lines[1..])
  }

  lemma {:induction false} TextAppend(a: seq<string>, b: seq<string>)
    ensures PlistText(a + b) == PlistText(a) + PlistText(b)
    decreases |a|
  {
    if |a| == 0 {
      assert a + b == b;
    } else {
      assert (a + b)[1..] == a[1..] + b;
      TextAppend(a[1..], b);
    }
  }

  const XmlDeclaration: string := "<?xml version=\"1.0\" encoding=\"UTF-8\"?>"
  const PlistDocType: string :=
    "<!DOCTYPE plist PUBLIC \"-//Apple//DTD PLIST 1.0//EN\" \"http://www.apple.com/DTDs/PropertyList-1.0.dtd\">"

  /** The lines before the firmware files: declarations, the three device
      identifiers as integers, then the fixed flags. */
  function HeaderLines(r: TssRequest): seq<string> {
    [XmlDeclaration, PlistDocType,
     "<plist version=\"1.0\">",
     "<dict>",
     "    <key>ApECID</key>", "    <integer>" + r.ecid + "</integer>",
     "    <key>ApChipID</key>", "    <integer>" + r.chipId + "</integer>",
     "    <key>ApBoardID</key>", "    <integer>" + r.boardId + "</integer>",
     "    <key>ApProductionMode</key>", "    <true/>",
     "    <key>ApSecurityMode</key>", "    <true/>",
     "    <key>@BBTicket</key>", "    <true/>",
     "    <key>@HostPlatformInfo</key>", "    <string>windows</string>"]
  }

  /** The Digest line of one firmware file. */
  function DigestLine(data: seq<byte>, sha1: seq<byte> -> seq<byte>): string {
    "        <data>" + Encode(sha1(data)) + "</data>"
  }

  /** The dictionary for one firmware file. */
  function EntryLines(file: (string, seq<byte>), sha1: seq<byte> -> seq<byte>): seq<string> {
    ["    <key>" + file.0 + "</key>", "    <dict>", "        <key>Digest</key>",
     DigestLine(file.1, sha1), "    </dict>"]
  }

  /** The dictionaries of all firmware files, in order. */
  function FileLines(files: seq<(string, seq<byte>)>, sha1: seq<byte> -> seq<byte>): (ls: seq<string>)
    ensures |ls| == 5 * |files|
  {
    if |files| == 0 then [] else EntryLines(files[0], sha1) + FileLines(files[1..], sha1)
  }

  lemma {:induction false} FileLinesAppend(files: seq<(string, seq<byte>)>, f: (string, seq<byte>), sha1: seq<byte> -> seq<byte>)
    ensures FileLines(files + [f], sha1) == FileLines(files, sha1) + EntryLines(f, sha1)
    decreases |files|
  {
    if |files| == 0 {
      assert FileLines([f], sha1) == EntryLines(f, sha1) + FileLines([], sha1);
    } else {
      assert (files + [f])[1..] == files[1..] + [f];
      FileLinesAppend(files[1..], f, sha1);
    }
  }

  /** One more file adds its dictionary at the end. */
  lemma FileLinesPrefix(files: seq<(string, seq<byte>)>, sha1: seq<byte> -> seq<byte>, i: nat)
    requires i < |files|
    ensures FileLines(files[..i + 1], sha1) == FileLines(files[..i], sha1) + EntryLines(files[i], sha1)
  {
    assert files[..i + 1] == files[..i] + [files[i]];
    FileLinesAppend(files[..i], files[i], sha1);
  }

  /** File `i` occupies lines 5i .. 5i+4 of the file dictionaries. */
  lemma {:induction false} FileLinesAt(files: seq<(string, seq<byte>)>, sha1: seq<byte> -> seq<byte>, i: nat)
    requires i < |files|
    ensures FileLines(files, sha1)[5 * i..5 * i + 5] == EntryLines(files[i], sha1)
    decreases i
  {
    var ls := FileLines(files, sha1);
    if i > 0 {
      FileLinesAt(files[1..], sha1, i - 1);
      assert ls[5 * i..5 * i + 5] == FileLines(files[1..], sha1)[5 * (i - 1)..5 * (i - 1) + 5];
    } else {
      assert ls[..5] == EntryLines(files[0], sha1);
    }
  }

  const FooterLines: seq<string> := ["</dict>", "</plist>"]

  /** Every line of the request plist. */
  function RequestLines(r: TssRequest, sha1: seq<byte> -> seq<byte>): seq<string> {
    HeaderLines(r) + FileLines(r.firmwareFiles, sha1) + FooterLines
  }

  /** In any text made of 18 lines, the file dictionaries and more lines,
      file `i` has its name on line 18 + 5i and its digest three lines later. */
  lemma {:induction false} FileLinesAfterHeader(pre: seq<string>, files: seq<(string, seq<byte>)>,
                                                post: seq<string>, sha1: seq<byte> -> seq<byte>, i: nat)
    requires |pre| == 18 && i < |files|
    ensures var ls := pre + FileLines(files, sha1) + post;
      ls[18 + 5 * i] == "    <key>" + files[i].0 + "</key>"
      && ls[18 + 5 * i + 3] == DigestLine(files[i].1, sha1)
  {
    var fl := FileLines(files, sha1);
    FileLinesAt(files, sha1, i);
    assert fl[5 * i] == EntryLines(files[i], sha1)[0];
    assert fl[5 * i + 3] == EntryLines(files[i], sha1)[3];
  }

  /** The request carries the three identifiers as integers on lines 5, 7
      and 9 and ends with the two closing lines; its other lines are the
      fixed ones and five per firmware file. */
  lemma RequestIdentifiers(r: TssRequest, sha1: seq<byte> -> seq<byte>)
    ensures var ls := RequestLines(r, sha1);
      |ls| == 20 + 5 * |r.firmwareFiles|
      && ls[5] == "    <integer>" + r.ecid + "</integer>"
      && ls[7] == "    <integer>" + r.chipId + "</integer>"
      && ls[9] == "    <integer>" + r.boardId + "</integer>"
      && ls[|ls| - 2..] == FooterLines
  {
  }

  /** For firmware file `i`, in enumeration order, the request carries its
      name on line 18 + 5i and, three lines later, the base 64 SHA-1
      digest of its bytes, which decodes back to that digest. */
  lemma RequestDigests(r: TssRequest, sha1: seq<byte> -> seq<byte>, i: nat)
    requires i < |r.firmwareFiles|
    ensures var ls := RequestLines(r, sha1);
      18 + 5 * i + 3 < |ls|
      && ls[18 + 5 * i] == "    <key>" + r.firmwareFiles[i].0 + "</key>"
      && ls[18 + 5 * i + 3] == DigestLine(r.firmwareFiles[i].1, sha1)
      && Decode(Encode(sha1(r.firmwareFiles[i].1))) == Some(sha1(r.firmwareFiles[i].1))
  {
    FileLinesAfterHeader(HeaderLines(r), r.firmwareFiles, FooterLines, sha1, i);
    DecodeEncode(sha1(r.firmwareFiles[i].1));
  }

  /** Text after the first `i + 1` dictionaries: the text after the first
      `i`, then dictionary `i`. */
  lemma FileTextStep(sb: string, files: seq<(string, seq<byte>)>, sha1: seq<byte> -> seq<byte>, i: nat)
    requires i < |files|
    ensures sb + PlistText(FileLines(files[..i + 1], sha1))
      == sb + PlistText(FileLines(files[..i], sha1)) + PlistText(EntryLines(files[i], sha1))
  {
    FileLinesPrefix(files, sha1, i);
    TextAppend(FileLines(files[..i], sha1), EntryLines(files[i], sha1));
  }

  /** The loop of `BuildTSSRequestPlist`: appends one dictionary per
      firmware file, in enumeration order. */
  method AppendDigests(sb: string, files: seq<(string, seq<byte>)>, sha1: seq<byte> -> seq<byte>)
    returns (sb': string)
    ensures sb' == sb + PlistText(FileLines(files, sha1))
  {
    sb' := sb;
    var i := 0;
    while i < |files|
      invariant 0 <= i <= |files|
      invariant sb' == sb + PlistText(FileLines(files[..i], sha1))
    {
      FileTextStep(sb, files, sha1, i);
      sb' := sb' + PlistText(EntryLines(files[i], sha1));
      i := i + 1;
    }
    assert files[..i] == files;
  }

  /** `BuildTSSRequestPlist`: the fixed lines, one dictionary per firmware
      file in enumeration order, then the closing lines. */
  method BuildTSSRequestPlist(r: TssRequest, sha1: seq<byte> -> seq<byte>) returns (plist: string)
    ensures plist == PlistText(RequestLines(r, sha1))
  {
    var header := HeaderLines(r);
    var sb := PlistText(header);
    sb := AppendDigests(sb, r.firmwareFiles, sha1);
    sb := sb + PlistText(FooterLines);
    TextAppend(header, FileLines(r.firmwareFiles, sha1));
    TextAppend(header + FileLines(r.firmwareFiles, sha1), FooterLines);
    return sb;
  }

  // ----- the response -----

  /** The texts of the `<key>` children, in document order. */
  function KeyTexts(nodes: seq<PlistNode>): (r: seq<string>)
    ensures |r| <= |nodes|
  {
    if |nodes| == 0 then []
    else (if nodes[0].KeyNode? then [nodes[0].text] else []) + KeyTexts(nodes[1..])
  }

  /** The texts of the `<data>` children, in document order. */
  function DataTexts(nodes: seq<PlistNode>): (r: seq<string>)
    ensures |r| <= |nodes|
  {
    if |nodes| == 0 then []
    else (if nodes[0].DataNode? then [nodes[0].text] else []) + DataTexts(nodes[1..])
  }

  /** A pair is kept when both texts are non-empty and the data is valid
      base 64. */
  predicate Usable(key: string, data: string) {
    key != "" && data != "" && Decode(data).Some?
  }

  /** The blobs after the first `n` pairs, in order; a later pair with the
      same key replaces an earlier one. */
  function PairedBlobs(keys: seq<string>, data: seq<string>, n: nat): map<string, seq<byte>>
    requires n <= |keys| && n <= |data|
  {
    if n == 0 then map[]
    else
      var m := PairedBlobs(keys, data, n - 1);
      if Usable(keys[n - 1], data[n - 1]) then m[keys[n - 1] := Decode(data[n - 1]).value] else m
  }

  /** A key is kept exactly when some usable pair has it. */
  lemma {:induction false} PairedBlobsKeys(keys: seq<string>, data: seq<string>, n: nat, k: string)
    requires n <= |keys| && n <= |data|
    ensures k in PairedBlobs(keys, data, n) <==>
      exists i :: 0 <= i < n && keys[i] == k && Usable(keys[i], data[i])
    decreases n
  {
    if n > 0 {
      PairedBlobsKeys(keys, data, n - 1, k);
      if exists i :: 0 <= i < n && keys[i] == k && Usable(keys[i], data[i]) {
        var i :| 0 <= i < n && keys[i] == k && Usable(keys[i], data[i]);
        if i < n - 1 {
          assert k in PairedBlobs(keys, data, n - 1);
        }
      }
    }
  }

  /** A key's blob is the data of the last usable pair with that key. */
  lemma {:induction false} PairedBlobsLast(keys: seq<string>, data: seq<string>, n: nat, i: nat)
    requires i < n <= |keys| && n <= |data| && Usable(keys[i], data[i])
    requires forall j :: i < j < n && keys[j] == keys[i] ==> !Usable(keys[j], data[j])
    ensures keys[i] in PairedBlobs(keys, data, n)
    ensures PairedBlobs(keys, data, n)[keys[i]] == Decode(data[i]).value
    decreases n
  {
    if i < n - 1 {
      PairedBlobsLast(keys, data, n - 1, i);
    }
  }

  /** `ParseTSSResponse` as written: the i-th `<key>` child is paired with
      the i-th `<data>` child, for i below the smaller count. A document the
      parser rejects, or one without a top-level dictionary, gives no blobs. */
  method ParseTSSResponse(doc: Option<seq<PlistNode>>) returns (blobs: map<string, seq<byte>>)
    ensures doc.None? ==> blobs == map[]
    ensures doc.Some? ==> var keys, data := KeyTexts(doc.value), DataTexts(doc.value);
      blobs == PairedBlobs(keys, data, if |keys| < |data| then |keys| else |data|)
  {
    blobs := map[];
    if doc.None? {
      return;
    }
    var keys, data := KeyTexts(doc.value), DataTexts(doc.value);
    var n := if |keys| < |data| then |keys| else |data|;
    var i := 0;
    while i < n
      invariant 0 <= i <= n
      invariant blobs == PairedBlobs(keys, data, i)
    {
      var keyName, dataValue := keys[i], data[i];
      if keyName != "" && dataValue != "" {
        var blob := Decode(dataValue);
        if blob.Some? {
          blobs := blobs[keyName := blob.value];
        }
      }
      i := i + 1;
    }
  }

  /** A dictionary whose first key has a string value: the shape of an
      approved answer, which carries `<key>MESSAGE</key>`. */
  const ShiftedAnswer: seq<PlistNode> :=
    [KeyNode("MESSAGE"), OtherNode, KeyNode("ApImg4Ticket"), DataNode("AAAA")]

  /** Index-wise pairing files the ticket under MESSAGE and loses the key
      it belongs to. */
  lemma PairingShiftsKeys()
    ensures var keys, data := KeyTexts(ShiftedAnswer), DataTexts(ShiftedAnswer);
      |keys| == 2 && |data| == 1
      && PairedBlobs(keys, data, 1) == map["MESSAGE" := [0, 0, 0]]
  {
    var keys, data := KeyTexts(ShiftedAnswer), DataTexts(ShiftedAnswer);
    assert keys == ["MESSAGE", "ApImg4Ticket"];
    assert data == ["AAAA"];
    AaaaDecodes();
  }

  /** "AAAA" is the base 64 text of three zero bytes. */
  lemma AaaaDecodes()
    ensures Decode("AAAA") == Some([0, 0, 0])
  {
    DecodeEncode([0, 0, 0]);
    assert Encode([0, 0, 0][3..]) == [];
    assert Encode([0, 0, 0]) == "AAAA";
  }

  /** The key/data entries of a dictionary: each `<key>` immediately
      followed by a `<data>` value. */
  function DataEntries(nodes: seq<PlistNode>): seq<(string, string)>
    decreases |nodes|
  {
    if |nodes| < 2 then []
    else if nodes[0].KeyNode? && nodes[1].DataNode? then
      [(nodes[0].text, nodes[1].text)] + DataEntries(nodes[2..])
    else DataEntries(nodes[1..])
  }

  /** Every entry is a key and the data value that follows it. */
  lemma {:induction false} DataEntriesAdjacent(nodes: seq<PlistNode>)
    ensures var es := DataEntries(nodes);
      forall e :: e in es ==>
        (exists i :: 0 <= i < |nodes| - 1 && nodes[i] == KeyNode(e.0) && nodes[i + 1] == DataNode(e.1))
    decreases |nodes|
  {
    if |nodes| >= 2 {
      var es := DataEntries(nodes);
      if nodes[0].KeyNode? && nodes[1].DataNode? {
        DataEntriesAdjacent(nodes[2..]);
        forall e | e in es
          ensures exists i :: 0 <= i < |nodes| - 1 && nodes[i] == KeyNode(e.0) && nodes[i + 1] == DataNode(e.1)
        {
          if e in DataEntries(nodes[2..]) {
            var i :| 0 <= i < |nodes| - 3 && nodes[2..][i] == KeyNode(e.0) && nodes[2..][i + 1] == DataNode(e.1);
            assert nodes[i + 2] == KeyNode(e.0) && nodes[i + 3] == DataNode(e.1);
          } else {
            assert nodes[0] == KeyNode(e.0) && nodes[1] == DataNode(e.1);
          }
        }
      } else {
        DataEntriesAdjacent(nodes[1..]);
        forall e | e in es
          ensures exists i :: 0 <= i < |nodes| - 1 && nodes[i] == KeyNode(e.0) && nodes[i + 1] == DataNode(e.1)
        {
          var i :| 0 <= i < |nodes| - 2 && nodes[1..][i] == KeyNode(e.0) && nodes[1..][i + 1] == DataNode(e.1);
          assert nodes[i + 1] == KeyNode(e.0) && nodes[i + 2] == DataNode(e.1);
        }
      }
    }
  }

  function EntryKeys(es: seq<(string, string)>): (r: seq<string>)
    ensures |r| == |es| && forall i :: 0 <= i < |es| ==> r[i] == es[i].0
  {
    seq(|es|, i requires 0 <= i < |es| => es[i].0)
  }

  function EntryData(es: seq<(string, string)>): (r: seq<string>)
    ensures |r| == |es| && forall i :: 0 <= i < |es| ==> r[i] == es[i].1
  {
    seq(|es|, i requires 0 <= i < |es| => es[i].1)
  }

  /** The evidently intended parse: each `<data>` value is filed under the
      key that precedes it, with the same filters as the code. */
  function EntryBlobs(doc: Option<seq<PlistNode>>): map<string, seq<byte>> {
    if doc.None? then map[]
    else
      var es := DataEntries(doc.value);
      PairedBlobs(EntryKeys(es), EntryData(es), |es|)
  }

  /** Every blob kept by the intended parse is the decoded `<data>` value
      that directly follows its own key in the document. */
  lemma EntryBlobsKeepTheirKey(doc: Option<seq<PlistNode>>, k: string)
    requires k in EntryBlobs(doc)
    ensures doc.Some?
    ensures exists i, d ::
      (0 <= i < |doc.value| - 1 && doc.value[i] == KeyNode(k) && doc.value[i + 1] == DataNode(d)
       && Decode(d) == Some(EntryBlobs(doc)[k]))
  {
    var es := DataEntries(doc.value);
    var keys, data := EntryKeys(es), EntryData(es);
    var m := PairedBlobs(keys, data, |es|);
    LastUsable(keys, data, |es|, k);
    var j :| 0 <= j < |es| && keys[j] == k && Usable(keys[j], data[j]) && m[k] == Decode(data[j]).value;
    DataEntriesAdjacent(doc.value);
    assert es[j] in es;
    var i :| 0 <= i < |doc.value| - 1 && doc.value[i] == KeyNode(es[j].0) && doc.value[i + 1] == DataNode(es[j].1);
  }

  /** A kept key has its blob from some usable pair. */
  lemma {:induction false} LastUsable(keys: seq<string>, data: seq<string>, n: nat, k: string)
    requires n <= |keys| && n <= |data| && k in PairedBlobs(keys, data, n)
    ensures exists j ::
      (0 <= j < n && keys[j] == k && Usable(keys[j], data[j])
       && PairedBlobs(keys, data, n)[k] == Decode(data[j]).value)
    decreases n
  {
    if !(Usable(keys[n - 1], data[n - 1]) && keys[n - 1] == k) {
      LastUsable(keys, data, n - 1, k);
    }
  }

  /** The intended parse files the ticket of the same answer under its own key. */
  lemma EntriesKeepTicket()
    ensures EntryBlobs(Some(ShiftedAnswer)) == map["ApImg4Ticket" := [0, 0, 0]]
  {
    var es := DataEntries(ShiftedAnswer);
    assert DataEntries(ShiftedAnswer[1..]) == DataEntries(ShiftedAnswer[2..]);
    assert es == [("ApImg4Ticket", "AAAA")];
    AaaaDecodes();
  }

  // ----- the signing step -----

  /** A dictionary made only of `<key>`/`<data>` pairs, each key directly
      followed by its data value. */
  predicate KeyDataPairs(nodes: seq<PlistNode>)
    decreases |nodes|
  {
    |nodes| == 0
    || (|nodes| >= 2 && nodes[0].KeyNode? && nodes[1].DataNode? && KeyDataPairs(nodes[2..]))
  }

  /** On such a dictionary the i-th key and the i-th data value are the
      entries the intended parse pairs. */
  lemma {:induction false} PairsListAlike(nodes: seq<PlistNode>)
    requires KeyDataPairs(nodes)
    ensures KeyTexts(nodes) == EntryKeys(DataEntries(nodes))
    ensures DataTexts(nodes) == EntryData(DataEntries(nodes))
    decreases |nodes|
  {
    if |nodes| > 0 {
      var rest := nodes[2..];
      PairsListAlike(rest);
      assert nodes[1..][1..] == rest;
      var es := DataEntries(nodes);
      assert es == [(nodes[0].text, nodes[1].text)] + DataEntries(rest);
      assert EntryKeys(es) == [nodes[0].text] + EntryKeys(DataEntries(rest));
      assert EntryData(es) == [nodes[1].text] + EntryData(DataEntries(rest));
    }
  }

  /** The parse as written and the intended parse agree on an answer with no
      value other than `<data>`; they differ only when some key has another
      kind of value (`PairingShiftsKeys`). */
  lemma ParsesAgreeOnDataOnlyAnswers(nodes: seq<PlistNode>)
    requires KeyDataPairs(nodes)
    ensures var keys, data := KeyTexts(nodes), DataTexts(nodes);
      |keys| == |data|
      && PairedBlobs(keys, data, |keys|) == EntryBlobs(Some(nodes))
  {
    PairsListAlike(nodes);
  }

  /** `RequestSHSHBlobs`: skips the server when the ECID is missing; every
      path reports success, and blobs are kept only from an approved
      answer, by `ParseTSSResponse` as written. The answer body is given to
      `parse`, the XML parser. */
  method RequestSHSHBlobs(request: TssRequest, sha1: seq<byte> -> seq<byte>, http: HttpOutcome,
                          parse: string -> Option<seq<PlistNode>>)
    returns (response: TssResponse, posted: Option<string>)
    ensures response.success
    ensures posted.None? <==> EcidMissing(request.ecid)
    ensures EcidMissing(request.ecid) ==> response.signedBlobs == map[] && response.errorMessage == InvalidEcidMessage
    ensures !EcidMissing(request.ecid) ==>
      posted == Some(PlistText(RequestLines(request, sha1))) && response.errorMessage == ""
    ensures response.signedBlobs != map[] ==> http.Replied? && Approved(http.body)
    ensures !EcidMissing(request.ecid) && http.Replied? && Approved(http.body) && parse(http.body).None? ==>
      response.signedBlobs == map[]
    ensures !EcidMissing(request.ecid) && http.Replied? && Approved(http.body) && parse(http.body).Some? ==>
      var keys, data := KeyTexts(parse(http.body).value), DataTexts(parse(http.body).value);
      response.signedBlobs == PairedBlobs(keys, data, if |keys| < |data| then |keys| else |data|)
  {
    response := TssResponse(false, map[], "");
    if EcidMissing(request.ecid) {
      response := response.(errorMessage := InvalidEcidMessage, success := true);
      return response, None;
    }
    var requestPlist := BuildTSSRequestPlist(request, sha1);
    posted := Some(requestPlist);
    if !http.Replied? {
      // a status outside 2xx, or an exception caught by either handler
      response := response.(success := true);
      return;
    }
    if Approved(http.body) {
      var blobs := ParseTSSResponse(parse(http.body));
      response := response.(success := true, signedBlobs := blobs);
    } else {
      // "not eligible" and any other answer differ only in what is logged
      response := response.(success := true);
    }
  }

  /** What lockdown answers while `GetDeviceInfo` runs: how many devices are
      listed, whether the first one's handle and the lockdown client are
      valid, and the string values it holds. */
  datatype Lockdown = Lockdown(devices: nat, handleValid: bool, clientValid: bool, values: map<string, string>)

  predicate Connected(l: Lockdown) {
    l.devices > 0 && l.handleValid && l.clientValid
  }

  /** A lockdown value, or `default` when it cannot be read. */
  function ValueOr(l: Lockdown, key: string, default: string): string {
    if key in l.values then l.values[key] else default
  }

  /** `GetDeviceInfo`: the device identifiers read from lockdown, each
      defaulted ("Unknown" for the product type, "0" for the others) when
      its lookup fails; all empty when no device answers. */
  function GetDeviceInfo(l: Lockdown): (r: TssRequest)
    ensures r.buildVersion == "" && r.firmwareFiles == []
    ensures !Connected(l) ==> r.productType == "" && r.ecid == "" && r.chipId == "" && r.boardId == ""
    ensures Connected(l) ==>
      if "ProductType" in l.values then r.productType == l.values["ProductType"] else r.productType == "Unknown"
    ensures Connected(l) ==>
      if "UniqueChipID" in l.values then r.ecid == l.values["UniqueChipID"] else r.ecid == "0"
    ensures Connected(l) ==>
      if "ChipID" in l.values then r.chipId == l.values["ChipID"] else r.chipId == "0"
    ensures Connected(l) ==>
      if "BoardId" in l.values then r.boardId == l.values["BoardId"] else r.boardId == "0"
  {
    if Connected(l) then
      TssRequest(ValueOr(l, "UniqueChipID", "0"), ValueOr(l, "ChipID", "0"), ValueOr(l, "BoardId", "0"),
                 ValueOr(l, "ProductType", "Unknown"), "", [])
    else TssRequest("", "", "", "", "", [])
  }

  /** The signing request is skipped exactly when no device answered, the
      ECID could not be read, or lockdown reported it as empty or "0". */
  lemma UnreadEcidSkipsSigning(l: Lockdown)
    ensures EcidMissing(GetDeviceInfo(l).ecid) <==>
      !Connected(l) || "UniqueChipID" !in l.values || EcidMissing(l.values["UniqueChipID"])
  {
  }
}
