/** The firmware's hand-written CBOR cursors and its reading of DeployApplication. */
module FirmwareParse {
  import opened Prelude
  import opened Messages
  import opened Cbor
  import opened Codec
  import opened Framing

  const MAX_WASM_SIZE := 16 * 1024
  const MAX_APP_ID_LEN := 64
  const FRAME_BUFFER := MAX_WASM_SIZE + 128

  /** The head forms the firmware knows: immediate, one-byte and two-byte lengths. Yields the
      length and the cursor after the head. */
  function ReadHeadAt(data: Bytes, p: nat, end: nat, major: Major): (r: Option<(nat, nat)>)
    requires end <= |data|
    ensures r.Some? ==> p < r.value.1 <= end && r.value.0 < 0x1_0000
  {
    if p >= end then None
    else if Lead(major, 0) <= data[p] <= Lead(major, 23) then Some((data[p] - Lead(major, 0), p + 1))
    else if data[p] == Lead(major, 24) && p + 2 <= end then Some((data[p + 1], p + 2))
    else if data[p] == Lead(major, 25) && p + 3 <= end then
      Some((data[p + 1] as int * 256 + data[p + 2] as int, p + 3))
    else None
  }

  /** Copies at most `size - 1` bytes of a text and moves the cursor past what was copied. */
  function ReadTextAt(data: Bytes, p: nat, end: nat, size: nat): (r: Option<(Bytes, nat)>)
    requires end <= |data|
    ensures r.Some? ==> p < r.value.1 <= end && |r.value.0| < size
  {
    if size == 0 then None
    else
      var (len, q) :- ReadHeadAt(data, p, end, TEXT);
      if q + len > end then None
      else
        var copied := if len >= size then size - 1 else len;
        Some((data[q..q + copied], q + copied))
  }

  function SkipTextAt(data: Bytes, p: nat, end: nat): (r: Option<nat>)
    requires end <= |data|
    ensures r.Some? ==> p < r.value <= end
  {
    var (len, q) :- ReadHeadAt(data, p, end, TEXT);
    if q + len > end then None else Some(q + len)
  }

  function ReadBytesAt(data: Bytes, p: nat, end: nat): (r: Option<(Bytes, nat)>)
    requires end <= |data|
    ensures r.Some? ==> p < r.value.1 <= end && |r.value.0| <= end - p
  {
    var (len, q) :- ReadHeadAt(data, p, end, BYTES);
    if q + len > end then None else Some((data[q..q + len], q + len))
  }

  /** How far the parse of a DeployApplication gets. */
  datatype DeployFields =
    | BadAppId
    | BadName(appId: Bytes)
    | BadHash(appId: Bytes)
    | BadWasm(appId: Bytes)
    | Fields(appId: Bytes, hash: Bytes, wasm: Bytes)

  /** The digest and the module. */
  function ParseModule(data: Bytes, p: nat, end: nat, appId: Bytes): (r: DeployFields)
    requires end <= |data|
    ensures !r.BadAppId? && r.appId == appId
    ensures r.Fields? ==> |r.hash| == 32 && |r.wasm| <= end - p
  {
    match ReadBytesAt(data, p, end)
    case None => BadHash(appId)
    case Some((hash, q)) =>
      if |hash| != 32 then BadHash(appId)
      else
        match ReadBytesAt(data, q, end)
        case None => BadWasm(appId)
        case Some((wasm, _)) => Fields(appId, hash, wasm)
  }

  /** The cursor chain over a payload that starts with the DeployApplication tag. */
  function ParseDeploy(data: Bytes, p: nat, end: nat): (r: DeployFields)
    requires end <= |data|
    ensures r.Fields? ==> |r.appId| < MAX_APP_ID_LEN && |r.hash| == 32 && |r.wasm| <= end - p
  {
    match ReadTextAt(data, p, end, MAX_APP_ID_LEN)
    case None => BadAppId
    case Some((appId, p1)) =>
      match SkipTextAt(data, p1, end)
      case None => BadName(appId)
      case Some(p2) => ParseModule(data, p2, end, appId)
  }

  /** Where the reference decoder accepts a head the firmware also accepts, they agree. */
  lemma HeadsAgree(data: Bytes, p: nat, end: nat, major: Major)
    requires p < end <= |data|
    ensures ReadHeadAt(data, p, end, major).Some? <==>
      ReadHead(major, data[p..end]).Some? && data[p] % 32 <= 25
    ensures ReadHeadAt(data, p, end, major).Some? ==>
      var (len, q) := ReadHeadAt(data, p, end, major).value;
      ReadHead(major, data[p..end]) == Some((len, data[q..end]))
  {
    var view := data[p..end];
    var r := ReadHeadAt(data, p, end, major);
    if r.Some? {
      assert view[r.value.1 - p..] == data[r.value.1..end];
    }
  }

  /** The unread part of the buffer at cursor `p` is `rest`. */
  predicate Left(data: Bytes, p: nat, end: nat, rest: Bytes) {
    p <= end <= |data| && data[p..end] == rest
  }

  /** A head the codec wrote is known to the firmware exactly below 65536. */
  lemma WrittenHead(data: Bytes, p: nat, end: nat, major: Major, s: Bytes, rest: Bytes)
    requires |s| < LIMIT && Left(data, p, end, Str(major, s) + rest)
    ensures var r := ReadHeadAt(data, p, end, major);
      if |s| < 0x1_0000 then
        r.Some? && r.value.0 == |s| && Left(data, r.value.1, end, s + rest)
      else r == None
  {
    var head := Head(major, |s|);
    var view := data[p..end];
    assert view == head + (s + rest);
    HeadReads(major, |s|, s + rest);
    HeadsAgree(data, p, end, major);
    assert data[p] == view[0] == head[0];
    HeadInfo(major, |s|);
  }

  lemma HeadInfo(major: Major, n: U64)
    ensures Head(major, n)[0] % 32 <= 25 <==> n < 0x1_0000
  {
  }

  lemma MovePast(data: Bytes, q: nat, end: nat, s: Bytes, rest: Bytes)
    requires Left(data, q, end, s + rest)
    ensures q + |s| <= end && data[q..q + |s|] == s && Left(data, q + |s|, end, rest)
  {
    var view := data[q..end];
    assert data[q..q + |s|] == view[..|s|];
    assert data[q + |s|..end] == view[|s|..];
  }

  lemma WrittenText(data: Bytes, p: nat, end: nat, size: nat, s: Bytes, rest: Bytes)
    requires |s| < LIMIT && Left(data, p, end, Str(TEXT, s) + rest)
    ensures |s| < size && |s| < 0x1_0000 ==>
      var r := ReadTextAt(data, p, end, size);
      r.Some? && r.value.0 == s && Left(data, r.value.1, end, rest)
    ensures var r := SkipTextAt(data, p, end);
      if |s| < 0x1_0000 then r.Some? && Left(data, r.value, end, rest) else r == None
  {
    WrittenHead(data, p, end, TEXT, s, rest);
    if |s| < 0x1_0000 {
      MovePast(data, ReadHeadAt(data, p, end, TEXT).value.1, end, s, rest);
    }
  }

  lemma WrittenBytes(data: Bytes, p: nat, end: nat, s: Bytes, rest: Bytes)
    requires |s| < LIMIT && Left(data, p, end, Str(BYTES, s) + rest)
    ensures var r := ReadBytesAt(data, p, end);
      if |s| < 0x1_0000 then r.Some? && r.value.0 == s && Left(data, r.value.1, end, rest) else r == None
  {
    WrittenHead(data, p, end, BYTES, s, rest);
    if |s| < 0x1_0000 {
      MovePast(data, ReadHeadAt(data, p, end, BYTES).value.1, end, s, rest);
    }
  }

  /** Of a text that does not fit, the buffer gets what fits, and the cursor stops inside the text. */
  lemma WrittenLongText(data: Bytes, p: nat, end: nat, size: nat, s: Bytes, rest: Bytes)
    requires 0 < size <= |s| < LIMIT && Left(data, p, end, Str(TEXT, s) + rest)
    ensures var r := ReadTextAt(data, p, end, size);
      if |s| < 0x1_0000 then
        r.Some? && r.value.0 == s[..size - 1] && Left(data, r.value.1, end, s[size - 1..] + rest)
      else r == None
  {
    WrittenHead(data, p, end, TEXT, s, rest);
    if |s| < 0x1_0000 {
      var q := ReadHeadAt(data, p, end, TEXT).value.1;
      MovePast(data, q, end, s, rest);
      assert s + rest == s[..size - 1] + (s[size - 1..] + rest);
      MovePast(data, q, end, s[..size - 1], s[size - 1..] + rest);
    }
  }

  /** What the cursors make of an encoded deployment with an id that fits the id buffer. */
  lemma ShortIdParse(m: ServerMessage, data: Bytes, p: nat, end: nat)
    requires m.DeployApplication? && ServerFits(m) && |m.appId| < 64 && Left(data, p, end, ServerBody(m))
    ensures ParseDeploy(data, p, end) ==
      if |m.name| >= 0x1_0000 then BadName(m.appId)
      else if |m.moduleHash| != 32 then BadHash(m.appId)
      else if |m.wasm| >= 0x1_0000 then BadWasm(m.appId)
      else Fields(m.appId, m.moduleHash, m.wasm)
  {
    var b3 := Str(BYTES, m.wasm) + DeployTail(m.config);
    var b2 := Str(BYTES, m.moduleHash) + b3;
    WrittenText(data, p, end, MAX_APP_ID_LEN, m.appId, Str(TEXT, m.name) + b2);
    var p1 := ReadTextAt(data, p, end, MAX_APP_ID_LEN).value.1;
    WrittenText(data, p1, end, MAX_APP_ID_LEN, m.name, b2);
    if |m.name| < 0x1_0000 {
      ModuleWritten(data, SkipTextAt(data, p1, end).value, end, m.appId, m.moduleHash, m.wasm, DeployTail(m.config));
    }
  }

  /** A longer id is cut to 63 bytes and the rest of it is read as the name: unless the next byte
      happens to be the head of a text, the parse ends there. */
  lemma LongIdParse(m: ServerMessage, data: Bytes, p: nat, end: nat)
    requires m.DeployApplication? && ServerFits(m) && |m.appId| >= 64 && Left(data, p, end, ServerBody(m))
    ensures var f := ParseDeploy(data, p, end);
      && (f.BadAppId? <==> |m.appId| >= 0x1_0000)
      && (|m.appId| < 0x1_0000 ==> f.appId == m.appId[..63])
      && (|m.appId| < 0x1_0000 && !(0x60 <= m.appId[63] <= 0x79) ==> f == BadName(m.appId[..63]))
  {
    var rest := Str(TEXT, m.name) + (Str(BYTES, m.moduleHash) + (Str(BYTES, m.wasm) + DeployTail(m.config)));
    WrittenLongText(data, p, end, MAX_APP_ID_LEN, m.appId, rest);
    if |m.appId| < 0x1_0000 {
      var p1 := ReadTextAt(data, p, end, MAX_APP_ID_LEN).value.1;
      assert data[p1] == data[p1..end][0] == m.appId[63];
    }
  }

  /** The parse gives back exactly what was encoded for exactly these sizes. */
  lemma DeployParseIff(m: ServerMessage, data: Bytes, p: nat, end: nat)
    requires m.DeployApplication? && ServerFits(m) && Left(data, p, end, ServerBody(m))
    ensures ParseDeploy(data, p, end) == Fields(m.appId, m.moduleHash, m.wasm)
      <==> |m.appId| < 64 && |m.name| < 0x1_0000 && |m.moduleHash| == 32 && |m.wasm| < 0x1_0000
  {
    if |m.appId| < 64 {
      ShortIdParse(m, data, p, end);
    } else {
      LongIdParse(m, data, p, end);
    }
  }

  lemma ModuleWritten(data: Bytes, p: nat, end: nat, appId: Bytes, hash: Bytes, wasm: Bytes, rest: Bytes)
    requires |hash| < LIMIT && |wasm| < LIMIT
    requires Left(data, p, end, Str(BYTES, hash) + (Str(BYTES, wasm) + rest))
    ensures ParseModule(data, p, end, appId) ==
      if |hash| != 32 then BadHash(appId) else if |wasm| >= 0x1_0000 then BadWasm(appId) else Fields(appId, hash, wasm)
  {
    WrittenBytes(data, p, end, hash, Str(BYTES, wasm) + rest);
    if |hash| == 32 {
      WrittenBytes(data, ReadBytesAt(data, p, end).value.1, end, wasm, rest);
    }
  }

  /** A module of the largest accepted size, sent without configuration and with the application id
      as its name, fits the receive buffer exactly when the id has at most 40 bytes. */
  lemma FullModuleFitsIff(appId: Bytes, hash: Bytes, wasm: Bytes)
    requires |appId| < LIMIT && |hash| == 32 && |wasm| == 16384
    ensures 4 + |EncodeServer(DeployApplication(appId, appId, hash, wasm, None))| <= FRAME_BUFFER <==> |appId| <= 40
  {
    var m := DeployApplication(appId, appId, hash, wasm, None);
    assert |EncodeServer(m)| == 2 + 2 * |Str(TEXT, appId)| + |Str(BYTES, hash)| + |Str(BYTES, wasm)| + 1;
    assert |Head(BYTES, |hash|)| == 2 && |Head(BYTES, |wasm|)| == 3;
  }
}
