/**
  The receiving side of the JSON-RPC layer: a state machine over the parser's
  events that fills in the service, the method, the id and the parameters of a
  message, and `json_rpc_parse_msg`, which runs the parser with it.

  A table of parameters is a finite map here, and the aliases `last_array` and
  `pointed_htab` are the key of the array they point into, and a position in it;
  `RpcTables` has the hash tables and pointers that these stand for.
 */
module RpcReader {
  import opened JsonTables
  import opened ParserSpec
  import opened Grammar
  import opened ReadsLexemes

  const JSONRPC_REQ_SZ_MAX: nat := 16000
  const JSONRPC_SVCNAME_SZ_MAX: nat := 32
  const JSONRPC_METHNAME_SZ_MAX: nat := 64
  const MAX_NESTING: nat := 6
  const JSONRPC_PARSE_ERROR: int := -32700
  const JSONRPC_INVALID_METHOD: int := -32602

  /** What `json_rpc_check_val` returns for a null. */
  const NULL_TYPE: int := -3

  datatype KeyToken =
    | TokNone | TokUnknown | TokCode | TokData | TokError | TokId | TokJsonrpc | TokMethod | TokMessage
    | TokParams | TokResult

  datatype Status = StatusUnknown | StatusV2 | StatusInvalid | StatusOk

  /** A parameter: a scalar with its length and its text up to a NUL, or an array of tables. */
  datatype JsonVal =
    | Scalar(kind: JsonType, length: nat, data: Bytes)
    | HtabArray(tables: seq<map<Bytes, JsonVal>>)

  datatype Rpc = Rpc(
    service: Option<Bytes>,
    methodName: Option<Bytes>,
    id: Option<JsonVal>,
    params: map<Bytes, JsonVal>,
    pointed: Option<(Bytes, nat)>,
    errorDigits: Bytes,
    paramState: bool,
    errorTokenSeen: bool,
    nesting: int,
    lastKeyToken: KeyToken,
    status: Status,
    lastParamKey: Option<Bytes>,
    lastArray: Option<Bytes>)

  /** `json_rpc_init`. */
  const FRESH := Rpc(None, None, None, map[], None, [], false, false, 0, TokNone, StatusUnknown, None, None)

  // ---------------------------------------------------------------- names

  const KEY_CODE: Bytes := [0x63, 0x6f, 0x64, 0x65]
  const KEY_DATA: Bytes := [0x64, 0x61, 0x74, 0x61]
  const KEY_ERROR: Bytes := [0x65, 0x72, 0x72, 0x6f, 0x72]
  const KEY_ID: Bytes := [0x69, 0x64]
  const KEY_JSONRPC: Bytes := [0x6a, 0x73, 0x6f, 0x6e, 0x72, 0x70, 0x63]
  const KEY_METHOD: Bytes := [0x6d, 0x65, 0x74, 0x68, 0x6f, 0x64]
  const KEY_MESSAGE: Bytes := [0x6d, 0x65, 0x73, 0x73, 0x61, 0x67, 0x65]
  const KEY_PARAMS: Bytes := [0x70, 0x61, 0x72, 0x61, 0x6d, 0x73]
  const KEY_RESULT: Bytes := [0x72, 0x65, 0x73, 0x75, 0x6c, 0x74]
  const VERSION: Bytes := [0x32, 0x2e, 0x30]
  const DOT: Byte := 0x2e
  const UNDERSCORE: Byte := 0x5f

  /** What C's `strndup` keeps: the bytes before the first NUL. */
  function CString(s: Bytes): Bytes { s[..Find(s, 0)] }

  /** `memchr`: where a byte first is, or the length. */
  function Find(s: Bytes, b: Byte): (n: nat)
    ensures n <= |s| && b !in s[..n] && (n < |s| ==> s[n] == b)
  {
    if s == [] || s[0] == b then 0
    else
      var n := 1 + Find(s[1..], b);
      assert s[..n] == [s[0]] + s[1..][..n - 1];
      n
  }

  /** `!strncmp(data, word, length)` with the length of the data: a prefix of the word is enough. */
  predicate Abbreviates(data: Bytes, word: Bytes) {
    data <= word || (|word| < |data| && data[..|word|] == word && data[|word|] == 0)
  }

  /** `json_rpc_key_token`: by the first letter, and then by the rest. */
  function TokenOf(data: Bytes): KeyToken {
    if data == [] then TokUnknown
    else
      var entry := match data[0]
        case 0x63 => (KEY_CODE, TokCode)
        case 0x64 => (KEY_DATA, TokData)
        case 0x65 => (KEY_ERROR, TokError)
        case 0x69 => (KEY_ID, TokId)
        case 0x6a => (KEY_JSONRPC, TokJsonrpc)
        case 0x6d => (KEY_METHOD, TokMethod)
        case 0x70 => (KEY_PARAMS, TokParams)
        case 0x72 => (KEY_RESULT, TokResult)
        case _ => ([], TokUnknown);
      if entry.1 == TokUnknown then TokUnknown
      else if Abbreviates(data, entry.0) then entry.1
      else if Abbreviates(data, KEY_MESSAGE) then TokMessage
      else TokUnknown
  }

  /** `abus_check_valid_service_name`. */
  predicate IsServiceName(name: Bytes) {
    && (name != [] ==> name[0] != UNDERSCORE)
    && |name| < JSONRPC_SVCNAME_SZ_MAX
    && DOT !in name && SLASH !in name
  }

  // ---------------------------------------------------------------- events

  datatype Reply = Reply(rpc: Rpc, ret: int)

  predicate HasToken(c: Rpc) { c.lastKeyToken != TokNone && c.lastKeyToken != TokUnknown }

  /** The table of an array, or of the parameters. */
  function TableAt(params: map<Bytes, JsonVal>, at: Option<(Bytes, nat)>): map<Bytes, JsonVal> {
    match at
    case None => params
    case Some((key, i)) =>
      if key in params && params[key].HtabArray? && i < |params[key].tables| then params[key].tables[i] else map[]
  }

  function PutAt(params: map<Bytes, JsonVal>, at: Option<(Bytes, nat)>, t: map<Bytes, JsonVal>): map<Bytes, JsonVal> {
    match at
    case None => t
    case Some((key, i)) =>
      if key in params && params[key].HtabArray? && i < |params[key].tables|
      then params[key := HtabArray(params[key].tables[i := t])] else params
  }

  /** The table that values go to. */
  function CurrentTable(c: Rpc): map<Bytes, JsonVal> { TableAt(c.params, c.pointed) }

  function WithTable(c: Rpc, t: map<Bytes, JsonVal>): Rpc { c.(params := PutAt(c.params, c.pointed, t)) }

  /** `json_rpc_add_val`; a value that has no key is refused. */
  function AddVal(c: Rpc, ev: Event): Reply {
    if !HasToken(c) || c.lastParamKey == None || c.lastParamKey.value in CurrentTable(c) then Reply(c, ERROR_CALLBACK)
    else
      var t := CurrentTable(c)[c.lastParamKey.value := Scalar(ev.kind, |ev.data|, CString(ev.data))];
      Reply(WithTable(c, t).(lastParamKey := None), 0)
  }

  /** `json_rpc_add_array`. */
  function AddArray(c: Rpc): Reply {
    if !HasToken(c) || c.lastParamKey == None || c.lastParamKey.value in c.params then Reply(c, ERROR_CALLBACK)
    else
      Reply(c.(params := c.params[c.lastParamKey.value := HtabArray([])],
               lastArray := c.lastParamKey, lastParamKey := None), 0)
  }

  /** `json_rpc_add_object_to_array`. */
  function AddObjectToArray(c: Rpc): Rpc {
    if c.lastArray == None then c
    else
      var key := c.lastArray.value;
      if key !in c.params || !c.params[key].HtabArray? then c
      else
        var tables := c.params[key].tables;
        c.(params := c.params[key := HtabArray(tables + [map[]])], pointed := Some((key, |tables|)))
  }

  /** The string after "method": the service up to the first dot, if there is one, and the method. */
  function SetMethod(c: Rpc, data: Bytes): Rpc {
    var dot := Find(data, DOT);
    var service := CString(data[..dot]);
    var d :=
      if dot == |data| then c
      else if dot >= JSONRPC_SVCNAME_SZ_MAX then c.(status := StatusInvalid)
      else if IsServiceName(service) then c.(service := Some(service))
      else c.(service := None, status := StatusInvalid);
    var name := if dot == |data| then data else data[dot + 1..];
    var e := if |name| >= JSONRPC_METHNAME_SZ_MAX
        then d.(status := StatusInvalid) else d.(methodName := Some(CString(name)));
    e.(lastKeyToken := TokNone)
  }

  /** A scalar, which a string in the parameters is too. */
  function OnScalar(c: Rpc, ev: Event): Reply {
    if !c.paramState then
      if c.lastKeyToken == TokId then
        Reply(c.(id := Some(Scalar(ev.kind, |ev.data|, CString(ev.data))), lastKeyToken := TokNone), 0)
      else Reply(c, 0)
    else
      var o := AddVal(c, ev);
      if o.ret != 0 then Reply(o.rpc.(status := StatusInvalid), o.ret)
      else if o.rpc.errorTokenSeen && ev.kind == JsonInt && o.rpc.lastKeyToken == TokCode
      then Reply(o.rpc.(errorDigits := ev.data), 0)
      else o
  }

  function OnString(c: Rpc, ev: Event): Reply {
    if c.paramState then OnScalar(c, ev)
    else if c.lastKeyToken == TokJsonrpc then
      if !Abbreviates(ev.data, VERSION) then Reply(c.(status := StatusInvalid), ERROR_CALLBACK)
      else Reply(c.(status := StatusV2, lastKeyToken := TokNone), 0)
    else if c.lastKeyToken == TokMethod then Reply(SetMethod(c, ev.data), 0)
    else Reply(c, 0)
  }

  function OnObjectBegin(c: Rpc): Rpc {
    var d := c.(nesting := c.nesting + 1);
    if d.nesting == 2 && d.lastKeyToken in {TokParams, TokResult, TokError} then d.(paramState := true)
    else if d.nesting == 4 then AddObjectToArray(d)
    else d
  }

  function OnObjectEnd(c: Rpc): Rpc {
    var d := c.(nesting := c.nesting - 1);
    if d.paramState && d.nesting == 3 then d.(pointed := None)
    else if d.nesting < 2 then d.(paramState := false)
    else d
  }

  function OnArrayBegin(c: Rpc): Reply {
    var d := c.(nesting := c.nesting + 1);
    if d.nesting == 3 && d.paramState then
      var o := AddArray(d);
      if o.ret != 0 then Reply(o.rpc.(status := StatusInvalid), o.ret) else o
    else Reply(d, 0)
  }

  /** The source stops the process when an array ends that is not a parameter; here it is refused. */
  function OnArrayEnd(c: Rpc): Reply {
    var d := c.(nesting := c.nesting - 1);
    if d.lastArray == None then Reply(d, ERROR_CALLBACK) else Reply(d.(lastArray := None), 0)
  }

  function OnKey(c: Rpc, data: Bytes): Rpc {
    if !c.paramState then
      var token := TokenOf(data);
      c.(lastKeyToken := token, errorTokenSeen := c.errorTokenSeen || token == TokError)
    else
      c.(lastParamKey := Some(CString(data)),
         lastKeyToken := if c.errorTokenSeen then TokenOf(data) else c.lastKeyToken)
  }

  /** `json_rpc_parser_callback`. */
  function OnEvent(c: Rpc, ev: Event): Reply {
    match ev.kind
    case JsonObjectBegin => Reply(OnObjectBegin(c), 0)
    case JsonObjectEnd => Reply(OnObjectEnd(c), 0)
    case JsonArrayBegin => OnArrayBegin(c)
    case JsonArrayEnd => OnArrayEnd(c)
    case JsonKey => Reply(OnKey(c, ev.data), 0)
    case JsonString => OnString(c, ev)
    case JsonInt | JsonFloat | JsonNull | JsonTrue | JsonFalse => OnScalar(c, ev)
    case JsonNone => Reply(c.(status := StatusInvalid), ERROR_CALLBACK)
  }

  /** The state after a sequence of events. */
  function Consume(c: Rpc, evs: seq<Event>): Rpc {
    if evs == [] then c else OnEvent(Consume(c, evs[..|evs| - 1]), evs[|evs| - 1]).rpc
  }

  /** None of the events is refused. */
  predicate Takes(c: Rpc, evs: seq<Event>) {
    evs == [] || (Takes(c, evs[..|evs| - 1]) && OnEvent(Consume(c, evs[..|evs| - 1]), evs[|evs| - 1]).ret == 0)
  }

  // ---------------------------------------------------------------- a message

  /** The parser's configuration: no comments, and the state machine as its callback. */
  function MessageConfig(): Config {
    Config(0, MAX_NESTING, JSONRPC_REQ_SZ_MAX, false, false,
           (log: seq<Event>, ev: Event) => OnEvent(Consume(FRESH, log), ev).ret)
  }

  const LONG_MAX: int := 0x7fff_ffff_ffff_ffff
  const LONG_MIN: int := -0x8000_0000_0000_0000

  /** The digits a text begins with, read after the digits of `n`. */
  function LeadingDigits(n: int, text: Bytes): int
    decreases text
  {
    if text == [] || !IsDigit(text[0]) then n else LeadingDigits(10 * n + (text[0] - 0x30), text[1..])
  }

  /** `strtol` in base ten, with a `long` of 64 bits. */
  function Strtol(text: Bytes): int {
    var n := if text != [] && text[0] == 0x2d then -LeadingDigits(0, text[1..]) else LeadingDigits(0, text);
    if n > LONG_MAX then LONG_MAX else if n < LONG_MIN then LONG_MIN else n
  }

  /** The error code, the low 32 bits of what `strtol` gives for its digits, is zero. */
  predicate IsZero(digits: Bytes) { Strtol(digits) % 0x1_0000_0000 == 0 }

  /** `json_rpc_parse_msg` on a fresh handle. */
  function ParseMsg(bytes: Bytes): Reply {
    var cfg := MessageConfig();
    var o := Feed(cfg, Init(cfg), bytes);
    var c := Consume(FRESH, o.p.log);
    if o.ret != 0 then Reply(c, JSONRPC_PARSE_ERROR)
    else if !IsDone(o.p) || c.status != StatusV2 then Reply(c, JSONRPC_PARSE_ERROR)
    else if (c.service.Some? && c.methodName.Some?) || IsZero(c.errorDigits) then Reply(c.(status := StatusOk), 0)
    else Reply(c, 1)
  }

  // ---------------------------------------------------------------- reading parameters back

  /** `json_rpc_check_val`, as far as its code. */
  function CheckCode(c: Rpc, name: Bytes): int {
    if c.status != StatusOk then JSONRPC_PARSE_ERROR
    else if name !in CurrentTable(c) then JSONRPC_INVALID_METHOD
    else if CurrentTable(c)[name].Scalar? && CurrentTable(c)[name].kind == JsonNull then NULL_TYPE
    else 0
  }

  /** `json_rpc_get_array_count`. */
  function ArrayCount(c: Rpc, name: Bytes): int {
    if c.status != StatusOk then -1
    else if name !in c.params then -2
    else if c.params[name].Scalar? then -3
    else |c.params[name].tables|
  }

  /** `json_rpc_get_point_at`, for an index that is not negative. */
  function PointAt(c: Rpc, name: Option<Bytes>, idx: nat): Reply {
    if c.status != StatusOk then Reply(c, -1)
    else if name == None then Reply(c.(pointed := None), 0)
    else if name.value !in c.params then Reply(c, -2)
    else if c.params[name.value].Scalar? then Reply(c, -3)
    else if idx >= |c.params[name.value].tables| then Reply(c, -4)
    else Reply(c.(pointed := Some((name.value, idx))), 0)
  }
}
