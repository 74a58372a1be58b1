/**
  The handle that a message is parsed into: the parser's callback as it updates
  the handle's fields, proved against `RpcReader`.
 */
module RpcHandle {
  import opened JsonTables
  import opened Grammar
  import opened RpcReader
  import ParserSpec
  import ParserRuns
  import JsonParsers
  import RpcTables

  class JsonRpc {
    var serviceName: Option<Bytes>
    var methodName: Option<Bytes>
    var id: Option<JsonVal>
    /** `params_htab`, `pointed_htab` and `last_array`. */
    const tables: RpcTables.ParamTables
    var errorDigits: Bytes
    var paramState: bool
    var errorTokenSeen: bool
    var nestingLevel: int
    var lastKeyToken: KeyToken
    var parsingStatus: Status
    var lastParamKey: Option<Bytes>

    ghost predicate Valid()
      reads this, tables, tables.Repr
    {
      tables.Valid() && this !in tables.Repr
    }

    ghost function State(): Rpc
      reads this, tables
    {
      Rpc(serviceName, methodName, id, tables.view, tables.pointedAt, errorDigits, paramState, errorTokenSeen,
          nestingLevel, lastKeyToken, parsingStatus, lastParamKey, tables.lastName)
    }

    /** `json_rpc_init`. */
    constructor ()
      ensures Valid() && fresh(tables.Repr) && State() == FRESH
    {
      serviceName, methodName, id := None, None, None;
      errorDigits, paramState, errorTokenSeen, nestingLevel := [], false, false, 0;
      lastKeyToken, parsingStatus, lastParamKey := TokNone, StatusUnknown, None;
      tables := new RpcTables.ParamTables();
    }

    /** `json_rpc_parser_callback`. */
    method ParserCallback(kind: JsonType, data: Bytes) returns (ret: int)
      requires Valid()
      modifies this, tables.Repr
      ensures Valid() && fresh(tables.Repr - old(tables.Repr))
      ensures Reply(State(), ret) == OnEvent(old(State()), Event(kind, data))
    {
      hide TokenOf, AddVal, AddArray, AddObjectToArray, SetMethod, Abbreviates, CString, OnScalar, OnString,
        RpcTables.ParamTables.Valid;
      ret := 0;
      match kind
      case JsonObjectBegin =>
        nestingLevel := nestingLevel + 1;
        if nestingLevel == 2
           && (lastKeyToken == TokParams || lastKeyToken == TokResult || lastKeyToken == TokError) {
          paramState := true;
        } else if nestingLevel == 4 {
          AddObject();
        }
      case JsonObjectEnd =>
        nestingLevel := nestingLevel - 1;
        if paramState && nestingLevel == 3 {
          tables.Unpoint();
        } else if nestingLevel < 2 {
          paramState := false;
        }
      case JsonArrayBegin =>
        nestingLevel := nestingLevel + 1;
        if nestingLevel == 3 && paramState {
          ret := AddArrayParam();
          if ret != 0 {
            parsingStatus := StatusInvalid;
          }
        }
      case JsonArrayEnd =>
        nestingLevel := nestingLevel - 1;
        if tables.lastArray == null {
          return ERROR_CALLBACK;
        }
        tables.EndArray();
      case JsonKey =>
        if !paramState {
          lastKeyToken := TokenOf(data);
          if lastKeyToken == TokError {
            errorTokenSeen := true;
          }
        } else {
          lastParamKey := Some(CString(data));
          if errorTokenSeen {
            lastKeyToken := TokenOf(data);
          }
        }
      case JsonString => ret := StringEvent(data);
      case JsonInt | JsonFloat | JsonNull | JsonTrue | JsonFalse => ret := ScalarEvent(kind, data);
      case JsonNone =>
        parsingStatus := StatusInvalid;
        return ERROR_CALLBACK;
    }

    method StringEvent(data: Bytes) returns (ret: int)
      requires Valid()
      modifies this, tables.Repr
      ensures Valid() && fresh(tables.Repr - old(tables.Repr))
      ensures Reply(State(), ret) == OnString(old(State()), Event(JsonString, data))
    {
      hide Abbreviates, SetMethod, OnScalar, RpcTables.ParamTables.Valid;
      ret := 0;
      if !paramState {
        if lastKeyToken == TokJsonrpc {
          if !Abbreviates(data, VERSION) {
            parsingStatus := StatusInvalid;
            return ERROR_CALLBACK;
          }
          parsingStatus := StatusV2;
          lastKeyToken := TokNone;
        } else if lastKeyToken == TokMethod {
          MethodNamed(data);
        }
        return;
      }
      ret := ScalarEvent(JsonString, data);
    }

    /** The part of the callback that splits a service from a method. */
    method MethodNamed(data: Bytes)
      requires Valid()
      modifies this
      ensures Valid()
      ensures State() == SetMethod(old(State()), data)
    {
      hide Find, CString, IsServiceName, RpcTables.ParamTables.Valid;
      var name := data;
      var p := Find(data, DOT);
      if p < |data| {
        if p >= JSONRPC_SVCNAME_SZ_MAX {
          parsingStatus := StatusInvalid;
        } else {
          serviceName := Some(CString(data[..p]));
          if !IsServiceName(serviceName.value) {
            serviceName := None;
            parsingStatus := StatusInvalid;
          }
        }
        name := data[p + 1..];
      }
      if |name| >= JSONRPC_METHNAME_SZ_MAX {
        parsingStatus := StatusInvalid;
      } else {
        methodName := Some(CString(name));
      }
      lastKeyToken := TokNone;
    }

    method ScalarEvent(kind: JsonType, data: Bytes) returns (ret: int)
      requires Valid()
      modifies this, tables.Repr
      ensures Valid() && fresh(tables.Repr - old(tables.Repr))
      ensures Reply(State(), ret) == OnScalar(old(State()), Event(kind, data))
    {
      hide AddVal, CString, RpcTables.ParamTables.Valid;
      ret := 0;
      if !paramState && lastKeyToken == TokId {
        id := Some(Scalar(kind, |data|, CString(data)));
        lastKeyToken := TokNone;
        return;
      }
      if paramState {
        ret := AddValue(kind, data);
        if ret != 0 {
          parsingStatus := StatusInvalid;
          return;
        }
        if errorTokenSeen && kind == JsonInt && lastKeyToken == TokCode {
          errorDigits := data;
        }
      }
    }

    /** `json_rpc_add_val`. */
    method AddValue(kind: JsonType, data: Bytes) returns (ret: int)
      requires Valid()
      modifies this, tables.Repr
      ensures Valid() && fresh(tables.Repr - old(tables.Repr))
      ensures Reply(State(), ret) == AddVal(old(State()), Event(kind, data))
    {
      hide RpcTables.ParamTables.Valid, TableAt, PutAt, CString;
      if lastKeyToken == TokNone || lastKeyToken == TokUnknown || lastParamKey == None {
        return ERROR_CALLBACK;
      }
      var added := tables.AddScalar(lastParamKey.value, Scalar(kind, |data|, CString(data)));
      if !added {
        return ERROR_CALLBACK;
      }
      lastParamKey := None;
      return 0;
    }

    /** `json_rpc_add_array`. */
    method AddArrayParam() returns (ret: int)
      requires Valid()
      modifies this, tables.Repr
      ensures Valid() && fresh(tables.Repr - old(tables.Repr))
      ensures Reply(State(), ret) == AddArray(old(State()))
    {
      hide RpcTables.ParamTables.Valid;
      if lastKeyToken == TokNone || lastKeyToken == TokUnknown || lastParamKey == None {
        return ERROR_CALLBACK;
      }
      var added := tables.AddArray(lastParamKey.value);
      if !added {
        return ERROR_CALLBACK;
      }
      lastParamKey := None;
      return 0;
    }

    /** `json_rpc_add_object_to_array`. */
    method AddObject()
      requires Valid()
      modifies this, tables.Repr
      ensures Valid() && fresh(tables.Repr - old(tables.Repr))
      ensures State() == AddObjectToArray(old(State()))
    {
      hide RpcTables.ParamTables.Valid;
      if tables.lastArray != null {
        tables.AddObject();
      }
    }

    // ---------------------------------------------------------------- reading parameters back

    /** `json_rpc_check_val`: the scalar under a name, which an array has none of. */
    method CheckVal(name: Bytes) returns (ret: int, v: Option<JsonVal>)
      requires Valid()
      modifies tables.Repr
      ensures Valid() && fresh(tables.Repr - old(tables.Repr)) && State() == old(State())
      ensures ret == CheckCode(State(), name)
      ensures parsingStatus == StatusOk && name in CurrentTable(State()) ==>
                v == RpcTables.ScalarOf(CurrentTable(State())[name])
    {
      hide RpcTables.ParamTables.Valid, TableAt;
      if parsingStatus != StatusOk {
        return JSONRPC_PARSE_ERROR, None;
      }
      var found: bool;
      found, v := tables.Get(name);
      ret := if !found then JSONRPC_INVALID_METHOD else if v.Some? && v.value.kind == JsonNull then NULL_TYPE else 0;
    }

    /** `json_rpc_get_array_count`. */
    method GetArrayCount(name: Bytes) returns (ret: int)
      requires Valid()
      modifies tables.Repr
      ensures Valid() && fresh(tables.Repr - old(tables.Repr)) && State() == old(State())
      ensures ret == ArrayCount(State(), name)
    {
      hide RpcTables.ParamTables.Valid;
      if parsingStatus != StatusOk {
        return -1;
      }
      var found, n := tables.Count(name);
      ret := if !found then -2 else if n == None then -3 else n.value;
    }

    /** `json_rpc_get_point_at`: aims at a table of an array, or back at the parameters. */
    method GetPointAt(name: Option<Bytes>, idx: nat) returns (ret: int)
      requires Valid()
      modifies tables.Repr
      ensures Valid() && fresh(tables.Repr - old(tables.Repr))
      ensures Reply(State(), ret) == PointAt(old(State()), name, idx)
    {
      hide RpcTables.ParamTables.Valid;
      if parsingStatus != StatusOk {
        return -1;
      }
      if name == None {
        tables.Unpoint();
        return 0;
      }
      var found, n := tables.Count(name.value);
      if !found {
        return -2;
      } else if n == None {
        return -3;
      } else if idx >= n.value {
        return -4;
      }
      tables.PointTo(name.value, idx);
      return 0;
    }
  }

  /** The handle takes in what the parser told. */
  method TakeIn(h: JsonRpc, told: seq<Event>)
    requires h.Valid() && h.State() == FRESH
    modifies h, h.tables.Repr
    ensures h.Valid() && fresh(h.tables.Repr - old(h.tables.Repr)) && h.State() == Consume(FRESH, told)
  {
    hide OnEvent, RpcTables.ParamTables.Valid;
    var i := 0;
    while i < |told|
      invariant 0 <= i <= |told| && h.Valid() && fresh(h.tables.Repr - old(h.tables.Repr))
      invariant h.State() == Consume(FRESH, told[..i])
    {
      assert told[..i + 1][..i] == told[..i];
      var _ := h.ParserCallback(told[i].kind, told[i].data);
      i := i + 1;
    }
    assert told[..i] == told;
  }

  /**
    `json_rpc_parse_msg`, with the parser object. The callback's answers are part of
    the parser's configuration, and the handle is filled in from what was told.
   */
  method ParseMsg(bytes: Bytes) returns (h: JsonRpc, ret: int)
    ensures fresh(h) && h.Valid() && fresh(h.tables.Repr) && Reply(h.State(), ret) == RpcReader.ParseMsg(bytes)
  {
    hide OnEvent, Consume, ParserSpec.Feed, ParserSpec.Init, RpcTables.ParamTables.Valid;
    ParserRuns.StartBounded(MessageConfig());
    h := new JsonRpc();
    var parser := new JsonParsers.JsonParser(MessageConfig());
    var code, _ := parser.ParseString(bytes);
    var done := parser.IsDone();
    TakeIn(h, parser.told);
    if code != 0 || !done || h.parsingStatus != StatusV2 {
      return h, JSONRPC_PARSE_ERROR;
    }
    if (h.serviceName.Some? && h.methodName.Some?) || IsZero(h.errorDigits) {
      h.parsingStatus := StatusOk;
      return h, 0;
    }
    return h, 1;
  }
}
