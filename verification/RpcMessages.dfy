/**
  Messages as text. However a response is spelled, a result's members are read as a
  request's parameters are, and an error's code decides what `json_rpc_parse_msg`
  returns; and what a client writes is a request laid out without white space.
 */
module RpcMessages {
  import opened JsonTables
  import opened ParserSpec
  import opened Grammar
  import opened TokenMachine
  import opened ReadsLexemes
  import opened Printer
  import opened PrintParse
  import opened Layout
  import opened ParserTheorems
  import opened RpcReader
  import opened RpcWriter
  import opened RpcRoundTrip

  // ---------------------------------------------------------------- documents

  function IdMember(id: int): Member { Member(Ascii("id"), Num(IntNumber(id))) }

  function ResultMember(params: seq<Param>): Member { Member(Ascii("result"), Obj(ParamMembers(params))) }

  /** The members of an error object, in either order. */
  function ErrorFields(code: int, message: Bytes, codeFirst: bool): seq<Field> {
    var c, m := Field(Ascii("code"), IntVal(code)), Field(Ascii("message"), StrVal(message));
    if codeFirst then [c, m] else [m, c]
  }

  function ErrorMember(code: int, message: Bytes, codeFirst: bool): Member {
    Member(Ascii("error"), Obj(FieldMembers(ErrorFields(code, message, codeFirst))))
  }

  /** A response (section 5 of the JSON-RPC 2.0 specification), its id before or after its body. */
  function ResponseTree(body: Member, id: int, idFirst: bool): Tree {
    Obj([Member(Ascii("jsonrpc"), Str(Ascii("2.0")))] + if idFirst then [IdMember(id), body] else [body, IdMember(id)])
  }

  /** The names that both ends of the protocol use. */
  lemma NamesAre()
    ensures KEY_JSONRPC == Ascii("jsonrpc") && VERSION == Ascii("2.0") && KEY_METHOD == Ascii("method")
    ensures KEY_ID == Ascii("id") && KEY_PARAMS == Ascii("params") && KEY_RESULT == Ascii("result")
    ensures KEY_ERROR == Ascii("error") && KEY_CODE == Ascii("code") && KEY_MESSAGE == Ascii("message")
  {
  }

  lemma TokensAre()
    ensures TokenOf(Ascii("result")) == TokResult && TokenOf(Ascii("error")) == TokError
    ensures TokenOf(Ascii("code")) == TokCode && TokenOf(Ascii("message")) == TokMessage
    ensures TokenOf(Ascii("id")) == TokId && TokenOf(Ascii("jsonrpc")) == TokJsonrpc
  {
  }

  /**
    A key without a NUL counts as each name it begins: `strncmp` compares only as many
    characters as the key has. The two names with one first letter are told apart by the
    longer of their common beginnings.
   */
  lemma KeysAbbreviate(key: Bytes)
    requires key != [] && 0 !in key
    ensures TokenOf(key) == TokCode <==> key <= Ascii("code")
    ensures TokenOf(key) == TokData <==> key <= Ascii("data")
    ensures TokenOf(key) == TokError <==> key <= Ascii("error")
    ensures TokenOf(key) == TokId <==> key <= Ascii("id")
    ensures TokenOf(key) == TokJsonrpc <==> key <= Ascii("jsonrpc")
    ensures TokenOf(key) == TokMethod <==> key <= Ascii("method")
    ensures TokenOf(key) == TokParams <==> key <= Ascii("params")
    ensures TokenOf(key) == TokResult <==> key <= Ascii("result")
    ensures TokenOf(key) == TokMessage <==> key <= Ascii("message") && !(key <= Ascii("method"))
    ensures TokenOf(key) != TokNone
  {
    NamesAre();
    assert KEY_DATA == Ascii("data");
    hide Ascii;
    assert forall i :: 0 <= i < |key| ==> key[i] != 0;
    assert forall word: Bytes :: Abbreviates(key, word) <==> key <= word;
  }

  // ---------------------------------------------------------------- from events to the answer

  /** The final checks of `json_rpc_parse_msg` on what was read. */
  function Final(c: Rpc): Reply {
    if c.status != StatusV2 then Reply(c, JSONRPC_PARSE_ERROR)
    else if (c.service.Some? && c.methodName.Some?) || IsZero(c.errorDigits) then Reply(c.(status := StatusOk), 0)
    else Reply(c, 1)
  }

  /** A spelled document whose events are taken is read to what they lead to. */
  lemma MessageIsRead(ls: seq<Lexeme>, bytes: Bytes, t: Tree, c: Rpc)
    requires Admits(MessageConfig(), ls, bytes, t) && Leads(FRESH, Events(t), c)
    ensures ParseMsg(bytes) == Final(c)
  {
    hide Admits, Takes, Consume, Events, Feed, StepByte, MessageConfig, Accepts, OnEvent;
    TakesIsAccepts(MessageConfig(), Events(t));
    AcceptsSpelling(MessageConfig(), ls, bytes, t);
  }

  // ---------------------------------------------------------------- members

  /** Inside the message, before its body was read. */
  predicate InMessage(c: Rpc) {
    && !c.paramState && !c.errorTokenSeen && c.nesting == 1 && c.params == map[] && c.pointed == None
    && c.lastParamKey == None && c.lastArray == None
  }

  lemma ConsumeMessageId(c: Rpc, id: int)
    requires !c.paramState
    ensures Leads(c, EventsOf(IdMember(id)), c.(id := Some(ValueOf(IntVal(id))), lastKeyToken := TokNone))
  {
    hide Leads, EventsOf, FieldMember, TokenOf, Decimal, CString, NumberText, IntNumber;
    NamesAre();
    HeadTokens();
    ConsumeHeadField(c, KEY_ID, IntVal(id));
    assert FieldMember(Field(KEY_ID, IntVal(id))) == IdMember(id) by { IdFieldIs(id); }
  }

  lemma IdFieldIs(id: int)
    ensures FieldMember(Field(KEY_ID, IntVal(id))) == IdMember(id)
  {
    NamesAre();
  }

  // ---------------------------------------------------------------- error objects

  /** Inside an error object, between its members. */
  predicate InError(c: Rpc) {
    && c.paramState && c.errorTokenSeen && c.nesting == 2 && c.pointed == None
    && c.lastParamKey == None && c.lastArray == None
  }

  /** The digits of the last member that counts as a code. */
  function CodeDigits(fields: seq<Field>): Bytes {
    if fields == [] then []
    else
      var last := fields[|fields| - 1];
      if last.value.IntVal? && TokenOf(last.name) == TokCode then NumberText(IntNumber(last.value.n))
      else CodeDigits(fields[..|fields| - 1])
  }

  /** Every member of an error object has a name that is a token of the protocol. */
  predicate AllKnown(fields: seq<Field>) { forall i :: 0 <= i < |fields| ==> TokenOf(fields[i].name) != TokUnknown }

  function LastToken(c: Rpc, fields: seq<Field>): KeyToken {
    if fields == [] then c.lastKeyToken else TokenOf(fields[|fields| - 1].name)
  }

  function AfterFields(c: Rpc, fields: seq<Field>): Rpc {
    c.(params := Table(fields), errorDigits := CodeDigits(fields), lastKeyToken := LastToken(c, fields))
  }

  lemma TokenIsSomething(name: Bytes)
    ensures TokenOf(name) != TokNone
  {
  }

  lemma ConsumeErrorField(c: Rpc, f: Field)
    requires InError(c) && 0 !in f.name
    ensures
      if TokenOf(f.name) != TokUnknown && f.name !in c.params then
        Leads(c, EventsOf(FieldMember(f)),
              c.(params := c.params[f.name := ValueOf(f.value)], lastKeyToken := TokenOf(f.name),
                 errorDigits := if f.value.IntVal? && TokenOf(f.name) == TokCode then NumberText(IntNumber(f.value.n))
                                else c.errorDigits))
      else !Takes(c, EventsOf(FieldMember(f)))
  {
    hide CString, NumberText, IntNumber, Takes, Consume, Leads, TokenOf;
    TokenIsSomething(f.name);
    var key := Event(JsonKey, f.name);
    CStringIs(f.name);
    LeadsOne(c, key);
    var d := OnEvent(c, key).rpc;
    assert d == c.(lastParamKey := Some(f.name), lastKeyToken := TokenOf(f.name));
    var ev := ValueEvent(f.value);
    ValueIs(f.value, 0);
    hide Events, ValueTree;
    assert OnEvent(d, ev) == OnScalar(d, ev);
    if TokenOf(f.name) != TokUnknown && f.name !in c.params {
      LeadsOne(d, ev);
      LeadsOn(c, [key], d, [ev], OnEvent(d, ev).rpc);
    } else {
      NotTaken(c, [key], d, ev);
    }
  }

  lemma NotTaken(c: Rpc, a: seq<Event>, d: Rpc, ev: Event)
    requires Leads(c, a, d) && OnEvent(d, ev).ret != 0
    ensures !Takes(c, a + [ev])
  {
    hide OnEvent;
    assert (a + [ev])[..|a|] == a;
  }

  lemma {:induction false} TakesPrefix(c: Rpc, a: seq<Event>, b: seq<Event>)
    ensures Takes(c, a + b) ==> Takes(c, a) && Takes(Consume(c, a), b)
    decreases |b|
  {
    hide OnEvent;
    if b == [] {
      assert a + b == a;
    } else {
      var n := |b| - 1;
      assert (a + b)[..|a + b| - 1] == a + b[..n];
      TakesPrefix(c, a, b[..n]);
      ConsumeAppend(c, a, b[..n]);
    }
  }

  lemma FieldsStep(c: Rpc, fields: seq<Field>)
    requires fields != []
    ensures var n := |fields| - 1; var f := fields[n];
            && (AllKnown(fields) && ReadableFields(fields) <==>
                  && AllKnown(fields[..n]) && ReadableFields(fields[..n])
                  && 0 !in f.name && TokenOf(f.name) != TokUnknown && f.name !in Table(fields[..n]))
            && AfterFields(c, fields)
               == AfterFields(c, fields[..n]).(
                    params := Table(fields[..n])[f.name := ValueOf(f.value)], lastKeyToken := TokenOf(f.name),
                    errorDigits := if f.value.IntVal? && TokenOf(f.name) == TokCode
                                   then NumberText(IntNumber(f.value.n)) else CodeDigits(fields[..n]))
  {
    hide ValueOf, TokenOf, NumberText, IntNumber;
    NamesInTable(fields[..|fields| - 1], fields[|fields| - 1].name);
  }

  lemma {:induction false} ConsumeErrorFields(c: Rpc, fields: seq<Field>)
    requires InError(c) && c.params == map[] && c.errorDigits == []
    requires forall i :: 0 <= i < |fields| ==> 0 !in fields[i].name
    ensures
      if AllKnown(fields) && ReadableFields(fields) then
        Leads(c, MemberEvents(FieldMembers(fields)), AfterFields(c, fields))
      else !Takes(c, MemberEvents(FieldMembers(fields)))
  {
    hide Leads, EventsOf, FieldMember, ValueOf, TokenOf, Takes, Consume, NumberText, IntNumber, AllKnown,
      ReadableFields, MemberEvents, FieldMembers, Table, CodeDigits;
    if fields == [] {
      NoErrorFields(c);
    } else {
      var n := |fields| - 1;
      var f := fields[n];
      FieldsSnoc(fields);
      FieldsStep(c, fields);
      ConsumeErrorFields(c, fields[..n]);
      var a := MemberEvents(FieldMembers(fields[..n]));
      TakesPrefix(c, a, EventsOf(FieldMember(f)));
      if AllKnown(fields[..n]) && ReadableFields(fields[..n]) {
        var d := AfterFields(c, fields[..n]);
        ConsumeErrorField(d, f);
        LeadsIs(c, a, d);
        if AllKnown(fields) && ReadableFields(fields) {
          LeadsOn(c, a, d, EventsOf(FieldMember(f)), AfterFields(c, fields));
        }
      }
    }
  }

  lemma NoErrorFields(c: Rpc)
    requires c.params == map[] && c.errorDigits == []
    ensures AllKnown([]) && ReadableFields([]) && Leads(c, MemberEvents(FieldMembers([])), AfterFields(c, []))
  {
    hide Leads;
    LeadsNowhere(c);
    assert FieldMembers([]) == [];
  }

  lemma LeadsIs(c: Rpc, a: seq<Event>, d: Rpc)
    requires Leads(c, a, d)
    ensures Takes(c, a) && Consume(c, a) == d
  {
  }

  lemma {:induction false} NamesInTable(fields: seq<Field>, k: Bytes)
    ensures k in Table(fields) <==> exists i :: 0 <= i < |fields| && fields[i].name == k
  {
    hide ValueOf;
    if fields != [] {
      var n := |fields| - 1;
      NamesInTable(fields[..n], k);
      if k in Table(fields[..n]) {
        var i :| 0 <= i < n && fields[..n][i].name == k;
        assert fields[i].name == k;
      }
    }
  }

  lemma ConsumeError(c: Rpc, fields: seq<Field>)
    requires InMessage(c) && c.errorDigits == [] && forall i :: 0 <= i < |fields| ==> 0 !in fields[i].name
    ensures
      var m := Member(Ascii("error"), Obj(FieldMembers(fields)));
      if AllKnown(fields) && ReadableFields(fields) then
        Leads(c, EventsOf(m), AfterFields(c.(lastKeyToken := TokError, errorTokenSeen := true), fields))
      else !Takes(c, EventsOf(m))
  {
    hide Leads, TokenOf, Table, CodeDigits, MemberEvents, FieldMembers, Takes, Consume, ReadableFields, AllKnown,
      EventsOf, Ascii;
    TokensAre();
    var d := c.(lastKeyToken := TokError, errorTokenSeen := true);
    ObjectBegins(c, Ascii("error"), d);
    var e := d.(nesting := 2, paramState := true);
    ConsumeErrorFields(e, fields);
    var m := Member(Ascii("error"), Obj(FieldMembers(fields)));
    ObjectMember(Ascii("error"), FieldMembers(fields));
    var begin, inner := ObjectBegin(Ascii("error")), MemberEvents(FieldMembers(fields));
    if AllKnown(fields) && ReadableFields(fields) {
      var f := AfterFields(e, fields);
      ObjectEnds(f);
      LeadsOn(c, begin, e, inner, f);
      LeadsOn(c, begin + inner, f, [Event(JsonObjectEnd, [])], f.(nesting := 1, paramState := false));
      assert f.(nesting := 1, paramState := false) == AfterFields(d, fields);
    } else {
      NeverTaken(c, begin, e, inner, [Event(JsonObjectEnd, [])]);
    }
  }

  function ObjectBegin(key: Bytes): seq<Event> { [Event(JsonKey, key), Event(JsonObjectBegin, [])] }

  lemma ObjectMember(key: Bytes, ms: seq<Member>)
    ensures EventsOf(Member(key, Obj(ms))) == ObjectBegin(key) + MemberEvents(ms) + [Event(JsonObjectEnd, [])]
  {
    hide MemberEvents;
    assert [Event(JsonKey, key)] + ([Event(JsonObjectBegin, [])] + MemberEvents(ms) + [Event(JsonObjectEnd, [])])
           == ObjectBegin(key) + MemberEvents(ms) + [Event(JsonObjectEnd, [])];
  }

  /** A key that announces values, and the object it announces. */
  lemma ObjectBegins(c: Rpc, key: Bytes, d: Rpc)
    requires !c.paramState && c.nesting == 1
    requires TokenOf(key) == TokResult || TokenOf(key) == TokError
    requires d == c.(lastKeyToken := TokenOf(key), errorTokenSeen := c.errorTokenSeen || TokenOf(key) == TokError)
    ensures Leads(c, ObjectBegin(key), d.(nesting := 2, paramState := true))
  {
    hide Leads, TokenOf;
    LeadsOne(c, Event(JsonKey, key));
    LeadsOne(d, Event(JsonObjectBegin, []));
    assert OnEvent(c, Event(JsonKey, key)).rpc == d;
    assert ObjectBegin(key) == [Event(JsonKey, key)] + [Event(JsonObjectBegin, [])];
    LeadsOn(c, [Event(JsonKey, key)], d, [Event(JsonObjectBegin, [])], d.(nesting := 2, paramState := true));
  }

  lemma ObjectEnds(c: Rpc)
    requires c.nesting == 2
    ensures Leads(c, [Event(JsonObjectEnd, [])], c.(nesting := 1, paramState := false))
  {
    hide Leads;
    LeadsOne(c, Event(JsonObjectEnd, []));
  }

  /** What is not taken in the middle is not taken as a whole. */
  lemma NeverTaken(c: Rpc, a: seq<Event>, d: Rpc, b: seq<Event>, rest: seq<Event>)
    requires Leads(c, a, d) && !Takes(d, b)
    ensures !Takes(c, a + b + rest)
  {
    hide Takes, Consume;
    LeadsIs(c, a, d);
    TakesPrefix(c, a, b);
    TakesPrefix(c, a + b, rest);
  }

  // ---------------------------------------------------------------- whole responses

  /** The state just before the body. */
  function AtBody(id: int, idFirst: bool): Rpc {
    FRESH.(status := StatusV2, nesting := 1, id := if idFirst then Some(ValueOf(IntVal(id))) else None)
  }

  function AtClose(c: Rpc, id: int, idFirst: bool): Rpc {
    (if idFirst then c else c.(id := Some(ValueOf(IntVal(id))), lastKeyToken := TokNone)).(nesting := 0)
  }

  function VersionMember(): Member { Member(Ascii("jsonrpc"), Str(Ascii("2.0"))) }

  lemma ConsumeVersion()
    ensures Leads(FRESH, [Event(JsonObjectBegin, [])] + EventsOf(VersionMember()), AtBody(0, false))
  {
    hide Leads, EventsOf, TokenOf;
    var c := FRESH.(nesting := 1);
    LeadsOne(FRESH, Event(JsonObjectBegin, []));
    HeadTokens();
    ConsumeHeadField(c, KEY_JSONRPC, StrVal(VERSION));
    VersionIs();
    LeadsOn(FRESH, [Event(JsonObjectBegin, [])], c, EventsOf(VersionMember()), AtBody(0, false));
  }

  lemma VersionIs()
    ensures FieldMember(Field(KEY_JSONRPC, StrVal(VERSION))) == VersionMember()
  {
    NamesAre();
  }

  /** The events before the body, and after it. */
  function HeadEvents(id: int, idFirst: bool): seq<Event> {
    [Event(JsonObjectBegin, [])] + EventsOf(VersionMember()) + if idFirst then EventsOf(IdMember(id)) else []
  }

  function TailEvents(id: int, idFirst: bool): seq<Event> {
    (if idFirst then [] else EventsOf(IdMember(id))) + [Event(JsonObjectEnd, [])]
  }

  lemma ResponseEvents(body: Member, id: int, idFirst: bool)
    ensures Events(ResponseTree(body, id, idFirst))
            == HeadEvents(id, idFirst) + EventsOf(body) + TailEvents(id, idFirst)
  {
    hide IdMember, VersionMember;
    var v, i := VersionMember(), IdMember(id);
    var a, b := if idFirst then i else body, if idFirst then body else i;
    ThreeMembers(v, a, b);
    TreeIs(body, id, idFirst);
    hide EventsOf, Events;
  }

  lemma TreeIs(body: Member, id: int, idFirst: bool)
    ensures ResponseTree(body, id, idFirst)
            == Obj([VersionMember(), if idFirst then IdMember(id) else body, if idFirst then body else IdMember(id)])
  {
  }

  lemma ThreeMembers(a: Member, b: Member, c: Member)
    ensures Events(Obj([a, b, c]))
            == [Event(JsonObjectBegin, [])] + EventsOf(a) + EventsOf(b) + EventsOf(c) + [Event(JsonObjectEnd, [])]
  {
    hide Events, MemberEvents, EventsOf;
    MembersSnoc([], a);
    MembersSnoc([a], b);
    MembersSnoc([a, b], c);
    assert [] + [a] == [a] && [a] + [b] == [a, b] && [a, b] + [c] == [a, b, c];
    NoMembers();
    ObjEvents([a, b, c]);
    Joined([Event(JsonObjectBegin, [])], EventsOf(a), EventsOf(b), EventsOf(c), [Event(JsonObjectEnd, [])]);
  }

  lemma NoMembers()
    ensures MemberEvents([]) == []
  {
  }

  lemma Joined<T>(o: seq<T>, a: seq<T>, b: seq<T>, c: seq<T>, e: seq<T>)
    ensures o + ([] + a + b + c) + e == o + a + b + c + e
  {
    assert [] + a == a;
  }

  lemma MembersSnoc(ms: seq<Member>, m: Member)
    ensures MemberEvents(ms + [m]) == MemberEvents(ms) + EventsOf(m)
  {
    hide Events;
    assert (ms + [m])[..|ms|] == ms;
  }

  lemma ObjEvents(ms: seq<Member>)
    ensures Events(Obj(ms)) == [Event(JsonObjectBegin, [])] + MemberEvents(ms) + [Event(JsonObjectEnd, [])]
  {
    hide MemberEvents;
  }

  lemma ConsumeHeadAndId(id: int, idFirst: bool)
    ensures Leads(FRESH, HeadEvents(id, idFirst), AtBody(id, idFirst))
  {
    hide Leads, EventsOf, ValueOf, VersionMember;
    ConsumeVersion();
    var h := [Event(JsonObjectBegin, [])] + EventsOf(VersionMember());
    if idFirst {
      ConsumeMessageId(AtBody(0, false), id);
      LeadsOn(FRESH, h, AtBody(0, false), EventsOf(IdMember(id)), AtBody(id, idFirst));
    } else {
      assert h + [] == h;
    }
  }

  lemma ConsumeTail(c: Rpc, id: int, idFirst: bool)
    requires !c.paramState && c.nesting == 1
    ensures Leads(c, TailEvents(id, idFirst), AtClose(c, id, idFirst))
  {
    hide Leads, EventsOf, ValueOf;
    var end := Event(JsonObjectEnd, []);
    if idFirst {
      LeadsOne(c, end);
      assert [] + [end] == [end];
    } else {
      ConsumeMessageId(c, id);
      var d := c.(id := Some(ValueOf(IntVal(id))), lastKeyToken := TokNone);
      LeadsOne(d, end);
      LeadsOn(c, EventsOf(IdMember(id)), d, [end], OnEvent(d, end).rpc);
    }
  }

  /** The whole response, from what is known of its body. */
  lemma ResponseLeads(body: Member, id: int, idFirst: bool, c: Rpc)
    requires Leads(AtBody(id, idFirst), EventsOf(body), c) && !c.paramState && c.nesting == 1
    ensures Leads(FRESH, Events(ResponseTree(body, id, idFirst)), AtClose(c, id, idFirst))
  {
    hide Leads, EventsOf, Events, HeadEvents, TailEvents, AtBody, AtClose;
    ResponseEvents(body, id, idFirst);
    ConsumeHeadAndId(id, idFirst);
    ConsumeTail(c, id, idFirst);
    LeadsOn(FRESH, HeadEvents(id, idFirst), AtBody(id, idFirst), EventsOf(body), c);
    LeadsOn(FRESH, HeadEvents(id, idFirst) + EventsOf(body), c, TailEvents(id, idFirst), AtClose(c, id, idFirst));
  }

  lemma ResponseNotTaken(body: Member, id: int, idFirst: bool)
    requires !Takes(AtBody(id, idFirst), EventsOf(body))
    ensures !Takes(FRESH, Events(ResponseTree(body, id, idFirst)))
  {
    hide Takes, EventsOf, Events, HeadEvents, TailEvents, AtBody;
    ResponseEvents(body, id, idFirst);
    ConsumeHeadAndId(id, idFirst);
    NeverTaken(FRESH, HeadEvents(id, idFirst), AtBody(id, idFirst), EventsOf(body), TailEvents(id, idFirst));
  }

  // ---------------------------------------------------------------- what is refused

  predicate DistinctNames(params: seq<Param>) {
    forall i, j :: 0 <= i < j < |params| ==> NameOf(params[i]) != NameOf(params[j])
  }

  /** A parameter whose name is bound already is refused. */
  lemma DuplicateNotTaken(c: Rpc, p: Param)
    requires InParams(c) && NameOf(p) in c.params && ReadableParam(p)
    ensures !Takes(c, EventsOf(ParamMember(p)))
  {
    hide CString, Takes, Consume, Leads, NumberText, IntNumber, ObjectTrees, ItemEvents;
    var key := Event(JsonKey, NameOf(p));
    CStringIs(NameOf(p));
    LeadsOne(c, key);
    var d := OnEvent(c, key).rpc;
    assert d == c.(lastParamKey := Some(NameOf(p)));
    match p
    case ScalarParam(f) =>
      ValueIs(f.value, 0);
      hide Events, ValueTree;
      var ev := ValueEvent(f.value);
      assert OnEvent(d, ev) == OnScalar(d, ev);
      NotTaken(c, [key], d, ev);
    case ArrayParam(_, objects) =>
      var begin, end := Event(JsonArrayBegin, []), Event(JsonArrayEnd, []);
      NotTaken(c, [key], d, begin);
      var inner := ItemEvents(ObjectTrees(objects));
      assert EventsOf(ParamMember(p)) == [key] + [begin] + (inner + [end]);
      TakesPrefix(c, [key] + [begin], inner + [end]);
  }

  lemma {:induction false} ConsumeParamsIff(c: Rpc, params: seq<Param>)
    requires InParams(c) && c.params == map[] && forall i :: 0 <= i < |params| ==> ReadableParam(params[i])
    ensures
      if DistinctNames(params) then Leads(c, MemberEvents(ParamMembers(params)), c.(params := ParamTable(params)))
      else !Takes(c, MemberEvents(ParamMembers(params)))
  {
    hide Leads, Takes, Consume, ReadableParam, EventsOf, ParamMember, ParamVal, NameOf;
    if DistinctNames(params) {
      ConsumeParams(c, params);
    } else {
      var n := |params| - 1;
      ParamsSnoc(params);
      hide MemberEvents, ParamMembers;
      ConsumeParamsIff(c, params[..n]);
      var a := MemberEvents(ParamMembers(params[..n]));
      TakesPrefix(c, a, EventsOf(ParamMember(params[n])));
      if DistinctNames(params[..n]) {
        var i :| 0 <= i < n && NameOf(params[i]) == NameOf(params[n]);
        ParamTableHas(params[..n], i);
        LeadsIs(c, a, c.(params := ParamTable(params[..n])));
        DuplicateNotTaken(c.(params := ParamTable(params[..n])), params[n]);
      }
    }
  }

  lemma ConsumeResultIff(c: Rpc, params: seq<Param>)
    requires InMessage(c) && forall i :: 0 <= i < |params| ==> ReadableParam(params[i])
    ensures
      if DistinctNames(params) then
        Leads(c, EventsOf(ResultMember(params)), c.(params := ParamTable(params), lastKeyToken := TokResult))
      else !Takes(c, EventsOf(ResultMember(params)))
  {
    hide Leads, Takes, Consume, TokenOf, ReadableParam, ParamTable, MemberEvents, ParamMembers, DistinctNames, EventsOf,
      Ascii;
    TokensAre();
    var d := c.(lastKeyToken := TokResult);
    ObjectBegins(c, Ascii("result"), d);
    var e := d.(nesting := 2, paramState := true);
    ConsumeParamsIff(e, params);
    ObjectMember(Ascii("result"), ParamMembers(params));
    var begin, inner := ObjectBegin(Ascii("result")), MemberEvents(ParamMembers(params));
    if DistinctNames(params) {
      var f := e.(params := ParamTable(params));
      ObjectEnds(f);
      LeadsOn(c, begin, e, inner, f);
      LeadsOn(c, begin + inner, f, [Event(JsonObjectEnd, [])], f.(nesting := 1, paramState := false));
    } else {
      NeverTaken(c, begin, e, inner, [Event(JsonObjectEnd, [])]);
    }
  }

  /** A spelled document of which an event is not taken is a parse error. */
  lemma MessageIsRefused(ls: seq<Lexeme>, bytes: Bytes, t: Tree)
    requires Admits(MessageConfig(), ls, bytes, t) && !Takes(FRESH, Events(t))
    ensures ParseMsg(bytes).ret == JSONRPC_PARSE_ERROR
  {
    hide Takes, Consume, Events, Feed, StepByte, MessageConfig, Accepts, OnEvent, Spells, AllFit, AllAllowed,
      CommentsPlaced, IsContainer, Depth;
    var cfg := MessageConfig();
    var o := Feed(cfg, Init(cfg), bytes);
    if o.ret == 0 && IsDone(o.p) {
      NoCommentsAllowed();
      DoneMeansDocument(cfg, bytes);
      var ls', t' := AcceptedIsDocument(cfg, bytes);
      SameEvents(cfg, bytes, ls, t, ls', t');
      AcceptsIsTakes(Events(t));
      assert false;
    }
  }

  lemma NoCommentsAllowed()
    ensures !MessageConfig().allowCComments && !MessageConfig().allowYamlComments
  {
  }

  /** Two readings of one text tell the same events. */
  lemma SameEvents(cfg: Config, bytes: Bytes, ls: seq<Lexeme>, t: Tree, ls': seq<Lexeme>, t': Tree)
    requires Admits(cfg, ls, bytes, t) && Admits(cfg, ls', bytes, t')
    ensures Events(t) == Events(t')
  {
    hide Feed, StepByte, Events, Spells, Depth, CommentsPlaced, IsLexeme;
    var any := cfg.(callback := (log: seq<Event>, ev: Event) => 0);
    AcceptsSpelling(any, ls, bytes, t);
    AcceptsSpelling(any, ls', bytes, t');
  }

  lemma {:induction false} AcceptsIsTakes(evs: seq<Event>)
    requires Accepts(MessageConfig(), evs)
    ensures Takes(FRESH, evs)
  {
    hide OnEvent, Consume;
    if evs != [] {
      var n := |evs| - 1;
      assert MessageConfig().callback(evs[..n], evs[n]) == 0;
      forall k | 0 <= k < n ensures MessageConfig().callback(evs[..n][..k], evs[..n][k]) == 0 {
        assert evs[..n][..k] == evs[..k];
        assert MessageConfig().callback(evs[..k], evs[k]) == 0;
      }
      AcceptsIsTakes(evs[..n]);
    }
  }

  // ---------------------------------------------------------------- what a response is read as

  /** The text of an integer, and the scalar it is read as. */
  function Digits(n: int): Bytes { NumberText(IntNumber(n)) }

  function IntScalar(n: int): JsonVal { Scalar(JsonInt, |Digits(n)|, Digits(n)) }

  lemma IntScalarIs(n: int)
    ensures ValueOf(IntVal(n)) == IntScalar(n)
  {
    OtherComesBack(IntVal(n));
  }

  lemma NoDigitsIsZero()
    ensures IsZero([])
  {
  }

  /**
    A response with a result, however it is spelled and in either order: its members are
    the parameters, its id is kept, and reading them succeeds, if and only if no name
    comes twice; otherwise the message is a parse error.
   */
  lemma ResultIsRead(ls: seq<Lexeme>, bytes: Bytes, params: seq<Param>, id: int, idFirst: bool)
    requires Admits(MessageConfig(), ls, bytes, ResponseTree(ResultMember(params), id, idFirst))
    requires forall i :: 0 <= i < |params| ==> ReadableParam(params[i])
    ensures var o := ParseMsg(bytes);
            if DistinctNames(params) then
              && o.ret == 0 && o.rpc.status == StatusOk && o.rpc.service == None
              && o.rpc.params == ParamTable(params) && o.rpc.pointed == None
              && o.rpc.id == Some(IntScalar(id))
            else o.ret == JSONRPC_PARSE_ERROR
  {
    hide Admits, Takes, Consume, Leads, Events, EventsOf, MessageConfig, ParamTable, DistinctNames, ReadableParam,
      ResultMember, ResponseTree, ParseMsg, Digits, ValueOf, IntScalar, Strtol;
    var t := ResponseTree(ResultMember(params), id, idFirst);
    var c := AtBody(id, idFirst);
    ConsumeResultIff(c, params);
    if DistinctNames(params) {
      var d := c.(params := ParamTable(params), lastKeyToken := TokResult);
      ResponseLeads(ResultMember(params), id, idFirst, d);
      MessageIsRead(ls, bytes, t, AtClose(d, id, idFirst));
      IntScalarIs(id);
      NoDigitsIsZero();
    } else {
      ResponseNotTaken(ResultMember(params), id, idFirst);
      MessageIsRefused(ls, bytes, t);
    }
  }

  /**
    A response with an error, likewise: it is read if and only if every member's name
    counts as a token of the protocol and none comes twice. Then its members and the
    digits of its code are kept, and 0 is returned exactly when that code is zero, or
    there is none; otherwise 1, and the status stays short of the one that lets its
    members be asked for.
   */
  lemma ErrorIsRead(ls: seq<Lexeme>, bytes: Bytes, fields: seq<Field>, id: int, idFirst: bool)
    requires var body := Member(Ascii("error"), Obj(FieldMembers(fields)));
             Admits(MessageConfig(), ls, bytes, ResponseTree(body, id, idFirst))
    requires forall i :: 0 <= i < |fields| ==> 0 !in fields[i].name
    ensures var o := ParseMsg(bytes);
            if AllKnown(fields) && ReadableFields(fields) then
              && o.ret == (if IsZero(CodeDigits(fields)) then 0 else 1)
              && o.rpc.status == (if o.ret == 0 then StatusOk else StatusV2)
              && o.rpc.params == Table(fields) && o.rpc.errorDigits == CodeDigits(fields)
              && o.rpc.id == Some(IntScalar(id)) && o.rpc.pointed == None
            else o.ret == JSONRPC_PARSE_ERROR
  {
    hide Admits, Takes, Consume, Leads, Events, EventsOf, MessageConfig, Table, AllKnown, ReadableFields, CodeDigits,
      FieldMembers, LastToken, ResponseTree, ParseMsg, Digits, ValueOf, IntScalar, Strtol;
    var body := Member(Ascii("error"), Obj(FieldMembers(fields)));
    var t := ResponseTree(body, id, idFirst);
    var c := AtBody(id, idFirst);
    ConsumeError(c, fields);
    if AllKnown(fields) && ReadableFields(fields) {
      var d := AfterFields(c.(lastKeyToken := TokError, errorTokenSeen := true), fields);
      ResponseLeads(body, id, idFirst, d);
      MessageIsRead(ls, bytes, t, AtClose(d, id, idFirst));
      IntScalarIs(id);
    } else {
      ResponseNotTaken(body, id, idFirst);
      MessageIsRefused(ls, bytes, t);
    }
  }

  lemma ErrorFieldsAre(code: int, message: Bytes, codeFirst: bool)
    ensures var fields := ErrorFields(code, message, codeFirst);
            && AllKnown(fields) && ReadableFields(fields) && CodeDigits(fields) == Digits(code)
            && Table(fields) == map[Ascii("code") := IntScalar(code), Ascii("message") := ValueOf(StrVal(message))]
  {
    hide ValueOf, Digits, IntScalar, TokenOf;
    var fields := ErrorFields(code, message, codeFirst);
    TokensAre();
    IntScalarIs(code);
    assert fields[..1][..0] == [] && fields[..2][..1] == fields[..1] && fields[..2] == fields;
    assert Digits(code) == NumberText(IntNumber(code)) by { DigitsAre(code); }
    assert CodeDigits(fields[..0]) == [] && Table(fields[..0]) == map[];
    hide NumberText;
    assert CodeDigits(fields[..1]) == if codeFirst then Digits(code) else [];
  }

  lemma DigitsAre(n: int)
    ensures Digits(n) == NumberText(IntNumber(n))
  {
  }

  /** The low 32 bits of what `strtol` gives for the integer are all zero. */
  predicate IsZeroCode(n: int) { (n % 0x1_0000_0000 == 0 && n <= LONG_MAX) || n < LONG_MIN }

  /** What an error response leaves: its code and its message, and what `json_rpc_parse_msg` returns. */
  predicate TellsError(o: Reply, code: int, message: Bytes, id: int) {
    && o.ret == (if IsZeroCode(code) then 0 else 1)
    && o.rpc.params == map[Ascii("code") := IntScalar(code), Ascii("message") := ValueOf(StrVal(message))]
    && o.rpc.errorDigits == Digits(code) && o.rpc.id == Some(IntScalar(id))
    && CheckCode(o.rpc, Ascii("code")) == CheckCode(o.rpc, Ascii("message"))
       == if o.ret == 0 then 0 else JSONRPC_PARSE_ERROR
  }

  /**
    An error with a code and a message, in either order: the call returns 1 if and only
    if the low 32 bits of the code, as `strtol` reads it, are not all zero. Then asking
    for its members is refused, although they are kept.
   */
  lemma CodeAndMessageAreRead(ls: seq<Lexeme>, bytes: Bytes, code: int, message: Bytes, codeFirst: bool, id: int,
                              idFirst: bool)
    requires Admits(MessageConfig(), ls, bytes, ResponseTree(ErrorMember(code, message, codeFirst), id, idFirst))
    ensures TellsError(ParseMsg(bytes), code, message, id)
  {
    hide ParseMsg, Admits, MessageConfig, Strtol, ValueOf, IntScalar, FieldMembers, AllKnown, ReadableFields,
      CodeDigits;
    var fields := ErrorFields(code, message, codeFirst);
    ErrorFieldsAre(code, message, codeFirst);
    hide Table, Digits;
    NoNulInNames();
    ErrorIsRead(ls, bytes, fields, id, idFirst);
    ErrorCodeIsZero(code);
    DigitsAre(code);
    KindsAre(code, message);
  }

  lemma NoNulInNames()
    ensures 0 !in Ascii("code") && 0 !in Ascii("message") && Ascii("code") != Ascii("message")
  {
  }

  lemma KindsAre(n: int, s: Bytes)
    ensures IntScalar(n).kind == JsonInt && ValueOf(StrVal(s)).Scalar? && ValueOf(StrVal(s)).kind == JsonString
  {
  }

  // ---------------------------------------------------------------- the version

  lemma {:induction false} MembersCons(m: Member, ms: seq<Member>)
    ensures exists rest: seq<Event> :: MemberEvents([m] + ms) == EventsOf(m) + rest
    decreases |ms|
  {
    hide Events;
    if ms == [] {
      MembersSnoc([], m);
      NoMembers();
      assert [] + [m] == [m] + ms;
      assert MemberEvents([m] + ms) == EventsOf(m) + [];
    } else {
      var n := |ms| - 1;
      MembersCons(m, ms[..n]);
      var rest: seq<Event> :| MemberEvents([m] + ms[..n]) == EventsOf(m) + rest;
      MembersSnoc([m] + ms[..n], ms[n]);
      assert [m] + ms[..n] + [ms[n]] == [m] + ms;
      hide MemberEvents, EventsOf;
      assert EventsOf(m) + rest + EventsOf(ms[n]) == EventsOf(m) + (rest + EventsOf(ms[n]));
    }
  }

  lemma FirstMember(m: Member, ms: seq<Member>) returns (rest: seq<Event>)
    ensures Events(Obj([m] + ms)) == [Event(JsonObjectBegin, [])] + EventsOf(m) + rest
  {
    hide EventsOf, Events, MemberEvents;
    var begin, end := [Event(JsonObjectBegin, [])], [Event(JsonObjectEnd, [])];
    MembersCons(m, ms);
    var more: seq<Event> :| MemberEvents([m] + ms) == EventsOf(m) + more;
    ObjEvents([m] + ms);
    rest := more + end;
    assert begin + (EventsOf(m) + more) + end == begin + EventsOf(m) + (more + end);
  }

  /**
    A message that begins with another version is a parse error, whatever else is in it.
    The comparison is only as long as the string, so a beginning of `2.0` will do.
   */
  lemma WrongVersionIsRefused(ls: seq<Lexeme>, bytes: Bytes, version: Bytes, ms: seq<Member>)
    requires Admits(MessageConfig(), ls, bytes, Obj([Member(Ascii("jsonrpc"), Str(version))] + ms))
    requires 0 !in version && !(version <= Ascii("2.0"))
    ensures ParseMsg(bytes).ret == JSONRPC_PARSE_ERROR
  {
    hide Takes, Consume, Leads, Events, EventsOf, MessageConfig, ParseMsg, Admits, Ascii;
    var m := Member(Ascii("jsonrpc"), Str(version));
    var c := FRESH.(nesting := 1);
    LeadsOne(FRESH, Event(JsonObjectBegin, []));
    VersionNotTaken(c, version);
    var rest := FirstMember(m, ms);
    NeverTaken(FRESH, [Event(JsonObjectBegin, [])], c, EventsOf(m), rest);
    MessageIsRefused(ls, bytes, Obj([m] + ms));
  }

  lemma VersionNotTaken(c: Rpc, version: Bytes)
    requires !c.paramState && 0 !in version && !(version <= Ascii("2.0"))
    ensures !Takes(c, EventsOf(Member(Ascii("jsonrpc"), Str(version))))
  {
    hide Takes, Consume, Leads, TokenOf;
    TokensAre();
    NamesAre();
    var key, ev := Event(JsonKey, Ascii("jsonrpc")), Event(JsonString, version);
    hide Ascii;
    LeadsOne(c, key);
    var d := OnEvent(c, key).rpc;
    assert forall i :: 0 <= i < |version| ==> version[i] != 0;
    assert !Abbreviates(version, VERSION);
    assert OnEvent(d, ev).ret != 0;
    NotTaken(c, [key], d, ev);
    assert EventsOf(Member(Ascii("jsonrpc"), Str(version))) == [key] + [ev];
  }

  lemma TwoMembers(a: Member, b: Member)
    ensures Events(Obj([a, b]))
            == [Event(JsonObjectBegin, [])] + EventsOf(a) + EventsOf(b) + [Event(JsonObjectEnd, [])]
  {
    hide Events, MemberEvents, EventsOf;
    MembersSnoc([], a);
    MembersSnoc([a], b);
    assert [] + [a] == [a] && [a] + [b] == [a, b];
    NoMembers();
    ObjEvents([a, b]);
    Joined([Event(JsonObjectBegin, [])], EventsOf(a), EventsOf(b), [], [Event(JsonObjectEnd, [])]);
    assert [] + EventsOf(a) + EventsOf(b) + [] == [] + EventsOf(a) + EventsOf(b);
  }

  /** A message without a version is a parse error. */
  lemma UnversionedIsRefused(ls: seq<Lexeme>, bytes: Bytes, params: seq<Param>, id: int)
    requires Admits(MessageConfig(), ls, bytes, Obj([IdMember(id), ResultMember(params)]))
    requires DistinctNames(params) && forall i :: 0 <= i < |params| ==> ReadableParam(params[i])
    ensures ParseMsg(bytes).ret == JSONRPC_PARSE_ERROR
  {
    hide Takes, Consume, Leads, Events, EventsOf, MessageConfig, ParseMsg, Admits, ValueOf, ParamTable,
      DistinctNames, ReadableParam, IdMember, ResultMember;
    var c := FRESH.(nesting := 1);
    var begin := Event(JsonObjectBegin, []);
    LeadsOne(FRESH, begin);
    ConsumeMessageId(c, id);
    var d := c.(id := Some(ValueOf(IntVal(id))), lastKeyToken := TokNone);
    ConsumeResultIff(d, params);
    var e := d.(params := ParamTable(params), lastKeyToken := TokResult);
    var f := EndsIn(e);
    var a, b := IdMember(id), ResultMember(params);
    TwoMembers(a, b);
    LeadsOn(FRESH, [begin], c, EventsOf(a), d);
    LeadsOn(FRESH, [begin] + EventsOf(a), d, EventsOf(b), e);
    LeadsOn(FRESH, [begin] + EventsOf(a) + EventsOf(b), e, [Event(JsonObjectEnd, [])], f);
    MessageIsRead(ls, bytes, Obj([a, b]), f);
  }

  lemma EndsIn(c: Rpc) returns (d: Rpc)
    requires !c.paramState
    ensures Leads(c, [Event(JsonObjectEnd, [])], d) && d.status == c.status
  {
    hide Leads;
    LeadsOne(c, Event(JsonObjectEnd, []));
    d := OnEvent(c, Event(JsonObjectEnd, [])).rpc;
  }

  // ---------------------------------------------------------------- the text of a response

  function IdText(id: int): Bytes { Ascii("\"id\":") + Digits(id) }

  function NamedText(name: string, body: Tree): Bytes
    requires IsAscii(name)
  {
    Ascii("\"") + Ascii(name) + Ascii("\":") + LayOut(body, Compact, 1)
  }

  /** A response without white space, from the text of its body. */
  function ResponseText(body: Bytes, id: int, idFirst: bool): Bytes {
    Ascii("{\"jsonrpc\":\"2.0\",")
    + (if idFirst then IdText(id) + Ascii(",") + body else body + Ascii(",") + IdText(id)) + Ascii("}")
  }

  lemma {:induction false} PlainQuotes(s: Bytes)
    requires forall i :: 0 <= i < |s| ==> Quote(s[i]) == [s[i]]
    ensures Quotes(s) == s
  {
    hide Quote;
    if s != [] {
      PlainQuotes(s[1..]);
      assert s == [s[0]] + s[1..];
    }
  }

  predicate IsPlainText(s: string) {
    forall i :: 0 <= i < |s| ==> ' ' <= s[i] < '\U{7f}' && s[i] != '"' && s[i] != '\\'
  }

  lemma QuotedName(name: string)
    requires IsPlainText(name)
    ensures Quoted(Ascii(name)) == Ascii("\"") + Ascii(name) + Ascii("\"")
  {
    var s := Ascii(name);
    forall i | 0 <= i < |s| ensures Quote(s[i]) == [s[i]] {
      assert s[i] == name[i] as int;
    }
    PlainQuotes(s);
    hide Quotes;
  }

  function MemberText(m: Member): Bytes { Quoted(m.key) + Ascii(":") + LayOut(m.value, Compact, 1) }

  lemma ThreeMembersText(a: Member, b: Member, c: Member)
    ensures LayOut(Obj([a, b, c]), Compact, 0)
            == Ascii("{") + MemberText(a) + Ascii(",") + MemberText(b) + Ascii(",") + MemberText(c) + Ascii("}")
  {
    hide LayOut, LayOutMembers, Quoted;
    var ms := [a, b, c];
    ContainerIs(Obj(ms), Compact, 0);
    MembersAre(ms[..0], Compact, 1);
    MembersAre(ms[..1], Compact, 1);
    MembersAre(ms[..2], Compact, 1);
    MembersAre(ms, Compact, 1);
    assert ms[..1][..0] == [] && ms[..2][..1] == ms[..1] && ms[..0] == [];
    hide Ascii;
    JoinedText(Ascii("{"), Quoted(a.key), Ascii(":"), LayOut(a.value, Compact, 1), Ascii(","),
               Quoted(b.key), LayOut(b.value, Compact, 1), Quoted(c.key), LayOut(c.value, Compact, 1), Ascii("}"));
  }

  lemma JoinedText(o: Bytes, k1: Bytes, colon: Bytes, v1: Bytes, comma: Bytes, k2: Bytes, v2: Bytes, k3: Bytes,
                   v3: Bytes, e: Bytes)
    ensures o + (([] + [] + [] + k1 + colon + v1) + comma + [] + k2 + colon + v2 + comma + [] + k3 + colon + v3)
            + [] + e
            == o + (k1 + colon + v1) + comma + (k2 + colon + v2) + comma + (k3 + colon + v3) + e
  {
    assert [] + [] + [] + k1 == k1;
  }

  lemma NamedTextIs(name: string, body: Tree)
    requires IsPlainText(name)
    ensures MemberText(Member(Ascii(name), body)) == NamedText(name, body)
  {
    QuotedName(name);
    hide LayOut, Quoted;
    assert Ascii("\"") + Ascii(":") == Ascii("\":");
    hide Ascii;
  }

  lemma ResponseTextIs(name: string, body: Tree, id: int, idFirst: bool)
    requires IsPlainText(name)
    ensures LayOut(ResponseTree(Member(Ascii(name), body), id, idFirst), Compact, 0)
            == ResponseText(NamedText(name, body), id, idFirst)
  {
    hide LayOut, Ascii, MemberText, NamedText, ResponseText, ResponseTree, IdText;
    var m := Member(Ascii(name), body);
    TreeIs(m, id, idFirst);
    ThreeMembersText(VersionMember(), if idFirst then IdMember(id) else m, if idFirst then m else IdMember(id));
    NamedTextIs(name, body);
    VersionTextIs();
    IdTextIs(id);
    TextsJoin(NamedText(name, body), id, idFirst);
  }

  lemma VersionTextIs()
    ensures MemberText(VersionMember()) == Ascii("\"jsonrpc\":\"2.0\"")
  {
    hide LayOut, MemberText, Quoted, NamedText;
    NamedTextIs("jsonrpc", Str(Ascii("2.0")));
    QuotedName("2.0");
    LayOutStr(Ascii("2.0"));
    NamedStr("jsonrpc", "2.0");
    assert "\"" + "jsonrpc" + "\":" + ("\"" + "2.0" + "\"") == "\"jsonrpc\":\"2.0\"";
  }

  lemma NamedStr(name: string, text: string)
    requires IsAscii(name) && IsAscii(text)
    requires LayOut(Str(Ascii(text)), Compact, 1) == Ascii("\"") + Ascii(text) + Ascii("\"")
    ensures IsAscii("\"" + name + "\":" + ("\"" + text + "\""))
    ensures NamedText(name, Str(Ascii(text))) == Ascii("\"" + name + "\":" + ("\"" + text + "\""))
  {
    hide LayOut;
    AsciiJoin("\"", name);
    AsciiJoin("\"" + name, "\":");
    AsciiJoin("\"", text);
    AsciiJoin("\"" + text, "\"");
    AsciiJoin("\"" + name + "\":", "\"" + text + "\"");
  }

  lemma LayOutStr(v: Bytes)
    ensures LayOut(Str(v), Compact, 1) == Quoted(v)
  {
    hide Quoted;
  }

  lemma IdTextIs(id: int)
    ensures MemberText(IdMember(id)) == IdText(id)
  {
    NamedTextIs("id", Num(IntNumber(id)));
    LayOutInt(id);
    hide LayOut, MemberText, Digits;
    AsciiJoin("\"", "id");
    AsciiJoin("\"" + "id", "\":");
    hide Ascii;
    assert "\"" + "id" + "\":" == "\"id\":";
  }

  lemma LayOutInt(n: int)
    ensures LayOut(Num(IntNumber(n)), Compact, 1) == Digits(n)
  {
    hide NumberText, IntNumber;
  }

  lemma AsciiJoin(a: string, b: string)
    requires IsAscii(a) && IsAscii(b)
    ensures IsAscii(a + b) && Ascii(a + b) == Ascii(a) + Ascii(b)
  {
  }

  lemma TextsJoin(body: Bytes, id: int, idFirst: bool)
    ensures var a, b := if idFirst then IdText(id) else body, if idFirst then body else IdText(id);
            Ascii("{") + Ascii("\"jsonrpc\":\"2.0\"") + Ascii(",") + a + Ascii(",") + b + Ascii("}")
            == ResponseText(body, id, idFirst)
  {
    hide IdText;
    assert Ascii("{") + Ascii("\"jsonrpc\":\"2.0\"") + Ascii(",") == Ascii("{\"jsonrpc\":\"2.0\",");
    hide Ascii;
  }

  /** A well-formed document's text without white space is a spelling of it. */
  lemma TextIsAdmitted(t: Tree) returns (ls: seq<Lexeme>)
    requires IsContainer(t) && WellFormed(t) && Depth(t) <= MAX_NESTING
    requires |LayOut(t, Compact, 0)| < JSONRPC_REQ_SZ_MAX
    ensures Admits(MessageConfig(), ls, LayOut(t, Compact, 0), t)
  {
    hide Writes, WellFormed, Events, Tokens, PrintAll, Depth, LayOut, MessageConfig, Admits;
    ls := WritesTree(INITIAL, t, Compact);
    PrintsLayout(t, Compact);
    assert Lead(INITIAL) + Tokens(t) == Tokens(t);
    ConfigIs();
    WrittenIsAdmitted(MessageConfig(), ls, LayOut(t, Compact, 0), t);
  }

  /** Strings and names are made of complete characters. */
  ghost predicate WellParams(params: seq<Param>) {
    forall i :: 0 <= i < |params| ==> IsUtf8(NameOf(params[i])) && WellFormed(ParamMember(params[i]).value)
  }

  lemma ParamDepth(p: Param)
    ensures Depth(ParamMember(p).value) <= 2
  {
    match p
    case ScalarParam(f) =>
    case ArrayParam(_, objects) =>
      ObjectsAreShallow(objects);
      assert Depth(Arr(ObjectTrees(objects))) == 1 + ItemsDepth(ObjectTrees(objects));
  }

  lemma ResponseIsWell(name: string, members: seq<Member>, id: int, idFirst: bool)
    requires IsPlainText(name)
    requires forall i :: 0 <= i < |members| ==>
               IsUtf8(members[i].key) && WellFormed(members[i].value) && Depth(members[i].value) <= 2
    ensures var t := ResponseTree(Member(Ascii(name), Obj(members)), id, idFirst);
            WellFormed(t) && Depth(t) <= MAX_NESTING
  {
    var m := Member(Ascii(name), Obj(members));
    AsciiIsUtf8(Ascii(name));
    AsciiIsUtf8(Ascii("jsonrpc"));
    AsciiIsUtf8(Ascii("2.0"));
    AsciiIsUtf8(Ascii("id"));
    IntIsNumber(id);
    hide IsUtf8, WellFormed, Depth, MembersDepth, IsNumber;
    ObjIsWell(members);
    MembersAreShallow(members, 2);
    LeavesAreWell(Ascii("2.0"), IntNumber(id));
    hide Ascii, IntNumber;
    var ms := [VersionMember(), if idFirst then IdMember(id) else m, if idFirst then m else IdMember(id)];
    TreeIs(m, id, idFirst);
    ObjIsWell(ms);
    MembersAreShallow(ms, 3);
  }

  lemma LeavesAreWell(v: Bytes, n: Number)
    requires IsUtf8(v) && IsNumber(n)
    ensures WellFormed(Str(v)) && Depth(Str(v)) == 0 && WellFormed(Num(n)) && Depth(Num(n)) == 0
  {
  }

  /**
    Round trip of a result on the text of the message: with its id before or after, the
    text of any response whose parameters have distinct names is read back to them;
    with a name twice it is a parse error.
   */
  lemma ResultRoundTrip(params: seq<Param>, id: int, idFirst: bool)
    requires WellParams(params) && forall i :: 0 <= i < |params| ==> ReadableParam(params[i])
    requires |ResponseText(NamedText("result", Obj(ParamMembers(params))), id, idFirst)| < JSONRPC_REQ_SZ_MAX
    ensures var o := ParseMsg(ResponseText(NamedText("result", Obj(ParamMembers(params))), id, idFirst));
            if DistinctNames(params) then
              o.ret == 0 && o.rpc.status == StatusOk && o.rpc.params == ParamTable(params)
              && o.rpc.id == Some(IntScalar(id))
            else o.ret == JSONRPC_PARSE_ERROR
  {
    hide LayOut, WellFormed, IsUtf8, Depth, ResponseText, NamedText, ReadableParam, DistinctNames, ParamTable, ParseMsg,
      Admits, ResponseTree, ParamMember, IntScalar, NameOf;
    var t := ResponseTree(ResultMember(params), id, idFirst);
    forall i | 0 <= i < |params|
      ensures var m := ParamMember(params[i]); IsUtf8(m.key) && WellFormed(m.value) && Depth(m.value) <= 2
    {
      ParamDepth(params[i]);
      NameIsKey(params[i]);
    }
    ResponseIsWell("result", ParamMembers(params), id, idFirst);
    ResponseTextIs("result", Obj(ParamMembers(params)), id, idFirst);
    IsResponse(ResultMember(params), id, idFirst);
    var ls := TextIsAdmitted(t);
    ResultIsRead(ls, LayOut(t, Compact, 0), params, id, idFirst);
  }

  lemma NameIsKey(p: Param)
    ensures ParamMember(p).key == NameOf(p)
  {
  }

  lemma IsResponse(body: Member, id: int, idFirst: bool)
    ensures IsContainer(ResponseTree(body, id, idFirst))
  {
  }

  /**
    Round trip of an error on the text of the message, whatever the order of its members
    and of its id.
   */
  lemma ErrorRoundTrip(code: int, message: Bytes, codeFirst: bool, id: int, idFirst: bool)
    requires IsUtf8(message)
    requires var body := NamedText("error", Obj(FieldMembers(ErrorFields(code, message, codeFirst))));
             |ResponseText(body, id, idFirst)| < JSONRPC_REQ_SZ_MAX
    ensures var body := NamedText("error", Obj(FieldMembers(ErrorFields(code, message, codeFirst))));
            TellsError(ParseMsg(ResponseText(body, id, idFirst)), code, message, id)
  {
    hide LayOut, WellFormed, IsUtf8, Depth, ResponseText, NamedText, ParseMsg, Admits, ResponseTree, TellsError;
    var fields := ErrorFields(code, message, codeFirst);
    var t := ResponseTree(ErrorMember(code, message, codeFirst), id, idFirst);
    ErrorFieldsAreWell(code, message, codeFirst);
    hide FieldMembers, ErrorFields;
    ResponseIsWell("error", FieldMembers(fields), id, idFirst);
    ResponseTextIs("error", Obj(FieldMembers(fields)), id, idFirst);
    IsResponse(ErrorMember(code, message, codeFirst), id, idFirst);
    var ls := TextIsAdmitted(t);
    CodeAndMessageAreRead(ls, LayOut(t, Compact, 0), code, message, codeFirst, id, idFirst);
  }

  lemma ErrorFieldsAreWell(code: int, message: Bytes, codeFirst: bool)
    requires IsUtf8(message)
    ensures forall m :: m in FieldMembers(ErrorFields(code, message, codeFirst)) ==>
              IsUtf8(m.key) && WellFormed(m.value) && Depth(m.value) <= 2
  {
    AsciiIsUtf8(Ascii("code"));
    AsciiIsUtf8(Ascii("message"));
    IntIsNumber(code);
    LeavesAreWell(message, IntNumber(code));
    hide IsUtf8, WellFormed, Depth, IsNumber, IntNumber, Ascii;
  }

  // ---------------------------------------------------------------- the text of a request

  /** A request (section 4 of the JSON-RPC 2.0 specification); without an id it is a notification. */
  function RequestDocument(service: Bytes, name: Bytes, id: Option<nat>, params: seq<Param>): Tree {
    Obj([VersionMember(), Member(Ascii("method"), Str(service + Ascii(".") + name))]
        + (if id.Some? then [IdMember(id.value)] else [])
        + [Member(Ascii("params"), Obj(ParamMembers(params)))])
  }

  /** What a client's calls write is that document, laid out without white space. */
  lemma RequestIsLaidOut(service: Bytes, name: Bytes, id: Option<nat>, params: seq<Param>)
    requires PlainTarget(service, name) && GoodParams(params)
    ensures RequestText(service, name, id, params) == LayOut(RequestDocument(service, name, id, params), Compact, 0)
  {
    hide RequestText, LayOut, RequestTree, RequestDocument, PrintAll, Events, PlainTarget, GoodParams;
    TargetIsPlain(service, name, params);
    RequestIsPrinted(service, name, id, params);
    TreeIsObj(service, name, id, params);
    PrintsLayout(RequestTree(service, name, id, params), Compact);
    RequestTreeIs(service, name, id, params);
  }

  lemma RequestTreeIs(service: Bytes, name: Bytes, id: Option<nat>, params: seq<Param>)
    ensures RequestTree(service, name, id, params) == RequestDocument(service, name, id, params)
  {
    NamesAre();
    assert [DOT] == Ascii(".");
    hide Ascii, IntNumber;
    var head := HeadParams(service, name, id);
    assert ParamMembers(head) == [VersionMember(), Member(KEY_METHOD, Str(service + [DOT] + name))]
                                 + (if id.Some? then [IdMember(id.value)] else []);
  }
}
