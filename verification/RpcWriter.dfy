/**
  The sending side of the JSON-RPC layer: a request is built piece by piece in a
  buffer, and whether a comma is needed is decided by looking at the last byte.
 */
module RpcWriter {
  import opened JsonTables
  import opened Grammar
  import opened Printer
  import opened RpcReader

  // ---------------------------------------------------------------- numbers

  /** `%u`: the decimal digits of a number. */
  function Decimal(n: nat): Bytes {
    if n < 10 then [0x30 + n] else Decimal(n / 10) + [0x30 + n % 10]
  }

  /** `%d` and `%lld`, as a number of the grammar. */
  function IntNumber(n: int): Number {
    Number(n < 0, Decimal(if n < 0 then -n else n), None, None)
  }

  lemma {:induction false} DecimalIsWhole(n: nat)
    ensures IsWhole(Decimal(n)) && (n > 0 ==> Decimal(n)[0] != 0x30) && AreDigits(Decimal(n))
  {
    if n >= 10 {
      DecimalIsWhole(n / 10);
      assert forall i :: 0 <= i < |Decimal(n / 10)| ==> Decimal(n)[i] == Decimal(n / 10)[i];
    }
  }

  lemma IntIsNumber(n: int)
    ensures IsNumber(IntNumber(n))
  {
    DecimalIsWhole(if n < 0 then -n else n);
  }

  // ---------------------------------------------------------------- parameters

  datatype Value = IntVal(n: int) | BoolVal(b: bool) | NullVal | StrVal(s: Bytes)

  datatype Field = Field(name: Bytes, value: Value)

  /** A parameter: a scalar, or an array of flat objects. */
  datatype Param = ScalarParam(field: Field) | ArrayParam(name: Bytes, objects: seq<seq<Field>>)

  function ValueTree(v: Value): Tree {
    match v
    case IntVal(n) => Num(IntNumber(n))
    case BoolVal(b) => Name(if b then JsonTrue else JsonFalse)
    case NullVal => Name(JsonNull)
    case StrVal(s) => Str(s)
  }

  function FieldMember(f: Field): Member { Member(f.name, ValueTree(f.value)) }

  function FieldMembers(fields: seq<Field>): seq<Member> {
    seq(|fields|, i requires 0 <= i < |fields| => FieldMember(fields[i]))
  }

  function ObjectTrees(objects: seq<seq<Field>>): seq<Tree> {
    seq(|objects|, i requires 0 <= i < |objects| => Obj(FieldMembers(objects[i])))
  }

  function ParamMember(p: Param): Member {
    match p
    case ScalarParam(f) => FieldMember(f)
    case ArrayParam(name, objects) => Member(name, Arr(ObjectTrees(objects)))
  }

  function ParamMembers(params: seq<Param>): seq<Member> {
    seq(|params|, i requires 0 <= i < |params| => ParamMember(params[i]))
  }

  /** The events that describe a member. */
  function EventsOf(m: Member): seq<Event> { [Event(JsonKey, m.key)] + Events(m.value) }

  /** What comes before the parameters: the version, the method, and the id unless it is a notification. */
  function HeadParams(service: Bytes, name: Bytes, id: Option<nat>): seq<Param> {
    [ScalarParam(Field(KEY_JSONRPC, StrVal(VERSION))),
     ScalarParam(Field(KEY_METHOD, StrVal(service + [DOT] + name)))]
    + (if id.Some? then [ScalarParam(Field(KEY_ID, IntVal(id.value)))] else [])
  }

  /** The request as a document (section 4 of the JSON-RPC 2.0 specification). */
  function RequestTree(service: Bytes, name: Bytes, id: Option<nat>, params: seq<Param>): Tree {
    Obj(ParamMembers(HeadParams(service, name, id)) + [Member(KEY_PARAMS, Obj(ParamMembers(params)))])
  }

  // ---------------------------------------------------------------- the buffer

  /** The printer as `json_rpc_append_vargs` sets it up from the last byte. */
  function StateAfter(msg: Bytes): PrintState {
    var last: int := if msg == [] then -1 else msg[|msg| - 1];
    PrintState(0, last == 0x3a, last == 0x7b || last == 0x5b, true)
  }

  /** `json_rpc_append_vargs`. */
  function AppendEvents(msg: Bytes, evs: seq<Event>): Bytes {
    msg + PrintAll(StateAfter(msg), evs, Compact).text
  }

  /** `json_rpc_is_comma_needed`. */
  predicate IsCommaNeeded(msg: Bytes) {
    msg != [] && msg[|msg| - 1] != 0x7b && msg[|msg| - 1] != 0x5b && msg[|msg| - 1] != 0x3a
  }

  function Comma(msg: Bytes): Bytes { if IsCommaNeeded(msg) then [COMMA] else [] }

  /** A scalar append: the comma, the name as it is, and the text of the value. */
  function AppendNamed(msg: Bytes, name: Bytes, text: Bytes): Bytes {
    msg + Comma(msg) + [QUOTE] + name + [QUOTE, COLON] + text
  }

  function ValueText(v: Value): Bytes {
    match v
    case IntVal(n) => NumberText(IntNumber(n))
    case BoolVal(b) => NameText(if b then JsonTrue else JsonFalse)
    case NullVal => NameText(JsonNull)
    case StrVal(s) => StringText(s)
  }

  const HEAD_VERSION: Bytes :=
    [0x7b, 0x22] + KEY_JSONRPC + [0x22, 0x3a, 0x22] + VERSION + [0x22, 0x2c, 0x22] + KEY_METHOD + [0x22, 0x3a, 0x22]
  const HEAD_ID: Bytes := [0x2c, 0x22] + KEY_ID + [0x22, 0x3a]
  const HEAD_PARAMS: Bytes := [0x2c, 0x22] + KEY_PARAMS + [0x22, 0x3a, 0x7b]

  /** `json_rpc_req_init`; the id is left out for a notification. */
  function RequestHead(service: Bytes, name: Bytes, id: Option<nat>): Bytes {
    HEAD_VERSION + service + [DOT] + name + [QUOTE]
    + (if id.Some? then HEAD_ID + Decimal(id.value) else []) + HEAD_PARAMS
  }

  function AppendParam(msg: Bytes, p: Param): Bytes {
    match p
    case ScalarParam(f) => AppendNamed(msg, f.name, ValueText(f.value))
    case ArrayParam(_, _) => AppendEvents(msg, EventsOf(ParamMember(p)))
  }

  function AppendParams(msg: Bytes, params: seq<Param>): Bytes {
    if params == [] then msg else AppendParam(AppendParams(msg, params[..|params| - 1]), params[|params| - 1])
  }

  /** The whole request: `json_rpc_req_init`, the appends, `json_rpc_req_finalize`. */
  function RequestText(service: Bytes, name: Bytes, id: Option<nat>, params: seq<Param>): Bytes {
    AppendParams(RequestHead(service, name, id), params) + [0x7d, 0x7d]
  }

  // ---------------------------------------------------------------- commas

  /** Printer states that raw printing cannot tell apart. */
  predicate SameLead(s: PrintState, t: PrintState) { s.afterKey == t.afterKey && s.enterObject == t.enterObject }

  /** What an event writes ends in the byte that tells the state after it; numbers end in a digit. */
  predicate IsPrintable(ev: Event) {
    && ev.kind != JsonNone
    && (ev.kind == JsonInt || ev.kind == JsonFloat ==> ev.data != [] && IsDigit(ev.data[|ev.data| - 1]))
  }

  predicate ArePrintable(evs: seq<Event>) { forall i :: 0 <= i < |evs| ==> IsPrintable(evs[i]) }

  lemma CompactForgets(s: PrintState, t: PrintState, ev: Event)
    requires SameLead(s, t)
    ensures Print(s, ev, Compact).text == Print(t, ev, Compact).text
    ensures SameLead(Print(s, ev, Compact).state, Print(t, ev, Compact).state)
  {
  }

  lemma {:induction false} AllForget(s: PrintState, t: PrintState, evs: seq<Event>)
    requires SameLead(s, t)
    ensures PrintAll(s, evs, Compact).text == PrintAll(t, evs, Compact).text
    ensures SameLead(PrintAll(s, evs, Compact).state, PrintAll(t, evs, Compact).state)
  {
    if evs != [] {
      hide Print;
      var n := |evs| - 1;
      AllForget(s, t, evs[..n]);
      CompactForgets(PrintAll(s, evs[..n], Compact).state, PrintAll(t, evs[..n], Compact).state, evs[n]);
    }
  }

  /** The last byte of the text tells what the printer remembers. */
  lemma LastByteTells(msg: Bytes, s: PrintState, ev: Event)
    requires IsPrintable(ev)
    ensures var p := Print(s, ev, Compact); p.text != [] && SameLead(StateAfter(msg + p.text), p.state)
  {
    var p := Print(s, ev, Compact);
    var lead, body := LeadText(s, ev.kind, Compact), BodyText(s.indentLevel, s.enterObject, ev, Compact);
    LastOfBody(s.indentLevel, s.enterObject, ev);
    hide LeadText, BodyText;
    assert (msg + p.text)[|msg + p.text| - 1] == body[|body| - 1];
  }

  lemma LastOfBody(level: int, entered: bool, ev: Event)
    requires IsPrintable(ev)
    ensures var body := BodyText(level, entered, ev, Compact);
            && body != []
            && (body[|body| - 1] == 0x3a <==> ev.kind == JsonKey)
            && (body[|body| - 1] == 0x7b || body[|body| - 1] == 0x5b <==> IsBegin(ev.kind))
  {
    hide Escaped;
  }

  lemma TextTells(msg: Bytes, s: PrintState, evs: seq<Event>)
    requires ArePrintable(evs) && evs != []
    ensures var p := PrintAll(s, evs, Compact); SameLead(StateAfter(msg + p.text), p.state)
  {
    hide Print, StateAfter, IsPrintable, SameLead;
    var n := |evs| - 1;
    var before := PrintAll(s, evs[..n], Compact);
    var last := Print(before.state, evs[n], Compact);
    LastByteTells(msg + before.text, before.state, evs[n]);
    assert msg + (before.text + last.text) == msg + before.text + last.text;
  }

  /**
    Batching is invisible: appending events in two calls is appending them in one,
    since the last byte says exactly what a printer kept running would remember.
   */
  lemma Batching(msg: Bytes, a: seq<Event>, b: seq<Event>)
    requires ArePrintable(a)
    ensures AppendEvents(AppendEvents(msg, a), b) == AppendEvents(msg, a + b)
  {
    hide PrintAll, StateAfter, ArePrintable, SameLead;
    var s := StateAfter(msg);
    var p := PrintAll(s, a, Compact);
    PrintAllAppend(s, a, b, Compact);
    if a == [] {
      PrintsNothing(s);
      assert a + b == b && msg + [] == msg;
    } else {
      TextTells(msg, s, a);
      AllForget(StateAfter(msg + p.text), p.state, b);
      var q := PrintAll(p.state, b, Compact);
      assert msg + p.text + q.text == msg + (p.text + q.text);
    }
  }

  lemma PrintsNothing(s: PrintState)
    ensures PrintAll(s, [], Compact) == Printed(s, [])
  {
  }

  /**
    An empty buffer is where the two ways to decide disagree: a batch then begins
    with a comma that neither a scalar append nor a fresh printer writes. It is so
    for every batch but one that begins with an end, or is empty.
   */
  lemma BatchOnEmptyBuffer(evs: seq<Event>)
    ensures AppendEvents([], evs) == PrintAll(INITIAL, evs, Compact).text <==> evs == [] || IsEnd(evs[0].kind)
  {
    hide PrintAll, Print, StateAfter, SameLead;
    var s := StateAfter([]);
    assert [] + PrintAll(s, evs, Compact).text == PrintAll(s, evs, Compact).text;
    if evs == [] {
      PrintsNothing(s);
      PrintsNothing(INITIAL);
    } else {
      var ev, rest := evs[0], evs[1..];
      assert evs == [ev] + rest;
      FirstOnEmptyBuffer(ev);
      PrintAllOne(s, ev, Compact);
      PrintAllOne(INITIAL, ev, Compact);
      PrintAllAppend(s, [ev], rest, Compact);
      PrintAllAppend(INITIAL, [ev], rest, Compact);
      AllForget(Print(s, ev, Compact).state, Print(INITIAL, ev, Compact).state, rest);
    }
  }

  lemma FirstOnEmptyBuffer(ev: Event)
    ensures var p, q := Print(StateAfter([]), ev, Compact), Print(INITIAL, ev, Compact);
            && SameLead(p.state, q.state)
            && (if IsEnd(ev.kind) then p.text == q.text else |p.text| == |q.text| + 1)
  {
    assert BodyText(0, false, ev, Compact) == BodyText(0, true, ev, Compact);
  }

  // ---------------------------------------------------------------- a scalar append is a batch

  /** A name that the escaper leaves as it is. */
  predicate IsPlain(name: Bytes) { Escaped(name) == name }

  lemma {:induction false} PlainIs(s: Bytes)
    requires forall i :: 0 <= i < |s| ==> EscapeByte(s[i]) == [s[i]]
    ensures IsPlain(s)
  {
    hide EscapeByte;
    if s != [] {
      PlainIs(s[..|s| - 1]);
    }
  }

  function ValueEvent(v: Value): Event {
    match v
    case IntVal(n) => Event(JsonInt, NumberText(IntNumber(n)))
    case BoolVal(b) => Event(if b then JsonTrue else JsonFalse, [])
    case NullVal => Event(JsonNull, [])
    case StrVal(s) => Event(JsonString, s)
  }

  lemma ValueIs(v: Value, level: int)
    ensures Events(ValueTree(v)) == [ValueEvent(v)] && IsPrintable(ValueEvent(v))
    ensures BodyText(level, false, ValueEvent(v), Compact) == ValueText(v)
  {
    if v.IntVal? {
      DecimalIsWhole(if v.n < 0 then -v.n else v.n);
      var d := Decimal(if v.n < 0 then -v.n else v.n);
      assert NumberText(IntNumber(v.n)) == (if v.n < 0 then [0x2d] else []) + d;
      assert IsDigit(d[|d| - 1]);
    }
    hide Escaped, Decimal;
  }

  lemma ScalarIsBatch(msg: Bytes, f: Field)
    requires msg != [] && IsPlain(f.name)
    ensures AppendParam(msg, ScalarParam(f)) == AppendEvents(msg, EventsOf(FieldMember(f)))
  {
    var key, value := Event(JsonKey, f.name), ValueEvent(f.value);
    ValueIs(f.value, 0);
    KeyThenValue(msg, f);
    hide Events, PrintAll, Print, Escaped, ValueText, ValueTree, ValueEvent, IsPrintable, StateAfter;
    assert EventsOf(FieldMember(f)) == [key] + [value];
    NamedIs(msg, Comma(msg), f.name, ValueText(f.value));
  }

  lemma NamedIs(msg: Bytes, comma: Bytes, name: Bytes, text: Bytes)
    ensures msg + comma + [QUOTE] + name + [QUOTE, COLON] + text
            == msg + (comma + ([QUOTE] + name + [QUOTE] + [COLON]) + text)
  {
    assert [QUOTE] + name + [QUOTE] + [COLON] == [QUOTE] + name + [QUOTE, COLON];
    assert comma + ([QUOTE] + name + [QUOTE, COLON]) + text == comma + [QUOTE] + name + [QUOTE, COLON] + text;
  }

  /** A key and its value, printed as one batch. */
  lemma KeyThenValue(msg: Bytes, f: Field)
    requires msg != [] && IsPlain(f.name)
    ensures PrintAll(StateAfter(msg), [Event(JsonKey, f.name)] + [ValueEvent(f.value)], Compact).text
            == Comma(msg) + ([QUOTE] + f.name + [QUOTE] + [COLON]) + ValueText(f.value)
  {
    var s := StateAfter(msg);
    var key, value := Event(JsonKey, f.name), ValueEvent(f.value);
    ValueIs(f.value, 0);
    hide PrintAll, Escaped, ValueText, ValueTree, ValueEvent, Events;
    var p := Print(s, key, Compact);
    PrintAllOne(s, key, Compact);
    PrintAllOne(p.state, value, Compact);
    PrintAllAppend(s, [key], [value], Compact);
    assert p.text == Comma(msg) + ([QUOTE] + f.name + [QUOTE] + [COLON]);
    assert Print(p.state, value, Compact).text == [] + ValueText(f.value);
  }

  // ---------------------------------------------------------------- the whole text

  ghost predicate PlainParam(p: Param) { p.ScalarParam? ==> IsPlain(p.field.name) }

  lemma {:induction false} FieldsPrintable(fields: seq<Field>)
    ensures ArePrintable(MemberEvents(FieldMembers(fields)))
  {
    hide Events, ValueTree, ValueEvent, MemberEvents, FieldMembers;
    if fields == [] {
      NoFields();
    } else {
      var n := |fields| - 1;
      FieldsPrintable(fields[..n]);
      FieldsSnoc(fields);
      ValueIs(fields[n].value, 0);
    }
  }

  lemma NoFields()
    ensures MemberEvents(FieldMembers([])) == []
  {
  }

  lemma FieldsSnoc(fields: seq<Field>)
    requires fields != []
    ensures var n := |fields| - 1;
            MemberEvents(FieldMembers(fields))
                == MemberEvents(FieldMembers(fields[..n])) + EventsOf(FieldMember(fields[n]))
  {
    hide Events, FieldMember;
    var n := |fields| - 1;
    var m := FieldMember(fields[n]);
    assert FieldMembers(fields)[..n] == FieldMembers(fields[..n]) && FieldMembers(fields)[n] == m;
    var a := MemberEvents(FieldMembers(fields[..n]));
    assert a + [Event(JsonKey, m.key)] + Events(m.value) == a + ([Event(JsonKey, m.key)] + Events(m.value));
  }

  lemma {:induction false} ObjectsPrintable(objects: seq<seq<Field>>)
    ensures ArePrintable(ItemEvents(ObjectTrees(objects)))
  {
    if objects != [] {
      var n := |objects| - 1;
      ObjectsPrintable(objects[..n]);
      assert ObjectTrees(objects)[..n] == ObjectTrees(objects[..n]);
      FieldsPrintable(objects[n]);
      hide MemberEvents;
    }
  }

  lemma ParamPrintable(p: Param)
    ensures ArePrintable(EventsOf(ParamMember(p)))
  {
    match p
    case ScalarParam(f) => ValueIs(f.value, 0);
    case ArrayParam(_, objects) =>
      ObjectsPrintable(objects);
      hide ItemEvents;
  }

  lemma {:induction false} ParamsPrintable(params: seq<Param>)
    ensures ArePrintable(MemberEvents(ParamMembers(params)))
  {
    if params != [] {
      var n := |params| - 1;
      ParamsPrintable(params[..n]);
      ParamPrintable(params[n]);
      ParamsSnoc(params);
      hide MemberEvents, EventsOf;
    }
  }

  lemma ParamsSnoc(params: seq<Param>)
    requires params != []
    ensures var n := |params| - 1;
            MemberEvents(ParamMembers(params))
                == MemberEvents(ParamMembers(params[..n])) + EventsOf(ParamMember(params[n]))
  {
    hide Events, ParamMember;
    var n := |params| - 1;
    var m := ParamMember(params[n]);
    assert ParamMembers(params)[..n] == ParamMembers(params[..n]) && ParamMembers(params)[n] == m;
    var a := MemberEvents(ParamMembers(params[..n]));
    assert a + [Event(JsonKey, m.key)] + Events(m.value) == a + ([Event(JsonKey, m.key)] + Events(m.value));
  }

  /** The appends, one by one, are one batch of all the parameters' events. */
  lemma {:induction false} ParamsAreBatch(msg: Bytes, params: seq<Param>)
    requires msg != [] && forall i :: 0 <= i < |params| ==> PlainParam(params[i])
    ensures AppendParams(msg, params) == AppendEvents(msg, MemberEvents(ParamMembers(params)))
  {
    hide AppendEvents, AppendParam, EventsOf, ParamMember, PlainParam;
    if params == [] {
      NoEvents(msg);
    } else {
      var n := |params| - 1;
      ParamsAreBatch(msg, params[..n]);
      ParamsPrintable(params[..n]);
      hide MemberEvents;
      ParamsSnoc(params);
      var before := AppendParams(msg, params[..n]);
      Batching(msg, MemberEvents(ParamMembers(params[..n])), EventsOf(ParamMember(params[n])));
      AppendsOn(msg, MemberEvents(ParamMembers(params[..n])));
      ParamIsBatch(before, params[n]);
    }
  }

  lemma NoEvents(msg: Bytes)
    ensures AppendEvents(msg, []) == msg
  {
    PrintsNothing(StateAfter(msg));
    assert msg + [] == msg;
  }

  lemma AppendsOn(msg: Bytes, evs: seq<Event>)
    requires msg != []
    ensures AppendEvents(msg, evs) != []
  {
    hide PrintAll;
  }

  lemma ParamIsBatch(msg: Bytes, p: Param)
    requires msg != [] && PlainParam(p)
    ensures AppendParam(msg, p) == AppendEvents(msg, EventsOf(ParamMember(p)))
  {
    if p.ScalarParam? { ScalarIsBatch(msg, p.field); }
    hide AppendEvents, AppendNamed, EventsOf;
  }

  const OPEN: Bytes := [0x7b]
  const BEGIN: seq<Event> := [Event(JsonObjectBegin, [])]
  const ENDS: seq<Event> := [Event(JsonObjectEnd, []), Event(JsonObjectEnd, [])]
  const PARAMS_BEGIN: seq<Event> := [Event(JsonKey, KEY_PARAMS), Event(JsonObjectBegin, [])]

  /** A request's events, in the order in which its text is built. */
  function RequestEvents(service: Bytes, name: Bytes, id: Option<nat>, params: seq<Param>): seq<Event> {
    BEGIN + MemberEvents(ParamMembers(HeadParams(service, name, id))) + PARAMS_BEGIN
    + MemberEvents(ParamMembers(params)) + ENDS
  }

  lemma RequestEventsAre(service: Bytes, name: Bytes, id: Option<nat>, params: seq<Param>)
    ensures Events(RequestTree(service, name, id, params)) == RequestEvents(service, name, id, params)
  {
    var head := ParamMembers(HeadParams(service, name, id));
    var inner := Obj(ParamMembers(params));
    var body := MemberEvents(ParamMembers(params));
    var all := head + [Member(KEY_PARAMS, inner)];
    assert all[..|all| - 1] == head && all[|all| - 1] == Member(KEY_PARAMS, inner);
    assert MemberEvents(all) == MemberEvents(head) + [Event(JsonKey, KEY_PARAMS)] + Events(inner);
    assert Events(inner) == BEGIN + body + [Event(JsonObjectEnd, [])];
    assert Events(Obj(all)) == BEGIN + MemberEvents(all) + [Event(JsonObjectEnd, [])];
    hide MemberEvents, ParamMembers, HeadParams, Events;
    Regroup(BEGIN, MemberEvents(head), Event(JsonKey, KEY_PARAMS), body);
  }

  lemma Regroup(begin: seq<Event>, head: seq<Event>, key: Event, body: seq<Event>)
    requires begin == BEGIN
    ensures begin + (head + [key] + (begin + body + [Event(JsonObjectEnd, [])])) + [Event(JsonObjectEnd, [])]
            == begin + head + [key, Event(JsonObjectBegin, [])] + body + ENDS
  {
  }

  /** From a fresh printer on, what is printed next is what is appended next. */
  lemma PrintThenAppend(a: seq<Event>, b: seq<Event>)
    requires ArePrintable(a) && a != []
    ensures PrintAll(INITIAL, a + b, Compact).text == AppendEvents(PrintAll(INITIAL, a, Compact).text, b)
  {
    hide PrintAll, StateAfter, ArePrintable, SameLead;
    PrintAllAppend(INITIAL, a, b, Compact);
    TextTells([], INITIAL, a);
    var p := PrintAll(INITIAL, a, Compact);
    assert [] + p.text == p.text;
    AllForget(StateAfter(p.text), p.state, b);
  }

  lemma AppendParamsBegin(msg: Bytes)
    requires IsCommaNeeded(msg)
    ensures AppendEvents(msg, PARAMS_BEGIN) == msg + HEAD_PARAMS
  {
    hide PrintAll, Escaped;
    var s := StateAfter(msg);
    var key, begin := Event(JsonKey, KEY_PARAMS), Event(JsonObjectBegin, []);
    PrintAllOne(s, key, Compact);
    var p := Print(s, key, Compact);
    PrintAllOne(p.state, begin, Compact);
    PrintAllAppend(s, [key], [begin], Compact);
    assert PARAMS_BEGIN == [key] + [begin];
    assert Print(p.state, begin, Compact).text == [0x7b];
    ParamsKeyText(s);
    assert p.text + [0x7b] == HEAD_PARAMS;
  }

  lemma ParamsKeyText(s: PrintState)
    requires !s.enterObject && !s.afterKey
    ensures Print(s, Event(JsonKey, KEY_PARAMS), Compact).text == [0x2c, 0x22] + KEY_PARAMS + [0x22, 0x3a]
  {
    PlainIs(KEY_PARAMS);
    hide Escaped;
    assert StringText(KEY_PARAMS) == [0x22] + KEY_PARAMS + [0x22];
    assert [0x2c] + [] + ([0x22] + KEY_PARAMS + [0x22] + [0x3a]) == [0x2c, 0x22] + KEY_PARAMS + [0x22, 0x3a];
  }

  lemma AppendEnds(msg: Bytes)
    ensures AppendEvents(msg, ENDS) == msg + [0x7d, 0x7d]
  {
    var s := StateAfter(msg);
    var end := Event(JsonObjectEnd, []);
    PrintAllOne(s, end, Compact);
    var p := Print(s, end, Compact);
    PrintAllOne(p.state, end, Compact);
    PrintAllAppend(s, [end], [end], Compact);
    hide PrintAll;
    assert ENDS == [end] + [end];
    assert p.text == [0x7d] && p.text + [0x7d] == [0x7d, 0x7d];
  }

  /** The head that `json_rpc_req_init` writes is its members appended to an opened object. */
  lemma HeadIs(service: Bytes, name: Bytes, id: Option<nat>)
    requires IsPlain(service + [DOT] + name)
    ensures AppendParams(OPEN, HeadParams(service, name, id)) + HEAD_PARAMS == RequestHead(service, name, id)
    ensures IsCommaNeeded(AppendParams(OPEN, HeadParams(service, name, id)))
  {
    hide AppendParam, AppendParams, Decimal;
    var ps := HeadParams(service, name, id);
    var t := HEAD_VERSION + service + [DOT] + name + [QUOTE];
    VersionAndMethod(service + [DOT] + name);
    assert HEAD_VERSION + (service + [DOT] + name) + [QUOTE] == t;
    if id.Some? {
      AppendParamsSnoc(OPEN, ps[..2], ps[2]);
      assert ps == ps[..2] + [ps[2]];
      AppendId(t, id.value);
    } else {
      assert ps == ps[..2];
      assert t + [] + HEAD_PARAMS == t + HEAD_PARAMS;
    }
  }

  lemma AppendId(t: Bytes, id: nat)
    requires IsCommaNeeded(t)
    ensures AppendParam(t, ScalarParam(Field(KEY_ID, IntVal(id)))) == t + (HEAD_ID + Decimal(id))
    ensures IsCommaNeeded(AppendParam(t, ScalarParam(Field(KEY_ID, IntVal(id)))))
  {
    DecimalIsWhole(id);
    hide Decimal;
    var d := Decimal(id);
    assert NumberText(IntNumber(id)) == d && d[|d| - 1] == (t + (HEAD_ID + d))[|t + (HEAD_ID + d)| - 1];
    assert t + [COMMA] + [QUOTE] + KEY_ID + [QUOTE, COLON] + d == t + (HEAD_ID + d);
    assert IsDigit(d[|d| - 1]);
  }

  lemma AppendParamsSnoc(msg: Bytes, params: seq<Param>, p: Param)
    ensures AppendParams(msg, params + [p]) == AppendParam(AppendParams(msg, params), p)
  {
    hide AppendParam;
    assert (params + [p])[..|params|] == params;
  }

  lemma VersionAndMethod(name: Bytes)
    requires IsPlain(name)
    ensures AppendParams(OPEN, [ScalarParam(Field(KEY_JSONRPC, StrVal(VERSION))), ScalarParam(Field(KEY_METHOD,
            StrVal(name)))])
            == HEAD_VERSION + name + [QUOTE]
  {
    hide AppendParam, Escaped;
    var p0, p1 := ScalarParam(Field(KEY_JSONRPC, StrVal(VERSION))), ScalarParam(Field(KEY_METHOD, StrVal(name)));
    AppendParamsSnoc(OPEN, [], p0);
    AppendParamsSnoc(OPEN, [p0], p1);
    assert [] + [p0] == [p0] && [p0] + [p1] == [p0, p1];
    PlainIs(VERSION);
    AppendPlain(OPEN, KEY_JSONRPC, VERSION);
    var t := OPEN + [] + [QUOTE] + KEY_JSONRPC + [QUOTE, COLON] + ([QUOTE] + VERSION + [QUOTE]);
    AppendPlain(t, KEY_METHOD, name);
    assert t[|t| - 1] == QUOTE;
    assert t + [COMMA] + [QUOTE] + KEY_METHOD + [QUOTE, COLON] + ([QUOTE] + name + [QUOTE])
        == HEAD_VERSION + name + [QUOTE];
  }

  lemma AppendPlain(msg: Bytes, key: Bytes, s: Bytes)
    requires IsPlain(s)
    ensures AppendParam(msg, ScalarParam(Field(key, StrVal(s))))
            == msg + Comma(msg) + [QUOTE] + key + [QUOTE, COLON] + ([QUOTE] + s + [QUOTE])
  {
    hide Escaped;
  }

  lemma HeadIsPlain(service: Bytes, name: Bytes, id: Option<nat>)
    ensures forall p :: p in HeadParams(service, name, id) ==> PlainParam(p)
  {
    PlainIs(KEY_JSONRPC);
    PlainIs(KEY_METHOD);
    PlainIs(KEY_ID);
  }

  /**
    What the builder writes, appending to the last byte, is what one run of the raw
    printer writes for the request as a document.
   */
  lemma RequestIsPrinted(service: Bytes, name: Bytes, id: Option<nat>, params: seq<Param>)
    requires IsPlain(service + [DOT] + name) && forall i :: 0 <= i < |params| ==> PlainParam(params[i])
    ensures RequestText(service, name, id, params)
            == PrintAll(INITIAL, Events(RequestTree(service, name, id, params)), Compact).text
  {
    hide PrintAll, ParamMembers, HeadParams, RequestHead, MemberEvents, AppendParams, AppendEvents, AppendParam,
      IsPlain, PlainParam, RequestTree, Events, ArePrintable;
    var head := MemberEvents(ParamMembers(HeadParams(service, name, id)));
    var body := MemberEvents(ParamMembers(params));
    RequestEventsAre(service, name, id, params);
    HeadIs(service, name, id);
    HeadIsPlain(service, name, id);
    ParamsAreBatch(OPEN, HeadParams(service, name, id));
    ParamsPrintable(HeadParams(service, name, id));
    AppendParamsBegin(AppendEvents(OPEN, head));
    ParamsAreBatch(RequestHead(service, name, id), params);
    ParamsPrintable(params);
    AppendEnds(AppendParams(RequestHead(service, name, id), params));
    FourBatches(head, body);
  }

  lemma FourBatches(head: seq<Event>, body: seq<Event>)
    requires ArePrintable(head) && ArePrintable(body)
    ensures AppendEvents(AppendEvents(AppendEvents(AppendEvents(OPEN, head), PARAMS_BEGIN), body), ENDS)
            == PrintAll(INITIAL, BEGIN + head + PARAMS_BEGIN + body + ENDS, Compact).text
  {
    BeginIs();
    hide PrintAll, AppendEvents;
    assert ArePrintable(PARAMS_BEGIN) && ArePrintable(BEGIN) && BEGIN != [];
    assert ArePrintable(head + PARAMS_BEGIN) && ArePrintable(head + PARAMS_BEGIN + body);
    hide ArePrintable;
    Batching(OPEN, head, PARAMS_BEGIN);
    Batching(OPEN, head + PARAMS_BEGIN, body);
    Batching(OPEN, head + PARAMS_BEGIN + body, ENDS);
    PrintThenAppend(BEGIN, head + PARAMS_BEGIN + body + ENDS);
    assert BEGIN + (head + PARAMS_BEGIN + body + ENDS) == BEGIN + head + PARAMS_BEGIN + body + ENDS;
  }

  lemma BeginIs()
    ensures PrintAll(INITIAL, BEGIN, Compact).text == OPEN
  {
    PrintAllOne(INITIAL, Event(JsonObjectBegin, []), Compact);
    assert BEGIN == [Event(JsonObjectBegin, [])];
    assert [] + [0x7b] == OPEN;
  }
}
