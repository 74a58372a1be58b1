/**
  Building a request and parsing it gives the request back: the service, the
  method, the digits of the id, and the parameters.
 */
module RpcRoundTrip {
  import opened JsonTables
  import opened ParserSpec
  import opened Grammar
  import opened ReadsLexemes
  import opened Printer
  import opened PrintParse
  import opened RpcReader
  import opened RpcWriter
  import opened TokenMachine
  import RpcRequest
  import RpcHandle
  import RpcTables

  // ---------------------------------------------------------------- what should come out

  /** A value keeps its length, and its text up to a NUL. */
  function ValueOf(v: Value): JsonVal { Scalar(ValueEvent(v).kind, |ValueEvent(v).data|, CString(ValueEvent(v).data)) }

  /** So a string comes back whole exactly when it has no NUL. */
  lemma StringComesBack(s: Bytes)
    ensures ValueOf(StrVal(s)) == Scalar(JsonString, |s|, s) <==> 0 !in s
  {
    hide CString;
    if 0 !in s { CStringIs(s); } else { NulIsLost(s); }
  }

  lemma NulIsLost(s: Bytes)
    requires 0 in s
    ensures CString(s) != s
  {
    hide Find;
    assert 0 !in CString(s);
  }

  lemma OtherComesBack(v: Value)
    requires !v.StrVal?
    ensures ValueOf(v) == Scalar(ValueEvent(v).kind, |ValueEvent(v).data|, ValueEvent(v).data)
  {
    if v.IntVal? { DecimalIsWhole(if v.n < 0 then -v.n else v.n); }
    hide Decimal, CString;
    CStringIs(ValueEvent(v).data);
  }

  /** The table of a flat object. */
  function Table(fields: seq<Field>): map<Bytes, JsonVal> {
    if fields == [] then map[]
    else Table(fields[..|fields| - 1])[fields[|fields| - 1].name := ValueOf(fields[|fields| - 1].value)]
  }

  function Tables(objects: seq<seq<Field>>): seq<map<Bytes, JsonVal>> {
    seq(|objects|, i requires 0 <= i < |objects| => Table(objects[i]))
  }

  function NameOf(p: Param): Bytes { if p.ScalarParam? then p.field.name else p.name }

  function ParamVal(p: Param): JsonVal {
    match p
    case ScalarParam(f) => ValueOf(f.value)
    case ArrayParam(_, objects) => HtabArray(Tables(objects))
  }

  /** The table of the parameters. */
  function ParamTable(params: seq<Param>): map<Bytes, JsonVal> {
    if params == [] then map[]
    else ParamTable(params[..|params| - 1])[NameOf(params[|params| - 1]) := ParamVal(params[|params| - 1])]
  }

  // ---------------------------------------------------------------- what can go in

  ghost predicate GoodName(name: Bytes) { IsPlain(name) && IsUtf8(name) && 0 !in name }

  ghost predicate GoodField(f: Field) { GoodName(f.name) && (f.value.StrVal? ==> IsUtf8(f.value.s)) }

  ghost predicate GoodFields(fields: seq<Field>) {
    && (forall i :: 0 <= i < |fields| ==> GoodField(fields[i]))
    && (forall i, j :: 0 <= i < j < |fields| ==> fields[i].name != fields[j].name)
  }

  ghost predicate GoodParam(p: Param) {
    match p
    case ScalarParam(f) => GoodField(f)
    case ArrayParam(name, objects) => GoodName(name) && forall i :: 0 <= i < |objects| ==> GoodFields(objects[i])
  }

  ghost predicate GoodParams(params: seq<Param>) {
    && (forall i :: 0 <= i < |params| ==> GoodParam(params[i]))
    && (forall i, j :: 0 <= i < j < |params| ==> NameOf(params[i]) != NameOf(params[j]))
  }

  /** What reading needs: names without a NUL, which would cut them, and no name twice. */
  predicate ReadableFields(fields: seq<Field>) {
    && (forall i :: 0 <= i < |fields| ==> 0 !in fields[i].name)
    && (forall i, j :: 0 <= i < j < |fields| ==> fields[i].name != fields[j].name)
  }

  predicate ReadableParam(p: Param) {
    0 !in NameOf(p)
    && (p.ArrayParam? ==> forall i :: 0 <= i < |p.objects| ==> ReadableFields(p.objects[i]))
  }

  predicate ReadableParams(params: seq<Param>) {
    && (forall i :: 0 <= i < |params| ==> ReadableParam(params[i]))
    && (forall i, j :: 0 <= i < j < |params| ==> NameOf(params[i]) != NameOf(params[j]))
  }

  lemma GoodIsReadable(params: seq<Param>)
    requires GoodParams(params)
    ensures ReadableParams(params)
  {
    hide IsPlain, IsUtf8;
    forall i | 0 <= i < |params| ensures ReadableParam(params[i]) {
      assert GoodParam(params[i]);
      if params[i].ArrayParam? {
        forall j | 0 <= j < |params[i].objects| ensures ReadableFields(params[i].objects[j]) {
          assert GoodFields(params[i].objects[j]);
          assert forall k :: 0 <= k < |params[i].objects[j]| ==> GoodField(params[i].objects[j][k]);
        }
      }
    }
  }

  /** A service name and a method name in plain text, so that the first dot is the one between them. */
  ghost predicate PlainTarget(service: Bytes, name: Bytes) { GoodName(service) && DOT !in service && GoodName(name) }

  /** Both of them are acceptable: no more than their limits, and no path and nothing private for a service. */
  predicate AcceptableTarget(service: Bytes, name: Bytes) {
    && |service| < 32 && |name| < 64
    && Ascii("/")[0] !in service && (service == [] || service[0] != Ascii("_")[0])
  }

  ghost predicate GoodTarget(service: Bytes, name: Bytes) {
    PlainTarget(service, name) && AcceptableTarget(service, name)
  }

  // ---------------------------------------------------------------- events in two parts

  lemma {:induction false} ConsumeAppend(c: Rpc, a: seq<Event>, b: seq<Event>)
    ensures Consume(c, a + b) == Consume(Consume(c, a), b)
    ensures Takes(c, a) && Takes(Consume(c, a), b) ==> Takes(c, a + b)
    decreases |b|
  {
    hide OnEvent;
    if b == [] {
      assert a + b == a;
    } else {
      var n := |b| - 1;
      assert (a + b)[..|a + b| - 1] == a + b[..n];
      ConsumeAppend(c, a, b[..n]);
    }
  }

  lemma ConsumeOne(c: Rpc, ev: Event)
    ensures Consume(c, [ev]) == OnEvent(c, ev).rpc && (OnEvent(c, ev).ret == 0 ==> Takes(c, [ev]))
  {
    hide OnEvent;
    assert [ev][..0] == [];
    assert Consume(c, []) == c && Takes(c, []);
  }

  /** The events are taken, and lead from `c` to `d`. */
  ghost predicate Leads(c: Rpc, evs: seq<Event>, d: Rpc) { Takes(c, evs) && Consume(c, evs) == d }

  lemma LeadsOn(c: Rpc, a: seq<Event>, d: Rpc, b: seq<Event>, e: Rpc)
    requires Leads(c, a, d) && Leads(d, b, e)
    ensures Leads(c, a + b, e)
  {
    ConsumeAppend(c, a, b);
    hide Takes, Consume;
  }

  lemma LeadsOne(c: Rpc, ev: Event)
    requires OnEvent(c, ev).ret == 0
    ensures Leads(c, [ev], OnEvent(c, ev).rpc)
  {
    ConsumeOne(c, ev);
  }

  lemma LeadsNowhere(c: Rpc)
    ensures Leads(c, [], c)
  {
  }

  // ---------------------------------------------------------------- strings

  lemma {:induction false} FindIs(s: Bytes, b: Byte, n: nat)
    requires n <= |s| && b !in s[..n] && (n < |s| ==> s[n] == b)
    ensures Find(s, b) == n
  {
    var m := Find(s, b);
    assert forall i :: 0 <= i < n ==> s[..n][i] != b;
    assert forall i :: 0 <= i < m ==> s[..m][i] != b;
  }

  lemma CStringIs(s: Bytes)
    requires 0 !in s
    ensures CString(s) == s
  {
    assert s[..|s|] == s;
    FindIs(s, 0, |s|);
  }

  /** Splitting a target: it is kept as it is if it is acceptable, and else the message is invalid. */
  lemma SetMethodIs(c: Rpc, service: Bytes, name: Bytes)
    requires PlainTarget(service, name)
    ensures var d := SetMethod(c, service + [DOT] + name);
            if AcceptableTarget(service, name) then
              d == c.(service := Some(service), methodName := Some(name), lastKeyToken := TokNone)
            else d == c.(service := d.service, methodName := d.methodName, lastKeyToken := TokNone,
                         status := StatusInvalid)
  {
    hide IsPlain, IsUtf8, CString;
    var s := service + [DOT] + name;
    assert s[..|service|] == service && s[|service| + 1..] == name;
    FindIs(s, DOT, |service|);
    hide Find;
    CStringIs(service);
    CStringIs(name);
    assert Ascii("/")[0] == SLASH && Ascii("_")[0] == UNDERSCORE;
  }

  // ---------------------------------------------------------------- a field

  /** Values are taken into the table that the state points to. */
  predicate TakesValues(c: Rpc) {
    && c.paramState && !c.errorTokenSeen && HasToken(c) && c.lastParamKey == None
    && (c.pointed.Some? ==>
          var (key, i) := c.pointed.value;
          key in c.params && c.params[key].HtabArray? && i < |c.params[key].tables|)
  }

  lemma TargetOf(c: Rpc, t: map<Bytes, JsonVal>)
    requires TakesValues(c)
    ensures CurrentTable(WithTable(c, t)) == t && TakesValues(WithTable(c, t))
    ensures forall u :: WithTable(WithTable(c, t), u) == WithTable(c, u)
    ensures WithTable(c, CurrentTable(c)) == c
  {
    if c.pointed.Some? {
      var (key, i) := c.pointed.value;
      var tables := c.params[key].tables;
      assert tables[i := tables[i]] == tables;
      assert c.params[key := HtabArray(tables)] == c.params;
      forall u ensures WithTable(WithTable(c, t), u) == WithTable(c, u) {
        assert tables[i := t][i := u] == tables[i := u];
        assert c.params[key := HtabArray(tables[i := t])][key := HtabArray(tables[i := u])]
               == c.params[key := HtabArray(tables[i := u])];
      }
    }
  }

  lemma ConsumeField(c: Rpc, f: Field)
    requires TakesValues(c) && 0 !in f.name && f.name !in CurrentTable(c)
    ensures Leads(c, EventsOf(FieldMember(f)), WithTable(c, CurrentTable(c)[f.name := ValueOf(f.value)]))
  {
    hide CString, NumberText, IntNumber, Takes, Consume, Leads;
    var key := Event(JsonKey, f.name);
    CStringIs(f.name);
    LeadsOne(c, key);
    var d := OnEvent(c, key).rpc;
    assert d == c.(lastParamKey := Some(f.name));
    var ev := ValueEvent(f.value);
    ValueIs(f.value, 0);
    hide Events, ValueTree;
    assert CurrentTable(d) == CurrentTable(c);
    assert OnEvent(d, ev) == AddVal(d, ev);
    assert OnEvent(d, ev) == Reply(WithTable(c, CurrentTable(c)[f.name := ValueOf(f.value)]), 0);
    LeadsOne(d, ev);
    LeadsOn(c, [key], d, [ev], OnEvent(d, ev).rpc);
  }

  // ---------------------------------------------------------------- flat objects

  lemma {:induction false} NotInTable(fields: seq<Field>, k: Bytes)
    requires forall i :: 0 <= i < |fields| ==> fields[i].name != k
    ensures k !in Table(fields)
  {
    hide ValueOf;
    if fields != [] { NotInTable(fields[..|fields| - 1], k); }
  }

  lemma FieldsPrefix(fields: seq<Field>, n: nat)
    requires ReadableFields(fields) && n < |fields|
    ensures ReadableFields(fields[..n]) && 0 !in fields[n].name && fields[n].name !in Table(fields[..n])
  {
    hide Table;
    NotInTable(fields[..n], fields[n].name);
  }

  lemma {:induction false} ConsumeFields(c: Rpc, fields: seq<Field>)
    requires TakesValues(c) && ReadableFields(fields) && CurrentTable(c) == map[]
    ensures Leads(c, MemberEvents(FieldMembers(fields)), WithTable(c, Table(fields)))
  {
    hide ReadableFields, Leads, WithTable, CurrentTable, EventsOf, FieldMember, ValueOf;
    if fields == [] {
      TargetOf(c, map[]);
      LeadsNowhere(c);
    } else {
      hide TakesValues;
      var n := |fields| - 1;
      FieldsPrefix(fields, n);
      FieldsSnoc(fields);
      ConsumeFields(c, fields[..n]);
      hide MemberEvents, FieldMembers;
      TargetOf(c, Table(fields[..n]));
      var d := WithTable(c, Table(fields[..n]));
      ConsumeField(d, fields[n]);
      LeadsOn(c, MemberEvents(FieldMembers(fields[..n])), d, EventsOf(FieldMember(fields[n])),
              WithTable(c, Table(fields)));
    }
  }

  // ---------------------------------------------------------------- arrays of flat objects

  /** Inside the array that is parameter `key`, between its objects. */
  predicate InArray(c: Rpc, key: Bytes) {
    && c.paramState && !c.errorTokenSeen && HasToken(c) && c.lastParamKey == None
    && c.pointed == None && c.nesting == 3 && c.lastArray == Some(key)
    && key in c.params && c.params[key].HtabArray?
  }

  function WithTables(c: Rpc, key: Bytes, tables: seq<map<Bytes, JsonVal>>): Rpc {
    c.(params := c.params[key := HtabArray(tables)])
  }

  lemma ConsumeObject(c: Rpc, key: Bytes, fields: seq<Field>)
    requires InArray(c, key) && ReadableFields(fields)
    ensures Leads(c, Events(Obj(FieldMembers(fields))), WithTables(c, key, c.params[key].tables + [Table(fields)]))
  {
    hide ReadableFields, Leads, Table, MemberEvents, FieldMembers;
    var tables := c.params[key].tables;
    var begin, end := Event(JsonObjectBegin, []), Event(JsonObjectEnd, []);
    var inner := MemberEvents(FieldMembers(fields));
    LeadsOne(c, begin);
    var d := OnEvent(c, begin).rpc;
    assert d == c.(nesting := 4, params := c.params[key := HtabArray(tables
        + [map[]])], pointed := Some((key, |tables|)));
    assert TakesValues(d) && CurrentTable(d) == map[];
    ConsumeFields(d, fields);
    var e := WithTable(d, Table(fields));
    InnerTables(c, key, d, Table(fields));
    LeadsOne(e, end);
    assert OnEvent(e, end).rpc == WithTables(c, key, tables + [Table(fields)]);
    LeadsOn(c, [begin], d, inner, e);
    LeadsOn(c, [begin] + inner, e, [end], OnEvent(e, end).rpc);
  }

  lemma InnerTables(c: Rpc, key: Bytes, d: Rpc, t: map<Bytes, JsonVal>)
    requires InArray(c, key)
    requires var tables := c.params[key].tables;
             d == c.(nesting := 4, params := c.params[key := HtabArray(tables
                 + [map[]])], pointed := Some((key, |tables|)))
    ensures WithTable(d, t) == WithTables(c, key, c.params[key].tables + [t]).(nesting := 4, pointed := d.pointed)
  {
    var tables := c.params[key].tables;
    assert (tables + [map[]])[|tables| := t] == tables + [t];
    assert c.params[key := HtabArray(tables + [map[]])][key := HtabArray(tables + [t])]
           == c.params[key := HtabArray(tables + [t])];
  }

  lemma ObjectsSnoc(objects: seq<seq<Field>>)
    requires objects != []
    ensures var n := |objects| - 1;
            && ItemEvents(ObjectTrees(objects))
                == ItemEvents(ObjectTrees(objects[..n])) + Events(Obj(FieldMembers(objects[n])))
            && Tables(objects) == Tables(objects[..n]) + [Table(objects[n])]
  {
    hide Events, Table;
    var n := |objects| - 1;
    assert ObjectTrees(objects)[..n] == ObjectTrees(objects[..n]);
  }

  lemma {:induction false} ConsumeObjects(c: Rpc, key: Bytes, objects: seq<seq<Field>>)
    requires InArray(c, key) && c.params[key].tables == []
    requires forall i :: 0 <= i < |objects| ==> ReadableFields(objects[i])
    ensures Leads(c, ItemEvents(ObjectTrees(objects)), WithTables(c, key, Tables(objects)))
  {
    hide ReadableFields, Leads, Events, FieldMembers, Table;
    if objects == [] {
      assert Tables(objects) == [];
      assert c.params[key := HtabArray([])] == c.params;
      LeadsNowhere(c);
    } else {
      var n := |objects| - 1;
      ObjectsSnoc(objects);
      ConsumeObjects(c, key, objects[..n]);
      hide ItemEvents, ObjectTrees, Tables;
      var d := WithTables(c, key, Tables(objects[..n]));
      ConsumeObject(d, key, objects[n]);
      assert WithTables(d, key, Tables(objects)) == WithTables(c, key, Tables(objects));
      LeadsOn(c, ItemEvents(ObjectTrees(objects[..n])), d, Events(Obj(FieldMembers(objects[n]))),
              WithTables(c, key, Tables(objects)));
    }
  }

  // ---------------------------------------------------------------- parameters

  /** Inside the parameters, between them. */
  predicate InParams(c: Rpc) {
    && c.paramState && !c.errorTokenSeen && HasToken(c) && c.lastParamKey == None
    && c.pointed == None && c.nesting == 2 && c.lastArray == None
  }

  lemma ConsumeArray(c: Rpc, name: Bytes, objects: seq<seq<Field>>)
    requires InParams(c) && name !in c.params && ReadableParam(ArrayParam(name, objects))
    ensures Leads(c, EventsOf(ParamMember(ArrayParam(name, objects))),
                  c.(params := c.params[name := HtabArray(Tables(objects))]))
  {
    hide ReadableFields, Leads, Tables, ItemEvents, ObjectTrees, CString;
    var key, begin, end := Event(JsonKey, name), Event(JsonArrayBegin, []), Event(JsonArrayEnd, []);
    var inner := ItemEvents(ObjectTrees(objects));
    CStringIs(name);
    LeadsOne(c, key);
    var d := OnEvent(c, key).rpc;
    LeadsOne(d, begin);
    var e := OnEvent(d, begin).rpc;
    assert e == c.(nesting := 3, params := c.params[name := HtabArray([])], lastArray := Some(name));
    ConsumeObjects(e, name, objects);
    var f := WithTables(e, name, Tables(objects));
    assert f == e.(params := c.params[name := HtabArray(Tables(objects))]);
    LeadsOne(f, end);
    var g := OnEvent(f, end).rpc;
    LeadsOn(c, [key], d, [begin], e);
    LeadsOn(c, [key] + [begin], e, inner, f);
    LeadsOn(c, [key] + [begin] + inner, f, [end], g);
    assert [key] + [begin] + inner + [end] == [key] + ([begin] + inner + [end]);
  }

  lemma ConsumeParam(c: Rpc, p: Param)
    requires InParams(c) && NameOf(p) !in c.params && ReadableParam(p)
    ensures Leads(c, EventsOf(ParamMember(p)), c.(params := c.params[NameOf(p) := ParamVal(p)]))
  {
    hide Leads, ReadableFields, EventsOf, FieldMember, Tables, ValueOf;
    match p
    case ScalarParam(f) => ConsumeField(c, f);
    case ArrayParam(name, objects) => ConsumeArray(c, name, objects);
  }

  lemma {:induction false} NotInParamTable(params: seq<Param>, k: Bytes)
    requires forall i :: 0 <= i < |params| ==> NameOf(params[i]) != k
    ensures k !in ParamTable(params)
  {
    hide ParamVal, NameOf;
    if params != [] { NotInParamTable(params[..|params| - 1], k); }
  }

  lemma {:induction false} ConsumeParams(c: Rpc, params: seq<Param>)
    requires InParams(c) && c.params == map[] && ReadableParams(params)
    ensures Leads(c, MemberEvents(ParamMembers(params)), c.(params := ParamTable(params)))
  {
    hide Leads, ReadableParam, EventsOf, ParamMember, ParamVal, NameOf;
    if params == [] {
      LeadsNowhere(c);
    } else {
      var n := |params| - 1;
      ParamsSnoc(params);
      ConsumeParams(c, params[..n]);
      NotInParamTable(params[..n], NameOf(params[n]));
      hide MemberEvents, ParamMembers;
      var d := c.(params := ParamTable(params[..n]));
      ConsumeParam(d, params[n]);
      LeadsOn(c, MemberEvents(ParamMembers(params[..n])), d, EventsOf(ParamMember(params[n])),
              c.(params := ParamTable(params)));
    }
  }

  // ---------------------------------------------------------------- a whole request

  /** The state after the version and the method. */
  function Targeted(service: Bytes, name: Bytes): Rpc {
    SetMethod(FRESH.(status := StatusV2, nesting := 1, lastKeyToken := TokMethod), service + [DOT] + name)
  }

  /** The state at the beginning of the parameters. */
  function AtParams(service: Bytes, name: Bytes, id: Option<nat>): Rpc {
    Targeted(service, name).(id := if id.Some? then Some(ValueOf(IntVal(id.value))) else None,
                             lastKeyToken := TokParams, nesting := 2, paramState := true)
  }

  /** A member before the parameters. */
  lemma ConsumeHeadField(c: Rpc, key: Bytes, v: Value)
    requires !c.paramState && OnEvent(OnKey(c, key), ValueEvent(v)).ret == 0
    ensures Leads(c, EventsOf(FieldMember(Field(key, v))), OnEvent(OnKey(c, key), ValueEvent(v)).rpc)
  {
    hide Leads, OnEvent, OnKey, Events, ValueTree;
    KeyIsTaken(c, key);
    LeadsOne(c, Event(JsonKey, key));
    ValueIs(v, 0);
    LeadsOne(OnKey(c, key), ValueEvent(v));
    LeadsOn(c, [Event(JsonKey, key)], OnKey(c, key), [ValueEvent(v)], OnEvent(OnKey(c, key), ValueEvent(v)).rpc);
  }

  lemma KeyIsTaken(c: Rpc, key: Bytes)
    ensures OnEvent(c, Event(JsonKey, key)) == Reply(OnKey(c, key), 0)
  {
  }

  lemma HeadTokens()
    ensures TokenOf(KEY_JSONRPC) == TokJsonrpc && TokenOf(KEY_METHOD) == TokMethod
    ensures TokenOf(KEY_ID) == TokId && TokenOf(KEY_PARAMS) == TokParams
  {
  }

  lemma HeadSnoc(ps: seq<Param>, f: Field)
    ensures MemberEvents(ParamMembers(ps + [ScalarParam(f)]))
            == MemberEvents(ParamMembers(ps)) + EventsOf(FieldMember(f))
  {
    hide EventsOf, FieldMember, MemberEvents, ParamMembers;
    ParamsSnoc(ps + [ScalarParam(f)]);
    assert (ps + [ScalarParam(f)])[..|ps|] == ps;
  }

  lemma ConsumeVersionAndMethod(service: Bytes, name: Bytes)
    requires PlainTarget(service, name)
    ensures Leads(FRESH.(nesting := 1), MemberEvents(ParamMembers(HeadParams(service, name, None))),
                  Targeted(service, name))
  {
    hide Leads, PlainTarget, EventsOf, FieldMember, TokenOf, SetMethod, MemberEvents, ParamMembers;
    HeadTokens();
    var c := FRESH.(nesting := 1);
    var full := service + [DOT] + name;
    var f0, f1 := Field(KEY_JSONRPC, StrVal(VERSION)), Field(KEY_METHOD, StrVal(full));
    ConsumeHeadField(c, KEY_JSONRPC, StrVal(VERSION));
    var d := c.(status := StatusV2);
    ConsumeHeadField(d, KEY_METHOD, StrVal(full));
    HeadSnoc([], f0);
    HeadSnoc([ScalarParam(f0)], f1);
    NoParams();
    assert [] + [ScalarParam(f0)] == [ScalarParam(f0)];
    assert HeadParams(service, name, None) == [ScalarParam(f0)] + [ScalarParam(f1)];
    assert [] + EventsOf(FieldMember(f0)) == EventsOf(FieldMember(f0));
    LeadsOn(c, EventsOf(FieldMember(f0)), d, EventsOf(FieldMember(f1)), Targeted(service, name));
  }

  lemma TargetedIs(service: Bytes, name: Bytes)
    requires PlainTarget(service, name)
    ensures var d := Targeted(service, name);
            && d == FRESH.(status := d.status, service := d.service, methodName := d.methodName, nesting := 1)
            && (if AcceptableTarget(service, name)
                then d.status == StatusV2 && d.service == Some(service) && d.methodName == Some(name)
                else d.status == StatusInvalid)
  {
    SetMethodIs(FRESH.(status := StatusV2, nesting := 1, lastKeyToken := TokMethod), service, name);
    hide SetMethod, PlainTarget, AcceptableTarget;
  }

  lemma NoParams()
    ensures MemberEvents(ParamMembers([])) == []
  {
  }

  lemma ConsumeHead(service: Bytes, name: Bytes, id: Option<nat>)
    requires PlainTarget(service, name)
    ensures Leads(FRESH, BEGIN + MemberEvents(ParamMembers(HeadParams(service, name, id))) + PARAMS_BEGIN,
                  AtParams(service, name, id))
  {
    hide Leads, PlainTarget, Targeted, EventsOf, FieldMember, TokenOf, MemberEvents, ParamMembers, Decimal, CString;
    var c := FRESH.(nesting := 1);
    LeadsOne(FRESH, Event(JsonObjectBegin, []));
    assert BEGIN == [Event(JsonObjectBegin, [])];
    var members := MemberEvents(ParamMembers(HeadParams(service, name, None)));
    ConsumeVersionAndMethod(service, name);
    TargetedIs(service, name);
    var d := Targeted(service, name);
    LeadsOn(FRESH, BEGIN, c, members, d);
    if id.Some? {
      var f := Field(KEY_ID, IntVal(id.value));
      ConsumeId(d, id.value);
      var e := d.(id := Some(ValueOf(f.value)));
      HeadSnoc(HeadParams(service, name, None), f);
      assert HeadParams(service, name, id) == HeadParams(service, name, None) + [ScalarParam(f)];
      LeadsOn(FRESH, BEGIN + members, d, EventsOf(FieldMember(f)), e);
      assert BEGIN + members + EventsOf(FieldMember(f)) == BEGIN + (members + EventsOf(FieldMember(f)));
      ConsumeParamsBegin(e);
      LeadsOn(FRESH, BEGIN + (members + EventsOf(FieldMember(f))), e, PARAMS_BEGIN, AtParams(service, name, id));
    } else {
      ConsumeParamsBegin(d);
      LeadsOn(FRESH, BEGIN + members, d, PARAMS_BEGIN, AtParams(service, name, id));
    }
  }

  lemma ConsumeId(c: Rpc, id: nat)
    requires !c.paramState
    ensures Leads(c, EventsOf(FieldMember(Field(KEY_ID, IntVal(id)))),
                  c.(id := Some(ValueOf(IntVal(id))), lastKeyToken := TokNone))
  {
    hide Leads, EventsOf, FieldMember, TokenOf, Decimal, CString, NumberText;
    HeadTokens();
    ConsumeHeadField(c, KEY_ID, IntVal(id));
  }

  lemma ConsumeParamsBegin(c: Rpc)
    requires !c.paramState && c.nesting == 1
    ensures Leads(c, PARAMS_BEGIN, c.(lastKeyToken := TokParams, nesting := 2, paramState := true))
  {
    hide Leads, TokenOf;
    HeadTokens();
    var key, begin := Event(JsonKey, KEY_PARAMS), Event(JsonObjectBegin, []);
    LeadsOne(c, key);
    var d := OnEvent(c, key).rpc;
    LeadsOne(d, begin);
    assert PARAMS_BEGIN == [key] + [begin];
    LeadsOn(c, [key], d, [begin], OnEvent(d, begin).rpc);
  }

  lemma ConsumeEnds(c: Rpc)
    requires InParams(c)
    ensures Leads(c, ENDS, c.(nesting := 0, paramState := false))
  {
    hide Leads;
    var end := Event(JsonObjectEnd, []);
    LeadsOne(c, end);
    var d := OnEvent(c, end).rpc;
    LeadsOne(d, end);
    assert ENDS == [end] + [end];
    LeadsOn(c, [end], d, [end], OnEvent(d, end).rpc);
  }

  /** What the message is, once it has been read to its end. */
  function Parsed(service: Bytes, name: Bytes, id: Option<nat>, params: seq<Param>): Rpc {
    AtParams(service, name, id).(params := ParamTable(params), nesting := 0, paramState := false)
  }

  lemma ConsumeRequest(service: Bytes, name: Bytes, id: Option<nat>, params: seq<Param>)
    requires PlainTarget(service, name) && GoodParams(params)
    ensures Leads(FRESH, Events(RequestTree(service, name, id, params)), Parsed(service, name, id, params))
  {
    hide Leads, PlainTarget, GoodParams, Targeted, MemberEvents, ParamMembers, HeadParams, Events, RequestTree,
      ParamTable;
    RequestEventsAre(service, name, id, params);
    var head := BEGIN + MemberEvents(ParamMembers(HeadParams(service, name, id))) + PARAMS_BEGIN;
    var body := MemberEvents(ParamMembers(params));
    GoodIsReadable(params);
    hide ReadableParams;
    ConsumeHead(service, name, id);
    TargetedIs(service, name);
    var c := AtParams(service, name, id);
    ConsumeParams(c, params);
    var d := c.(params := ParamTable(params));
    ConsumeEnds(d);
    LeadsOn(FRESH, head, c, body, d);
    LeadsOn(FRESH, head + body, d, ENDS, Parsed(service, name, id, params));
  }

  // ---------------------------------------------------------------- the document is in the parser's language

  lemma {:induction false} ConcatAppend(a: seq<Bytes>, b: seq<Bytes>)
    ensures Concat(a + b) == Concat(a) + Concat(b)
    decreases |b|
  {
    if b == [] {
      assert a + b == a;
    } else {
      var n := |b| - 1;
      assert (a + b)[..|a + b| - 1] == a + b[..n];
      ConcatAppend(a, b[..n]);
    }
  }

  lemma Utf8Append(s: Bytes, t: Bytes)
    requires IsUtf8(s) && IsUtf8(t)
    ensures IsUtf8(s + t)
  {
    var a: seq<Bytes> :| IsUtf8Split(a, s);
    var b: seq<Bytes> :| IsUtf8Split(b, t);
    ConcatAppend(a, b);
    hide IsUtf8Group, Concat;
    assert IsUtf8Split(a + b, s + t);
  }

  lemma {:induction false} AsciiIsUtf8(s: Bytes)
    requires forall i :: 0 <= i < |s| ==> s[i] < 0x80
    ensures IsUtf8(s)
  {
    if s == [] {
      assert IsUtf8Split([], s);
    } else {
      var n := |s| - 1;
      AsciiIsUtf8(s[..n]);
      assert Concat([[s[n]]]) == [] + [s[n]];
      assert IsUtf8Split([[s[n]]], [s[n]]);
      Utf8Append(s[..n], [s[n]]);
      assert s == s[..n] + [s[n]];
    }
  }

  lemma KeysAreUtf8()
    ensures IsUtf8(KEY_JSONRPC) && IsUtf8(KEY_METHOD) && IsUtf8(KEY_ID) && IsUtf8(KEY_PARAMS)
    ensures IsUtf8(VERSION) && IsUtf8([DOT])
  {
    AsciiIsUtf8(KEY_JSONRPC);
    AsciiIsUtf8(KEY_METHOD);
    AsciiIsUtf8(KEY_ID);
    AsciiIsUtf8(KEY_PARAMS);
    AsciiIsUtf8(VERSION);
    AsciiIsUtf8([DOT]);
  }

  lemma FieldsAreWell(fields: seq<Field>)
    requires GoodFields(fields)
    ensures WellFormed(Obj(FieldMembers(fields))) && MembersDepth(FieldMembers(fields)) == 0
  {
    hide IsPlain, IsUtf8;
    forall i | 0 <= i < |fields| ensures WellFormed(ValueTree(fields[i].value)) {
      assert GoodField(fields[i]);
      if fields[i].value.IntVal? { IntIsNumber(fields[i].value.n); }
    }
    assert forall i :: 0 <= i < |fields| ==> GoodField(fields[i]);
    FieldsAreShallow(fields);
    hide GoodFields, IsNumber;
  }

  lemma {:induction false} FieldsAreShallow(fields: seq<Field>)
    ensures MembersDepth(FieldMembers(fields)) == 0
  {
    if fields != [] {
      var n := |fields| - 1;
      FieldsAreShallow(fields[..n]);
      assert FieldMembers(fields)[..n] == FieldMembers(fields[..n]);
    }
  }

  lemma {:induction false} ObjectsAreShallow(objects: seq<seq<Field>>)
    ensures ItemsDepth(ObjectTrees(objects)) <= 1
  {
    if objects != [] {
      var n := |objects| - 1;
      ObjectsAreShallow(objects[..n]);
      FieldsAreShallow(objects[n]);
      hide MembersDepth;
      assert ObjectTrees(objects)[..n] == ObjectTrees(objects[..n]);
    }
  }

  lemma ParamIsWell(p: Param)
    requires GoodParam(p)
    ensures var m := ParamMember(p); IsUtf8(m.key) && WellFormed(m.value) && Depth(m.value) <= 2
  {
    match p
    case ScalarParam(f) =>
      assert GoodFields([f]);
      FieldsAreWell([f]);
      assert FieldMembers([f])[0] == FieldMember(f);
      hide IsUtf8, IsNumber;
    case ArrayParam(_, objects) =>
      hide GoodFields, IsUtf8, FieldMembers;
      forall i | 0 <= i < |objects| ensures WellFormed(Obj(FieldMembers(objects[i]))) { FieldsAreWell(objects[i]); }
      ObjectsAreShallow(objects);
      assert Depth(Arr(ObjectTrees(objects))) == 1 + ItemsDepth(ObjectTrees(objects));
  }

  lemma {:induction false} MembersAreShallow(members: seq<Member>, d: nat)
    requires forall i :: 0 <= i < |members| ==> Depth(members[i].value) <= d
    ensures MembersDepth(members) <= d
  {
    hide Depth;
    if members != [] { MembersAreShallow(members[..|members| - 1], d); }
  }

  lemma RequestIsWell(service: Bytes, name: Bytes, id: Option<nat>, params: seq<Param>)
    requires PlainTarget(service, name) && GoodParams(params)
    ensures var t := RequestTree(service, name, id, params); WellFormed(t) && Within(MAX_NESTING, Depth(t))
  {
    hide GoodParam, IsPlain, IsUtf8, ParamMember, Depth, MembersDepth, WellFormed;
    var inner := Obj(ParamMembers(params));
    forall i | 0 <= i < |params|
      ensures var m := ParamMember(params[i]); IsUtf8(m.key) && WellFormed(m.value) && Depth(m.value) <= 2
    {
      ParamIsWell(params[i]);
    }
    MembersAreShallow(ParamMembers(params), 2);
    ObjIsWell(ParamMembers(params));
    var head := ParamMembers(HeadParams(service, name, id));
    HeadIsWell(service, name, id);
    var members := head + [Member(KEY_PARAMS, inner)];
    MembersAreShallow(members, 3);
    ObjIsWell(members);
  }

  lemma ObjIsWell(members: seq<Member>)
    requires forall i :: 0 <= i < |members| ==> IsUtf8(members[i].key) && WellFormed(members[i].value)
    ensures WellFormed(Obj(members)) && Depth(Obj(members)) == 1 + MembersDepth(members)
  {
    hide MembersDepth, IsUtf8;
  }

  lemma HeadIsWell(service: Bytes, name: Bytes, id: Option<nat>)
    requires PlainTarget(service, name)
    ensures IsUtf8(KEY_PARAMS)
    ensures forall m :: m in ParamMembers(HeadParams(service, name, id)) ==>
              IsUtf8(m.key) && WellFormed(m.value) && Depth(m.value) == 0
  {
    hide IsPlain;
    KeysAreUtf8();
    Utf8Append(service, [DOT]);
    Utf8Append(service + [DOT], name);
    if id.Some? { IntIsNumber(id.value); }
    hide IsUtf8, IsNumber;
  }

  lemma {:induction false} TakesIsAccepts(cfg: Config, evs: seq<Event>)
    requires cfg == MessageConfig() && Takes(FRESH, evs)
    ensures Accepts(cfg, evs)
  {
    hide OnEvent, Consume;
    if evs != [] {
      var n := |evs| - 1;
      TakesIsAccepts(cfg, evs[..n]);
      forall k | 0 <= k < |evs| ensures cfg.callback(evs[..k], evs[k]) == 0 {
        if k < n { assert evs[..n][..k] == evs[..k] && evs[..n][k] == evs[k]; }
      }
    }
  }

  lemma {:induction false} PlainAppend(s: Bytes, t: Bytes)
    requires IsPlain(s) && IsPlain(t)
    ensures IsPlain(s + t)
  {
    EscapedAppend(s, t);
    hide Escaped;
  }

  /**
    Round trip: a request made of a service name without a dot and a method name, both
    plain, and parameters with distinct plain names and well-formed strings, if it fits
    the buffer, is parsed back to that service and method, the digits of its id, and the
    same parameters, if and only if the names are acceptable; otherwise it is a parse
    error (`StringComesBack` says when a string is the same).
   */
  lemma RequestRoundTrip(service: Bytes, name: Bytes, id: Option<nat>, params: seq<Param>)
    requires PlainTarget(service, name) && GoodParams(params)
    requires |RequestText(service, name, id, params)| < JSONRPC_REQ_SZ_MAX - 1
    ensures var o := ParseMsg(RequestText(service, name, id, params));
            if AcceptableTarget(service, name) then
              && o.ret == 0 && o.rpc.status == StatusOk
              && o.rpc.service == Some(service) && o.rpc.methodName == Some(name)
              && o.rpc.id == (if id.Some? then Some(Scalar(JsonInt, |Decimal(id.value)|, Decimal(id.value))) else None)
              && o.rpc.params == ParamTable(params) && o.rpc.pointed == None
            else o.ret == JSONRPC_PARSE_ERROR
  {
    hide Takes, Consume, Events, RequestTree, GoodParams, PlainTarget, Feed, StepByte, WellFormed, Depth, PrintAll,
      RequestText, MessageConfig, Accepts, ParamTable, Decimal, OnEvent, Targeted;
    var cfg := MessageConfig();
    var t := RequestTree(service, name, id, params);
    var text := RequestText(service, name, id, params);
    ConsumeRequest(service, name, id, params);
    TargetedIs(service, name);
    TakesIsAccepts(cfg, Events(t));
    RequestIsWell(service, name, id, params);
    TargetIsPlain(service, name, params);
    RequestIsPrinted(service, name, id, params);
    ConfigIs();
    TreeIsObj(service, name, id, params);
    PrintThenParse(cfg, t, Compact, []);
    assert Printing(t, Compact) + [] == text;
    IdIs(id);
  }

  lemma TargetIsPlain(service: Bytes, name: Bytes, params: seq<Param>)
    requires PlainTarget(service, name) && GoodParams(params)
    ensures IsPlain(service + [DOT] + name) && forall i :: 0 <= i < |params| ==> PlainParam(params[i])
  {
    hide IsUtf8, Escaped;
    PlainIs([DOT]) by { assert EscapeByte(DOT) == [DOT]; }
    PlainAppend(service, [DOT]);
    PlainAppend(service + [DOT], name);
    forall i | 0 <= i < |params| ensures PlainParam(params[i]) { assert GoodParam(params[i]); }
  }

  lemma ConfigIs()
    ensures MessageConfig().maxNesting == MAX_NESTING && MessageConfig().maxData == JSONRPC_REQ_SZ_MAX
  {
  }

  lemma TreeIsObj(service: Bytes, name: Bytes, id: Option<nat>, params: seq<Param>)
    ensures IsContainer(RequestTree(service, name, id, params))
  {
  }

  lemma IdIs(id: Option<nat>)
    ensures id.Some? ==> ValueOf(IntVal(id.value)) == Scalar(JsonInt, |Decimal(id.value)|, Decimal(id.value))
  {
    if id.Some? {
      assert NumberText(IntNumber(id.value)) == Decimal(id.value);
      OtherComesBack(IntVal(id.value));
    }
  }

  /** The handle holds a request's parameters, and is not aimed at an array. */
  ghost predicate Received(h: RpcHandle.JsonRpc, params: seq<Param>)
    reads h, h.tables, h.tables.Repr
  {
    h.Valid() && GoodParams(params) && h.parsingStatus == StatusOk
    && h.State().params == ParamTable(params) && h.State().pointed == None
  }

  /** Both ends on their objects: a request built call by call, and the handle it is parsed into. */
  method Exchange(service: Bytes, name: Bytes, id: nat, params: seq<Param>) returns (h: RpcHandle.JsonRpc, ret: int)
    requires GoodTarget(service, name) && GoodParams(params) && id <= RpcRequest.NO_ID
    requires |RequestText(service, name, RpcRequest.IdOf(id), params)| < JSONRPC_REQ_SZ_MAX - 1
    ensures ret == 0 && h.parsingStatus == StatusOk
    ensures fresh(h) && fresh(h.tables.Repr) && Received(h, params)
    ensures h.serviceName == Some(service) && h.methodName == Some(name)
    ensures h.id == (if id == RpcRequest.NO_ID then None else Some(Scalar(JsonInt, |Decimal(id)|, Decimal(id))))
  {
    hide PlainTarget, AcceptableTarget, GoodParams, RequestText, ParamTable, RpcReader.ParseMsg, Decimal,
      RpcTables.ParamTables.Valid;
    var request := RpcRequest.Build(service, name, id, params);
    RequestRoundTrip(service, name, RpcRequest.IdOf(id), params);
    h, ret := RpcHandle.ParseMsg(request.msg);
    assert Reply(h.State(), ret) == RpcReader.ParseMsg(request.msg);
  }

  // ---------------------------------------------------------------- integers

  lemma {:induction false} DigitsSnoc(n: nat, a: Bytes, d: Byte)
    requires AreDigits(a) && IsDigit(d)
    ensures LeadingDigits(n, a + [d]) == 10 * LeadingDigits(n, a) + (d - 0x30)
    decreases a
  {
    if a == [] {
      assert LeadingDigits(n, [d]) == LeadingDigits(10 * n + (d - 0x30), [d][1..]);
    } else {
      DigitsSnoc(10 * n + (a[0] - 0x30), a[1..], d);
      assert (a + [d])[1..] == a[1..] + [d];
    }
  }

  lemma {:induction false} DecimalReadsBack(n: nat)
    ensures AreDigits(Decimal(n)) && Decimal(n) != [] && LeadingDigits(0, Decimal(n)) == n
  {
    if n < 10 {
      DigitsSnoc(0, [], 0x30 + n);
      assert [] + [0x30 + n] == Decimal(n);
    } else {
      DecimalReadsBack(n / 10);
      DigitsSnoc(0, Decimal(n / 10), 0x30 + n % 10);
    }
  }

  /** What `strtol` can give: as near to `n` as a `long` gets. */
  function Clamped(n: int): int { if n > LONG_MAX then LONG_MAX else if n < LONG_MIN then LONG_MIN else n }

  /**
    An integer is written with a minus sign exactly when it is negative, and then its
    digits, which `strtol` reads back as that integer if a `long` can hold it.
   */
  lemma IntReadsBack(n: int)
    ensures var text := NumberText(IntNumber(n)); var digits := if n < 0 then text[1..] else text;
            && text != [] && (text[0] == Ascii("-")[0] <==> n < 0)
            && digits != [] && AreDigits(digits) && (digits[0] == Ascii("0")[0] ==> |digits| == 1)
            && LeadingDigits(0, digits) == (if n < 0 then -n else n)
            && Strtol(text) == Clamped(n)
  {
    hide LeadingDigits, Decimal, AreDigits;
    var d := Decimal(if n < 0 then -n else n);
    DecimalReadsBack(if n < 0 then -n else n);
    DecimalIsWhole(if n < 0 then -n else n);
    FirstDigit(d);
    assert NumberText(IntNumber(n)) == (if n < 0 then [0x2d] else []) + d;
    if n < 0 { assert ([0x2d] + d)[1..] == d; } else { assert [] + d == d; }
  }

  /**
    When an error response passes for a good one: an error code that is the integer `n`
    is stored as zero if and only if `n` is a multiple of 2^32 that a `long` can hold,
    or is below what it can hold.
   */
  lemma ErrorCodeIsZero(n: int)
    ensures IsZero(NumberText(IntNumber(n))) <==> (n % 0x1_0000_0000 == 0 && n <= LONG_MAX) || n < LONG_MIN
  {
    IntReadsBack(n);
    hide Strtol, NumberText, IntNumber;
  }

  lemma FirstDigit(d: Bytes)
    requires AreDigits(d) && d != []
    ensures d[0] != 0x2d
  {
  }

  // ---------------------------------------------------------------- reading parameters back

  lemma {:induction false} TableHas(fields: seq<Field>, i: nat)
    requires i < |fields| && forall a, b :: 0 <= a < b < |fields| ==> fields[a].name != fields[b].name
    ensures fields[i].name in Table(fields) && Table(fields)[fields[i].name] == ValueOf(fields[i].value)
  {
    hide ValueOf;
    if i < |fields| - 1 { TableHas(fields[..|fields| - 1], i); }
  }

  lemma {:induction false} ParamTableHas(params: seq<Param>, i: nat)
    requires i < |params| && forall a, b :: 0 <= a < b < |params| ==> NameOf(params[a]) != NameOf(params[b])
    ensures NameOf(params[i]) in ParamTable(params) && ParamTable(params)[NameOf(params[i])] == ParamVal(params[i])
  {
    hide ParamVal, NameOf;
    if i < |params| - 1 { ParamTableHas(params[..|params| - 1], i); }
  }

  /** What a client can tell of a value from what is kept of it. */
  ghost predicate StandsFor(v: JsonVal, value: Value) {
    && v.Scalar?
    && match value
       case IntVal(n) => v.kind == JsonInt && Strtol(v.data) == Clamped(n)
       case BoolVal(b) => v.kind == if b then JsonTrue else JsonFalse
       case NullVal => v.kind == JsonNull
       case StrVal(s) =>
         && v.kind == JsonString && v.length == |s| && v.data <= s
         && 0 !in v.data && (|v.data| == |s| || s[|v.data|] == 0)
  }

  lemma ValueStands(value: Value)
    ensures StandsFor(ValueOf(value), value)
  {
    match value
    case IntVal(n) =>
      OtherComesBack(value);
      IntReadsBack(n);
      hide Strtol, NumberText, IntNumber;
    case StrVal(s) =>
      hide Find;
      var d := CString(s);
    case _ =>
  }

  /** A scalar parameter is read back under its name: the integer, the truth value, the null or the string it was. */
  method ReadScalar(h: RpcHandle.JsonRpc, params: seq<Param>, i: nat) returns (ret: int, v: Option<JsonVal>)
    requires Received(h, params) && i < |params| && params[i].ScalarParam?
    modifies h.tables.Repr
    ensures Received(h, params)
    ensures var value := params[i].field.value;
            v == Some(ValueOf(value)) && StandsFor(v.value, value) && ret == if value.NullVal? then -3 else 0
  {
    hide GoodParam, ParamTable, RpcTables.ParamTables.Valid, CString, StandsFor;
    ValueStands(params[i].field.value);
    ParamTableHas(params, i);
    ret, v := h.CheckVal(params[i].field.name);
  }

  /** So is each field of each object of an array parameter, once the handle is aimed at it. */
  method ReadItem(h: RpcHandle.JsonRpc, params: seq<Param>, i: nat, o: nat, j: nat)
    returns (ret: int, v: Option<JsonVal>)
    requires Received(h, params) && i < |params| && params[i].ArrayParam?
    requires o < |params[i].objects| && j < |params[i].objects[o]|
    modifies h.tables.Repr
    ensures Received(h, params)
    ensures var value := params[i].objects[o][j].value;
            v == Some(ValueOf(value)) && StandsFor(v.value, value) && ret == if value.NullVal? then -3 else 0
  {
    hide ParamTable, RpcTables.ParamTables.Valid, CString, Table, StandsFor;
    ValueStands(params[i].objects[o][j].value);
    ParamTableHas(params, i);
    TableHas(params[i].objects[o], j);
    var aimed := h.GetPointAt(Some(params[i].name), o);
    assert aimed == 0;
    ret, v := h.CheckVal(params[i].objects[o][j].name);
    var _ := h.GetPointAt(None, 0);
  }

  /** How many objects an array parameter has, -3 for a scalar, and -2 for a name that no parameter has. */
  method ReadCount(h: RpcHandle.JsonRpc, params: seq<Param>, name: Bytes) returns (ret: int)
    requires Received(h, params)
    modifies h.tables.Repr
    ensures Received(h, params)
    ensures forall i :: 0 <= i < |params| && NameOf(params[i]) == name ==>
              ret == if params[i].ArrayParam? then |params[i].objects| else -3
    ensures (forall i :: 0 <= i < |params| ==> NameOf(params[i]) != name) ==> ret == -2
  {
    hide GoodParam, ParamTable, RpcTables.ParamTables.Valid, CString, Table;
    forall i | 0 <= i < |params| && NameOf(params[i]) == name
      ensures name in ParamTable(params) && ParamTable(params)[name] == ParamVal(params[i])
    {
      ParamTableHas(params, i);
    }
    if forall i :: 0 <= i < |params| ==> NameOf(params[i]) != name { NotInParamTable(params, name); }
    ret := h.GetArrayCount(name);
  }

  /** A name that no parameter has is answered with an error, and so is aiming at it, at a scalar, or too far. */
  method ReadWrongly(h: RpcHandle.JsonRpc, params: seq<Param>, name: Bytes, idx: nat) returns (ret: int, aimed: int)
    requires Received(h, params)
    requires forall i :: 0 <= i < |params| && NameOf(params[i]) == name ==>
               params[i].ScalarParam? || idx >= |params[i].objects|
    modifies h.tables.Repr
    ensures Received(h, params)
    ensures (forall i :: 0 <= i < |params| ==> NameOf(params[i]) != name) ==> ret == -32602 && aimed == -2
    ensures forall i :: 0 <= i < |params| && NameOf(params[i]) == name ==>
              aimed == if params[i].ScalarParam? then -3 else -4
  {
    hide GoodParam, ParamTable, RpcTables.ParamTables.Valid, CString, Table;
    forall i | 0 <= i < |params| && NameOf(params[i]) == name
      ensures name in ParamTable(params) && ParamTable(params)[name] == ParamVal(params[i])
    {
      ParamTableHas(params, i);
    }
    if forall i :: 0 <= i < |params| ==> NameOf(params[i]) != name { NotInParamTable(params, name); }
    var v: Option<JsonVal>;
    ret, v := h.CheckVal(name);
    aimed := h.GetPointAt(Some(name), idx);
  }
}
