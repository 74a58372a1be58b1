/**
  The tree builder: a second callback for the parser's events, which keeps a stack
  of open structures, each with the key that its next value will have, and appends
  every finished value to the structure it belongs to.

  Where the source would use a key it has freed, store a value in the wrong kind of
  structure, or step outside its stack, the step is undefined (`None`) here.
 */
module Dom {
  import opened JsonTables
  import opened ParserSpec
  import opened Grammar
  import opened TokenMachine
  import opened ReadsLexemes
  import opened ParserTheorems

  const DOM_STACK_SIZE: nat := 1024

  /** A built value. */
  datatype Node =
    | DataNode(kind: JsonType, data: Bytes)
    | ArrayNode(items: seq<Node>)
    | ObjectNode(elems: seq<Elem>)

  datatype Elem = Elem(key: Bytes, value: Node)

  /** The key slot of an open structure; the source frees a key without clearing the pointer. */
  datatype KeySlot = NoKey | HasKey(key: Bytes) | FreedKey

  datatype Frame = Frame(node: Node, slot: KeySlot)

  datatype DomState = DomState(stack: seq<Frame>, root: Option<Node>)

  const EMPTY := DomState([], None)

  /** `tree_append`: by the key, into an object or an array. */
  function TreeAppend(parent: Node, slot: KeySlot, v: Node): Option<Node> {
    if parent.ObjectNode? && slot.HasKey? then Some(ObjectNode(parent.elems + [Elem(slot.key, v)]))
    else if parent.ArrayNode? && slot.NoKey? then Some(ArrayNode(parent.items + [v]))
    else None
  }

  /** A finished value goes into the structure on top, whose key is then freed. */
  function Place(st: DomState, v: Node): Option<DomState>
    requires st.stack != []
  {
    var n := |st.stack| - 1;
    var top := st.stack[n];
    var grown := TreeAppend(top.node, top.slot, v);
    if grown.None? then None
    else Some(st.(stack := st.stack[n := Frame(grown.value, if top.slot.HasKey? then FreedKey else NoKey)]))
  }

  /** `json_parser_dom_callback`. */
  function DomStep(st: DomState, ev: Event): Option<DomState> {
    match ev.kind
    case JsonArrayBegin | JsonObjectBegin =>
      if |st.stack| >= DOM_STACK_SIZE then None
      else
        var v := if ev.kind == JsonObjectBegin then ObjectNode([]) else ArrayNode([]);
        Some(st.(stack := st.stack + [Frame(v, NoKey)]))
    case JsonArrayEnd | JsonObjectEnd =>
      if st.stack == [] then None
      else
        var n := |st.stack| - 1;
        var v := st.stack[n].node;
        var rest := st.(stack := st.stack[..n]);
        if n > 0 then Place(rest, v) else Some(rest.(root := Some(v)))
    case JsonKey =>
      if st.stack == [] then None
      else
        var n := |st.stack| - 1;
        Some(st.(stack := st.stack[n := st.stack[n].(slot := HasKey(ev.data))]))
    case JsonString | JsonInt | JsonFloat | JsonNull | JsonTrue | JsonFalse =>
      if st.stack == [] then None else Place(st, DataNode(ev.kind, ev.data))
    case JsonNone => Some(st)
  }

  function DomRun(st: DomState, evs: seq<Event>): Option<DomState> {
    if evs == [] then Some(st)
    else
      var before := DomRun(st, evs[..|evs| - 1]);
      if before.None? then None else DomStep(before.value, evs[|evs| - 1])
  }

  /** The tree of a document. */
  function NodeOf(t: Tree): Node
    decreases t, 0
  {
    match t
    case Str(v) => DataNode(JsonString, v)
    case Num(n) => DataNode(NumberKind(n), NumberText(n))
    case Name(k) => DataNode(k, [])
    case Arr(items) => ArrayNode(NodesOf(items))
    case Obj(members) => ObjectNode(ElemsOf(members))
  }

  function NodesOf(items: seq<Tree>): (nodes: seq<Node>)
    ensures |nodes| == |items|
    decreases items, 1
  {
    if items == [] then [] else NodesOf(items[..|items| - 1]) + [NodeOf(items[|items| - 1])]
  }

  function ElemsOf(members: seq<Member>): (elems: seq<Elem>)
    ensures |elems| == |members|
    decreases members, 1
  {
    if members == [] then []
    else
      var last := members[|members| - 1];
      ElemsOf(members[..|members| - 1]) + [Elem(last.key, NodeOf(last.value))]
  }

  /** The in-order traversal of a built tree. */
  function Walk(v: Node): seq<Event>
    decreases v, 0
  {
    match v
    case DataNode(kind, data) => [Event(kind, data)]
    case ArrayNode(items) => [Event(JsonArrayBegin, [])] + WalkItems(items) + [Event(JsonArrayEnd, [])]
    case ObjectNode(elems) => [Event(JsonObjectBegin, [])] + WalkElems(elems) + [Event(JsonObjectEnd, [])]
  }

  function WalkItems(items: seq<Node>): seq<Event>
    decreases items, 1
  {
    if items == [] then [] else WalkItems(items[..|items| - 1]) + Walk(items[|items| - 1])
  }

  function WalkElems(elems: seq<Elem>): seq<Event>
    decreases elems, 1
  {
    if elems == [] then []
    else
      var last := elems[|elems| - 1];
      WalkElems(elems[..|elems| - 1]) + [Event(JsonKey, last.key)] + Walk(last.value)
  }

  // ---------------------------------------------------------------- walking back

  lemma {:induction false} WalkIsEvents(t: Tree)
    ensures Walk(NodeOf(t)) == Events(t)
    decreases t, 0
  {
    match t
    case Arr(items) => WalkItemsAre(items, t);
    case Obj(members) => WalkElemsAre(members, t);
    case _ =>
  }

  lemma {:induction false} WalkItemsAre(items: seq<Tree>, t: Tree)
    requires forall i :: 0 <= i < |items| ==> items[i] < t
    ensures WalkItems(NodesOf(items)) == ItemEvents(items)
    decreases t, 0, items
  {
    hide Walk, Events;
    if items != [] {
      var n := |items| - 1;
      WalkItemsAre(items[..n], t);
      WalkIsEvents(items[n]);
      assert NodesOf(items)[..n] == NodesOf(items[..n]);
    }
  }

  lemma {:induction false} WalkElemsAre(members: seq<Member>, t: Tree)
    requires forall i :: 0 <= i < |members| ==> members[i].value < t
    ensures WalkElems(ElemsOf(members)) == MemberEvents(members)
    decreases t, 0, members
  {
    hide Walk, Events;
    if members != [] {
      var n := |members| - 1;
      WalkElemsAre(members[..n], t);
      WalkIsEvents(members[n].value);
      assert ElemsOf(members)[..n] == ElemsOf(members[..n]);
    }
  }

  // ---------------------------------------------------------------- building

  lemma {:induction false} RunAppend(st: DomState, a: seq<Event>, b: seq<Event>)
    ensures DomRun(st, a + b) == if DomRun(st, a).None? then None else DomRun(DomRun(st, a).value, b)
    decreases |b|
  {
    hide DomStep;
    if b == [] {
      assert a + b == a;
    } else {
      var n := |b| - 1;
      assert (a + b)[..|a + b| - 1] == a + b[..n];
      RunAppend(st, a, b[..n]);
    }
  }

  lemma RunOne(st: DomState, ev: Event)
    ensures DomRun(st, [ev]) == DomStep(st, ev)
  {
    hide DomStep;
    assert [ev][..0] == [];
    assert DomRun(st, []) == Some(st);
  }

  lemma RunOn(st: DomState, a: seq<Event>, mid: DomState, b: seq<Event>, end: Option<DomState>)
    requires DomRun(st, a) == Some(mid) && DomRun(mid, b) == end
    ensures DomRun(st, a + b) == end
  {
    RunAppend(st, a, b);
    hide DomRun;
  }

  /** The structure on top can take a value. */
  predicate CanPlace(st: DomState) {
    st.stack != [] && TreeAppend(st.stack[|st.stack| - 1].node, st.stack[|st.stack| - 1].slot, DataNode(JsonNull,
        [])).Some?
  }

  /** With one more structure open, on top of the stack. */
  function Opened(st: DomState, node: Node, slot: KeySlot): DomState { st.(stack := st.stack + [Frame(node, slot)]) }

  /** What becomes of a finished value: a part of the structure on top, or the root. */
  function Finished(st: DomState, v: Node): Option<DomState> {
    if st.stack == [] then Some(st.(root := Some(v))) else Place(st, v)
  }

  lemma {:induction false} BuildTree(st: DomState, t: Tree)
    requires if st.stack == [] then IsContainer(t) else CanPlace(st)
    requires |st.stack| + Depth(t) <= DOM_STACK_SIZE
    ensures DomRun(st, Events(t)) == Finished(st, NodeOf(t))
    decreases t, 2
  {
    match t
    case Arr(items) => BuildArr(st, t);
    case Obj(members) => BuildObj(st, t);
    case _ =>
      hide NumberText;
      RunOne(st, Events(t)[0]);
  }

  lemma {:induction false} BuildArr(st: DomState, t: Tree)
    requires t.Arr? && |st.stack| + Depth(t) <= DOM_STACK_SIZE
    ensures DomRun(st, Events(t)) == Finished(st, NodeOf(t))
    decreases t, 1
  {
    hide Place, DomRun, NodesOf, ItemEvents, ItemsDepth;
    var begin, end := Event(JsonArrayBegin, []), Event(JsonArrayEnd, []);
    RunOne(st, begin);
    BuildItems(st, t.items, t);
    var inner := Opened(st, ArrayNode(NodesOf(t.items)), NoKey);
    RunOne(inner, end);
    assert inner.stack[..|st.stack|] == st.stack;
    RunOn(st, [begin], Opened(st, ArrayNode([]), NoKey), ItemEvents(t.items), Some(inner));
    RunOn(st, [begin] + ItemEvents(t.items), inner, [end], Finished(st, NodeOf(t)));
  }

  lemma {:induction false} BuildItems(st: DomState, items: seq<Tree>, t: Tree)
    requires forall i :: 0 <= i < |items| ==> items[i] < t
    requires |st.stack| + 1 + ItemsDepth(items) <= DOM_STACK_SIZE
    ensures DomRun(Opened(st, ArrayNode([]), NoKey), ItemEvents(items))
            == Some(Opened(st, ArrayNode(NodesOf(items)), NoKey))
    decreases t, 0, items
  {
    hide Events, NodeOf, Depth;
    var from := Opened(st, ArrayNode([]), NoKey);
    if items != [] {
      var n := |items| - 1;
      BuildItems(st, items[..n], t);
      var mid := Opened(st, ArrayNode(NodesOf(items[..n])), NoKey);
      BuildTree(mid, items[n]);
      PlaceItem(st, NodesOf(items[..n]), NodeOf(items[n]));
      hide DomRun, ItemEvents, NodesOf;
      RunOn(from, ItemEvents(items[..n]), mid, Events(items[n]), Some(Opened(st, ArrayNode(NodesOf(items)), NoKey)));
    }
  }

  lemma PlaceItem(st: DomState, items: seq<Node>, v: Node)
    ensures Place(Opened(st, ArrayNode(items), NoKey), v) == Some(Opened(st, ArrayNode(items + [v]), NoKey))
  {
    var o := Opened(st, ArrayNode(items), NoKey);
    var f := Frame(ArrayNode(items + [v]), NoKey);
    assert o.stack[|st.stack| := f] == st.stack + [f];
  }

  lemma {:induction false} BuildObj(st: DomState, t: Tree)
    requires t.Obj? && |st.stack| + Depth(t) <= DOM_STACK_SIZE
    ensures DomRun(st, Events(t)) == Finished(st, NodeOf(t))
    decreases t, 1
  {
    hide Place, DomRun, ElemsOf, MemberEvents, MembersDepth;
    var begin, end := Event(JsonObjectBegin, []), Event(JsonObjectEnd, []);
    RunOne(st, begin);
    BuildMembers(st, t.members, t);
    var slot := if t.members == [] then NoKey else FreedKey;
    var inner := Opened(st, ObjectNode(ElemsOf(t.members)), slot);
    RunOne(inner, end);
    assert inner.stack[..|st.stack|] == st.stack;
    RunOn(st, [begin], Opened(st, ObjectNode([]), NoKey), MemberEvents(t.members), Some(inner));
    RunOn(st, [begin] + MemberEvents(t.members), inner, [end], Finished(st, NodeOf(t)));
  }

  /** Each member sets its key before its value is placed, so no freed key is used. */
  lemma {:induction false} BuildMembers(st: DomState, members: seq<Member>, t: Tree)
    requires forall i :: 0 <= i < |members| ==> members[i].value < t
    requires |st.stack| + 1 + MembersDepth(members) <= DOM_STACK_SIZE
    ensures DomRun(Opened(st, ObjectNode([]), NoKey), MemberEvents(members))
            == Some(Opened(st, ObjectNode(ElemsOf(members)), if members == [] then NoKey else FreedKey))
    decreases t, 0, members
  {
    hide Events, NodeOf, Depth;
    var from := Opened(st, ObjectNode([]), NoKey);
    if members != [] {
      var n := |members| - 1;
      var m := members[n];
      BuildMembers(st, members[..n], t);
      var elems := ElemsOf(members[..n]);
      var mid := Opened(st, ObjectNode(elems), if n == 0 then NoKey else FreedKey);
      var keyed := Opened(st, ObjectNode(elems), HasKey(m.key));
      SetKey(st, elems, mid.stack[|st.stack|].slot, m.key);
      BuildTree(keyed, m.value);
      PlaceElem(st, elems, m.key, NodeOf(m.value));
      hide DomRun, MemberEvents, ElemsOf, DomStep;
      RunOne(mid, Event(JsonKey, m.key));
      RunOn(from, MemberEvents(members[..n]), mid, [Event(JsonKey, m.key)], Some(keyed));
      RunOn(from, MemberEvents(members[..n]) + [Event(JsonKey, m.key)], keyed, Events(m.value),
            Some(Opened(st, ObjectNode(ElemsOf(members)), FreedKey)));
    }
  }

  lemma SetKey(st: DomState, elems: seq<Elem>, slot: KeySlot, key: Bytes)
    ensures DomStep(Opened(st, ObjectNode(elems), slot), Event(JsonKey, key))
            == Some(Opened(st, ObjectNode(elems), HasKey(key)))
  {
    var o := Opened(st, ObjectNode(elems), slot);
    var f := Frame(ObjectNode(elems), HasKey(key));
    assert o.stack[|st.stack| := f] == st.stack + [f];
  }

  lemma PlaceElem(st: DomState, elems: seq<Elem>, key: Bytes, v: Node)
    ensures Place(Opened(st, ObjectNode(elems), HasKey(key)), v)
            == Some(Opened(st, ObjectNode(elems + [Elem(key, v)]), FreedKey))
  {
    var o := Opened(st, ObjectNode(elems), HasKey(key));
    var f := Frame(ObjectNode(elems + [Elem(key, v)]), FreedKey);
    assert o.stack[|st.stack| := f] == st.stack + [f];
  }

  /**
    Inversion: from the events of any object or array that nests no deeper than the
    stack, a tree is built whose in-order traversal gives those events back.
   */
  lemma BuildThenWalk(t: Tree)
    requires IsContainer(t) && Depth(t) <= DOM_STACK_SIZE
    ensures DomRun(EMPTY, Events(t)) == Some(DomState([], Some(NodeOf(t)))) && Walk(NodeOf(t)) == Events(t)
  {
    BuildTree(EMPTY, t);
    WalkIsEvents(t);
  }

  /** The configuration with the tree builder as its callback. */
  function DomConfig(cfg: Config): Config {
    cfg.(callback := (log: seq<Event>, ev: Event) =>
      if DomRun(EMPTY, log + [ev]).None? then ERROR_CALLBACK else 0)
  }

  lemma {:induction false} PrefixRuns(st: DomState, evs: seq<Event>, k: nat)
    requires k <= |evs| && DomRun(st, evs).Some?
    ensures DomRun(st, evs[..k]).Some?
    decreases |evs|
  {
    hide DomStep;
    if k < |evs| {
      PrefixRuns(st, evs[..|evs| - 1], k);
      assert evs[..|evs| - 1][..k] == evs[..k];
    } else {
      assert evs[..k] == evs;
    }
  }

  /** The tree builder refuses no event of a document that its stack can hold. */
  lemma BuilderAccepts(cfg: Config, t: Tree)
    requires IsContainer(t) && Depth(t) <= DOM_STACK_SIZE
    ensures Accepts(DomConfig(cfg), Events(t))
  {
    hide DomRun, Events, Walk, Depth, DomConfig, NodeOf;
    var evs := Events(t);
    BuildThenWalk(t);
    forall k | 0 <= k < |evs| ensures DomConfig(cfg).callback(evs[..k], evs[k]) == 0 {
      PrefixRuns(EMPTY, evs, k + 1);
      assert evs[..k] + [evs[k]] == evs[..k + 1];
      CallbackIs(cfg, evs[..k], evs[k]);
    }
  }

  lemma CallbackIs(cfg: Config, log: seq<Event>, ev: Event)
    ensures DomRun(EMPTY, log + [ev]).Some? ==> DomConfig(cfg).callback(log, ev) == 0
  {
    hide DomRun;
  }

  /** A tree that nests deeper than the stack has room for is never built to its end. */
  lemma {:induction false} OnlyShallow(st: DomState, t: Tree)
    requires |st.stack| <= DOM_STACK_SIZE && DomRun(st, Events(t)).Some?
    ensures |st.stack| + Depth(t) <= DOM_STACK_SIZE
    decreases t, 1
  {
    match t
    case Arr(items) =>
      hide DomRun, ItemEvents, ItemsDepth;
      var begin, end := Event(JsonArrayBegin, []), Event(JsonArrayEnd, []);
      RunAppend(st, [begin] + ItemEvents(items), [end]);
      RunAppend(st, [begin], ItemEvents(items));
      RunOne(st, begin);
      OnlyShallowItems(st, items, t);
    case Obj(members) =>
      hide DomRun, MemberEvents, MembersDepth;
      var begin, end := Event(JsonObjectBegin, []), Event(JsonObjectEnd, []);
      RunAppend(st, [begin] + MemberEvents(members), [end]);
      RunAppend(st, [begin], MemberEvents(members));
      RunOne(st, begin);
      OnlyShallowMembers(st, members, t);
    case _ =>
  }

  lemma {:induction false} OnlyShallowItems(st: DomState, items: seq<Tree>, t: Tree)
    requires forall i :: 0 <= i < |items| ==> items[i] < t
    requires |st.stack| < DOM_STACK_SIZE && DomRun(Opened(st, ArrayNode([]), NoKey), ItemEvents(items)).Some?
    ensures |st.stack| + 1 + ItemsDepth(items) <= DOM_STACK_SIZE
    decreases t, 0, items
  {
    hide Events, DomRun, NodesOf, Depth;
    if items != [] {
      var n := |items| - 1;
      RunAppend(Opened(st, ArrayNode([]), NoKey), ItemEvents(items[..n]), Events(items[n]));
      OnlyShallowItems(st, items[..n], t);
      BuildItems(st, items[..n], t);
      OnlyShallow(Opened(st, ArrayNode(NodesOf(items[..n])), NoKey), items[n]);
    }
  }

  lemma {:induction false} OnlyShallowMembers(st: DomState, members: seq<Member>, t: Tree)
    requires forall i :: 0 <= i < |members| ==> members[i].value < t
    requires |st.stack| < DOM_STACK_SIZE && DomRun(Opened(st, ObjectNode([]), NoKey), MemberEvents(members)).Some?
    ensures |st.stack| + 1 + MembersDepth(members) <= DOM_STACK_SIZE
    decreases t, 0, members
  {
    hide Events, DomRun, ElemsOf, Depth;
    if members != [] {
      var n := |members| - 1;
      var m := members[n];
      var from := Opened(st, ObjectNode([]), NoKey);
      RunAppend(from, MemberEvents(members[..n]) + [Event(JsonKey, m.key)], Events(m.value));
      RunAppend(from, MemberEvents(members[..n]), [Event(JsonKey, m.key)]);
      OnlyShallowMembers(st, members[..n], t);
      BuildMembers(st, members[..n], t);
      var elems := ElemsOf(members[..n]);
      var slot := if n == 0 then NoKey else FreedKey;
      RunOne(Opened(st, ObjectNode(elems), slot), Event(JsonKey, m.key));
      SetKey(st, elems, slot, m.key);
      OnlyShallow(Opened(st, ObjectNode(elems), HasKey(m.key)), m.value);
    }
  }

  /** The tree builder accepts the events of a document exactly when its stack can hold it. */
  lemma BuilderAcceptsIff(cfg: Config, t: Tree)
    requires IsContainer(t)
    ensures Accepts(DomConfig(cfg), Events(t)) <==> Depth(t) <= DOM_STACK_SIZE
  {
    if Depth(t) <= DOM_STACK_SIZE { BuilderAccepts(cfg, t); }
    if Accepts(DomConfig(cfg), Events(t)) {
      var n := |Events(t)| - 1;
      assert Events(t)[..n] + [Events(t)[n]] == Events(t);
      hide DomRun, Events, Depth;
      assert DomConfig(cfg).callback(Events(t)[..n], Events(t)[n]) == 0;
      OnlyShallow(EMPTY, t);
    }
  }

  /**
    Parsing into a tree, with any limit or none. With the tree builder as its callback,
    the parser accepts a text if and only if it is an admitted spelling of an object or
    array that the builder's stack has room for; and the tree that is built is then that
    document's, and walks back to the events told.
   */
  lemma ParsedTree(cfg: Config, bytes: Bytes)
    ensures var o := Feed(DomConfig(cfg), Init(DomConfig(cfg)), bytes);
            (o.ret == 0 && AtEnd(o.p))
            <==> exists ls: seq<Lexeme>, t: Tree :: Admits(DomConfig(cfg), ls, bytes, t) && Depth(t) <= DOM_STACK_SIZE
    ensures var o := Feed(DomConfig(cfg), Init(DomConfig(cfg)), bytes);
            forall ls: seq<Lexeme>, t: Tree :: Admits(DomConfig(cfg), ls, bytes, t) && Depth(t) <= DOM_STACK_SIZE ==>
              && o.p.log == Events(t)
              && DomRun(EMPTY, o.p.log) == Some(DomState([], Some(NodeOf(t)))) && Walk(NodeOf(t)) == o.p.log
  {
    hide Feed, StepByte, DomRun, Walk, Events, Accepts, AtEnd, Spells, AllFit, AllAllowed, CommentsPlaced, Depth,
      DomConfig, Init;
    var config := DomConfig(cfg);
    AcceptedLanguage(config, bytes);
    forall ls: seq<Lexeme>, t: Tree | Admits(config, ls, bytes, t)
      ensures Accepts(config, Events(t)) <==> Depth(t) <= DOM_STACK_SIZE
      ensures Depth(t) <= DOM_STACK_SIZE ==>
                DomRun(EMPTY, Events(t)) == Some(DomState([], Some(NodeOf(t)))) && Walk(NodeOf(t)) == Events(t)
    {
      BuilderAcceptsIff(cfg, t);
      if Depth(t) <= DOM_STACK_SIZE { BuildThenWalk(t); }
    }
  }

  /** So with a limit the stack has room for, exactly the admitted spellings are accepted. */
  lemma ParsedWithinLimit(cfg: Config, bytes: Bytes)
    requires 0 < cfg.maxNesting <= DOM_STACK_SIZE
    ensures var o := Feed(DomConfig(cfg), Init(DomConfig(cfg)), bytes);
            (o.ret == 0 && AtEnd(o.p)) <==> exists ls: seq<Lexeme>, t: Tree :: Admits(DomConfig(cfg), ls, bytes, t)
  {
    ParsedTree(cfg, bytes);
    LimitIs(cfg);
    hide Feed, AtEnd, Spells, AllFit, AllAllowed, CommentsPlaced, Depth, DomConfig, Init;
  }

  /**
    What loading a file gives, with the test it makes, `json_parser_is_done`: whenever
    the text was read without an error and the test says yes, the root is there if and
    only if something was told, and then it is the tree of the document told.
   */
  lemma LoadedTree(cfg: Config, bytes: Bytes)
    requires var o := Feed(DomConfig(cfg), Init(DomConfig(cfg)), bytes); o.ret == 0 && IsDone(o.p)
    ensures var log := Feed(DomConfig(cfg), Init(DomConfig(cfg)), bytes).p.log;
            && DomRun(EMPTY, log).Some? && (DomRun(EMPTY, log).value.root.Some? <==> log != [])
            && (log != [] ==> exists t: Tree :: IsContainer(t) && log == Events(t) && Walk(NodeOf(t)) == log
                                                && DomRun(EMPTY, log) == Some(DomState([], Some(NodeOf(t)))))
  {
    hide Feed, StepByte, DomRun, Walk, Accepts, Depth, DomConfig, Init, NodeOf;
    var config := DomConfig(cfg);
    InitAccepts(config);
    DoneMeansDocument(config, bytes);
    var log := Feed(config, Init(config), bytes).p.log;
    NothingBuilt();
    if log != [] {
      var t: Tree :| IsContainer(t) && log == Events(t);
      hide Events;
      FeedAccepts(config, Init(config), bytes);
      BuilderAcceptsIff(cfg, t);
      BuildThenWalk(t);
    }
  }

  lemma NothingBuilt()
    ensures DomRun(EMPTY, []) == Some(EMPTY)
  {
  }

  lemma InitAccepts(cfg: Config)
    ensures Ready(Init(cfg)) && Accepts(cfg, Init(cfg).log)
  {
  }

  lemma LimitIs(cfg: Config)
    ensures DomConfig(cfg).maxNesting == cfg.maxNesting
  {
  }
}
