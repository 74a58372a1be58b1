/**
  The tree builder on its heap: nodes that grow in place as values are appended,
  proved against `Dom`. The ghost `view` of a node is the value that it and the
  nodes below it make up.
 */
module DomTree {
  import opened JsonTables
  import opened Grammar
  import opened Dom

  class DomVal {
    const kind: JsonType
    const data: Bytes
    /** The children of an array, or of an object with their keys. */
    var children: seq<DomVal>
    var keys: seq<Bytes>

    ghost var view: Node

    constructor Structure(isObject: bool)
      ensures kind == (if isObject then JsonObjectBegin else JsonArrayBegin)
      ensures children == [] && keys == [] && view == if isObject then ObjectNode([]) else ArrayNode([])
    {
      kind := if isObject then JsonObjectBegin else JsonArrayBegin;
      data := [];
      children, keys := [], [];
      view := if isObject then ObjectNode([]) else ArrayNode([]);
    }

    constructor Data(kind: JsonType, data: Bytes)
      requires kind != JsonObjectBegin && kind != JsonArrayBegin
      ensures this.kind == kind && this.data == data && children == [] && keys == [] && view == DataNode(kind, data)
    {
      this.kind, this.data := kind, data;
      children, keys := [], [];
      view := DataNode(kind, data);
    }

    /** The view is what the node and its children's views make up. */
    ghost predicate Shows()
      reads this, children
    {
      match kind
      case JsonArrayBegin =>
        keys == [] && view.ArrayNode? && |view.items| == |children|
        && forall i :: 0 <= i < |children| ==> view.items[i] == children[i].view
      case JsonObjectBegin =>
        |keys| == |children| && view.ObjectNode? && |view.elems| == |children|
        && forall i :: 0 <= i < |children| ==> view.elems[i] == Elem(keys[i], children[i].view)
      case _ => view == DataNode(kind, data)
    }
  }

  /** Every node shows its view, and has its children among the nodes, none of them still open. */
  ghost predicate Closed(nodes: set<DomVal>, open: seq<DomVal>)
    reads nodes
  {
    forall n :: n in nodes ==>
      && (forall c :: c in n.children ==> c in nodes && c !in open)
      && n.Shows()
  }

  ghost function Frames(vals: seq<DomVal>, slots: seq<KeySlot>): seq<Frame>
    requires |vals| == |slots|
    reads vals
  {
    seq(|vals|, i requires 0 <= i < |vals| reads vals => Frame(vals[i].view, slots[i]))
  }

  class DomBuilder {
    /** The open structures, the innermost last, and the key slot of each. */
    var stack: seq<DomVal>
    var slots: seq<KeySlot>
    var root: DomVal?

    ghost var nodes: set<DomVal>

    ghost predicate Valid()
      reads this, nodes
    {
      && |slots| == |stack|
      && (forall i :: 0 <= i < |stack| ==> stack[i] in nodes)
      && (forall i, j :: 0 <= i < j < |stack| ==> stack[i] != stack[j])
      && (root != null ==> root in nodes && root !in stack)
      && Closed(nodes, stack)
    }

    ghost function State(): DomState
      requires |slots| == |stack|
      reads this, nodes, stack, root
    {
      DomState(Frames(stack, slots), if root == null then None else Some(root.view))
    }

    /** `json_parser_dom_init`. */
    constructor ()
      ensures Valid() && State() == EMPTY && nodes == {}
    {
      stack, slots, root, nodes := [], [], null, {};
    }

    /** A new node, not yet in any structure. */
    method Create(kind: JsonType, data: Bytes) returns (v: DomVal)
      requires Valid()
      modifies this`nodes
      ensures fresh(v) && Valid() && nodes == old(nodes) + {v} && State() == old(State())
      ensures v !in stack && forall n :: n in nodes ==> v !in n.children
      ensures v.view == match kind
                case JsonObjectBegin => ObjectNode([])
                case JsonArrayBegin => ArrayNode([])
                case _ => DataNode(kind, data)
    {
      if kind == JsonObjectBegin || kind == JsonArrayBegin {
        v := new DomVal.Structure(kind == JsonObjectBegin);
      } else {
        v := new DomVal.Data(kind, data);
      }
      nodes := nodes + {v};
    }

    /** A finished value goes to the structure on top, whose key is then freed. */
    method Append(v: DomVal)
      requires Valid() && stack != [] && Place(State(), v.view).Some?
      requires v in nodes && v !in stack && v != root
      modifies this`slots, nodes
      ensures Valid() && Some(State()) == old(Place(State(), v.view))
    {
      hide TreeAppend, DomVal.Shows;
      var n := |stack| - 1;
      var parent, slot := stack[n], slots[n];
      ghost var before := State();
      ghost var target := Place(before, v.view);
      assert before.stack[n] == Frame(parent.view, slot);
      GrowNode(parent, slot, v);
      if slot.HasKey? {
        slots := slots[n := FreedKey];
      }
      // nothing that has the grown structure as a child has changed, since there is none
      assert forall c :: c in nodes && c != parent ==> c.Shows();
      FramesUpdate(before.stack, stack, slots, n);
      assert target == Some(before.(stack := before.stack[n := Frame(parent.view, slots[n])]));
    }

    lemma FramesUpdate(before: seq<Frame>, vals: seq<DomVal>, slots: seq<KeySlot>, n: nat)
      requires |vals| == |slots| == |before| && n == |vals| - 1
      requires forall i :: 0 <= i < n ==> before[i] == Frame(vals[i].view, slots[i])
      ensures Frames(vals, slots) == before[n := Frame(vals[n].view, slots[n])]
    {
    }

    /** `tree_append`. */
    static method GrowNode(parent: DomVal, slot: KeySlot, v: DomVal)
      requires parent.Shows() && v != parent && parent !in parent.children
              && TreeAppend(parent.view, slot, v.view).Some?
      modifies parent
      ensures parent.Shows() && parent.children == old(parent.children) + [v]
      ensures Some(parent.view) == old(TreeAppend(parent.view, slot, v.view)) && !slot.FreedKey?
    {
      parent.children := parent.children + [v];
      if slot.HasKey? {
        parent.keys := parent.keys + [slot.key];
      }
      parent.view := TreeAppend(parent.view, slot, v.view).value;
    }

    /** `json_parser_dom_callback`, for events that a parser tells. */
    method Callback(kind: JsonType, data: Bytes)
      requires Valid() && DomStep(State(), Event(kind, data)).Some?
      modifies this, nodes
      ensures Valid() && Some(State()) == old(DomStep(State(), Event(kind, data)))
      ensures fresh(nodes - old(nodes))
    {
      hide Place, Closed;
      ghost var before := State();
      match kind
      case JsonArrayBegin | JsonObjectBegin =>
        var v := Create(kind, data);
        Push(v);
      case JsonArrayEnd | JsonObjectEnd =>
        var v := Pop();
        if |stack| > 0 {
          Append(v);
        } else {
          root := v;
        }
      case JsonKey =>
        slots := slots[|stack| - 1 := HasKey(data)];
        FramesUpdate(before.stack, stack, slots, |stack| - 1);
      case JsonString | JsonInt | JsonFloat | JsonNull | JsonTrue | JsonFalse =>
        var v := Create(kind, data);
        Append(v);
      case JsonNone =>
    }

    /** `dom_push`. */
    method Push(v: DomVal)
      requires Valid() && v in nodes && v !in stack && v != root && forall n :: n in nodes ==> v !in n.children
      modifies this`stack, this`slots
      ensures Valid() && State() == old(State()).(stack := old(State()).stack + [Frame(v.view, NoKey)])
    {
      stack := stack + [v];
      slots := slots + [NoKey];
    }

    /** `dom_pop`. */
    method Pop() returns (v: DomVal)
      requires Valid() && stack != []
      modifies this`stack, this`slots
      ensures Valid() && v in nodes && v !in stack && v != root && v.view == old(State()).stack[old(|stack|) - 1].node
      ensures |stack| == old(|stack|) - 1
      ensures State() == old(State()).(stack := old(State()).stack[..|stack|])
    {
      v := stack[|stack| - 1];
      stack := stack[..|stack| - 1];
      slots := slots[..|slots| - 1];
    }
  }

  lemma WalkParts(v: Node)
    ensures v.DataNode? ==> Walk(v) == [Event(v.kind, v.data)]
    ensures v.ArrayNode? ==> Walk(v) == [Event(JsonArrayBegin, [])] + WalkItems(v.items) + [Event(JsonArrayEnd, [])]
    ensures v.ObjectNode? ==> Walk(v) == [Event(JsonObjectBegin, [])] + WalkElems(v.elems) + [Event(JsonObjectEnd, [])]
    ensures WalkItems([]) == [] && WalkElems([]) == []
  {
  }

  lemma WalkItemsSnoc(items: seq<Node>, i: nat)
    requires i < |items|
    ensures WalkItems(items[..i + 1]) == WalkItems(items[..i]) + Walk(items[i])
  {
    hide Walk;
    assert items[..i + 1][..i] == items[..i];
  }

  lemma WalkElemsSnoc(elems: seq<Elem>, i: nat)
    requires i < |elems|
    ensures WalkElems(elems[..i + 1]) == WalkElems(elems[..i]) + [Event(JsonKey, elems[i].key)] + Walk(elems[i].value)
  {
    hide Walk;
    assert elems[..i + 1][..i] == elems[..i];
  }

  /** An in-order traversal of a built tree on the heap. */
  method WalkTree(v: DomVal, ghost nodes: set<DomVal>) returns (evs: seq<Event>)
    requires v in nodes && Closed(nodes, [])
    ensures evs == Walk(v.view)
    decreases v.view
  {
    hide Walk, WalkItems, WalkElems;
    WalkParts(v.view);
    assert v.Shows();
    if v.kind != JsonArrayBegin && v.kind != JsonObjectBegin {
      return [Event(v.kind, v.data)];
    }
    evs := [Event(v.kind, [])];
    assert evs == evs + [];
    var i := 0;
    while i < |v.children|
      invariant 0 <= i <= |v.children|
      invariant evs == [Event(v.kind, [])]
                + if v.kind == JsonArrayBegin then WalkItems(v.view.items[..i]) else WalkElems(v.view.elems[..i])
    {
      if v.kind == JsonObjectBegin {
        evs := evs + [Event(JsonKey, v.keys[i])];
        WalkElemsSnoc(v.view.elems, i);
      } else {
        WalkItemsSnoc(v.view.items, i);
      }
      var inner := WalkTree(v.children[i], nodes);
      evs := evs + inner;
      i := i + 1;
    }
    if v.kind == JsonArrayBegin {
      assert v.view.items[..i] == v.view.items;
      evs := evs + [Event(JsonArrayEnd, [])];
    } else {
      assert v.view.elems[..i] == v.view.elems;
      evs := evs + [Event(JsonObjectEnd, [])];
    }
  }

  /**
    The whole of it on the heap: from a document's events the nodes are built one
    callback at a time, and walking them gives the events back.
   */
  method BuildAndWalk(evs: seq<Event>, ghost t: Tree) returns (b: DomBuilder, walked: seq<Event>)
    requires IsContainer(t) && Depth(t) <= DOM_STACK_SIZE && evs == Events(t)
    ensures fresh(b) && b.Valid() && b.stack == [] && b.root != null && b.root.view == NodeOf(t)
    ensures walked == evs
  {
    hide DomRun, DomStep, Walk, Events, Depth, Closed;
    BuildThenWalk(t);
    b := new DomBuilder();
    StartRun();
    var i := 0;
    while i < |evs|
      invariant 0 <= i <= |evs| && fresh(b) && fresh(b.nodes) && b.Valid()
      invariant DomRun(EMPTY, evs[..i]) == Some(b.State())
    {
      PrefixRuns(EMPTY, evs, i + 1);
      RunStep(EMPTY, evs, i);
      b.Callback(evs[i].kind, evs[i].data);
      i := i + 1;
    }
    assert evs[..i] == evs;
    assert b.State() == DomState([], Some(NodeOf(t)));
    assert b.stack == [] by { assert |b.State().stack| == |b.stack|; }
    walked := WalkTree(b.root, b.nodes);
  }

  lemma StartRun()
    ensures DomRun(EMPTY, []) == Some(EMPTY)
  {
  }

  lemma RunStep(st: DomState, evs: seq<Event>, i: nat)
    requires i < |evs| && DomRun(st, evs[..i]).Some?
    ensures DomRun(st, evs[..i + 1]) == DomStep(DomRun(st, evs[..i]).value, evs[i])
  {
    hide DomStep;
    assert evs[..i + 1][..i] == evs[..i];
  }
}
