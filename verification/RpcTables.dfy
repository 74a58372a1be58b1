/**
  The tables of a handle as the hash tables they are: the table of the parameters,
  whose values are scalars or arrays of further tables, with the pointers
  `pointed_htab` and `last_array` into them.
 */
module RpcTables {
  import opened JsonTables
  import opened Grammar
  import opened RpcReader
  import Hashtab
  import Powers

  /** A hash table with all the objects that its operations may change. */
  class Table<S> {
    const htab: Hashtab.Htab<S>
    ghost var view: map<Bytes, S>
    ghost var Repr: set<object>

    ghost predicate Valid()
      reads this, Repr
      ensures Valid() ==> this in Repr
    {
      && this in Repr && htab in Repr && htab.table in Repr && htab.nodes.Values <= Repr
      && htab.Valid() && view == htab.Contents()
    }

    constructor (logsize: nat)
      ensures Valid() && fresh(Repr) && view == map[]
    {
      hide Hashtab.Htab.Valid, Hashtab.Bindings;
      htab := new Hashtab.Htab<S>(logsize);
      new;
      view := map[];
      assert htab.nodes.Keys == {};
      Repr := {this, htab, htab.table};
    }

    /** `hadd`. */
    method Add(key: Bytes, stuff: S) returns (added: bool)
      requires Valid()
      modifies Repr
      ensures Valid() && fresh(Repr - old(Repr))
      ensures added <==> key !in old(view)
      ensures view == if added then old(view)[key := stuff] else old(view)
    {
      hide Hashtab.Htab.Valid, Hashtab.Bindings, Hashtab.Htab.Items, Hashtab.Htab.Pos, Powers.Pow2;
      added := htab.HAdd(key, stuff);
      view := htab.Contents();
      Repr := Repr + {htab.table} + htab.nodes.Values;
      assert htab.Valid();
      assert this in Repr && htab in Repr && htab.table in Repr && htab.nodes.Values <= Repr;
    }

    /** `hfind` and `hstuff`. */
    method Find(key: Bytes) returns (stuff: Option<S>)
      requires Valid()
      modifies Repr
      ensures Valid() && Repr == old(Repr) && view == old(view)
      ensures stuff == if key in view then Some(view[key]) else None
    {
      hide Hashtab.Htab.Valid, Hashtab.Bindings, Hashtab.Htab.Items, Hashtab.Htab.Pos;
      var found := htab.HFind(key);
      stuff := if found then Some(htab.ipos.stuff) else None;
    }
  }

  /** A parameter: a scalar, or an array of tables that grows in place. */
  class Param {
    const scalar: Option<JsonVal>
    var tables: seq<Table<JsonVal>>
    ghost var view: JsonVal
    ghost var Repr: set<object>

    /** No operation on one of the tables reaches another. */
    ghost predicate Valid()
      reads this, Repr
      ensures Valid() ==> this in Repr
    {
      && this in Repr
      && (forall i :: 0 <= i < |tables| ==>
            && tables[i] in Repr && tables[i].Repr <= Repr && this !in tables[i].Repr && tables[i].Valid())
      && (forall i, j :: 0 <= i < j < |tables| ==> tables[i].Repr !! tables[j].Repr)
      && match scalar
         case Some(v) => v.Scalar? && view == v && tables == []
         case None =>
           view.HtabArray? && |view.tables| == |tables|
           && forall i :: 0 <= i < |tables| ==> view.tables[i] == tables[i].view
    }

    constructor (scalar: Option<JsonVal>)
      requires scalar.Some? ==> scalar.value.Scalar?
      ensures Valid() && Repr == {this} && this.scalar == scalar && tables == []
      ensures view == if scalar.Some? then scalar.value else HtabArray([])
    {
      this.scalar, tables := scalar, [];
      view := if scalar.Some? then scalar.value else HtabArray([]);
      Repr := {this};
    }

    /** One more table, empty. */
    method Grow() returns (t: Table<JsonVal>)
      requires Valid() && view.HtabArray?
      modifies this
      ensures Valid() && fresh(Repr - old(Repr))
      ensures tables == old(tables) + [t] && view == HtabArray(old(view).tables + [map[]])
      ensures |view.tables| == |tables|
    {
      hide Table.Valid;
      t := new Table<JsonVal>(2);
      tables, view, Repr := tables + [t], HtabArray(view.tables + [map[]]), Repr + t.Repr;
    }
  }

  function ScalarOf(v: JsonVal): Option<JsonVal> { if v.Scalar? then Some(v) else None }

  function CountOf(v: JsonVal): Option<nat> { if v.HtabArray? then Some(|v.tables|) else None }

  /** `key` is bound in the table at `i`. */
  predicate IsBound(v: JsonVal, i: nat, key: Bytes) { v.HtabArray? && i < |v.tables| && key in v.tables[i] }

  /** The array with one more binding in the table at `i`. */
  function Bound(v: JsonVal, i: nat, key: Bytes, stuff: JsonVal): JsonVal {
    if v.HtabArray? && i < |v.tables| then HtabArray(v.tables[i := v.tables[i][key := stuff]]) else v
  }

  /** `hadd` on one of the tables of an array. */
  method AddTo(t: Table<JsonVal>, ghost p: Param, ghost i: nat, key: Bytes, v: JsonVal) returns (added: bool)
    requires p.Valid() && i < |p.tables| && p.tables[i] == t
    modifies p.Repr
    ensures p.Valid() && fresh(p.Repr - old(p.Repr)) && p.tables == old(p.tables)
    ensures old(p.view).HtabArray? && i < |old(p.view).tables|
    ensures added <==> !IsBound(old(p.view), i, key)
    ensures p.view == if added then Bound(old(p.view), i, key, v) else old(p.view)
  {
    hide Table.Valid;
    added := t.Add(key, v);
    p.Repr := p.Repr + t.Repr;
    if added {
      p.view := HtabArray(p.view.tables[i := t.view]);
    }
  }

  /** `hfind` and `hstuff` on one of the tables of an array. */
  method ReadFrom(t: Table<JsonVal>, ghost p: Param, ghost i: nat, key: Bytes) returns (v: Option<JsonVal>)
    requires p.Valid() && i < |p.tables| && p.tables[i] == t
    modifies p.Repr
    ensures p.Valid() && p.Repr == old(p.Repr) && p.tables == old(p.tables) && p.view == old(p.view)
    ensures p.view.HtabArray? && i < |p.view.tables|
    ensures var ts := p.view.tables; v == if key in ts[i] then Some(ts[i][key]) else None
  {
    hide Table.Valid;
    v := t.Find(key);
  }

  class ParamTables {
    var params: Table<Param>
    var pointed: Table?<JsonVal>
    var lastArray: Param?

    /** What the tables hold, and where in it the two pointers point. */
    ghost var view: map<Bytes, JsonVal>
    ghost var pointedAt: Option<(Bytes, nat)>
    ghost var lastName: Option<Bytes>
    ghost var Repr: set<object>

    /** No operation on the table of parameters, or on a parameter, reaches another. */
    ghost predicate Separate()
      reads this, Repr
    {
      && this in Repr && params in Repr && params in params.Repr && params.Repr <= Repr && this !in params.Repr
      && (forall k :: k in params.view ==>
            var p := params.view[k];
            p in Repr && p in p.Repr && p.Repr <= Repr && this !in p.Repr && p.Repr !! params.Repr)
      && (forall j, k :: j in params.view && k in params.view && j != k ==>
            params.view[j].Repr !! params.view[k].Repr)
    }

    ghost predicate AllValid()
      requires Separate()
      reads this, Repr
    {
      && params.Valid() && view.Keys == params.view.Keys
      && forall k :: k in view ==> params.view[k].Valid() && params.view[k].view == view[k]
    }

    /** The pointers point where their ghosts say. */
    ghost predicate Points()
      requires Separate()
      reads this, Repr
    {
      && (pointed == null <==> pointedAt == None)
      && (pointed != null ==>
            var (k, i) := pointedAt.value;
            k in params.view && i < |params.view[k].tables| && params.view[k].tables[i] == pointed)
      && (lastArray == null <==> lastName == None)
      && (lastArray != null ==> lastName.value in params.view && params.view[lastName.value] == lastArray
                                && lastArray.view.HtabArray?)
    }

    ghost predicate Valid()
      reads this, Repr
      ensures Valid() ==> this in Repr && (lastArray == null <==> lastName == None)
    {
      Separate() && AllValid() && Points()
    }

    /** `json_rpc_init`: an empty table of parameters. */
    constructor ()
      ensures Valid() && fresh(Repr)
      ensures view == map[] && pointedAt == None && lastName == None
    {
      hide Table.Valid, Param.Valid;
      params := new Table<Param>(3);
      pointed, lastArray := null, null;
      view, pointedAt, lastName := map[], None, None;
      new;
      Repr := {this} + params.Repr;
    }

    /** `hadd` on the table of parameters, which the parameters take no notice of. */
    method Insert(key: Bytes, p: Param) returns (added: bool)
      requires Separate() && params.Valid() && p in p.Repr && p.Repr !! Repr
      modifies params.Repr, this`Repr
      ensures Separate() && params.Valid() && fresh(Repr - old(Repr) - p.Repr)
      ensures added <==> key !in old(params.view)
      ensures params.view == if added then old(params.view)[key := p] else old(params.view)
    {
      hide Table.Valid;
      added := params.Add(key, p);
      Repr := Repr + params.Repr;
      if added {
        Repr := Repr + p.Repr;
      }
    }

    /** The same, with the view. */
    method InsertShown(key: Bytes, p: Param) returns (added: bool)
      requires Separate() && AllValid() && p.Valid() && p.Repr !! Repr
      modifies params.Repr, this`Repr, this`view
      ensures Separate() && AllValid() && fresh(Repr - old(Repr) - p.Repr)
      ensures added <==> key !in old(params.view)
      ensures view == if added then old(view)[key := p.view] else old(view)
      ensures params.view == if added then old(params.view)[key := p] else old(params.view)
    {
      hide Table.Valid, Param.Valid;
      added := Insert(key, p);
      if added {
        view := view[key := p.view];
      }
    }

    /** A new parameter. */
    method Enter(key: Bytes, p: Param) returns (added: bool)
      requires Valid() && p.Valid() && p.Repr !! Repr
      modifies params.Repr, this`Repr, this`view
      ensures Valid() && fresh(Repr - old(Repr) - p.Repr)
      ensures added <==> key !in old(view)
      ensures view == if added then old(view)[key := p.view] else old(view)
      ensures added ==> params.view[key] == p
    {
      hide Table.Valid, Param.Valid;
      added := InsertShown(key, p);
      assert Points() by { hide AllValid; }
    }

    /** `hadd` on a table in the parameter `q`. */
    method InsertInto(t: Table<JsonVal>, ghost k: Bytes, ghost i: nat, key: Bytes, v: JsonVal) returns (added: bool)
      requires Separate() && k in params.view
      requires var q := params.view[k]; q.Valid() && i < |q.tables| && q.tables[i] == t
      modifies params.view[k].Repr, this`Repr
      ensures Separate() && fresh(Repr - old(Repr)) && params.view == old(params.view)
      ensures var q := params.view[k];
              && q.Valid() && q.tables == old(q.tables) && old(q.view).HtabArray? && i < |old(q.view).tables|
              && (added <==> !IsBound(old(q.view), i, key))
              && q.view == if added then Bound(old(q.view), i, key, v) else old(q.view)
    {
      hide Table.Valid, Param.Valid, IsBound, Bound;
      ghost var q := params.view[k];
      added := AddTo(t, q, i, key, v);
      Repr := Repr + q.Repr;
    }

    /** The same, with the view. */
    method InsertIntoShown(t: Table<JsonVal>, ghost k: Bytes, ghost i: nat, key: Bytes, v: JsonVal)
      returns (added: bool)
      requires Separate() && AllValid() && k in params.view
      requires var q := params.view[k]; i < |q.tables| && q.tables[i] == t
      modifies params.view[k].Repr, this`Repr, this`view
      ensures Separate() && AllValid() && fresh(Repr - old(Repr)) && params.view == old(params.view)
      ensures params.view[k].tables == old(params.view[k].tables)
      ensures k in old(view) && old(view)[k].HtabArray? && i < |old(view)[k].tables|
      ensures added <==> !IsBound(old(view)[k], i, key)
      ensures view == if added then old(view)[k := Bound(old(view)[k], i, key, v)] else old(view)
    {
      hide Table.Valid, Param.Valid, IsBound, Bound;
      added := InsertInto(t, k, i, key, v);
      if added {
        view := view[k := params.view[k].view];
      }
      forall j | j in view
        ensures params.view[j].Valid() && params.view[j].view == view[j]
      {
        if j != k { assert old(params.view[j].Repr !! params.view[k].Repr); }
      }
    }

    /** `json_rpc_add_val`: a scalar into the table pointed to, or the table of parameters. */
    method AddScalar(key: Bytes, v: JsonVal) returns (added: bool)
      requires Valid() && v.Scalar?
      modifies Repr
      ensures Valid() && fresh(Repr - old(Repr))
      ensures pointedAt == old(pointedAt) && lastName == old(lastName)
      ensures added <==> key !in TableAt(old(view), pointedAt)
      ensures view == if added then PutAt(old(view), pointedAt, TableAt(old(view), pointedAt)[key := v]) else old(view)
    {
      hide Table.Valid, Param.Valid;
      if pointed == null {
        var p := new Param(Some(v));
        added := Enter(key, p);
      } else {
        added := InsertIntoShown(pointed, pointedAt.value.0, pointedAt.value.1, key, v);
        assert Points() by { hide AllValid; }
      }
    }

    /** `json_rpc_add_array`: an empty array, which `last_array` then points to. */
    method AddArray(key: Bytes) returns (added: bool)
      requires Valid()
      modifies Repr
      ensures Valid() && fresh(Repr - old(Repr))
      ensures added <==> key !in old(view)
      ensures view == if added then old(view)[key := HtabArray([])] else old(view)
      ensures pointedAt == old(pointedAt) && lastName == if added then Some(key) else old(lastName)
    {
      hide Table.Valid, Param.Valid;
      var p := new Param(None);
      added := Enter(key, p);
      if added {
        SetLast(p, key);
      }
    }

    method SetLast(p: Param, ghost key: Bytes)
      requires Valid() && key in params.view && params.view[key] == p && p.view.HtabArray?
      modifies this`lastArray, this`lastName
      ensures Valid() && lastName == Some(key)
    {
      hide Table.Valid, Param.Valid;
      lastArray, lastName := p, Some(key);
    }

    /** One more table in the array `p`. */
    method Grow(p: Param, ghost k: Bytes) returns (t: Table<JsonVal>)
      requires Separate() && k in params.view && params.view[k] == p && p.Valid() && p.view.HtabArray?
      modifies p, this`Repr
      ensures Separate() && fresh(Repr - old(Repr)) && params.view == old(params.view)
      ensures p.Valid() && p.view == HtabArray(old(p.view).tables + [map[]])
      ensures p.tables == old(p.tables) + [t] && |p.view.tables| == |p.tables|
    {
      hide Table.Valid, Param.Valid;
      t := p.Grow();
      Repr := Repr + p.Repr;
    }

    /** The same, with the view. */
    method GrowShown(p: Param, ghost k: Bytes) returns (t: Table<JsonVal>)
      requires Separate() && AllValid() && k in params.view && params.view[k] == p && p.view.HtabArray?
      modifies p, this`Repr, this`view
      ensures Separate() && AllValid() && fresh(Repr - old(Repr)) && params.view == old(params.view)
      ensures old(view)[k].HtabArray? && view == old(view)[k := HtabArray(old(view)[k].tables + [map[]])]
      ensures p.tables == old(p.tables) + [t] && p.view.HtabArray? && |p.view.tables| == |p.tables|
    {
      hide Table.Valid, Param.Valid;
      t := Grow(p, k);
      view := view[k := p.view];
      forall j | j in view
        ensures params.view[j].Valid() && params.view[j].view == view[j]
      {
        if j != k { assert old(params.view[j].Repr !! params.view[k].Repr); }
      }
    }

    /** `json_rpc_add_object_to_array`: an empty table at the end of the array, which is then pointed to. */
    method AddObject()
      requires Valid() && lastArray != null
      modifies Repr
      ensures Valid() && fresh(Repr - old(Repr)) && lastName == old(lastName)
      ensures lastName.Some? && lastName.value in old(view) && old(view)[lastName.value].HtabArray?
      ensures var key := lastName.value; var ts := old(view)[key].tables;
              view == old(view)[key := HtabArray(ts + [map[]])] && pointedAt == Some((key, |ts|))
    {
      hide Table.Valid, Param.Valid;
      ghost var n := |lastArray.tables|;
      pointed := GrowShown(lastArray, lastName.value);
      pointedAt := Some((lastName.value, n));
    }

    /** The end of an object of the array, and of the array. */
    method Unpoint()
      requires Valid()
      modifies this
      ensures Valid() && Repr == old(Repr) && view == old(view) && lastName == old(lastName) && pointedAt == None
    {
      hide Table.Valid, Param.Valid;
      pointed, pointedAt := null, None;
    }

    method EndArray()
      requires Valid()
      modifies this
      ensures Valid() && Repr == old(Repr) && view == old(view) && lastName == None && pointedAt == old(pointedAt)
    {
      hide Table.Valid, Param.Valid;
      lastArray, lastName := null, None;
    }

    /** `hfind` on the table of parameters. */
    method FindParam(key: Bytes) returns (p: Option<Param>)
      requires Valid()
      modifies params.Repr
      ensures Valid() && params.view == old(params.view)
      ensures p == if key in params.view then Some(params.view[key]) else None
    {
      hide Table.Valid, Param.Valid;
      p := params.Find(key);
      assert Separate() by { hide AllValid, Points; }
      assert AllValid() by { hide Points; }
      assert Points() by { hide AllValid; }
    }

    /** `hfind` on a table in a parameter. */
    method FindIn(t: Table<JsonVal>, ghost k: Bytes, ghost i: nat, key: Bytes) returns (v: Option<JsonVal>)
      requires Separate() && AllValid() && k in view
      requires var q := params.view[k]; i < |q.tables| && q.tables[i] == t
      modifies params.view[k].Repr
      ensures Separate() && AllValid() && params.view == old(params.view)
      ensures params.view[k].tables == old(params.view[k].tables)
      ensures view[k].HtabArray? && i < |view[k].tables|
      ensures var ts := view[k].tables; v == if key in ts[i] then Some(ts[i][key]) else None
    {
      hide Table.Valid, Param.Valid;
      v := ReadFrom(t, params.view[k], i, key);
      assert Separate() by { hide AllValid; }
      forall j | j in view
        ensures params.view[j].Valid() && params.view[j].view == view[j]
      {
        if j != k { assert old(params.view[j].Repr !! params.view[k].Repr); }
      }
    }

    /** `hfind` on the table pointed to, or the table of parameters; an array is found without a scalar. */
    method Get(key: Bytes) returns (found: bool, v: Option<JsonVal>)
      requires Valid()
      modifies Repr
      ensures Valid() && Repr == old(Repr)
      ensures view == old(view) && pointedAt == old(pointedAt) && lastName == old(lastName)
      ensures found <==> key in TableAt(view, pointedAt)
      ensures found ==> v == ScalarOf(TableAt(view, pointedAt)[key])
    {
      hide Table.Valid, Param.Valid;
      if pointed == null {
        var p := FindParam(key);
        found := p.Some?;
        if found {
          ScalarIs(key);
          v := p.value.scalar;
        } else {
          v := None;
        }
      } else {
        var stuff := FindIn(pointed, pointedAt.value.0, pointedAt.value.1, key);
        found, v := stuff.Some?, if stuff.Some? then ScalarOf(stuff.value) else None;
        assert Points() by { hide AllValid; }
      }
    }

    lemma ScalarIs(key: Bytes)
      requires Valid() && key in view
      ensures key in params.view && params.view[key] in Repr && params.view[key].scalar == ScalarOf(view[key])
    {
      hide Table.Valid;
    }

    /** How many tables a parameter has, if it is an array. */
    method Count(name: Bytes) returns (found: bool, n: Option<nat>)
      requires Valid()
      modifies Repr
      ensures Valid() && Repr == old(Repr)
      ensures view == old(view) && pointedAt == old(pointedAt) && lastName == old(lastName)
      ensures found <==> name in view
      ensures found ==> n == CountOf(view[name])
    {
      hide Table.Valid, Param.Valid;
      var p := FindParam(name);
      found, n := p.Some?, None;
      if found {
        CountIs(name);
        n := if p.value.scalar.Some? then None else Some(|p.value.tables|);
      }
    }

    lemma CountIs(key: Bytes)
      requires Valid() && key in view
      ensures key in params.view && params.view[key] in Repr
      ensures var p := params.view[key]; CountOf(view[key]) == if p.scalar.Some? then None else Some(|p.tables|)
    {
      hide Table.Valid;
    }

    /** Points to a table of an array. */
    method PointTo(name: Bytes, i: nat)
      requires Valid() && name in view && view[name].HtabArray? && i < |view[name].tables|
      modifies Repr
      ensures Valid() && Repr == old(Repr)
      ensures view == old(view) && pointedAt == Some((name, i)) && lastName == old(lastName)
    {
      hide Table.Valid, Param.Valid;
      CountIs(name);
      var p := FindParam(name);
      CountIs(name);
      pointed, pointedAt := p.value.tables[i], Some((name, i));
    }
  }
}
