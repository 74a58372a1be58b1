/**
  Bob Jenkins's hash table: chained buckets relinked in place, doubling, and a
  position that `hfind`, `hadd`, `hdel`, `hfirst` and `hnext` move.

  `chains` is the ghost shadow of the buckets and `nodes` of the binding of each
  key; `Items` lists the nodes in the order in which the position runs through them.
 */
module Hashtab {
  import opened JsonTables
  import opened Powers
  import Lookupa

  class HItem<S> {
    const key: Bytes
    const stuff: S
    const hval: nat
    var next: HItem?<S>

    constructor (key: Bytes, stuff: S, hval: nat, next: HItem?<S>)
      ensures this.key == key && this.stuff == stuff && this.hval == hval && this.next == next
    {
      this.key, this.stuff, this.hval, this.next := key, stuff, hval, next;
    }
  }

  // ---------------------------------------------------------------- chains

  /** The element at `j`, or the null that ends the list. */
  function At<T>(c: seq<HItem<T>>, j: nat): HItem?<T> { if j < |c| then c[j] else null }

  /** `head` begins the list of nodes `c`. */
  ghost predicate Linked<T>(head: HItem?<T>, c: seq<HItem<T>>)
    reads c
  {
    head == At(c, 0) && forall j {:trigger c[j].next} :: 0 <= j < |c| ==> c[j].next == At(c, j + 1)
  }

  lemma NextOf<T>(head: HItem?<T>, c: seq<HItem<T>>, j: nat)
    requires Linked(head, c) && j < |c|
    ensures c[j].next == At(c, j + 1)
  {
  }

  lemma AllEmpty<T>(tab: array<HItem?<T>>, cs: seq<seq<HItem<T>>>)
    requires cs == seq(tab.Length, _ => []) && forall b :: 0 <= b < tab.Length ==> tab[b] == null
    ensures forall b :: 0 <= b < |cs| ==> Linked(tab[b], cs[b])
  {
  }

  lemma NextsOf<T>(head: HItem?<T>, c: seq<HItem<T>>)
    requires Linked(head, c)
    ensures head == At(c, 0)
    ensures forall k {:trigger c[k].next} :: 0 <= k < |c| ==> c[k].next == At(c, k + 1)
  {
  }

  lemma LinkOn<T>(head: HItem?<T>, c: seq<HItem<T>>, h: HItem<T>)
    requires Linked(head, c) && h.next == head
    ensures Linked(h, [h] + c)
  {
  }

  ghost predicate NoDup<T>(c: seq<HItem<T>>) {
    forall i, j :: 0 <= i < j < |c| ==> c[i] != c[j]
  }

  ghost function Flatten<T>(cs: seq<seq<T>>): seq<T> {
    if cs == [] then [] else Flatten(cs[..|cs| - 1]) + cs[|cs| - 1]
  }

  /** Where bucket `b` begins in the flattened buckets. */
  ghost function Offset<T>(cs: seq<seq<T>>, b: nat): nat
    requires b <= |cs|
  {
    |Flatten(cs[..b])|
  }

  lemma {:induction false} FlattenAppend<T>(a: seq<seq<T>>, b: seq<seq<T>>)
    ensures Flatten(a + b) == Flatten(a) + Flatten(b)
    decreases |b|
  {
    if b == [] {
      assert a + b == a;
    } else {
      var n := |b| - 1;
      assert (a + b)[..|a + b| - 1] == a + b[..n];
      FlattenAppend(a, b[..n]);
    }
  }

  lemma FlattenSplit<T>(cs: seq<seq<T>>, b: nat)
    requires b < |cs|
    ensures Flatten(cs) == Flatten(cs[..b]) + cs[b] + Flatten(cs[b + 1..])
    ensures Offset(cs, b + 1) == Offset(cs, b) + |cs[b]|
  {
    assert cs == cs[..b] + ([cs[b]] + cs[b + 1..]);
    FlattenAppend(cs[..b], [cs[b]] + cs[b + 1..]);
    FlattenAppend([cs[b]], cs[b + 1..]);
    assert [cs[b]][..0] == [];
    assert Flatten([cs[b]]) == Flatten([]) + cs[b];
    assert cs[..b + 1][..b] == cs[..b];
  }

  lemma FlattenUpdate<T>(cs: seq<seq<T>>, b: nat, c: seq<T>)
    requires b < |cs|
    ensures Flatten(cs[b := c]) == Flatten(cs[..b]) + c + Flatten(cs[b + 1..])
    ensures |Flatten(cs[b := c])| == |Flatten(cs)| - |cs[b]| + |c|
  {
    FlattenSplit(cs, b);
    var ds := cs[b := c];
    FlattenSplit(ds, b);
    assert ds[..b] == cs[..b] && ds[b + 1..] == cs[b + 1..];
  }

  lemma FlattenAt<T>(cs: seq<seq<T>>, b: nat, j: nat)
    requires b < |cs| && j < |cs[b]|
    ensures Offset(cs, b) + j < |Flatten(cs)| && Flatten(cs)[Offset(cs, b) + j] == cs[b][j]
  {
    FlattenSplit(cs, b);
  }

  lemma OffsetAll<T>(cs: seq<seq<T>>)
    ensures Offset(cs, |cs|) == |Flatten(cs)| && Offset(cs, 0) == 0
  {
    assert cs[..|cs|] == cs;
  }

  lemma {:induction false} EmptyOffset<T>(cs: seq<seq<T>>, lo: nat, hi: nat)
    requires lo <= hi <= |cs| && forall b :: lo <= b < hi ==> cs[b] == []
    ensures Offset(cs, lo) == Offset(cs, hi)
    decreases hi - lo
  {
    if lo < hi {
      EmptyOffset(cs, lo, hi - 1);
      FlattenSplit(cs, hi - 1);
    }
  }

  lemma {:induction false} FlattenFinds<T>(cs: seq<seq<T>>, k: nat) returns (b: nat, j: nat)
    requires k < |Flatten(cs)|
    ensures b < |cs| && j < |cs[b]| && k == Offset(cs, b) + j && Flatten(cs)[k] == cs[b][j]
    decreases |cs|
  {
    var n := |cs| - 1;
    if k < |Flatten(cs[..n])| {
      b, j := FlattenFinds(cs[..n], k);
      assert cs[..n][..b] == cs[..b];
    } else {
      b, j := n, k - |Flatten(cs[..n])|;
    }
  }

  // ---------------------------------------------------------------- what the buckets hold

  /** The node `h` is where it belongs: bound to its key, in the bucket of its hash value. */
  ghost predicate Placed<T>(size: nat, nodes: map<Bytes, HItem<T>>, b: nat, h: HItem<T>)
    requires size > 0
  {
    h.key in nodes && nodes[h.key] == h && h.hval == Lookupa.Hash(h.key) && h.hval % size == b
  }

  /** The buckets hold the nodes of `nodes`, each once and where it belongs. */
  ghost predicate InPlace<T>(chains: seq<seq<HItem<T>>>, nodes: map<Bytes, HItem<T>>) {
    && |chains| > 0
    && (forall b, j :: 0 <= b < |chains| && 0 <= j < |chains[b]| ==> Placed(|chains|, nodes, b, chains[b][j]))
    && (forall b :: 0 <= b < |chains| ==> NoDup(chains[b]))
    && (forall k :: k in nodes ==> nodes[k].key == k && nodes[k] in chains[Lookupa.Hash(k) % |chains|])
    && |Flatten(chains)| == |nodes|
  }

  lemma AddInPlace<T>(chains: seq<seq<HItem<T>>>, nodes: map<Bytes, HItem<T>>, h: HItem<T>, b: nat)
    requires InPlace(chains, nodes) && h.key !in nodes
    requires h.hval == Lookupa.Hash(h.key) && b == h.hval % |chains|
    ensures InPlace(chains[b := [h] + chains[b]], nodes[h.key := h])
  {
    hide Flatten, Lookupa.Hash;
    FlattenUpdate(chains, b, [h] + chains[b]);
    var cs, ns := chains[b := [h] + chains[b]], nodes[h.key := h];
    forall b', j | 0 <= b' < |cs| && 0 <= j < |cs[b']|
      ensures Placed(|cs|, ns, b', cs[b'][j])
    {
      if b' != b { assert Placed(|chains|, nodes, b', chains[b'][j]); }
      else if j > 0 { assert Placed(|chains|, nodes, b, chains[b][j - 1]); }
    }
    forall b' | 0 <= b' < |cs| ensures NoDup(cs[b']) { assert NoDup(chains[b']); }
    forall k | k in ns ensures ns[k].key == k && ns[k] in cs[Lookupa.Hash(k) % |cs|] {
      if k == h.key { assert cs[b][0] == h; } else { assert nodes[k].key == k; MemberAfter(chains[b], h, nodes[k]); }
    }
  }

  lemma MemberAfter<T>(c: seq<T>, h: T, x: T)
    ensures x in c ==> x in [h] + c
  {
  }

  ghost function Without<T>(c: seq<T>, i: nat): seq<T>
    requires i < |c|
  {
    c[..i] + c[i + 1..]
  }

  lemma DelInPlace<T>(chains: seq<seq<HItem<T>>>, nodes: map<Bytes, HItem<T>>, b: nat, i: nat)
    requires InPlace(chains, nodes) && b < |chains| && i < |chains[b]|
    ensures var h := chains[b][i];
            h.key in nodes && InPlace(chains[b := Without(chains[b], i)], nodes - {h.key})
  {
    hide Lookupa.Hash, Flatten;
    var c := chains[b];
    var h := c[i];
    var cs, ns := chains[b := Without(c, i)], nodes - {h.key};
    assert Placed(|chains|, nodes, b, h);
    FlattenUpdate(chains, b, Without(c, i));
    forall b', j | 0 <= b' < |cs| && 0 <= j < |cs[b']|
      ensures Placed(|cs|, ns, b', cs[b'][j])
    {
      var j' := if b' == b && j >= i then j + 1 else j;
      assert cs[b'][j] == chains[b'][j'] && Placed(|chains|, nodes, b', chains[b'][j']);
      assert b' == b ==> NoDup(c);
    }
    forall b' | 0 <= b' < |cs| ensures NoDup(cs[b']) { assert NoDup(chains[b']); }
    forall k | k in ns ensures ns[k].key == k && ns[k] in cs[Lookupa.Hash(k) % |cs|] {
      assert nodes[k].key == k && nodes[k] != h;
      if Lookupa.Hash(k) % |cs| == b { MemberWithout(c, i, nodes[k]); }
    }
  }

  /** The element that comes after the `i`th, the first one after the last. */
  ghost function After<T>(c: seq<T>, i: nat): T
    requires i < |c|
  {
    if i + 1 < |c| then c[i + 1] else c[0]
  }

  lemma AfterIs<T>(c: seq<T>, i: nat)
    requires i < |c| && Without(c, i) != []
    ensures var d := Without(c, i); After(c, i) == d[if i < |d| then i else 0]
  {
  }

  lemma MemberWithout<T>(c: seq<T>, i: nat, x: T)
    requires i < |c| && x in c && x != c[i]
    ensures x in Without(c, i)
  {
    var j :| 0 <= j < |c| && c[j] == x;
    assert Without(c, i)[if j < i then j else j - 1] == x;
  }

  lemma RemoveFlat<T>(cs: seq<seq<T>>, b: nat, i: nat)
    requires b < |cs| && i < |cs[b]|
    ensures Offset(cs, b) + i < |Flatten(cs)|
    ensures Flatten(cs[b := Without(cs[b], i)]) == Without(Flatten(cs), Offset(cs, b) + i)
  {
    FlattenUpdate(cs, b, Without(cs[b], i));
    FlattenSplit(cs, b);
    hide Flatten;
    WithoutMiddle(Flatten(cs[..b]), cs[b], Flatten(cs[b + 1..]), i);
  }

  lemma WithoutMiddle<T>(left: seq<T>, c: seq<T>, right: seq<T>, i: nat)
    requires i < |c|
    ensures Without(left + c + right, |left| + i) == left + Without(c, i) + right
  {
  }

  /** Deleting from a bucket leaves its beginning where it was. */
  lemma OffsetsDel<T>(cs: seq<seq<T>>, b: nat, i: nat)
    requires b < |cs| && i < |cs[b]|
    ensures var ds := cs[b := Without(cs[b], i)];
            && Offset(ds, b) == Offset(cs, b) && Offset(ds, b + 1) == Offset(cs, b) + |cs[b]| - 1
            && |ds[b]| == |cs[b]| - 1 && (i < |ds[b]| ==> ds[b][i] == cs[b][i + 1])
  {
    var ds := cs[b := Without(cs[b], i)];
    assert ds[..b] == cs[..b];
    FlattenSplit(ds, b);
  }

  /** `items` lists every binding of `nodes` once. */
  ghost predicate ListsOnce<T>(items: seq<HItem<T>>, nodes: map<Bytes, HItem<T>>) {
    && |items| == |nodes|
    && (forall i :: 0 <= i < |items| ==> items[i].key in nodes && nodes[items[i].key] == items[i])
    && (forall i, j :: 0 <= i < j < |items| ==> items[i].key != items[j].key)
    && (forall k :: k in nodes ==> nodes[k] in items && nodes[k].key == k)
  }

  lemma ItemsOnce<T>(chains: seq<seq<HItem<T>>>, nodes: map<Bytes, HItem<T>>)
    requires InPlace(chains, nodes)
    ensures ListsOnce(Flatten(chains), nodes)
  {
    hide Lookupa.Hash, Flatten;
    var items := Flatten(chains);
    forall i | 0 <= i < |items| ensures items[i].key in nodes && nodes[items[i].key] == items[i] {
      var b, j := FlattenFinds(chains, i);
      assert Placed(|chains|, nodes, b, chains[b][j]);
    }
    forall i, i' | 0 <= i < i' < |items| ensures items[i].key != items[i'].key {
      var b, j := FlattenFinds(chains, i);
      var b', j' := FlattenFinds(chains, i');
      assert Placed(|chains|, nodes, b, chains[b][j]) && Placed(|chains|, nodes, b', chains[b'][j']);
      assert NoDup(chains[b]);
    }
    forall k | k in nodes ensures nodes[k] in items {
      var b := Lookupa.Hash(k) % |chains|;
      var j :| 0 <= j < |chains[b]| && chains[b][j] == nodes[k];
      FlattenAt(chains, b, j);
    }
  }

  // ---------------------------------------------------------------- growing

  /**
    Half way through growing: of the old buckets `was`, those after `i` and the
    first `j` nodes of bucket `i` have moved into the new buckets `cs`.
   */
  ghost predicate Moving<T>(was: seq<seq<HItem<T>>>, cs: seq<seq<HItem<T>>>, moved: set<HItem<T>>, i: nat, j: nat)
    requires |cs| > 0
  {
    && i < |was| && j <= |was[i]|
    && (forall b, k :: 0 <= b < |cs| && 0 <= k < |cs[b]| ==> cs[b][k] in moved && cs[b][k].hval % |cs| == b)
    && (forall b :: 0 <= b < |cs| ==> NoDup(cs[b]))
    && (forall h :: h in moved ==> h in cs[h.hval % |cs|])
    && (forall b, k :: 0 <= b < |was| && 0 <= k < |was[b]| ==>
          (was[b][k] in moved <==> b > i || (b == i && k < j)))
    && |Flatten(cs)| + Offset(was, i + 1) == |Flatten(was)| + j
  }

  lemma MoveOne<T>(was: seq<seq<HItem<T>>>, nodes: map<Bytes, HItem<T>>,
                   cs: seq<seq<HItem<T>>>, moved: set<HItem<T>>, i: nat, j: nat)
    requires InPlace(was, nodes) && |cs| > 0 && Moving(was, cs, moved, i, j) && j < |was[i]|
    ensures var h := was[i][j]; var y := h.hval % |cs|;
            Moving(was, cs[y := [h] + cs[y]], moved + {h}, i, j + 1)
  {
    hide Flatten, Offset, Lookupa.Hash;
    var h := was[i][j];
    var y := h.hval % |cs|;
    var ds, done := cs[y := [h] + cs[y]], moved + {h};
    FlattenUpdate(cs, y, [h] + cs[y]);
    forall b | 0 <= b < |ds| ensures NoDup(ds[b]) { assert NoDup(cs[b]); }
    forall x | x in done ensures x in ds[x.hval % |ds|] {
      if x == h { assert ds[y][0] == h; } else { MemberAfter(cs[y], h, x); }
    }
    forall b, k | 0 <= b < |was| && 0 <= k < |was[b]|
      ensures was[b][k] in done <==> b > i || (b == i && k < j + 1)
    {
      assert Placed(|was|, nodes, b, was[b][k]) && Placed(|was|, nodes, i, h) && NoDup(was[i]);
    }
  }

  /** The node to be moved next is in no new bucket, nor in what is left of the old ones. */
  lemma NotYetMoved<T>(was: seq<seq<HItem<T>>>, nodes: map<Bytes, HItem<T>>,
                       cs: seq<seq<HItem<T>>>, moved: set<HItem<T>>, i: nat, j: nat)
    requires InPlace(was, nodes) && |cs| > 0 && Moving(was, cs, moved, i, j) && j < |was[i]|
    ensures var h := was[i][j];
            && Placed(|was|, nodes, i, h)
            && (forall b :: 0 <= b < |cs| ==> h !in cs[b])
            && (forall b :: 0 <= b < i ==> h !in was[b])
            && (forall k :: j < k < |was[i]| ==> h != was[i][k])
  {
    hide Flatten, Offset, Lookupa.Hash;
    var h := was[i][j];
    assert NoDup(was[i]) && Placed(|was|, nodes, i, h);
    assert forall b, k :: 0 <= b < i && 0 <= k < |was[b]| ==> Placed(|was|, nodes, b, was[b][k]);
  }

  lemma InNodes<T>(was: seq<seq<HItem<T>>>, nodes: map<Bytes, HItem<T>>, b: nat, h: HItem<T>)
    requires |was| > 0 && Placed(|was|, nodes, b, h)
    ensures h in nodes.Values && h.hval % |was| == b
  {
  }

  lemma NothingMoved<T>(was: seq<seq<HItem<T>>>, size: nat) returns (cs: seq<seq<HItem<T>>>)
    requires |was| > 0 && size > 0
    ensures cs == seq(size, _ => []) && Moving(was, cs, {}, |was| - 1, 0)
  {
    cs := seq(size, _ => []);
    OffsetAll(was);
    OffsetAll(cs);
    EmptyOffset(cs, 0, size);
    hide Flatten, Offset;
  }

  lemma NextBucket<T>(was: seq<seq<HItem<T>>>, cs: seq<seq<HItem<T>>>, moved: set<HItem<T>>, i: nat)
    requires |cs| > 0 && 0 < i < |was| && Moving(was, cs, moved, i, |was[i]|)
    ensures Moving(was, cs, moved, i - 1, 0)
  {
    FlattenSplit(was, i);
    hide Flatten, Offset;
  }

  lemma AllMoved<T>(was: seq<seq<HItem<T>>>, nodes: map<Bytes, HItem<T>>,
                    cs: seq<seq<HItem<T>>>, moved: set<HItem<T>>)
    requires InPlace(was, nodes) && |cs| > 0 && Moving(was, cs, moved, 0, |was[0]|)
    requires forall h :: h in moved ==> Placed(|was|, nodes, h.hval % |was|, h)
    ensures InPlace(cs, nodes)
  {
    hide Flatten, Offset, Lookupa.Hash, NoDup;
    CountMoved(was, cs, moved);
    forall key | key in nodes ensures nodes[key].key == key && nodes[key] in cs[Lookupa.Hash(key) % |cs|] {
      HasMoved(was, nodes, cs, moved, key);
    }
    forall b, k | 0 <= b < |cs| && 0 <= k < |cs[b]| ensures Placed(|cs|, nodes, b, cs[b][k]) {
      assert cs[b][k] in moved;
    }
  }

  lemma CountMoved<T>(was: seq<seq<HItem<T>>>, cs: seq<seq<HItem<T>>>, moved: set<HItem<T>>)
    requires |cs| > 0 && |was| > 0 && Moving(was, cs, moved, 0, |was[0]|)
    ensures |Flatten(cs)| == |Flatten(was)|
  {
    FlattenSplit(was, 0);
    OffsetAll(was);
    hide Flatten;
  }

  lemma HasMoved<T>(was: seq<seq<HItem<T>>>, nodes: map<Bytes, HItem<T>>,
                    cs: seq<seq<HItem<T>>>, moved: set<HItem<T>>, key: Bytes)
    requires InPlace(was, nodes) && |cs| > 0 && Moving(was, cs, moved, 0, |was[0]|) && key in nodes
    ensures nodes[key].key == key && nodes[key] in cs[Lookupa.Hash(key) % |cs|]
  {
    hide Flatten, Offset, Lookupa.Hash, NoDup;
    var b := Lookupa.Hash(key) % |was|;
    var k :| 0 <= k < |was[b]| && was[b][k] == nodes[key];
    assert Placed(|was|, nodes, b, nodes[key]);
    assert was[b][k] in moved;
  }

  // ---------------------------------------------------------------- the table

  lemma Distinct<T>(c: seq<HItem<T>>, i: nat)
    requires NoDup(c) && i < |c|
    ensures forall k :: 0 <= k < |c| && k != i ==> c[k] != c[i]
  {
  }

  /** Unlinking leaves the list without one element. */
  lemma LinkPast<T>(head: HItem?<T>, c: seq<HItem<T>>, i: nat, head': HItem?<T>)
    requires i < |c| && NoDup(c)
    requires head' == if i == 0 then At(c, 1) else head
    requires head == At(c, 0)
    requires forall k {:trigger c[k].next} :: 0 <= k < |c| ==>
               c[k].next == if k + 1 == i then At(c, i + 1) else At(c, k + 1)
    ensures Linked(head', Without(c, i))
  {
    var d := Without(c, i);
    forall j | 0 <= j < |d| ensures d[j].next == At(d, j + 1) {
      assert d[j] == c[if j < i then j else j + 1];
    }
  }

  /** What the keys are bound to. */
  ghost function Bindings<T>(nodes: map<Bytes, HItem<T>>): (m: map<Bytes, T>)
    ensures m.Keys == nodes.Keys
  {
    map k | k in nodes :: nodes[k].stuff
  }

  lemma BindingsAdd<T>(nodes: map<Bytes, HItem<T>>, h: HItem<T>)
    ensures Bindings(nodes[h.key := h]) == Bindings(nodes)[h.key := h.stuff]
  {
  }

  lemma BindingsDel<T>(nodes: map<Bytes, HItem<T>>, key: Bytes)
    ensures Bindings(nodes - {key}) == Bindings(nodes) - {key}
  {
  }

  lemma ValuesDel<T>(nodes: map<Bytes, HItem<T>>, key: Bytes)
    ensures (nodes - {key}).Values <= nodes.Values
  {
  }

  lemma CountDel<T>(nodes: map<Bytes, HItem<T>>, key: Bytes)
    requires key in nodes
    ensures |nodes - {key}| == |nodes| - 1
  {
    assert nodes == (nodes - {key})[key := nodes[key]];
  }

  /** `hlookup` at level 0. */
  method HashOf(key: Bytes) returns (x: nat)
    ensures x == Lookupa.Hash(key)
  {
    hide Lookupa.FinalWords;
    x := Lookupa.HLookup(key, 0);
  }

  class Htab<S> {
    var table: array<HItem?<S>>
    var logsize: nat
    var mask: nat
    var count: nat
    var apos: nat
    var ipos: HItem?<S>

    ghost var chains: seq<seq<HItem<S>>>
    ghost var nodes: map<Bytes, HItem<S>>
    /** Where in its bucket the position is. */
    ghost var depth: nat

    /** The buckets, without the count and the position. */
    ghost predicate Shaped()
      reads `table, `logsize, `mask, `chains, `nodes, table, nodes.Values
    {
      && InPlace(chains, nodes)
      && table.Length == |chains| == mask + 1 == Pow2(logsize)
      && forall b :: 0 <= b < |chains| ==> Holds(b)
    }

    ghost predicate Holds(b: nat)
      requires InPlace(chains, nodes) && b < table.Length == |chains|
      reads `table, `chains, `nodes, table, nodes.Values
    {
      && (forall j :: 0 <= j < |chains[b]| ==> Placed(|chains|, nodes, b, chains[b][j]))
      && Linked(table[b], chains[b])
    }

    /** The position is null exactly when there is nothing to stand on, and else in bucket `apos`. */
    ghost predicate Positioned()
      reads `chains, `apos, `ipos, `depth
    {
      && apos < |chains|
      && (ipos == null <==> Items() == [])
      && (ipos != null ==> depth < |chains[apos]| && chains[apos][depth] == ipos)
    }

    ghost predicate Valid()
      reads this, table, nodes.Values
    {
      Shaped() && Positioned() && count == |nodes| <= Pow2(logsize)
    }

    /** The nodes, in the order in which the position runs through them. */
    ghost function Items(): seq<HItem<S>>
      reads `chains
    {
      Flatten(chains)
    }

    /** Where in that order the position is. */
    ghost function Pos(): nat
      reads `chains, `apos, `depth
      requires apos < |chains|
    {
      Offset(chains, apos) + depth
    }

    /** The finite map the table stands for. */
    ghost function Contents(): map<Bytes, S>
      reads `nodes
    {
      Bindings(nodes)
    }

    /** `hcreate`: an empty table of 2^logsize buckets. */
    constructor (logsize: nat)
      ensures Valid() && fresh(table) && this.logsize == logsize && Contents() == map[]
    {
      var len := Pow2(logsize);
      table := new HItem?<S>[len](_ => null);
      this.logsize := logsize;
      mask := len - 1;
      count, apos, ipos := 0, 0, null;
      chains, nodes, depth := seq(len, _ => []), map[], 0;
      new;
      EmptyOffset(chains, 0, |chains|);
      OffsetAll(chains);
      assert forall b :: 0 <= b < |chains| ==> Holds(b);
    }

    /** What `Shaped` is made of, and back. */
    lemma Opened()
      requires Shaped()
      ensures InPlace(chains, nodes) && table.Length == |chains|
      ensures forall b :: 0 <= b < |chains| ==> Linked(table[b], chains[b])
    {
      hide InPlace, Linked, Pow2, Placed;
      forall b | 0 <= b < |chains| ensures Linked(table[b], chains[b]) { assert Holds(b); }
    }

    lemma Closed()
      requires InPlace(chains, nodes) && table.Length == |chains| == mask + 1 == Pow2(logsize)
      requires forall b :: 0 <= b < |chains| ==> Linked(table[b], chains[b])
      ensures Shaped()
    {
      hide Linked, Pow2, Placed, Flatten, NoDup;
      forall b | 0 <= b < |chains| ensures Holds(b) {}
    }

    lemma ItemsCount()
      requires Shaped()
      ensures |Items()| == |nodes|
    {
    }

    /** The items are the bindings, each once. */
    lemma ItemsAre()
      requires Shaped()
      ensures ListsOnce(Items(), nodes)
    {
      hide Pow2, Holds, Flatten, NoDup, Placed, Lookupa.Hash, ListsOnce;
      ItemsOnce(chains, nodes);
    }

    lemma AtPos()
      requires Positioned() && ipos != null
      ensures Pos() < |Items()| && Items()[Pos()] == ipos
    {
      FlattenAt(chains, apos, depth);
    }

    lemma Sizes()
      requires Shaped()
      ensures table.Length == |chains| == mask + 1 == Pow2(logsize) > 0
    {
    }

    /** The count is the number of bindings. */
    lemma CountIs()
      requires Valid()
      ensures count == |Contents()|
    {
      hide Shaped, Positioned;
      assert |Contents().Keys| == |nodes.Keys|;
    }

    /** A bucket of the table and its shadow. */
    lemma Heads(b: nat)
      requires Shaped() && b < |chains|
      ensures table.Length == |chains| && table[b] == At(chains[b], 0)
      ensures forall j :: 0 <= j < |chains[b]| ==> Placed(|chains|, nodes, b, chains[b][j])
      ensures Linked(table[b], chains[b])
      ensures NoDup(chains[b])
    {
      assert Holds(b);
      hide Pow2, Lookupa.Hash, Flatten;
    }

    /** `hnbucket`: to the first item of the next non-empty bucket; false when that wraps around. */
    method HNBucket() returns (onward: bool)
      requires Shaped() && apos < |chains|
      modifies this`apos, this`ipos, this`depth
      ensures Shaped()
      ensures Items() == [] ==> !onward && apos == old(apos) && ipos == old(ipos)
      ensures Items() != [] ==> ipos != null && Positioned()
      ensures Items() != [] ==> (onward <==> old(Offset(chains, apos + 1)) < |Items()|)
      ensures Items() != [] ==> Pos() == if onward then old(Offset(chains, apos + 1)) else 0
    {
      hide Pow2, Shaped, NoDup, Flatten, Offset, Placed, Linked, InPlace;
      Sizes();
      OffsetAll(chains);
      var oldapos, end := apos, mask + 1;
      var i := NonEmptyFrom(oldapos + 1, end);
      if i < end {
        apos, ipos, depth := i, table[i], 0;
        FlattenAt(chains, i, 0);
        return true;
      }
      i := NonEmptyFrom(0, oldapos + 1);
      if i <= oldapos {
        apos, ipos, depth := i, table[i], 0;
        FlattenAt(chains, i, 0);
        return false;
      }
      return false;
    }

    /** One of the two scans of `hnbucket`: the first non-empty bucket from `lo` on, or `hi`. */
    method NonEmptyFrom(lo: nat, hi: nat) returns (i: nat)
      requires Shaped() && lo <= hi <= |chains|
      ensures lo <= i <= hi && table.Length == |chains|
      ensures Offset(chains, lo) == Offset(chains, i)
      ensures i < hi ==> chains[i] != [] && table[i] == chains[i][0]
    {
      hide Pow2, Shaped, NoDup, Flatten, Offset, Placed, Linked, InPlace;
      Sizes();
      i := lo;
      while i < hi
        invariant lo <= i <= hi
        invariant Offset(chains, lo) == Offset(chains, i)
      {
        Heads(i);
        if table[i] != null {
          return;
        }
        EmptyOffset(chains, i, i + 1);
        i := i + 1;
      }
    }

    /** `hfirst`: to the first item; false when there is none. */
    method HFirst() returns (some: bool)
      requires Shaped() && (Items() == [] ==> ipos == null)
      modifies this`apos, this`ipos, this`depth
      ensures Shaped() && Positioned()
      ensures some <==> Items() != []
      ensures some ==> Pos() == 0
    {
      OffsetAll(chains);
      hide InPlace, Pow2;
      apos := mask;
      var _ := HNBucket();
      some := ipos != null;
    }

    /** `hnext`: one on in the order; from the last item it wraps around to the first and says so. */
    method HNext() returns (onward: bool)
      requires Valid()
      modifies this`apos, this`ipos, this`depth
      ensures Valid()
      ensures Items() == [] ==> !onward
      ensures Items() != [] ==> (onward <==> old(Pos()) + 1 < |Items()|)
      ensures Items() != [] ==> Pos() == if onward then old(Pos()) + 1 else 0
    {
      hide Pow2, Shaped, NoDup, Flatten, Offset, Placed, Linked, InPlace;
      if ipos == null {
        return false;
      }
      Heads(apos);
      Sizes();
      FlattenSplit(chains, apos);
      NextOf(table[apos], chains[apos], depth);
      ipos := ipos.next;
      if ipos != null {
        depth := depth + 1;
        FlattenAt(chains, apos, depth);
        return true;
      }
      onward := HNBucket();
    }

    /** Walks the bucket of `key`, as `hfind` and `hadd` do; null when the key is not there. */
    method Search(key: Bytes) returns (h: HItem?<S>, y: nat, ghost d: nat)
      requires Shaped()
      ensures y == Lookupa.Hash(key) % |chains|
      ensures h == null <==> key !in nodes
      ensures h != null ==> h == nodes[key] && d < |chains[y]| && chains[y][d] == h
    {
      hide Shaped, Linked, Flatten, Lookupa.Hash, NoDup, Pow2;
      Sizes();
      var x := HashOf(key);
      y := x % (mask + 1);
      Heads(y);
      ghost var c := chains[y];
      h, d := table[y], 0;
      while h != null
        invariant d <= |c| && h == At(c, d)
        invariant forall j :: 0 <= j < d ==> c[j].key != key
        decreases |c| - d
      {
        assert Placed(|chains|, nodes, y, c[d]);
        if x == h.hval && key == h.key {
          return;
        }
        NextOf(table[y], c, d);
        h, d := h.next, d + 1;
      }
      NotThere(key);
    }

    lemma NotThere(key: Bytes)
      requires Shaped()
      requires forall h :: h in chains[Lookupa.Hash(key) % |chains|] ==> h.key != key
      ensures key !in nodes
    {
      hide Linked, Flatten, Lookupa.Hash, NoDup, Pow2, Holds;
    }

    /** `hfind`: moves to the item with this key, if there is one. */
    method HFind(key: Bytes) returns (found: bool)
      requires Valid()
      modifies this`apos, this`ipos, this`depth
      ensures Valid()
      ensures found <==> key in Contents()
      ensures found ==> ipos != null && ipos.key == key && ipos.stuff == Contents()[key]
      ensures !found ==> apos == old(apos) && ipos == old(ipos) && Pos() == old(Pos())
    {
      hide Shaped, Flatten, Lookupa.Hash, Pow2;
      Sizes();
      var h, y, d := Search(key);
      if h != null {
        KeyOf(key);
        FlattenAt(chains, y, d);
        apos, ipos, depth := y, h, d;
        return true;
      }
      return false;
    }

    lemma KeyOf(key: Bytes)
      requires Shaped() && key in nodes
      ensures nodes[key].key == key
    {
      hide Linked, Flatten, Lookupa.Hash, NoDup, Pow2, Holds;
    }

    /** One node put at the head of its new bucket. */
    static method MoveNode(newtab: array<HItem?<S>>, that: HItem<S>, ghost cs: seq<seq<HItem<S>>>)
      requires newtab.Length == |cs| > 0
      requires forall b :: 0 <= b < |cs| ==> Linked(newtab[b], cs[b]) && that !in cs[b]
      modifies newtab, that
      ensures var y := that.hval % |cs|;
              var ds := cs[y := [that] + cs[y]];
              forall b :: 0 <= b < |ds| ==> Linked(newtab[b], ds[b])
    {
      hide Linked;
      var y := that.hval % newtab.Length;
      that.next := newtab[y];
      assert forall b :: 0 <= b < |cs| ==> Linked(newtab[b], cs[b]);
      LinkOn(newtab[y], cs[y], that);
      newtab[y] := that;
    }

    /** The nodes of one old bucket, each moved to the head of its new one. */
    static method MoveBucket(oldtab: array<HItem?<S>>, newtab: array<HItem?<S>>, i: nat,
                             ghost before: seq<seq<HItem<S>>>, ghost nodes: map<Bytes, HItem<S>>,
                             ghost cs: seq<seq<HItem<S>>>, ghost moved: set<HItem<S>>)
      returns (ghost cs': seq<seq<HItem<S>>>, ghost moved': set<HItem<S>>)
      requires oldtab != newtab && i < |before| == oldtab.Length && newtab.Length == |cs| > 0
      requires InPlace(before, nodes) && Moving(before, cs, moved, i, 0)
      requires forall h :: h in moved ==> Placed(|before|, nodes, h.hval % |before|, h)
      requires forall b :: 0 <= b <= i ==> Linked(oldtab[b], before[b])
      requires forall b :: 0 <= b < |cs| ==> Linked(newtab[b], cs[b])
      modifies newtab, nodes.Values
      ensures |cs'| == |cs| && Moving(before, cs', moved', i, |before[i]|)
      ensures forall h :: h in moved' ==> Placed(|before|, nodes, h.hval % |before|, h)
      ensures forall b :: 0 <= b < i ==> Linked(oldtab[b], before[b])
      ensures forall b :: 0 <= b < |cs'| ==> Linked(newtab[b], cs'[b])
    {
      hide NoDup, Flatten, Offset, Lookupa.Hash, Linked, InPlace, Placed, Moving;
      NextsOf(oldtab[i], before[i]);
      cs', moved' := cs, moved;
      var node := oldtab[i];
      ghost var j := 0;
      while node != null
        invariant j <= |before[i]| && node == At(before[i], j)
        invariant newtab.Length == |cs'| && Moving(before, cs', moved', i, j)
        invariant forall h :: h in moved' ==> Placed(|before|, nodes, h.hval % |before|, h)
        invariant forall b :: 0 <= b < i ==> Linked(oldtab[b], before[b])
        invariant forall k {:trigger before[i][k].next} ::
                    j <= k < |before[i]| ==> before[i][k].next == At(before[i], k + 1)
        invariant forall b :: 0 <= b < |cs'| ==> Linked(newtab[b], cs'[b])
        decreases |before[i]| - j
      {
        NotYetMoved(before, nodes, cs', moved', i, j);
        MoveOne(before, nodes, cs', moved', i, j);
        var that: HItem<S> := node;
        InNodes(before, nodes, i, that);
        node := node.next;
        MoveNode(newtab, that, cs');
        ghost var y := that.hval % |cs'|;
        cs', moved', j := cs'[y := [that] + cs'[y]], moved' + {that}, j + 1;
      }
    }

    /** The walk through the old buckets, from the last to the first. */
    static method MoveAll(oldtab: array<HItem?<S>>, newtab: array<HItem?<S>>,
                          ghost before: seq<seq<HItem<S>>>, ghost nodes: map<Bytes, HItem<S>>)
      returns (ghost cs: seq<seq<HItem<S>>>)
      requires oldtab != newtab && oldtab.Length == |before| && newtab.Length > 0 && InPlace(before, nodes)
      requires forall b :: 0 <= b < |before| ==> Linked(oldtab[b], before[b])
      requires forall b :: 0 <= b < newtab.Length ==> newtab[b] == null
      modifies newtab, nodes.Values
      ensures |cs| == newtab.Length && InPlace(cs, nodes)
      ensures forall b :: 0 <= b < |cs| ==> Linked(newtab[b], cs[b])
    {
      hide NoDup, Flatten, Offset, Lookupa.Hash, Linked, Placed, Moving;
      cs := NothingMoved(before, newtab.Length);
      ghost var moved: set<HItem<S>> := {};
      AllEmpty(newtab, cs);
      var i := oldtab.Length;
      while i > 0
        invariant 0 <= i <= |before| == oldtab.Length
        invariant newtab.Length == |cs|
        invariant i < |before| ==> Moving(before, cs, moved, i, |before[i]|)
        invariant i == |before| ==> Moving(before, cs, moved, i - 1, 0)
        invariant forall h :: h in moved ==> Placed(|before|, nodes, h.hval % |before|, h)
        invariant forall b :: 0 <= b < i ==> Linked(oldtab[b], before[b])
        invariant forall b :: 0 <= b < |cs| ==> Linked(newtab[b], cs[b])
      {
        if i < |before| { NextBucket(before, cs, moved, i); }
        i := i - 1;
        cs, moved := MoveBucket(oldtab, newtab, i, before, nodes, cs, moved);
      }
      AllMoved(before, nodes, cs, moved);
    }

    /**
      `hgrow`: twice the buckets. Every node is kept, and moved to its new bucket by
      changing nothing but its `next`.
     */
    method HGrow()
      requires Shaped() && (Items() == [] ==> ipos == null)
      modifies this, nodes.Values
      ensures Shaped() && Positioned() && fresh(table)
      ensures logsize == old(logsize) + 1 && nodes == old(nodes) && count == old(count)
    {
      hide Pow2, Flatten, Lookupa.Hash, Linked, InPlace, Placed, Shaped;
      Sizes();
      Opened();
      ItemsCount();
      logsize := logsize + 1;
      var newsize := Pow2(logsize);
      PowStep(logsize - 1);
      var newtab := new HItem?<S>[newsize](_ => null);
      var oldtab := table;
      table := newtab;
      mask := newsize - 1;
      chains := MoveAll(oldtab, newtab, chains, nodes);
      Closed();
      ItemsCount();
      var _ := HFirst();
    }

    /** The end of `hadd`: the new item at the head of its bucket, with the position on it. */
    method Insert(h: HItem<S>, y: nat)
      requires Shaped() && h.key !in nodes && h !in nodes.Values
      requires h.hval == Lookupa.Hash(h.key) && y == h.hval % |chains|
      modifies this`chains, this`nodes, this`apos, this`ipos, this`depth, table, h
      ensures Shaped() && Positioned() && ipos == h
      ensures nodes == old(nodes)[h.key := h]
    {
      hide Pow2, NoDup, Flatten, Lookupa.Hash, Linked, InPlace, Shaped;
      Sizes();
      Opened();
      AddInPlace(chains, nodes, h, y);
      NotLinked(h);
      h.next := table[y];
      assert forall b :: 0 <= b < |chains| ==> Linked(table[b], chains[b]);
      LinkOn(table[y], chains[y], h);
      table[y] := h;
      chains, nodes := chains[y := [h] + chains[y]], nodes[h.key := h];
      ipos, apos, depth := h, y, 0;
      Closed();
      ItemsOf(y);
    }

    lemma NotLinked(h: HItem<S>)
      requires Shaped() && h !in nodes.Values
      ensures forall b :: 0 <= b < |chains| ==> h !in chains[b]
    {
      hide NoDup, Flatten, Lookupa.Hash, Linked, Pow2;
      assert forall b, j :: 0 <= b < |chains| && 0 <= j < |chains[b]| ==> Placed(|chains|, nodes, b, chains[b][j]);
    }

    lemma ItemsOf(b: nat)
      requires b < |chains| && chains[b] != []
      ensures Items() != []
    {
      FlattenAt(chains, b, 0);
    }

    /** Counts one more item; the table grows when it then holds more items than buckets. */
    method CountOne() returns (grew: bool)
      requires Valid()
      modifies this, nodes.Values
      ensures Shaped() && nodes == old(nodes) && count == old(count) + 1 <= Pow2(logsize)
      ensures grew <==> old(count) == Pow2(old(logsize))
      ensures logsize == if grew then old(logsize) + 1 else old(logsize)
      ensures if grew then fresh(table) else table == old(table) && mask == old(mask) && chains == old(chains)
    {
      hide Pow2, NoDup, Flatten, Lookupa.Hash, Linked, InPlace, Placed, Shaped;
      count := count + 1;
      grew := count > Pow2(logsize);
      if grew {
        PowStep(logsize);
        HGrow();
      }
    }

    /** `hadd`: binds the key, or fails when it is bound already; moves to its item either way. */
    method HAdd(key: Bytes, stuff: S) returns (added: bool)
      requires Valid()
      modifies this, table, nodes.Values
      ensures Valid() && (table == old(table) || fresh(table)) && fresh(nodes.Values - old(nodes.Values))
      ensures added <==> key !in old(Contents())
      ensures Contents() == if added then old(Contents())[key := stuff] else old(Contents())
      ensures ipos != null && ipos.key == key && ipos.stuff == Contents()[key]
      ensures !added ==> Items() == old(Items())
      ensures logsize == if added && old(count) == Pow2(old(logsize)) then old(logsize) + 1 else old(logsize)
    {
      hide Pow2, NoDup, Flatten, Lookupa.Hash, Linked, InPlace, Placed, Shaped, Bindings, Offset;
      Sizes();
      ItemsCount();
      var found := HFind(key);
      if found {
        return false;
      }
      var x := HashOf(key);
      var y := x % (mask + 1);
      var item := new HItem(key, stuff, x, null);
      var grew := CountOne();
      Sizes();
      if grew {
        y := x % (mask + 1);
      }
      BindingsAdd(nodes, item);
      Insert(item, y);
      return true;
    }

    /** The walk and the unlinking of `hdel`. */
    method Unlink(h: HItem<S>)
      requires Shaped() && Positioned() && h == ipos
      modifies this`chains, this`nodes, table, nodes.Values
      ensures Shaped()
      ensures h.key in old(nodes) && nodes == old(nodes) - {h.key}
      ensures old(Pos() < |Items()|)
      ensures Items() == Without(old(Items()), old(Pos()))
      ensures apos < |chains| && depth <= |chains[apos]| && h.next == At(chains[apos], depth)
      ensures Pos() == old(Pos())
    {
      hide Pow2, NoDup, Flatten, Lookupa.Hash, Linked, InPlace, Placed, Shaped, Without, Offset;
      RemoveFlat(chains, apos, depth);
      OffsetsDel(chains, apos, depth);
      ghost var c := chains[apos];
      Sizes();
      Opened();
      Heads(apos);
      NextsOf(table[apos], c);
      Distinct(c, depth);
      var prev: HItem?<S>, cur: HItem?<S> := null, table[apos];
      ghost var j := 0;
      while cur != h
        invariant j <= depth && cur == c[j] && prev == (if j == 0 then null else c[j - 1])
        decreases depth - j
      {
        prev, cur := cur, cur.next;
        j := j + 1;
      }
      ghost var ds := chains[apos := Without(c, depth)];
      DelInPlace(chains, nodes, apos, depth);
      OtherChains(apos);
      if prev == null {
        table[apos] := h.next;
      } else {
        InNodes(chains, nodes, apos, prev);
        Distinct(c, j - 1);
        prev.next := h.next;
      }
      LinkPast(old(table[apos]), c, depth, table[apos]);
      chains, nodes := ds, nodes - {h.key};
      Closed();
    }

    /** A bucket's nodes are in no other bucket. */
    lemma OtherChains(b: nat)
      requires Shaped() && b < |chains|
      ensures forall b' :: 0 <= b' < |chains| && b' != b ==> forall j :: 0 <= j < |chains[b]| ==>
              chains[b][j] !in chains[b']
    {
      hide NoDup, Flatten, Lookupa.Hash, Linked, Pow2;
      assert forall b, j :: 0 <= b < |chains| && 0 <= j < |chains[b]| ==> Placed(|chains|, nodes, b, chains[b][j]);
    }

    /** The end of `hdel`: the position moves on to something that exists. */
    method Settle(h: HItem<S>)
      requires Shaped() && apos < |chains| && depth <= |chains[apos]| && h.next == At(chains[apos], depth)
      modifies this`apos, this`ipos, this`depth
      ensures Shaped() && Positioned()
      ensures Items() != [] ==> Pos() == if old(Pos()) < |Items()| then old(Pos()) else 0
    {
      hide Pow2, NoDup, Flatten, Linked, InPlace, Shaped, Offset;
      FlattenSplit(chains, apos);
      ipos := h.next;
      if ipos == null {
        var _ := HNBucket();
      } else {
        ItemsOf(apos);
        FlattenAt(chains, apos, depth);
      }
    }

    /** `hdel` when there is an item at the position. */
    method Remove(h: HItem<S>)
      requires Valid() && h == ipos
      modifies this, table, nodes.Values
      ensures Valid() && table == old(table)
      ensures h.key in old(nodes) && nodes == old(nodes) - {h.key}
      ensures old(Pos() < |Items()|) && Items() == Without(old(Items()), old(Pos()))
      ensures Items() != [] ==> Pos() == if old(Pos()) < |Items()| then old(Pos()) else 0
    {
      hide Pow2, NoDup, Flatten, Lookupa.Hash, Linked, InPlace, Placed, Shaped, Offset, Without, Items, Pos, At,
        Bindings;
      Unlink(h);
      count := count - 1;
      CountDel(old(nodes), h.key);
      ItemsCount();
      Settle(h);
    }

    /**
      `hdel`: removes the item at the position, which moves to the item that `hnext`
      would have moved to.
     */
    method HDel() returns (deleted: bool)
      requires Valid()
      modifies this, table, nodes.Values
      ensures Valid() && table == old(table)
      ensures deleted <==> old(Items()) != []
      ensures !deleted ==> Contents() == old(Contents()) && Items() == old(Items())
      ensures deleted ==> old(ipos) != null && Contents() == old(Contents()) - {old(ipos).key}
      ensures deleted ==> old(Pos() < |Items()|) && Items() == Without(old(Items()), old(Pos()))
      ensures deleted && Items() != [] ==> Pos() == if old(Pos()) < |Items()| then old(Pos()) else 0
      ensures deleted && Items() != [] ==> ipos == old(After(Items(), Pos()))
      ensures nodes.Values <= old(nodes.Values)
    {
      hide Pow2, Shaped, Bindings, Offset, Without, Pos, Flatten, After;
      if ipos == null {
        return false;
      }
      BindingsDel(nodes, ipos.key);
      ValuesDel(nodes, ipos.key);
      AtPos();
      ghost var items, pos := Items(), Pos();
      Remove(ipos);
      if Items() != [] {
        AtPos();
        AfterIs(items, pos);
      }
      return true;
    }
  }

  /**
    The loop that the header recommends, `if (hfirst(t)) do ... while (hnext(t))`:
    it meets every item once, in order, and ends after as many rounds as there are
    items.
   */
  method VisitAll<S>(t: Htab<S>) returns (seen: seq<HItem<S>>)
    requires t.Valid()
    modifies t`apos, t`ipos, t`depth
    ensures t.Valid()
    ensures seen == t.Items() && |seen| == t.count
    ensures forall k :: k in t.Contents() ==> exists i :: 0 <= i < |seen| && seen[i].key == k
    ensures forall i :: 0 <= i < |seen| ==> seen[i].key in t.Contents() && t.Contents()[seen[i].key] == seen[i].stuff
    ensures forall i, j :: 0 <= i < j < |seen| ==> seen[i].key != seen[j].key
  {
    hide InPlace, Flatten, Pow2, Htab.Shaped, Htab.Items, Htab.Pos;
    t.ItemsAre();
    seen := [];
    var more := t.HFirst();
    while more
      invariant t.Valid() && t.Items() == old(t.Items()) && t.nodes == old(t.nodes)
      invariant |seen| <= |t.Items()| && seen == t.Items()[..|seen|]
      invariant more ==> |seen| < |t.Items()| && t.Pos() == |seen|
      invariant !more ==> |seen| == |t.Items()|
      decreases |t.Items()| - |seen|, more
    {
      t.AtPos();
      seen := seen + [t.ipos];
      more := t.HNext();
    }
  }
}
