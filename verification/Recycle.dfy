/**
  The node allocator under the hash table: blocks of equal cells that double in
  size, an unissued part at the front of the newest block, and a trash list of
  cells to be handed out again.
 */
module Recycle {
  import opened Powers

  const RESTART: nat := 0
  const REMAX: nat := 32000
  const PTR_SIZE: nat := 8

  /** A cell's address: its block, counted from the first one allocated, and where in the block it begins. */
  datatype Cell = Cell(block: nat, offset: nat)

  /** `align`: rounded up to a whole number of pointers. */
  function Align(n: nat): nat { (n + PTR_SIZE - 1) / PTR_SIZE * PTR_SIZE }

  /** The least whole number of pointers that `n` bytes fit in. */
  lemma AlignIsLeast(n: nat)
    ensures n <= Align(n) < n + 8 && Align(n) % 8 == 0
  {
  }

  function Times(q: nat, size: nat): nat { q * size }

  /** An address that is a whole number of cells into its block. */
  ghost predicate IsMultiple(o: nat, size: nat) { exists q: nat :: Times(q, size) == o }

  /** The cells of the first `bytes` bytes of block `b`. */
  ghost function Cells(b: nat, size: nat, bytes: nat): set<Cell> {
    set o | 0 <= o < bytes && IsMultiple(o, size) :: Cell(b, o)
  }

  /** The cells of all the blocks. */
  ghost function AllCells(blocks: seq<nat>, size: nat): set<Cell> {
    set b, o | 0 <= b < |blocks| && 0 <= o < blocks[b] && IsMultiple(o, size) :: Cell(b, o)
  }

  lemma NewBlock(blocks: seq<nat>, bytes: nat, size: nat)
    ensures AllCells(blocks + [bytes], size) == AllCells(blocks, size) + Cells(|blocks|, size, bytes)
    ensures AllCells(blocks, size) !! Cells(|blocks|, size, bytes)
  {
    hide IsMultiple;
    var more := blocks + [bytes];
    forall c | c in AllCells(blocks, size) ensures c in AllCells(more, size) {
      assert more[c.block] == blocks[c.block];
    }
    forall c | c in Cells(|blocks|, size, bytes) ensures c in AllCells(more, size) {
      assert more[|blocks|] == bytes;
    }
  }

  lemma NoCells(b: nat, size: nat)
    ensures Cells(b, size, 0) == {}
  {
  }

  /** The last cell of the unissued part comes off it. */
  lemma LastCell(b: nat, size: nat, left: nat)
    requires 0 < size && 0 < left && IsMultiple(left, size)
    ensures size <= left && IsMultiple(left - size, size)
    ensures Cells(b, size, left) == Cells(b, size, left - size) + {Cell(b, left - size)}
    ensures Cell(b, left - size) !in Cells(b, size, left - size)
  {
    var q: nat :| Times(q, size) == left;
    Scaled(0, q, size);
    assert Times(q - 1, size) == left - size;
    forall o: nat | left - size <= o < left && IsMultiple(o, size) ensures o == left - size {
      var p: nat :| Times(p, size) == o;
      if p < q - 1 { Scaled(p, q - 1, size); } else if q - 1 < p { Scaled(q - 1, p, size); }
    }
  }

  lemma {:induction false} Scaled(p: nat, q: nat, size: nat)
    requires p <= q
    ensures p < q ==> Times(p, size) + size <= Times(q, size)
    ensures Times(p, size) <= Times(q, size)
  {
    if p < q { Scaled(p, q - 1, size); }
  }

  /** The payload of the block after one: twice as much, until the limit is reached. */
  function NextSize(bytes: nat): nat { if bytes < REMAX then 2 * bytes else bytes }

  /** The payload of the block after the blocks there are; the first one is one cell. */
  function Upcoming(blocks: seq<nat>, size: nat): nat {
    if blocks == [] then size else NextSize(blocks[|blocks| - 1])
  }

  /** Every block is as large as the blocks before it say. */
  predicate Doubling(blocks: seq<nat>, size: nat) {
    forall b :: 0 <= b < |blocks| ==> blocks[b] == Upcoming(blocks[..b], size)
  }

  lemma DoublingSnoc(blocks: seq<nat>, size: nat)
    requires Doubling(blocks, size)
    ensures Doubling(blocks + [Upcoming(blocks, size)], size)
  {
    hide Upcoming;
    var more := blocks + [Upcoming(blocks, size)];
    forall b | 0 <= b < |more| ensures more[b] == Upcoming(more[..b], size) {
      if b < |blocks| { assert more[..b] == blocks[..b]; } else { assert more[..b] == blocks; }
    }
  }

  /**
    The sizes of the blocks: the first is one cell, and each later one twice the one
    before it, until one is no longer below 32000 bytes.
   */
  lemma BlocksDouble(blocks: seq<nat>, size: nat, b: nat)
    requires Doubling(blocks, size) && b < |blocks|
    ensures b == 0 ==> blocks[b] == size
    ensures b > 0 ==> blocks[b] == if blocks[b - 1] < 32000 then 2 * blocks[b - 1] else blocks[b - 1]
  {
    assert blocks[b] == Upcoming(blocks[..b], size);
  }

  /** Blocks of cells below the limit stay below twice the limit; a larger cell has a block of its own. */
  lemma {:induction false} BlocksAreBounded(blocks: seq<nat>, size: nat, b: nat)
    requires Doubling(blocks, size) && b < |blocks|
    ensures if size < REMAX then blocks[b] < 2 * REMAX else blocks[b] == size
  {
    assert blocks[b] == Upcoming(blocks[..b], size);
    if b > 0 { BlocksAreBounded(blocks, size, b - 1); }
  }

  lemma BlockIs(size: nat, log: nat)
    requires size > 0
    ensures var bytes := size * Pow2(log);
            bytes > 0 && IsMultiple(bytes, size) && size * Pow2(log + 1) == 2 * bytes
  {
    assert Times(Pow2(log), size) == size * Pow2(log);
    PowStep(log);
    assert size * (2 * Pow2(log)) == 2 * (size * Pow2(log));
  }

  class ReRoot {
    /** The payload of each block, the newest last. */
    var list: seq<nat>
    /** The deleted cells, the one to go first. */
    var trash: seq<Cell>
    var size: nat
    var logsize: nat
    var numleft: nat

    ghost var live: set<Cell>

    /** The part of the newest block that has not been handed out. */
    ghost function Unissued(): set<Cell>
      reads `list, `size, `numleft
    {
      if list == [] then {} else Cells(|list| - 1, size, numleft)
    }

    ghost function TrashSet(): set<Cell>
      reads `trash
    {
      set c | c in trash
    }

    /** The cells of all blocks are the live ones, the trash and the unissued ones, with no overlap. */
    ghost predicate Conserved()
      reads `list, `size, `numleft, `trash, `live
    {
      && AllCells(list, size) == live + TrashSet() + Unissued()
      && live !! TrashSet() && live !! Unissued() && TrashSet() !! Unissued()
      && (forall i, j :: 0 <= i < j < |trash| ==> trash[i] != trash[j])
    }

    ghost predicate Valid()
      reads this
    {
      && size > 0
      && IsMultiple(numleft, size) && (if list == [] then numleft == 0 else numleft < list[|list| - 1])
      && Conserved()
      && Doubling(list, size) && size * Pow2(logsize) == Upcoming(list, size)
    }

    /** `remkroot`. */
    constructor (itemSize: nat)
      requires itemSize > 0
      ensures Valid() && live == {} && list == [] && trash == []
      ensures itemSize <= size < itemSize + PTR_SIZE && size % PTR_SIZE == 0
    {
      list, trash := [], [];
      size := Align(itemSize);
      logsize, numleft := RESTART, 0;
      live := {};
      new;
      assert Times(0, size) == 0;
    }

    /**
      `renew`: a cell that was not live. The newest block is used up first, then
      the trash; a new block is made only when every cell there is is live.
     */
    method Renew() returns (c: Cell)
      requires Valid()
      modifies this
      ensures Valid() && size == old(size)
      ensures c !in old(live) && live == old(live) + {c}
      ensures old(numleft) > 0 ==> c in old(Unissued()) && trash == old(trash) && list == old(list)
      ensures old(numleft) == 0 && old(trash) != [] ==>
                c == old(trash)[0] && trash == old(trash)[1..] && list == old(list)
      ensures list != old(list) ==> old(AllCells(list, size)) == old(live) && trash == old(trash)
      ensures old(numleft) == 0 && old(trash) == [] ==> list == old(list) + [Upcoming(old(list), size)]
    {
      hide AllCells, Cells, IsMultiple, Doubling, Pow2;
      if numleft > 0 {
        LastCell(|list| - 1, size, numleft);
        numleft := numleft - size;
        c := Cell(|list| - 1, numleft);
        live := live + {c};
      } else {
        c := RenewX();
      }
    }

    method RenewX() returns (c: Cell)
      requires Valid() && numleft == 0
      modifies this
      ensures Valid() && size == old(size)
      ensures c !in old(live) && live == old(live) + {c}
      ensures old(trash) != [] ==> c == old(trash)[0] && trash == old(trash)[1..] && list == old(list)
      ensures list != old(list) ==> old(AllCells(list, size)) == old(live) && trash == old(trash)
      ensures old(trash) == [] ==> list == old(list) + [Upcoming(old(list), size)]
    {
      hide AllCells, Cells, IsMultiple, Doubling, Pow2;
      if trash != [] {
        c := trash[0];
        assert trash == [c] + trash[1..];
        trash := trash[1..];
        live := live + {c};
      } else {
        numleft := size * Pow2(logsize);
        var bytes := numleft;
        BlockIs(size, logsize);
        NewBlock(list, bytes, size);
        DoublingSnoc(list, size);
        if list != [] { NoCells(|list| - 1, size); }
        if numleft < REMAX {
          logsize := logsize + 1;
        }
        LastCell(|list|, size, bytes);
        list := list + [bytes];
        numleft := numleft - size;
        c := Cell(|list| - 1, numleft);
        live := live + {c};
      }
    }

    /** `redel`: a live cell goes to the front of the trash. */
    method ReDel(c: Cell)
      requires Valid() && c in live
      modifies `trash, `live
      ensures Valid() && live == old(live) - {c} && trash == [c] + old(trash)
    {
      hide AllCells, Cells, IsMultiple, Doubling, Pow2;
      trash := [c] + trash;
      live := live - {c};
    }
  }
}
