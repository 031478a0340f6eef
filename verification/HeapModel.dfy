/**
 * The allocator of kernel/alloc.c as a value: the physical chain of blocks, the 32 power-of-two
 * free lists and the running accounts, with one function for each step the C code takes.
 * Addresses are offsets from the start of the pool memory; NULL is -1.
 */
module HeapModel {
  import opened Basics
  import opened Bits
  import opened Lists

  const ALIGN := 4
  const BUCKETS := 32

  /** The flags byte: FREE set, USED set, or neither while a block is being moved. */
  datatype Status = Free | Held | Used

  datatype Header = Header(size: nat, status: Status)

  datatype Heap = Heap(
    overhead: nat,            // bytes of one block header
    total: nat,               // bytes of pool memory behind the pool header
    chain: seq<int>,          // block addresses in physical order
    hdr: map<int, Header>,
    lists: seq<seq<int>>,     // free lists, heads first
    used: int,
    minFree: int)

  function AlignUp(n: nat): (r: nat)
    ensures n <= r < n + ALIGN && r % ALIGN == 0
  {
    (n + ALIGN - 1) / ALIGN * ALIGN
  }

  /** The bucket of a size; the C code narrows the size to 32 bits first. */
  function Bucket(size: nat): (i: nat)
    ensures i < BUCKETS
  {
    Pow2Of32();
    Log2Below(size % U32, 32);
    Log2(size % U32)
  }

  // ---------------------------------------------------------------- well-formedness

  /** End of the block at `a`: one past its payload. */
  function EndOf(h: Heap, a: int): int {
    a + h.overhead + SizeAt(h.hdr, a)
  }

  /** A block header is a struct of less than 64 KiB, a multiple of the alignment. */
  predicate IsOverhead(o: nat) { 0 < o < 0x1_0000 && o % ALIGN == 0 }

  /** The headers are exactly those of the chain, on aligned addresses. */
  ghost predicate Members(h: Heap) {
    && IsOverhead(h.overhead) && h.total < U32
    && (forall i :: 0 <= i < |h.chain| ==> h.chain[i] in h.hdr)
    && (forall a :: a in h.hdr ==> a in h.chain && a % ALIGN == 0)
  }

  /** Block `i` ends where block `i + 1` starts. */
  ghost predicate Touches(h: Heap, i: int)
    requires 0 <= i < |h.chain| - 1
  {
    EndOf(h, h.chain[i]) == h.chain[i + 1]
  }

  /** The first block starts at 0, each next one where the one before ends, and the last ends with the pool. */
  ghost predicate Abut(h: Heap) {
    && 0 < |h.chain| && h.chain[0] == 0
    && (forall i :: 0 <= i < |h.chain| - 1 ==> Touches(h, i))
    && EndOf(h, h.chain[|h.chain| - 1]) == h.total
  }

  /** The chain tiles the pool. */
  ghost predicate Tiled(h: Heap) {
    Members(h) && Abut(h)
  }

  /** The free index agrees with the chain: a block is listed, once, in the bucket of its size, iff it is free. */
  ghost predicate Indexed(h: Heap)
    requires |h.lists| == BUCKETS
  {
    && (forall i, a :: 0 <= i < BUCKETS && a in h.lists[i] ==>
          a in h.hdr && h.hdr[a].status.Free? && Bucket(h.hdr[a].size) == i)
    && (forall a :: a in h.hdr && h.hdr[a].status.Free? ==> a in h.lists[Bucket(h.hdr[a].size)])
    && (forall i :: 0 <= i < BUCKETS ==> NoDup(h.lists[i]))
  }

  ghost predicate WF(h: Heap) {
    Tiled(h) && |h.lists| == BUCKETS && Indexed(h)
  }

  ghost predicate IsFree(h: Heap, i: int) {
    0 <= i < |h.chain| && h.chain[i] in h.hdr && h.hdr[h.chain[i]].status.Free?
  }

  ghost predicate BothFree(h: Heap, i: int) {
    IsFree(h, i) && IsFree(h, i + 1)
  }

  /** No two physical neighbours are both free. */
  ghost predicate Coalesced(h: Heap) {
    forall i :: 0 <= i < |h.chain| - 1 ==> !BothFree(h, i)
  }

  ghost predicate NoneHeld(h: Heap) {
    forall a :: a in h.hdr ==> !h.hdr[a].status.Held?
  }

  // ---------------------------------------------------------------- sums

  function SizeAt(hdr: map<int, Header>, a: int): nat {
    if a in hdr then hdr[a].size else 0
  }

  /** Bytes of the blocks of one list, headers included. */
  function ListSum(hdr: map<int, Header>, overhead: nat, l: seq<int>): (n: nat) {
    if l == [] then 0 else SizeAt(hdr, l[0]) + overhead + ListSum(hdr, overhead, l[1..])
  }

  function ListsSum(hdr: map<int, Header>, overhead: nat, ls: seq<seq<int>>): (n: nat) {
    if ls == [] then 0 else ListSum(hdr, overhead, ls[0]) + ListsSum(hdr, overhead, ls[1..])
  }

  /** The free size as tlsf_pool_free_size walks it: over all the free lists. */
  function FreeSize(h: Heap): (n: nat) {
    ListsSum(h.hdr, h.overhead, h.lists)
  }

  /** The share of block `a` in the used bytes. */
  function Share(hdr: map<int, Header>, overhead: nat, a: int): nat {
    if a in hdr && hdr[a].status.Used? then hdr[a].size + overhead else 0
  }

  /** Bytes of the used blocks of a chain, headers included. */
  function UsedSum(hdr: map<int, Header>, overhead: nat, c: seq<int>): (n: nat) {
    if c == [] then 0 else Share(hdr, overhead, c[0]) + UsedSum(hdr, overhead, c[1..])
  }

  /** What holds between any two calls. */
  ghost predicate Steady(h: Heap) {
    && WF(h) && NoneHeld(h) && Coalesced(h)
    && h.used + FreeSize(h) == h.total
    && h.used == UsedSum(h.hdr, h.overhead, h.chain)
  }

  // ---------------------------------------------------------------- steps

  function SetStatus(h: Heap, a: int, st: Status): Heap
    requires a in h.hdr
  {
    h.(hdr := h.hdr[a := h.hdr[a].(status := st)])
  }

  /** block_insert_free */
  function InsertFree(h: Heap, a: int): Heap
    requires a in h.hdr && |h.lists| == BUCKETS
  {
    var i := Bucket(h.hdr[a].size);
    SetStatus(h, a, Free).(lists := h.lists[i := [a] + h.lists[i]])
  }

  /** block_remove_free */
  function RemoveFree(h: Heap, a: int): Heap
    requires a in h.hdr && |h.lists| == BUCKETS
  {
    var i := Bucket(h.hdr[a].size);
    SetStatus(h, a, Held).(lists := h.lists[i := Without(h.lists[i], a)])
  }

  /** The carving half of block_split: block `k` keeps `size` bytes, the rest becomes a block of its own. */
  function Split(h: Heap, k: nat, size: nat): Heap
    requires k < |h.chain| && h.chain[k] in h.hdr && size + h.overhead <= h.hdr[h.chain[k]].size
  {
    var a := h.chain[k];
    var b := a + h.overhead + size;
    h.(chain := InsertAfter(h.chain, k, b),
       hdr := h.hdr[a := h.hdr[a].(size := size)][b := Header(h.hdr[a].size - size - h.overhead, Held)])
  }

  /** One absorption of block_merge: block `k` swallows its successor, header included. */
  function Join(h: Heap, k: nat): Heap
    requires k + 1 < |h.chain| && h.chain[k] in h.hdr && h.chain[k + 1] in h.hdr
  {
    var a, b := h.chain[k], h.chain[k + 1];
    h.(chain := DropAt(h.chain, k + 1),
       hdr := (h.hdr - {b})[a := h.hdr[a].(size := h.hdr[a].size + h.overhead + h.hdr[b].size)])
  }

  // ---------------------------------------------------------------- lemmas on the steps

  /** Blocks further along the chain start at or past the end of earlier ones. */
  lemma {:induction false} ChainOrder(h: Heap, i: int, j: int)
    requires Tiled(h) && 0 <= i < j < |h.chain|
    ensures EndOf(h, h.chain[i]) <= h.chain[j]
    decreases j - i
  {
    assert Touches(h, j - 1);
    if i + 1 < j { ChainOrder(h, i, j - 1); }
  }

  lemma ChainIn(h: Heap, k: nat)
    requires Tiled(h) && k < |h.chain|
    ensures h.chain[k] in h.hdr
  {
  }

  lemma ChainHas(h: Heap, a: int)
    requires Tiled(h) && a in h.hdr
    ensures a in h.chain
  {
  }

  lemma ChainDistinct(h: Heap)
    requires Tiled(h)
    ensures NoDup(h.chain)
  {
    forall i, j | 0 <= i < j < |h.chain| ensures h.chain[i] != h.chain[j] { ChainOrder(h, i, j); }
  }

  lemma {:induction false} InBounds(h: Heap, i: int)
    requires Tiled(h) && 0 <= i < |h.chain|
    ensures 0 <= h.chain[i] && EndOf(h, h.chain[i]) <= h.total
  {
    if i > 0 { ChainOrder(h, 0, i); }
    if i < |h.chain| - 1 { ChainOrder(h, i, |h.chain| - 1); }
  }

  /** Tiling looks at addresses and sizes alone. */
  lemma TiledSame(h: Heap, g: Heap)
    requires Tiled(h) && g.chain == h.chain && g.overhead == h.overhead && g.total == h.total
    requires g.hdr.Keys == h.hdr.Keys && forall a :: a in h.hdr ==> g.hdr[a].size == h.hdr[a].size
    ensures Tiled(g)
  {
    forall i | 0 <= i < |g.chain| - 1 ensures Touches(g, i) { assert Touches(h, i); }
  }

  lemma InsertFreeWF(h: Heap, a: int)
    requires WF(h) && a in h.hdr && h.hdr[a].status.Held?
    ensures WF(InsertFree(h, a))
  {
    var g := InsertFree(h, a);
    TiledSame(h, g);
    var i := Bucket(h.hdr[a].size);
    assert a !in h.lists[i];
    assert forall b :: b in g.lists[i] <==> b == a || b in h.lists[i];
    assert NoDup(g.lists[i]) by {
      assert forall k :: 0 < k < |g.lists[i]| ==> g.lists[i][k] == h.lists[i][k - 1];
    }
  }

  lemma RemoveFreeWF(h: Heap, a: int)
    requires WF(h) && a in h.hdr && h.hdr[a].status.Free?
    ensures WF(RemoveFree(h, a))
  {
    var g := RemoveFree(h, a);
    TiledSame(h, g);
    var i := Bucket(h.hdr[a].size);
    WithoutMembers(h.lists[i], a);
  }

  /** The address carved out by a split lies strictly inside a block, so no header is there. */
  lemma SplitFresh(h: Heap, k: nat, size: nat)
    requires Tiled(h) && k < |h.chain| && size + h.overhead <= h.hdr[h.chain[k]].size
    ensures h.chain[k] + h.overhead + size !in h.hdr && h.chain[k] + h.overhead + size !in h.chain
  {
    var b := h.chain[k] + h.overhead + size;
    forall i | 0 <= i < |h.chain| ensures h.chain[i] != b {
      if i < k { ChainOrder(h, i, k); }
      if k < i { ChainOrder(h, k, i); }
    }
  }

  lemma SplitMembers(h: Heap, k: nat, size: nat)
    requires Tiled(h) && k < |h.chain|
    requires size % ALIGN == 0 && size + 2 * h.overhead + ALIGN <= h.hdr[h.chain[k]].size
    ensures Members(Split(h, k, size))
  {
    hide Abut, InsertAfter;
    var g := Split(h, k, size);
    InsertAfterMembers(h.chain, k, h.chain[k] + h.overhead + size);
    assert (h.chain[k] + h.overhead + size) % ALIGN == 0;
    forall i | 0 <= i < |g.chain| ensures g.chain[i] in g.hdr { assert g.chain[i] in g.chain; }
  }

  lemma SplitTouchesBelow(h: Heap, k: nat, size: nat, i: nat)
    requires Tiled(h) && k < |h.chain| && i < |h.chain| && NoDup(h.chain)
    requires size + h.overhead <= h.hdr[h.chain[k]].size && h.chain[k] + h.overhead + size !in h.chain
    requires i < k
    ensures Touches(Split(h, k, size), i)
  {
    ChainIn(h, k);
    hide Members, Abut, NoDup, InsertAfter;
    TilingAt(h, i);
    NoDupAt(h.chain, i, k);
  }

  lemma SplitTouchesAbove(h: Heap, k: nat, size: nat, i: nat)
    requires Tiled(h) && k < |h.chain| && i < |h.chain| && NoDup(h.chain)
    requires size + h.overhead <= h.hdr[h.chain[k]].size && h.chain[k] + h.overhead + size !in h.chain
    requires k + 1 < i
    ensures Touches(Split(h, k, size), i)
  {
    ChainIn(h, k);
    hide Members, Abut, NoDup, InsertAfter;
    TilingAt(h, i - 1);
    NoDupAt(h.chain, k, i - 1);
    assert h.chain[i - 1] in h.chain;
  }

  lemma SplitTouches(h: Heap, k: nat, size: nat, i: nat)
    requires Tiled(h) && k < |h.chain| && i < |h.chain| && NoDup(h.chain)
    requires size + h.overhead <= h.hdr[h.chain[k]].size && h.chain[k] + h.overhead + size !in h.chain
    ensures Touches(Split(h, k, size), i)
  {
    ChainIn(h, k);
    hide Members, Abut, NoDup, InsertAfter;
    if i < k {
      SplitTouchesBelow(h, k, size, i);
    } else if i > k + 1 {
      SplitTouchesAbove(h, k, size, i);
    } else {
      TilingAt(h, k);
    }
  }

  lemma TilingAt(h: Heap, i: nat)
    requires Tiled(h)
    ensures i + 1 < |h.chain| ==> h.chain[i + 1] == h.chain[i] + h.overhead + SizeAt(h.hdr, h.chain[i])
  {
    if i + 1 < |h.chain| { assert Touches(h, i); }
  }

  lemma SplitTiled(h: Heap, k: nat, size: nat)
    requires Tiled(h) && k < |h.chain|
    requires size % ALIGN == 0 && size + 2 * h.overhead + ALIGN <= h.hdr[h.chain[k]].size
    ensures Tiled(Split(h, k, size))
  {
    ChainIn(h, k);
    hide Members, Touches;
    var g := Split(h, k, size);
    SplitMembers(h, k, size);
    SplitFresh(h, k, size);
    ChainDistinct(h);
    forall i | 0 <= i < |g.chain| - 1 ensures Touches(g, i) { SplitTouches(h, k, size, i); }
  }

  lemma SplitWF(h: Heap, k: nat, size: nat)
    requires WF(h) && k < |h.chain| && h.hdr[h.chain[k]].status.Held?
    requires size % ALIGN == 0 && size + 2 * h.overhead + ALIGN <= h.hdr[h.chain[k]].size
    ensures WF(Split(h, k, size))
  {
    hide Tiled, Bucket;
    SplitTiled(h, k, size);
    SplitFresh(h, k, size);
  }

  lemma JoinMembers(h: Heap, k: nat)
    requires Tiled(h) && k + 1 < |h.chain|
    ensures Members(Join(h, k))
  {
    var g := Join(h, k);
    ChainDistinct(h);
    DropAtMembers(h.chain, k + 1);
    forall i | 0 <= i < |g.chain| ensures g.chain[i] in g.hdr { assert g.chain[i] in g.chain; }
  }

  lemma JoinTiled(h: Heap, k: nat)
    requires Tiled(h) && k + 1 < |h.chain|
    ensures Tiled(Join(h, k))
  {
    JoinMembers(h, k);
    ChainIn(h, k);
    ChainIn(h, k + 1);
    var g := Join(h, k);
    JoinFirst(h, k);
    hide Members, DropAt, EndOf, Join;
    forall i | 0 <= i < |g.chain| - 1 ensures Touches(g, i) { JoinTouches(h, k, i); }
    JoinEnd(h, k, |g.chain| - 1);
  }

  lemma JoinFirst(h: Heap, k: nat)
    requires Tiled(h) && k + 1 < |h.chain|
    ensures var g := Join(h, k);
            |g.chain| == |h.chain| - 1 && g.chain[0] == h.chain[0] && g.total == h.total && g.overhead == h.overhead
  {
    hide Abut;
  }

  /** Block `i` of the joined chain ends where block `i`, or the one behind it, ended. */
  lemma JoinEnd(h: Heap, k: nat, i: nat)
    requires Tiled(h) && k + 1 < |h.chain| && i < |h.chain| - 1
    ensures var g := Join(h, k);
            i < |g.chain| && EndOf(g, g.chain[i]) == EndOf(h, h.chain[if i < k then i else i + 1])
  {
    ChainDistinct(h);
    assert Touches(h, k);
    ChainIn(h, k);
    ChainIn(h, k + 1);
    hide Abut, DropAt;
    var j := if i <= k then i else i + 1;
    assert Join(h, k).chain[i] == h.chain[j];
    if j < k {
      NoDupAt(h.chain, j, k);
      NoDupAt(h.chain, j, k + 1);
    } else if j > k {
      NoDupAt(h.chain, k, j);
      NoDupAt(h.chain, k + 1, j);
    } else {
      NoDupAt(h.chain, k, k + 1);
    }
  }

  lemma JoinTouches(h: Heap, k: nat, i: nat)
    requires Tiled(h) && k + 1 < |h.chain| && i < |h.chain| - 2
    ensures i + 1 < |Join(h, k).chain| && Touches(Join(h, k), i)
  {
    JoinEnd(h, k, i);
    var j := if i < k then i else i + 1;
    assert Touches(h, j);
    hide Tiled, DropAt, EndOf;
    assert Join(h, k).chain[i + 1] == h.chain[j + 1];
  }

  lemma JoinWF(h: Heap, k: nat)
    requires WF(h) && k + 1 < |h.chain|
    requires h.hdr[h.chain[k]].status.Held? && h.hdr[h.chain[k + 1]].status.Held?
    ensures WF(Join(h, k))
  {
    hide Tiled, Bucket;
    JoinTiled(h, k);
    ChainIn(h, k);
    ChainIn(h, k + 1);
  }
}
