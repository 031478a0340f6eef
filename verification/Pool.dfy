/**
 * The allocator of kernel/alloc.c with its headers and pointers. The block headers written into the pool memory
 * are held as one map per header field, keyed by the header's address; `heap` is the value they stand for.
 */
module Pool {
  import opened Basics
  import opened Bits
  import opened Lists
  import opened HeapModel
  import opened HeapSums
  import opened HeapOps
  import opened HeapMalloc
  import opened HeapRuns

  datatype Flags = Flags(free: bool, used: bool)

  function FlagsOf(st: Status): Flags {
    Flags(st.Free?, st.Used?)
  }

  /** The size and flag fields agree with the heap; headers left behind by merging are not marked used. */
  ghost predicate Fields(size: map<int, nat>, flags: map<int, Flags>, h: Heap) {
    && size.Keys == flags.Keys
    && (forall a :: a in h.hdr ==> a in size && size[a] == h.hdr[a].size && flags[a] == FlagsOf(h.hdr[a].status))
    && (forall a :: a in flags && a !in h.hdr ==> !flags[a].used)
  }

  /** Every free list is linked from its head. */
  ghost predicate FreeLinked(m: Links, heads: seq<int>, lists: seq<seq<int>>) {
    && |heads| == |lists| == BUCKETS
    && (forall i :: 0 <= i < BUCKETS ==> Linked(m, lists[i]))
    && (forall i :: 0 <= i < BUCKETS ==> heads[i] == Head(lists[i]))
  }

  /** A block is on one free list at most. */
  lemma OtherList(h: Heap, i: nat, j: nat)
    requires WF(h) && i < BUCKETS && j < BUCKETS && i != j
    ensures Disjoint(h.lists[i], h.lists[j])
    ensures forall x :: x in h.lists[j] ==> x !in h.lists[i] && x in h.hdr && h.hdr[x].status.Free?
  {
    forall x | x in h.lists[j] ensures x !in h.lists[i] && x in h.hdr && h.hdr[x].status.Free? {
      assert x in h.hdr && Bucket(h.hdr[x].size) == j;
    }
  }

  lemma InsertLinked(m: Links, heads: seq<int>, h: Heap, a: int)
    requires WF(h) && FreeLinked(m, heads, h.lists) && a in h.hdr && h.hdr[a].status.Held?
    ensures var i := Bucket(h.hdr[a].size);
            && (heads[i] == NULL || heads[i] in m)
            && FreeLinked(Push(m, heads[i], a), heads[i := a], InsertFree(h, a).lists)
  {
    var i := Bucket(h.hdr[a].size);
    SizeBound(h, a);
    hide Tiled, Bucket, Linked, Push;
    HeadLinked(m, h.lists[i]);
    assert a !in h.lists[i];
    PushLinked(m, h.lists[i], a);
    var m', g := Push(m, heads[i], a), InsertFree(h, a);
    assert g.lists[i] == [a] + h.lists[i];
    forall j | 0 <= j < BUCKETS ensures Linked(m', g.lists[j]) {
      if j != i {
        OtherList(h, i, j);
        PushOther(m, h.lists[i], a, h.lists[j]);
      }
    }
  }

  lemma {:induction false} WithoutIsDrop(s: seq<int>, a: int)
    requires a in s
    ensures Without(s, a) == DropAt(s, IndexOf(s, a))
  {
    if s[0] == a {
      assert DropAt(s, 0) == s[1..];
    } else {
      WithoutIsDrop(s[1..], a);
      DropPast(s, IndexOf(s[1..], a));
    }
  }

  lemma DropPast(s: seq<int>, k: nat)
    requires k + 1 < |s|
    ensures DropAt(s, k + 1) == [s[0]] + DropAt(s[1..], k)
  {
  }

  lemma RemoveLinked(m: Links, heads: seq<int>, h: Heap, a: int)
    requires WF(h) && FreeLinked(m, heads, h.lists) && a in h.hdr && h.hdr[a].status.Free?
    ensures var i := Bucket(h.hdr[a].size);
            && a in m && (m[a].prev == NULL || m[a].prev in m) && (m[a].next == NULL || m[a].next in m)
            && FreeLinked(Bypass(m, a), if m[a].prev == NULL then heads[i := m[a].next] else heads,
                          RemoveFree(h, a).lists)
  {
    var i := Bucket(h.hdr[a].size);
    hide Tiled, Bucket, Linked, Bypass, Without, Head;
    RemoveOwnList(m, h.lists[i], a);
    var m', g := Bypass(m, a), RemoveFree(h, a);
    assert g.lists == h.lists[i := Without(h.lists[i], a)];
    forall j | 0 <= j < BUCKETS ensures Linked(m', g.lists[j]) {
      if j != i { RemoveOtherList(m, heads, h, a, i, j); }
    }
  }

  lemma RemoveOwnList(m: Links, l: seq<int>, a: int)
    requires Linked(m, l) && a in l
    ensures a in m && (m[a].prev == NULL || m[a].prev in m) && (m[a].next == NULL || m[a].next in m)
    ensures Linked(Bypass(m, a), Without(l, a))
    ensures Head(Without(l, a)) == if m[a].prev == NULL then m[a].next else Head(l)
  {
    hide Linked, Bypass, DropAt, Without;
    var k := IndexOf(l, a);
    BypassLinked(m, l, k);
    WithoutIsDrop(l, a);
    LinkedNeighbours(m, l, k);
  }

  lemma RemoveOtherList(m: Links, heads: seq<int>, h: Heap, a: int, i: nat, j: nat)
    requires WF(h) && FreeLinked(m, heads, h.lists) && i < BUCKETS && j < BUCKETS && i != j && a in h.lists[i]
    requires a in m && (m[a].prev == NULL || m[a].prev in m) && (m[a].next == NULL || m[a].next in m)
    ensures Linked(Bypass(m, a), h.lists[j])
  {
    hide Tiled, Bucket, Linked, Bypass;
    OtherList(h, i, j);
    BypassOther(m, h.lists[i], IndexOf(h.lists[i], a), h.lists[j]);
  }

  lemma SplitFields(size: map<int, nat>, flags: map<int, Flags>, h: Heap, k: nat, n: nat)
    requires Tiled(h) && Fields(size, flags, h) && k < |h.chain| && n + h.overhead <= h.hdr[h.chain[k]].size
    requires h.hdr[h.chain[k]].status.Held?
    ensures var a, b := h.chain[k], h.chain[k] + h.overhead + n;
            && a in size && size[a] == h.hdr[a].size
            && Fields(size[b := size[a] - n - h.overhead][a := n], flags[b := Flags(false, false)], Split(h, k, n))
  {
    SplitFresh(h, k, n);
  }

  /** The accounts and free lists of two heaps are the same. */
  ghost predicate SameRest(h: Heap, g: Heap) {
    SameParams(h, g) && g.used == h.used && g.lists == h.lists
  }

  lemma SplitRest(h: Heap, k: nat, n: nat)
    requires k < |h.chain| && h.chain[k] in h.hdr && n + h.overhead <= h.hdr[h.chain[k]].size
    ensures var g, b := Split(h, k, n), h.chain[k] + h.overhead + n;
            SameRest(h, g) && b in g.hdr && g.hdr[b].status.Held?
  {
  }

  lemma JoinRest(h: Heap, k: nat)
    requires k + 1 < |h.chain| && h.chain[k] in h.hdr && h.chain[k + 1] in h.hdr && h.hdr[h.chain[k]].status.Held?
    ensures var g, a := Join(h, k), h.chain[k]; SameRest(h, g) && a in g.hdr && g.hdr[a].status.Held?
  {
  }

  lemma SplitLinked(m: Links, h: Heap, k: nat, n: nat)
    requires Tiled(h) && Linked(m, h.chain) && k < |h.chain| && n + h.overhead <= h.hdr[h.chain[k]].size
    ensures var a, b := h.chain[k], h.chain[k] + h.overhead + n;
            && a in m && (m[a].next == NULL || m[a].next in m) && Linked(Graft(m, a, b), Split(h, k, n).chain)
  {
    ChainIn(h, k);
    SizeBound(h, h.chain[k]);
    SplitFresh(h, k, n);
    hide Tiled, Linked, Graft, InsertAfter;
    GraftLinked(m, h.chain, k, h.chain[k] + h.overhead + n);
  }

  lemma JoinFields(size: map<int, nat>, flags: map<int, Flags>, h: Heap, k: nat)
    requires Tiled(h) && Fields(size, flags, h) && k + 1 < |h.chain|
    requires h.hdr[h.chain[k]].status.Held? && h.hdr[h.chain[k + 1]].status.Held?
    ensures var a, b := h.chain[k], h.chain[k + 1];
            && a in size && b in size && Fields(size[a := size[a] + h.overhead + size[b]], flags, Join(h, k))
  {
    ChainDistinct(h);
    NoDupAt(h.chain, k, k + 1);
  }

  lemma JoinLinked(m: Links, h: Heap, k: nat)
    requires Tiled(h) && Linked(m, h.chain) && k + 1 < |h.chain|
    ensures var b := h.chain[k + 1];
            && b in m && (m[b].prev == NULL || m[b].prev in m) && (m[b].next == NULL || m[b].next in m)
            && Linked(Bypass(m, b), Join(h, k).chain)
  {
    hide Abut, Linked, Bypass, DropAt;
    BypassLinked(m, h.chain, k + 1);
  }

  /** The header fields, the links and the list heads spell out the heap. */
  ghost predicate Spells(size: map<int, nat>, flags: map<int, Flags>, fl: Links, pl: Links, heads: seq<int>, h: Heap) {
    WF(h) && Fields(size, flags, h) && FreeLinked(fl, heads, h.lists) && Linked(pl, h.chain)
  }

  lemma SpellsAt(size: map<int, nat>, flags: map<int, Flags>, fl: Links, pl: Links, heads: seq<int>, h: Heap, a: int)
    requires Spells(size, flags, fl, pl, heads, h) && a in h.hdr
    ensures WF(h) && a in size && a in flags && size[a] == h.hdr[a].size && flags[a] == FlagsOf(h.hdr[a].status)
    ensures a in h.chain
  {
    ChainHas(h, a);
  }

  lemma SplitSpells(size: map<int, nat>, flags: map<int, Flags>, fl: Links, pl: Links, heads: seq<int>, h: Heap,
                    k: nat, n: nat)
    requires Spells(size, flags, fl, pl, heads, h) && k < |h.chain| && h.hdr[h.chain[k]].status.Held?
    requires n % ALIGN == 0 && n + 2 * h.overhead + ALIGN <= h.hdr[h.chain[k]].size
    ensures var a, b := h.chain[k], h.chain[k] + h.overhead + n;
            && a in pl && (pl[a].next == NULL || pl[a].next in pl) && a in size && size[a] == h.hdr[a].size
            && Spells(size[b := size[a] - n - h.overhead][a := n], flags[b := Flags(false, false)], fl,
                      Graft(pl, a, b), heads, Split(h, k, n))
  {
    ChainIn(h, k);
    hide Tiled, Indexed, Bucket, FreeLinked, Linked, Graft, Fields, Split;
    SplitFields(size, flags, h, k, n);
    SplitLinked(pl, h, k, n);
    SplitWF(h, k, n);
    SplitRest(h, k, n);
  }

  lemma JoinSpells(size: map<int, nat>, flags: map<int, Flags>, fl: Links, pl: Links, heads: seq<int>, h: Heap, k: nat)
    requires Spells(size, flags, fl, pl, heads, h) && k + 1 < |h.chain|
    requires h.hdr[h.chain[k]].status.Held? && h.hdr[h.chain[k + 1]].status.Held?
    ensures var a, b := h.chain[k], h.chain[k + 1];
            && b in pl && (pl[b].prev == NULL || pl[b].prev in pl) && (pl[b].next == NULL || pl[b].next in pl)
            && a in size && b in size
            && Spells(size[a := size[a] + h.overhead + size[b]], flags, fl, Bypass(pl, b), heads, Join(h, k))
            && SameRest(h, Join(h, k)) && a in Join(h, k).hdr && Join(h, k).hdr[a].status.Held?
  {
    ChainIn(h, k);
    ChainIn(h, k + 1);
    hide Tiled, Indexed, Bucket, FreeLinked, Linked, Bypass, Fields, Join;
    JoinFields(size, flags, h, k);
    JoinLinked(pl, h, k);
    JoinWF(h, k);
    JoinRest(h, k);
  }

  lemma SpellsWF(size: map<int, nat>, flags: map<int, Flags>, fl: Links, pl: Links, heads: seq<int>, h: Heap)
    requires Spells(size, flags, fl, pl, heads, h)
    ensures WF(h)
  {
  }

  lemma MarkSpells(size: map<int, nat>, flags: map<int, Flags>, fl: Links, pl: Links, heads: seq<int>, h: Heap,
                   a: int, used: bool, u: int)
    requires Spells(size, flags, fl, pl, heads, h) && a in h.hdr && h.hdr[a].status == (if used then Held else Used)
    ensures a in size && a in flags && size[a] == h.hdr[a].size
    ensures Spells(size, flags[a := flags[a].(used := used)], fl, pl, heads,
                   SetStatus(h, a, if used then Used else Held).(used := u))
  {
    var st := if used then Used else Held;
    MarkWF(h, a, st, u);
    MarkFields(size, flags, h, a, st);
    hide Linked, FreeLinked, WF, Fields;
  }

  lemma MarkWF(h: Heap, a: int, st: Status, u: int)
    requires WF(h) && a in h.hdr && !h.hdr[a].status.Free? && !st.Free?
    ensures WF(SetStatus(h, a, st).(used := u))
  {
    TiledSame(h, SetStatus(h, a, st).(used := u));
    hide Tiled, Bucket;
  }

  lemma MarkFields(size: map<int, nat>, flags: map<int, Flags>, h: Heap, a: int, st: Status)
    requires Fields(size, flags, h) && a in h.hdr && !h.hdr[a].status.Free? && !st.Free?
    ensures a in size && a in flags && size[a] == h.hdr[a].size
    ensures Fields(size, flags[a := flags[a].(used := st.Used?)], SetStatus(h, a, st))
  {
  }

  lemma MinFreeSpells(size: map<int, nat>, flags: map<int, Flags>, fl: Links, pl: Links, heads: seq<int>, h: Heap,
                      m: int)
    requires Spells(size, flags, fl, pl, heads, h)
    ensures Spells(size, flags, fl, pl, heads, h.(minFree := m))
  {
    hide Linked, FreeLinked;
    TiledSame(h, h.(minFree := m));
  }

  lemma SpellsLive(size: map<int, nat>, flags: map<int, Flags>, fl: Links, pl: Links, heads: seq<int>, h: Heap, a: int)
    requires Spells(size, flags, fl, pl, heads, h)
    ensures a in flags && flags[a].used <==> a in h.hdr && h.hdr[a].status.Used?
  {
  }

  lemma FreedHeld(h: Heap, b: int, out: int)
    requires Mid(h, {b}, out) && b in h.hdr
    ensures h.hdr[b].status.Held?
  {
  }

  lemma RemoveFreeHeld(h: Heap, a: int)
    requires WF(h) && a in h.hdr && h.hdr[a].status.Free?
    ensures WF(RemoveFree(h, a)) && a in RemoveFree(h, a).hdr && RemoveFree(h, a).hdr[a].status.Held?
  {
    RemoveFreeWF(h, a);
  }

  lemma CarveHeld(h: Heap, a: int, n: nat)
    requires WF(h) && a in h.hdr && h.hdr[a].status.Held?
    ensures a in Carve(h, a, n).hdr && Carve(h, a, n).hdr[a].status.Held?
    ensures h.hdr[a].size < n + h.overhead + (h.overhead + ALIGN) ==> Carve(h, a, n) == h
  {
    CarveUsedBlocks(h, a, n);
  }

  /** The refusal of tlsf_create: no room for the pool header and one smallest block. */
  predicate TooSmall(poolHeader: nat, headerBytes: nat, bytes: nat) {
    bytes < poolHeader + (headerBytes + ALIGN)
  }

  lemma BlankSpells(overhead: nat, total: nat)
    requires IsOverhead(overhead) && overhead + ALIGN <= total < U32
    ensures Spells(map[0 := total - overhead], map[0 := Flags(false, false)], map[], map[0 := Link(NULL, NULL)],
                   seq(BUCKETS, _ => NULL), Blank(overhead, total))
    ensures var h := Blank(overhead, total);
            && h.overhead == overhead && h.total == total && h.used == 0 && h.minFree == total
            && 0 in h.hdr && h.hdr[0].status.Held? && WF(h) && Create(overhead, total) == InsertFree(h, 0)
  {
    assert LinkAt(map[0 := Link(NULL, NULL)], [0], 0);
  }

  /** A block that can hold size and header is cut by the test of block_split alone. */
  lemma CutsFit(w: nat, o: nat, have: nat, want: nat)
    requires IsWord(w) && want + o <= have < U32
    ensures Minus(w, Minus(w, have, want), o) == have - want - o
  {
  }

  /** The two ways malloc goes on with the block it has taken out of its list. */
  lemma MallocTail(w: nat, h: Heap, n: nat, a: int)
    requires IsWord(w) && WF(h) && 0 < n < w && a == Search(h, Sum(w, Rounded(w, n), h.overhead)) != NULL
    ensures a in h.hdr && h.hdr[a].status.Free? && h.hdr[a].size < U32
    ensures var h1, want := RemoveFree(h, a), Rounded(w, n);
            && WF(h1) && a in h1.hdr && h1.hdr[a].status.Held? && h1.hdr[a].size == h.hdr[a].size
            && a in Carve(h1, a, want).hdr && Carve(h1, a, want).hdr[a].status.Held?
            && Malloc(w, h, n) ==
               if !Cuts(w, h.overhead, h.hdr[a].size, want) then Done(MarkUsed(h1, a), a + h.overhead)
               else if want + h.overhead > h.hdr[a].size then
                 Torn(Tear(a, CutAt(w, a, want, h.overhead), want % U32))
               else Done(MarkUsed(Carve(h1, a, want), a), a + h.overhead)
  {
    SearchFinds(h, Sum(w, Rounded(w, n), h.overhead));
    SizeBound(h, a);
    RemoveFreeHeld(h, a);
    hide Tiled, Indexed, Bucket, Search, Rounded, MarkUsed, Sum, Cuts, Carve;
    CarveHeld(RemoveFree(h, a), a, Rounded(w, n));
  }

  class Pool {
    const overhead: nat
    const total: nat
    var size: map<int, nat>
    var flags: map<int, Flags>
    var freeLink: Links
    var physLink: Links
    const freeList: array<int>
    const blockList: int
    var usedSize: int
    var minFree: int
    ghost var heap: Heap

    /** The headers spell out the heap. */
    ghost predicate Rep()
      reads this, freeList
    {
      && heap.overhead == overhead && heap.total == total && heap.used == usedSize && heap.minFree == minFree
      && freeList.Length == BUCKETS && blockList == 0
      && Spells(size, flags, freeLink, physLink, freeList[..], heap)
    }

    /** The state between calls. */
    ghost predicate Valid()
      reads this, freeList
    {
      Rep() && Steady(heap)
    }

    method Index(n: nat) returns (i: nat)
      ensures i == Bucket(n)
    {
      i := Fls(n % U32);
      FlsIsLog2(n % U32);
    }

    method BlockInsertFree(a: int)
      requires Rep() && a in heap.hdr && heap.hdr[a].status.Held?
      modifies this`flags, this`freeLink, this`heap, freeList
      ensures Rep() && heap == InsertFree(old(heap), a)
    {
      hide Tiled, Indexed, Bucket, FreeLinked, Linked, Push, Bypass, Without;
      var idx := Index(size[a]);
      InsertLinked(freeLink, freeList[..], heap, a);
      InsertFreeWF(heap, a);
      flags := flags[a := flags[a].(free := true)];
      freeLink := Push(freeLink, freeList[idx], a);
      freeList[idx] := a;
      heap := InsertFree(heap, a);
    }

    method BlockRemoveFree(a: int)
      requires Rep() && a in heap.hdr && heap.hdr[a].status.Free?
      modifies this`flags, this`freeLink, this`heap, freeList
      ensures Rep() && heap == RemoveFree(old(heap), a)
    {
      hide Tiled, Indexed, Bucket, FreeLinked, Linked, Push, Bypass, Without;
      var idx := Index(size[a]);
      RemoveLinked(freeLink, freeList[..], heap, a);
      RemoveFreeWF(heap, a);
      if freeLink[a].prev == NULL { freeList[idx] := freeLink[a].next; }
      freeLink := Bypass(freeLink, a);
      flags := flags[a := flags[a].(free := false)];
      heap := RemoveFree(heap, a);
    }

    /** The header writes of block_split. */
    method CutBlock(a: int, n: nat) returns (b: int)
      requires Rep() && a in heap.hdr && heap.hdr[a].status.Held?
      requires n % ALIGN == 0 && n + 2 * overhead + ALIGN <= heap.hdr[a].size
      modifies this`size, this`flags, this`physLink, this`heap
      ensures Rep() && old(a in heap.chain) && heap == Split(old(heap), old(IndexOf(heap.chain, a)), n)
      ensures b == a + overhead + n && b in heap.hdr && heap.hdr[b].status.Held?
    {
      hide Spells, WF, Split, Graft;
      SpellsAt(size, flags, freeLink, physLink, freeList[..], heap, a);
      ghost var k := IndexOf(heap.chain, a);
      SplitSpells(size, flags, freeLink, physLink, freeList[..], heap, k, n);
      SplitRest(heap, k, n);
      b := a + n + overhead;
      size := size[b := size[a] - n - overhead][a := n];
      flags := flags[b := Flags(false, false)];
      physLink := Graft(physLink, a, b);
      heap := Split(heap, k, n);
    }

    method BlockSplit(a: int, n: nat) returns (b: int)
      requires Rep() && a in heap.hdr && heap.hdr[a].status.Held?
      requires n % ALIGN == 0 && n + overhead <= heap.hdr[a].size
      modifies this`size, this`flags, this`freeLink, this`physLink, this`heap, freeList
      ensures Rep() && heap == Carve(old(heap), a, n)
      ensures b == if old(heap).hdr[a].size >= n + overhead + (overhead + ALIGN) then a + overhead + n else NULL
    {
      hide Tiled, Indexed, Bucket, FreeLinked, Linked, Split, InsertFree;
      var remaining := size[a] - n - overhead;
      if remaining < overhead + ALIGN { return NULL; }
      b := CutBlock(a, n);
      BlockInsertFree(b);
    }

    /** One absorption of block_merge: `a` takes in its successor `next`; `f` is the one of them that was free. */
    method Absorb(a: int, next: int, f: int, ghost k: nat)
      requires Rep() && k + 1 < |heap.chain| && heap.chain[k] == a && heap.chain[k + 1] == next
      requires Pair(heap, k, if f == a then next else a, f)
      modifies this`size, this`flags, this`freeLink, this`physLink, this`heap, freeList
      ensures Rep() && heap == Join(RemoveFree(old(heap), f), k) && a in heap.hdr && heap.hdr[a].status.Held?
    {
      hide Spells, WF, Join, Bypass;
      BlockRemoveFree(f);
      JoinSpells(size, flags, freeLink, physLink, freeList[..], heap, k);
      size := size[a := size[a] + overhead + size[next]];
      physLink := Bypass(physLink, next);
      heap := Join(heap, k);
    }

    method BlockMerge(a: int) returns (b: int)
      requires Rep() && a in heap.hdr && heap.hdr[a].status.Held?
      modifies this`size, this`flags, this`freeLink, this`physLink, this`heap, freeList
      ensures Rep() && old(WF(heap)) && b == MergePrev(old(heap), a).1
      ensures var h := MergePrev(old(heap), a).0; WF(h) && b in h.hdr && heap == MergeNext(h, b)
    {
      b := MergeBack(a);
      MergeForward(b);
    }

    method MergeBack(a: int) returns (b: int)
      requires Rep() && a in heap.hdr && heap.hdr[a].status.Held?
      modifies this`size, this`flags, this`freeLink, this`physLink, this`heap, freeList
      ensures Rep() && old(WF(heap)) && (heap, b) == MergePrev(old(heap), a)
      ensures b in heap.hdr && heap.hdr[b].status.Held?
    {
      hide Abut, Indexed, Bucket, FreeLinked, Linked, Join, RemoveFree;
      ghost var k := IndexOf(heap.chain, a);
      LinkedNeighbours(physLink, heap.chain, k);
      var prev := physLink[a].prev;
      b := a;
      if prev != NULL && flags[prev].free {
        Absorb(prev, a, prev, k - 1);
        b := prev;
      }
    }

    method MergeForward(a: int)
      requires Rep() && a in heap.hdr && heap.hdr[a].status.Held?
      modifies this`size, this`flags, this`freeLink, this`physLink, this`heap, freeList
      ensures Rep() && old(WF(heap)) && heap == MergeNext(old(heap), a)
    {
      hide Abut, Indexed, Bucket, FreeLinked, Linked, Join, RemoveFree;
      ghost var k := IndexOf(heap.chain, a);
      LinkedNeighbours(physLink, heap.chain, k);
      var next := physLink[a].next;
      if next != NULL && flags[next].free { Absorb(a, next, next, k); }
    }

    /** The bucket search of tlsf_malloc. */
    method FindFit(need: nat) returns (a: int)
      requires Rep()
      ensures |heap.lists| == BUCKETS && a == Search(heap, need)
    {
      hide Tiled, Indexed, Bucket, Fields, Linked;
      var start := Index(need);
      var fl := start;
      while fl < BUCKETS
        invariant start <= fl <= BUCKETS && |heap.lists| == BUCKETS
        invariant fl > start ==>
          && FirstFit(heap.hdr, heap.lists[start], need) == NULL
          && FirstHead(heap.lists, start + 1) == FirstHead(heap.lists, fl)
      {
        a := freeList[fl];
        if fl == start { a := ScanBucket(a, start, need); }
        if a != NULL { HeadLinked(freeLink, heap.lists[fl]); return; }
        HeadLinked(freeLink, heap.lists[fl]);
        fl := fl + 1;
      }
      a := NULL;
    }

    /** The scan of the start bucket for a block that is large enough. */
    method ScanBucket(head: int, i: nat, need: nat) returns (a: int)
      requires Rep() && i < BUCKETS && |heap.lists| == BUCKETS && head == Head(heap.lists[i])
      ensures a == FirstFit(heap.hdr, heap.lists[i], need)
    {
      hide Tiled, Bucket, Linked;
      ghost var l := heap.lists[i];
      ghost var j := 0;
      a := head;
      if l != [] { LinkedNeighbours(freeLink, l, 0); }
      while a != NULL && size[a] < need
        invariant 0 <= j <= |l| && a == Head(l[j..]) && (j < |l| ==> a in size && a in heap.hdr && a != NULL)
        invariant FirstFit(heap.hdr, l, need) == FirstFit(heap.hdr, l[j..], need)
        decreases |l| - j
      {
        LinkedNeighbours(freeLink, l, j);
        assert l[j..][1..] == l[j + 1..];
        if j + 1 < |l| { assert l[j + 1] in l; }
        a := freeLink[a].next;
        j := j + 1;
      }
    }

    /** tlsf_pool_free_size */
    method PoolFreeSize() returns (free: nat)
      requires Rep()
      ensures free == FreeSize(heap)
    {
      hide Tiled, Bucket, Linked;
      free := 0;
      for i := 0 to BUCKETS
        invariant |heap.lists| == BUCKETS && free + ListsSum(heap.hdr, overhead, heap.lists[i..]) == FreeSize(heap)
      {
        var sum := ListSize(freeList[i], i);
        assert heap.lists[i..][1..] == heap.lists[i + 1..];
        free := free + sum;
      }
    }

    method ListSize(head: int, i: nat) returns (sum: nat)
      requires Rep() && i < BUCKETS && |heap.lists| == BUCKETS && head == Head(heap.lists[i])
      ensures sum == ListSum(heap.hdr, overhead, heap.lists[i])
    {
      hide Tiled, Bucket, Linked;
      ghost var l := heap.lists[i];
      ghost var j := 0;
      var block := head;
      sum := 0;
      if l != [] { LinkedNeighbours(freeLink, l, 0); }
      while block != NULL
        invariant 0 <= j <= |l| && block == Head(l[j..])
                  && (j < |l| ==> block in size && block in heap.hdr && block != NULL)
        invariant sum + ListSum(heap.hdr, overhead, l[j..]) == ListSum(heap.hdr, overhead, l)
        decreases |l| - j
      {
        LinkedNeighbours(freeLink, l, j);
        assert l[j..][1..] == l[j + 1..];
        if j + 1 < |l| { assert l[j + 1] in l; }
        sum := sum + size[block] + overhead;
        block := freeLink[block].next;
        j := j + 1;
      }
    }

    /** Flag a held block used or no longer used, and move its bytes between the accounts. */
    method Mark(a: int, used: bool)
      requires Rep() && a in heap.hdr && heap.hdr[a].status == (if used then Held else Used)
      modifies this`flags, this`usedSize, this`heap
      ensures Rep() && old(a in heap.hdr)
      ensures heap == SetStatus(old(heap), a, if used then Used else Held)
                      .(used := old(heap).used + (if used then 1 else -1) * (old(heap).hdr[a].size + overhead))
    {
      hide Spells, WF;
      SpellsAt(size, flags, freeLink, physLink, freeList[..], heap, a);
      MarkSpells(size, flags, freeLink, physLink, freeList[..], heap, a, used,
                 if used then usedSize + (size[a] + overhead) else usedSize - (size[a] + overhead));
      flags := flags[a := flags[a].(used := used)];
      usedSize := if used then usedSize + (size[a] + overhead) else usedSize - (size[a] + overhead);
      heap := SetStatus(heap, a, if used then Used else Held).(used := usedSize);
    }

    /** The accounts of tlsf_malloc once its block is taken. */
    method Account(a: int)
      requires Rep() && a in heap.hdr && heap.hdr[a].status.Held?
      modifies this, freeList
      ensures Rep() && old(a in heap.hdr) && heap == MarkUsed(old(heap), a)
    {
      hide Spells, WF, FreeSize;
      Mark(a, true);
      var free := PoolFreeSize();
      if free < minFree {
        MinFreeSpells(size, flags, freeLink, physLink, freeList[..], heap, free);
        minFree := free;
        heap := heap.(minFree := free);
      }
    }

    /** tlsf_malloc where size_t has `w` values, up to the write that tears the block it took. */
    method Malloc(w: nat, n: nat) returns (p: int, torn: Option<Tear>)
      requires Valid() && IsWord(w) && n < w
      modifies this, freeList
      ensures old(WF(heap)) && (torn.None? ==> Valid() && Done(heap, p) == HeapMalloc.Malloc(w, old(heap), n))
      ensures torn.Some? ==> Rep() && Torn(torn.value) == HeapMalloc.Malloc(w, old(heap), n)
      ensures torn.Some? ==> torn.value.block in old(heap).hdr && heap == RemoveFree(old(heap), torn.value.block)
    {
      hide Spells, WF, Coalesced, FreeSize, UsedBytes, Search, RemoveFree, MarkUsed, Carve, Rounded, Sum, Minus;
      SpellsWF(size, flags, freeLink, physLink, freeList[..], heap);
      DoneIff(w, heap, n);
      if n == 0 { return NULL, None; }
      var want := Rounded(w, n);
      var a := FindFit(Sum(w, want, overhead));
      if a == NULL { return NULL, None; }
      MallocTail(w, heap, n, a);
      hide HeapMalloc.Malloc;
      BlockRemoveFree(a);
      SpellsAt(size, flags, freeLink, physLink, freeList[..], heap, a);
      if size[a] >= Sum(w, Sum(w, want, overhead), overhead + ALIGN) {
        if want + overhead > size[a] {
          if Minus(w, Minus(w, size[a], want), overhead) >= overhead + ALIGN {
            return NULL, Some(Tear(a, CutAt(w, a, want, overhead), want % U32));
          }
        } else {
          CutsFit(w, overhead, size[a], want);
          CarveHeld(heap, a, want);
          var _ := BlockSplit(a, want);
        }
      }
      Account(a);
      return a + overhead, None;
    }

    /** tlsf_free. A pointer in front of which no header was written fails the signature test. */
    method Free(p: int)
      requires Valid()
      modifies this, freeList
      ensures Valid() && old(Steady(heap)) && heap == FreePtr(old(heap), p)
    {
      hide Spells, Steady, WF, MergePrev, MergeNext, InsertFree;
      FreeSteady(heap, p);
      if p == NULL { return; }
      var a := p - overhead;
      SpellsLive(size, flags, freeLink, physLink, freeList[..], heap, a);
      if a !in flags || !flags[a].used { return; }
      FreeSteps(heap, a);
      Mark(a, false);
      var b := BlockMerge(a);
      FreedHeld(heap, b, if b in heap.hdr then heap.hdr[b].size + heap.overhead else 0);
      BlockInsertFree(b);
    }

    /** The fields tlsf_create writes before listing the one block. */
    constructor (headerBytes: nat, bytes: nat)
      requires IsOverhead(headerBytes) && headerBytes + ALIGN <= bytes < U32
      ensures Rep() && fresh(freeList) && heap == Blank(headerBytes, bytes) && overhead == headerBytes && total == bytes
    {
      hide Spells, Blank;
      overhead := headerBytes;
      total := bytes;
      size := map[0 := bytes - headerBytes];
      flags := map[0 := Flags(false, false)];
      freeLink := map[];
      physLink := map[0 := Link(NULL, NULL)];
      freeList := new int[BUCKETS](_ => NULL);
      blockList := 0;
      usedSize := 0;
      minFree := bytes;
      heap := Blank(headerBytes, bytes);
      new;
      BlankSpells(overhead, total);
      assert freeList[..] == seq(BUCKETS, _ => NULL);
    }
  }

  method TlsfCreate(hasMem: bool, poolHeader: nat, headerBytes: nat, bytes: nat) returns (pool: Pool?)
    requires IsOverhead(headerBytes) && bytes < poolHeader + U32
    ensures pool == null <==> !hasMem || bytes < poolHeader + headerBytes + 4
    ensures pool != null ==> fresh(pool) && pool.Valid() && pool.heap == Create(headerBytes, bytes - poolHeader)
  {
    hide Spells, Steady, WF, Blank, Create, InsertFree;
    if !hasMem || TooSmall(poolHeader, headerBytes, bytes) { return null; }
    pool := new Pool(headerBytes, bytes - poolHeader);
    BlankSpells(headerBytes, bytes - poolHeader);
    pool.BlockInsertFree(0);
    CreateSteady(headerBytes, bytes - poolHeader);
  }
}
