/** tlsf_create, tlsf_malloc and tlsf_free of kernel/alloc.c on heap values, and what every run of them keeps. */
module HeapOps {
  import opened Basics
  import opened Bits
  import opened Lists
  import opened HeapModel
  import opened HeapSums

  // ---------------------------------------------------------------- operations

  /** First block of a list with at least `need` bytes, or NULL. */
  function FirstFit(hdr: map<int, Header>, l: seq<int>, need: nat): int {
    if l == [] then NULL else if SizeAt(hdr, l[0]) >= need then l[0] else FirstFit(hdr, l[1..], need)
  }

  /** Head of the first non-empty list from bucket `i` on, or NULL. */
  function FirstHead(ls: seq<seq<int>>, i: nat): int
    decreases |ls| - i
  {
    if i >= |ls| then NULL else if ls[i] != [] then ls[i][0] else FirstHead(ls, i + 1)
  }

  /** The bucket search: scan the start bucket for a fit, then take any head past it unchecked. */
  function Search(h: Heap, need: nat): int
    requires |h.lists| == BUCKETS
  {
    var a := FirstFit(h.hdr, h.lists[Bucket(need)], need);
    if a != NULL then a else FirstHead(h.lists, Bucket(need) + 1)
  }

  /** The split made by malloc: cut the tail off when it can hold a header and one unit. */
  function Carve(h: Heap, a: int, size: nat): Heap
    requires WF(h) && a in h.hdr
  {
    if h.hdr[a].size >= size + h.overhead + (h.overhead + ALIGN) then
      InsertFree(Split(h, IndexOf(h.chain, a), size), a + h.overhead + size)
    else h
  }

  lemma CarveHas(h: Heap, a: int, size: nat)
    requires WF(h) && a in h.hdr
    ensures a in Carve(h, a, size).hdr
  {
    hide Tiled, Indexed, Bucket, InsertAfter;
  }

  function MarkUsed(h: Heap, a: int): (g: Heap)
    requires a in h.hdr
  {
    var g := SetStatus(h, a, Used).(used := h.used + h.hdr[a].size + h.overhead);
    g.(minFree := if FreeSize(g) < g.minFree then FreeSize(g) else g.minFree)
  }

  /** malloc of a rounded size, as long as no sum runs over. */
  function Allocate(h: Heap, size: nat): (r: (Heap, int))
    requires WF(h)
  {
    var a := Search(h, size + h.overhead);
    if a == NULL then (h, NULL) else
    SearchFinds(h, size + h.overhead);
    RemoveFreeWF(h, a);
    (MarkUsed(Carve(RemoveFree(h, a), a, size), a), a + h.overhead)
  }

  /** First half of block_merge: a free predecessor takes the block in. */
  function MergePrev(h: Heap, a: int): (r: (Heap, int))
    requires WF(h) && a in h.hdr
  {
    var k := IndexOf(h.chain, a);
    if k > 0 && h.hdr[h.chain[k - 1]].status.Free? then (Join(RemoveFree(h, h.chain[k - 1]), k - 1), h.chain[k - 1])
    else (h, a)
  }

  /** Second half of block_merge: the block takes a free successor in. */
  function MergeNext(h: Heap, a: int): Heap
    requires WF(h) && a in h.hdr
  {
    var k := IndexOf(h.chain, a);
    if k + 1 < |h.chain| && h.hdr[h.chain[k + 1]].status.Free? then Join(RemoveFree(h, h.chain[k + 1]), k)
    else h
  }

  function Release(h: Heap, a: int): Heap
    requires a in h.hdr
  {
    SetStatus(h, a, Held).(used := h.used - h.hdr[a].size - h.overhead)
  }

  predicate Live(h: Heap, p: int) {
    p != NULL && p - h.overhead in h.hdr && h.hdr[p - h.overhead].status.Used?
  }

  /** Bytes that freeing `p` takes off the used account. */
  function Returned(h: Heap, p: int): nat {
    if Live(h, p) then h.hdr[p - h.overhead].size + h.overhead else 0
  }

  function FreePtr(h: Heap, p: int): (g: Heap)
    requires Steady(h)
  {
    if !Live(h, p) then h else
    var a := p - h.overhead;
    FreeSteps(h, a);
    var (h2, b) := MergePrev(Release(h, a), a);
    InsertFree(MergeNext(h2, b), b)
  }

  /** A fresh pool: one free block spanning it, listed in its bucket. */
  function Create(overhead: nat, total: nat): (h: Heap)
    requires overhead + ALIGN <= total
  {
    InsertFree(Blank(overhead, total), 0)
  }

  /** The pool just before its one block is listed. */
  function Blank(overhead: nat, total: nat): Heap
    requires overhead + ALIGN <= total
  {
    Heap(overhead, total, [0], map[0 := Header(total - overhead, Held)], seq(BUCKETS, i => []), 0, total)
  }

  // ---------------------------------------------------------------- the search

  lemma {:induction false} FirstFitSpec(h: map<int, Header>, l: seq<int>, need: nat)
    requires NULL !in l
    ensures var a := FirstFit(h, l, need);
            if a == NULL then forall b :: b in l ==> SizeAt(h, b) < need else a in l && SizeAt(h, a) >= need
  {
    if l != [] { FirstFitSpec(h, l[1..], need); }
  }

  lemma {:induction false} FirstHeadSpec(ls: seq<seq<int>>, i: nat)
    requires i <= |ls| && forall j :: 0 <= j < |ls| ==> NULL !in ls[j]
    ensures var a := FirstHead(ls, i);
            if a == NULL then forall j :: i <= j < |ls| ==> ls[j] == []
            else exists j :: i <= j < |ls| && a in ls[j]
    decreases |ls| - i
  {
    if i < |ls| && ls[i] == [] { FirstHeadSpec(ls, i + 1); }
  }

  lemma {:induction false} FirstFitLeast(h: map<int, Header>, l: seq<int>, need: nat) returns (k: nat)
    requires NULL !in l
    ensures k <= |l| && (forall j :: 0 <= j < k ==> SizeAt(h, l[j]) < need)
    ensures if k == |l| then FirstFit(h, l, need) == NULL else FirstFit(h, l, need) == l[k] && SizeAt(h, l[k]) >= need
  {
    if l == [] || SizeAt(h, l[0]) >= need {
      k := 0;
    } else {
      var m := FirstFitLeast(h, l[1..], need);
      k := m + 1;
      forall j | 0 <= j < k ensures SizeAt(h, l[j]) < need { if j > 0 { assert l[j] == l[1..][j - 1]; } }
    }
  }

  lemma {:induction false} FirstHeadLeast(ls: seq<seq<int>>, i: nat) returns (k: nat)
    requires i <= |ls|
    ensures i <= k <= |ls| && (forall j :: i <= j < k ==> ls[j] == [])
    ensures if k == |ls| then FirstHead(ls, i) == NULL else ls[k] != [] && FirstHead(ls, i) == ls[k][0]
    decreases |ls| - i
  {
    if i < |ls| && ls[i] == [] { k := FirstHeadLeast(ls, i + 1); } else { k := i; }
  }

  /** The first block of the start bucket that is large enough. */
  ghost predicate FirstIn(h: Heap, l: seq<int>, need: nat, a: int) {
    exists k :: && 0 <= k < |l| && a == l[k] && SizeAt(h.hdr, a) >= need
                && forall j :: 0 <= j < k ==> SizeAt(h.hdr, l[j]) < need
  }

  /** The head of the lowest bucket above `i` that is not empty. */
  ghost predicate LowestHead(h: Heap, i: nat, a: int) {
    exists k :: && i < k < |h.lists| && h.lists[k] != [] && a == h.lists[k][0]
                && forall j :: i < j < k ==> h.lists[j] == []
  }

  /** The search takes the first block of its bucket that is large enough, or else the lowest larger one's head. */
  lemma SearchFirst(h: Heap, need: nat)
    requires WF(h)
    ensures var a, l := Search(h, need), h.lists[Bucket(need)];
            if exists b :: b in l && SizeAt(h.hdr, b) >= need then FirstIn(h, l, need, a)
            else a == NULL || LowestHead(h, Bucket(need), a)
  {
    ListsNonNull(h);
    hide Tiled, Indexed, Bucket, FirstFit, FirstHead;
    var l := h.lists[Bucket(need)];
    var k := FirstFitLeast(h.hdr, l, need);
    var m := FirstHeadLeast(h.lists, Bucket(need) + 1);
    if exists b :: b in l && SizeAt(h.hdr, b) >= need {
      var b :| b in l && SizeAt(h.hdr, b) >= need;
      var j :| 0 <= j < |l| && l[j] == b;
      assert k <= j;
    }
  }

  lemma ListsNonNull(h: Heap)
    requires WF(h)
    ensures forall j :: 0 <= j < BUCKETS ==> NULL !in h.lists[j]
  {
    forall i | 0 <= i < |h.chain| ensures h.chain[i] != NULL { InBounds(h, i); }
    assert NULL !in h.hdr;
  }

  lemma SearchFinds(h: Heap, need: nat)
    requires WF(h)
    ensures var a := Search(h, need); a != NULL ==> a in h.hdr && h.hdr[a].status.Free? && a >= 0
  {
    if Search(h, need) in h.hdr { SizeBound(h, Search(h, need)); }
    ListsNonNull(h);
    FirstFitSpec(h.hdr, h.lists[Bucket(need)], need);
    FirstHeadSpec(h.lists, Bucket(need) + 1);
  }

  lemma SizeBound(h: Heap, a: int)
    requires Tiled(h) && a in h.hdr
    ensures 0 <= a && h.hdr[a].size < h.total < U32
  {
    InBounds(h, IndexOf(h.chain, a));
  }

  lemma BucketMono(x: nat, y: nat)
    requires x <= y < U32
    ensures Bucket(x) <= Bucket(y)
  {
    Log2Mono(x, y);
  }

  /** A block past the start bucket is larger than any size of the start bucket. */
  lemma PastBucketFits(need: nat, size: nat)
    requires need < U32 && size < U32 && Bucket(need) < Bucket(size)
    ensures need < size
  {
    if size <= need { Log2Mono(size, need); }
  }

  /** Soundness and completeness of the bucket search, for needs of 32 bits. */
  lemma SearchCorrect(h: Heap, need: nat)
    requires WF(h) && need < U32
    ensures var a := Search(h, need);
            if a == NULL then forall b :: b in h.hdr && h.hdr[b].status.Free? ==> h.hdr[b].size < need
            else a in h.hdr && h.hdr[a].status.Free? && h.hdr[a].size >= need
  {
    hide Tiled, Bucket, Log2, FirstFit, FirstHead;
    ListsNonNull(h);
    FirstFitSpec(h.hdr, h.lists[Bucket(need)], need);
    FirstHeadSpec(h.lists, Bucket(need) + 1);
    var a := Search(h, need);
    if a == NULL {
      forall b | b in h.hdr && h.hdr[b].status.Free? ensures h.hdr[b].size < need {
        SizeBound(h, b);
        if h.hdr[b].size >= need { BucketMono(need, h.hdr[b].size); }
      }
    } else if FirstFit(h.hdr, h.lists[Bucket(need)], need) == NULL {
      SizeBound(h, a);
      PastBucketFits(need, h.hdr[a].size);
    }
  }

  // ---------------------------------------------------------------- between the steps

  /** Exactly the blocks of `S` are held, and the accounts are short by `out` bytes. */
  ghost predicate Mid(h: Heap, S: set<int>, out: int) {
    && WF(h) && Coalesced(h)
    && (forall a :: a in h.hdr ==> (h.hdr[a].status.Held? <==> a in S))
    && h.used + FreeSize(h) + out == h.total
    && h.used == UsedBytes(h)
  }

  /** Neither neighbour of block `k` is free. */
  ghost predicate Lonely(h: Heap, k: int) {
    !IsFree(h, k - 1) && !IsFree(h, k + 1)
  }

  ghost predicate SameParams(h: Heap, g: Heap) {
    g.overhead == h.overhead && g.minFree == h.minFree && g.total == h.total
  }

  /** Same addresses and sizes, same parameters. */
  ghost predicate Keeps(h: Heap, g: Heap) {
    && SameParams(h, g) && g.chain == h.chain && g.hdr.Keys == h.hdr.Keys
    && forall a :: a in h.hdr ==> g.hdr[a].size == h.hdr[a].size
  }

  lemma RemoveFreeCoalesced(h: Heap, a: int)
    requires Tiled(h) && Coalesced(h) && |h.lists| == BUCKETS && a in h.hdr && h.hdr[a].status.Free?
    ensures Coalesced(RemoveFree(h, a)) && Lonely(RemoveFree(h, a), IndexOf(h.chain, a))
  {
    ChainHas(h, a);
    hide Tiled, Bucket, Without;
    var g, k := RemoveFree(h, a), IndexOf(h.chain, a);
    forall i | 0 <= i < |g.chain| - 1 ensures !BothFree(g, i) { assert !BothFree(h, i); }
    if k > 0 { assert !BothFree(h, k - 1); }
    if k < |h.chain| - 1 { assert !BothFree(h, k); }
  }

  lemma RemoveFreeMid(h: Heap, a: int, S: set<int>, out: int)
    requires Mid(h, S, out) && a in h.hdr && h.hdr[a].status.Free?
    ensures Mid(RemoveFree(h, a), S + {a}, out + h.hdr[a].size + h.overhead)
    ensures Lonely(RemoveFree(h, a), IndexOf(h.chain, a))
    ensures Keeps(h, RemoveFree(h, a))
  {
    ChainHas(h, a);
    assert HeldAre(h, S);
    RemoveHeldAre(h, a, S);
    hide Tiled, Indexed, Coalesced, Lonely, FreeSize, UsedBytes, RemoveFree, Keeps;
    RemoveFreeWF(h, a);
    RemoveFreeSize(h, a);
    RemoveFreeUsed(h, a);
    RemoveFreeCoalesced(h, a);
  }

  lemma RemoveFreeUsed(h: Heap, a: int)
    requires Tiled(h) && |h.lists| == BUCKETS && a in h.hdr && h.hdr[a].status.Free?
    ensures UsedBytes(RemoveFree(h, a)) == UsedBytes(h) && RemoveFree(h, a).used == h.used
    ensures RemoveFree(h, a).total == h.total
  {
    hide UsedBytes, Bucket, Without;
    SetStatusUsed(h, a, Held);
    UsedBytesSame(SetStatus(h, a, Held), RemoveFree(h, a));
    hide Tiled;
  }

  lemma RemoveHeldAre(h: Heap, a: int, S: set<int>)
    requires HeldAre(h, S) && a in h.hdr && |h.lists| == BUCKETS
    ensures HeldAre(RemoveFree(h, a), S + {a}) && Keeps(h, RemoveFree(h, a))
  {
    hide Bucket, Without;
  }

  lemma UsedBytesSame(h: Heap, g: Heap)
    requires h.hdr == g.hdr && h.chain == g.chain && h.overhead == g.overhead
    ensures UsedBytes(h) == UsedBytes(g)
  {
  }

  lemma InsertFreeCoalesced(h: Heap, a: int)
    requires Tiled(h) && Coalesced(h) && |h.lists| == BUCKETS && a in h.hdr
    requires a in h.chain && Lonely(h, IndexOf(h.chain, a))
    ensures Coalesced(InsertFree(h, a))
  {
    ChainDistinct(h);
    hide Tiled, Bucket;
    var g, k := InsertFree(h, a), IndexOf(h.chain, a);
    forall i | 0 <= i < |g.chain| - 1 ensures !BothFree(g, i) { assert !BothFree(h, i); }
  }

  lemma InsertFreeMid(h: Heap, a: int, S: set<int>, out: int)
    requires Mid(h, S, out) && a in h.hdr && a in S && Lonely(h, IndexOf(h.chain, a))
    ensures Mid(InsertFree(h, a), S - {a}, out - h.hdr[a].size - h.overhead)
  {
    ChainHas(h, a);
    assert HeldAre(h, S);
    InsertHeldAre(h, a, S);
    hide Tiled, Indexed, Coalesced, Lonely, FreeSize, UsedBytes, InsertFree;
    InsertFreeWF(h, a);
    InsertFreeSize(h, a);
    InsertFreeUsed(h, a);
    InsertFreeCoalesced(h, a);
  }

  lemma InsertFreeUsed(h: Heap, a: int)
    requires Tiled(h) && |h.lists| == BUCKETS && a in h.hdr && h.hdr[a].status.Held?
    ensures UsedBytes(InsertFree(h, a)) == UsedBytes(h) && InsertFree(h, a).used == h.used
    ensures InsertFree(h, a).total == h.total
  {
    hide UsedBytes, Bucket;
    SetStatusUsed(h, a, Free);
    UsedBytesSame(SetStatus(h, a, Free), InsertFree(h, a));
    hide Tiled;
  }

  lemma InsertHeldAre(h: Heap, a: int, S: set<int>)
    requires HeldAre(h, S) && a in h.hdr && |h.lists| == BUCKETS
    ensures HeldAre(InsertFree(h, a), S - {a})
  {
    hide Bucket;
  }

  ghost predicate HeldAre(h: Heap, S: set<int>) {
    forall a :: a in h.hdr ==> (h.hdr[a].status.Held? <==> a in S)
  }

  lemma SplitHeld(h: Heap, k: nat, size: nat, S: set<int>)
    requires Tiled(h) && HeldAre(h, S) && k < |h.chain| && h.chain[k] in S
    requires size + h.overhead <= h.hdr[h.chain[k]].size
    ensures HeldAre(Split(h, k, size), S + {h.chain[k] + h.overhead + size})
    ensures h.hdr[h.chain[k]].status.Held? && Split(h, k, size).used == h.used && Split(h, k, size).total == h.total
  {
    ChainIn(h, k);
    SplitFresh(h, k, size);
    hide Tiled, InsertAfter;
  }

  lemma SplitMid(h: Heap, k: nat, size: nat, S: set<int>, out: int)
    requires Mid(h, S, out) && k < |h.chain| && h.chain[k] in S && Lonely(h, k)
    requires size % ALIGN == 0 && size + 2 * h.overhead + ALIGN <= h.hdr[h.chain[k]].size
    ensures Mid(Split(h, k, size), S + {h.chain[k] + h.overhead + size}, out)
    ensures Lonely(Split(h, k, size), k + 1)
  {
    ChainIn(h, k);
    assert HeldAre(h, S);
    SplitHeld(h, k, size, S);
    hide WF, Coalesced, Lonely, FreeSize, UsedBytes, Split;
    SplitWF(h, k, size);
    SplitFreeSize(h, k, size);
    SplitUsed(h, k, size);
    SplitCoalesced(h, k, size);
  }

  lemma SplitFreeAt(h: Heap, k: nat, size: nat, i: int)
    requires Tiled(h) && k < |h.chain| && h.hdr[h.chain[k]].status.Held? && size + h.overhead <= h.hdr[h.chain[k]].size
    ensures IsFree(Split(h, k, size), i) <==> i != k && i != k + 1 && IsFree(h, if i <= k then i else i - 1)
  {
    SplitFresh(h, k, size);
  }

  lemma SplitCoalesced(h: Heap, k: nat, size: nat)
    requires Tiled(h) && Coalesced(h) && k < |h.chain| && h.hdr[h.chain[k]].status.Held? && Lonely(h, k)
    requires size + h.overhead <= h.hdr[h.chain[k]].size
    ensures Coalesced(Split(h, k, size)) && Lonely(Split(h, k, size), k + 1)
  {
    ChainIn(h, k);
    hide Tiled, InsertAfter, IsFree;
    var g := Split(h, k, size);
    forall i | 0 <= i < |g.chain| - 1 ensures !BothFree(g, i) {
      SplitFreeAt(h, k, size, i);
      SplitFreeAt(h, k, size, i + 1);
      if 0 <= i < |h.chain| - 1 { assert !BothFree(h, i); }
      if 0 < i { assert !BothFree(h, i - 1); }
    }
    SplitFreeAt(h, k, size, k);
    SplitFreeAt(h, k, size, k + 2);
  }

  lemma JoinFreeAt(h: Heap, k: nat, i: int)
    requires Tiled(h) && k + 1 < |h.chain| && h.hdr[h.chain[k]].status.Held? && h.hdr[h.chain[k + 1]].status.Held?
    ensures IsFree(Join(h, k), i) <==> i != k && IsFree(h, if i <= k then i else i + 1)
  {
    ChainDistinct(h);
  }

  lemma JoinMid(h: Heap, k: nat, S: set<int>, out: int)
    requires Mid(h, S, out) && k + 1 < |h.chain| && h.chain[k] in S && h.chain[k + 1] in S
    ensures Mid(Join(h, k), S - {h.chain[k + 1]}, out)
  {
    ChainIn(h, k);
    ChainIn(h, k + 1);
    assert HeldAre(h, S);
    JoinHeldAre(h, k, S);
    hide Tiled, Indexed, FreeSize, UsedBytes, Coalesced, Join;
    JoinWF(h, k);
    JoinFreeSize(h, k);
    JoinUsed(h, k);
    JoinCoalesced(h, k);
  }

  lemma JoinHeldAre(h: Heap, k: nat, S: set<int>)
    requires Tiled(h) && HeldAre(h, S) && k + 1 < |h.chain| && h.chain[k] in S
    ensures h.chain[k] in h.hdr && h.chain[k + 1] in h.hdr
    ensures HeldAre(Join(h, k), S - {h.chain[k + 1]}) && SameParams(h, Join(h, k)) && Join(h, k).used == h.used
  {
    ChainIn(h, k);
    ChainIn(h, k + 1);
    ChainDistinct(h);
    hide Tiled, DropAt;
  }

  lemma JoinCoalesced(h: Heap, k: nat)
    requires Tiled(h) && Coalesced(h)
    requires k + 1 < |h.chain| && h.hdr[h.chain[k]].status.Held? && h.hdr[h.chain[k + 1]].status.Held?
    ensures Coalesced(Join(h, k))
  {
    ChainIn(h, k);
    ChainIn(h, k + 1);
    hide Tiled, DropAt, IsFree;
    var g := Join(h, k);
    forall i | 0 <= i < |g.chain| - 1 ensures !BothFree(g, i) {
      JoinFreeAt(h, k, i);
      JoinFreeAt(h, k, i + 1);
      assert !BothFree(h, if i <= k then i else i + 1);
    }
  }

  // ---------------------------------------------------------------- malloc and free keep the heap steady

  lemma SteadyMid(h: Heap)
    ensures Steady(h) <==> Mid(h, {}, 0)
  {
  }

  /** The two blocks a cut leaves. */
  lemma SplitParts(h: Heap, k: nat, size: nat)
    requires Tiled(h) && k < |h.chain| && size % ALIGN == 0 && size + 2 * h.overhead + ALIGN <= h.hdr[h.chain[k]].size
    ensures var g, a, b := Split(h, k, size), h.chain[k], h.chain[k] + h.overhead + size;
            && SameParams(h, g) && a != b && a in g.hdr && g.hdr[a].size == size
            && b in g.hdr && g.hdr[b].size == h.hdr[a].size - size - h.overhead && b in g.chain
            && IndexOf(g.chain, b) == k + 1
  {
    SplitTiled(h, k, size);
    var g := Split(h, k, size);
    ChainDistinct(g);
    hide Tiled;
    assert g.chain[k + 1] == h.chain[k] + h.overhead + size;
    IndexOfUnique(g.chain, k + 1);
  }

  /** Of the heap that was `h`, block `a` alone is held. */
  ghost predicate Taken(h: Heap, a: int, g: Heap) {
    a in g.hdr && SameParams(h, g) && Mid(g, {a}, g.hdr[a].size + g.overhead)
  }

  lemma SplitListed(h: Heap, k: nat, size: nat, out: int, g: Heap, b: int)
    requires k < |h.chain| && Mid(h, {h.chain[k]}, out) && Lonely(h, k) && size % ALIGN == 0
    requires size + 2 * h.overhead + ALIGN <= h.hdr[h.chain[k]].size && out == h.hdr[h.chain[k]].size + h.overhead
    requires g == Split(h, k, size) && b == h.chain[k] + h.overhead + size
    ensures b in g.hdr && |g.lists| == BUCKETS && Taken(h, h.chain[k], InsertFree(g, b))
  {
    SplitTwo(h, k, size, out, g, b);
    hide Split, Mid, InsertFree, TwoHeld;
    ListTwo(g, h.chain[k], b, out);
  }

  /** Blocks `a` and `b` are held, they make up `out`, and `b` may be listed. */
  ghost predicate TwoHeld(g: Heap, a: int, b: int, out: int) {
    && a in g.hdr && b in g.hdr && b in g.chain && a != b && Mid(g, {a, b}, out) && Lonely(g, IndexOf(g.chain, b))
    && out == g.hdr[a].size + g.overhead + g.hdr[b].size + g.overhead
  }

  lemma SplitTwo(h: Heap, k: nat, size: nat, out: int, g: Heap, b: int)
    requires k < |h.chain| && Mid(h, {h.chain[k]}, out) && Lonely(h, k) && size % ALIGN == 0
    requires size + 2 * h.overhead + ALIGN <= h.hdr[h.chain[k]].size && out == h.hdr[h.chain[k]].size + h.overhead
    requires g == Split(h, k, size) && b == h.chain[k] + h.overhead + size
    ensures TwoHeld(g, h.chain[k], b, out) && SameParams(h, g)
  {
    hide Tiled, Indexed, Coalesced, FreeSize, UsedBytes, Lonely, Split, IndexOf;
    var a := h.chain[k];
    SplitParts(h, k, size);
    hide Mid;
    SplitMid(h, k, size, {a}, out);
    assert {a} + {b} == {a, b};
  }

  lemma ListTwo(g: Heap, a: int, b: int, out: int)
    requires TwoHeld(g, a, b, out)
    ensures b in g.hdr && |g.lists| == BUCKETS && Taken(g, a, InsertFree(g, b))
  {
    hide Coalesced, FreeSize, UsedBytes, Lonely, IndexOf, InsertFree, Tiled, Indexed;
    InsertSame(g, b);
    hide Mid;
    InsertFreeMid(g, b, {a, b}, out);
    assert {a, b} - {b} == {a};
  }

  lemma InsertSame(g: Heap, b: int)
    requires b in g.hdr && |g.lists| == BUCKETS
    ensures SameParams(g, InsertFree(g, b)) && InsertFree(g, b).hdr.Keys == g.hdr.Keys
    ensures forall x :: x in g.hdr ==> InsertFree(g, b).hdr[x].size == g.hdr[x].size
  {
    hide Bucket;
  }

  lemma CarveMid(h: Heap, a: int, size: nat, out: int)
    requires Mid(h, {a}, out) && a in h.hdr && out == h.hdr[a].size + h.overhead
    requires Lonely(h, IndexOf(h.chain, a)) && size % ALIGN == 0
    ensures Taken(h, a, Carve(h, a, size))
  {
    hide Tiled, Indexed, Coalesced, FreeSize, UsedBytes, Lonely, Split, InsertFree;
    if h.hdr[a].size >= size + h.overhead + (h.overhead + ALIGN) {
      var k := IndexOf(h.chain, a);
      SplitListed(h, k, size, out, Split(h, k, size), a + h.overhead + size);
    }
  }

  lemma MarkUsedMid(h: Heap, a: int)
    requires a in h.hdr && Mid(h, {a}, h.hdr[a].size + h.overhead)
    ensures Steady(MarkUsed(h, a))
  {
    var g := MarkUsed(h, a);
    TiledSame(h, g);
    SetStatusFreeSize(h, a, Used);
    SetStatusUsed(h, a, Used);
    forall i | 0 <= i < |g.chain| - 1 ensures !BothFree(g, i) { assert !BothFree(h, i); }
  }

  lemma AllocateSteady(h: Heap, size: nat)
    requires Steady(h) && size % ALIGN == 0
    ensures Steady(Allocate(h, size).0)
  {
    hide Tiled, Indexed, Coalesced, FreeSize, UsedBytes, Search, Carve, MarkUsed, RemoveFree, Taken;
    var a := Search(h, size + h.overhead);
    SearchFinds(h, size + h.overhead);
    if a != NULL { CarveSteady(h, a, size); }
  }

  lemma CarveSteady(h: Heap, a: int, size: nat)
    requires Steady(h) && a in h.hdr && h.hdr[a].status.Free? && size % ALIGN == 0
    ensures WF(RemoveFree(h, a)) && a in RemoveFree(h, a).hdr && a in Carve(RemoveFree(h, a), a, size).hdr
    ensures Steady(MarkUsed(Carve(RemoveFree(h, a), a, size), a))
  {
    SteadyMid(h);
    hide Tiled, Indexed, Coalesced, FreeSize, UsedBytes, Lonely, Steady, Carve, MarkUsed, Bucket;
    RemoveFreeMid(h, a, {}, 0);
    assert {} + {a} == {a};
    CarveMid(RemoveFree(h, a), a, size, h.hdr[a].size + h.overhead);
    MarkUsedMid(Carve(RemoveFree(h, a), a, size), a);
  }

  lemma ReleaseMid(h: Heap, a: int)
    requires Steady(h) && a in h.hdr && h.hdr[a].status.Used?
    ensures Mid(Release(h, a), {a}, h.hdr[a].size + h.overhead)
  {
    var g := Release(h, a);
    TiledSame(h, g);
    SetStatusFreeSize(h, a, Held);
    SetStatusUsed(h, a, Held);
    forall i | 0 <= i < |g.chain| - 1 ensures !BothFree(g, i) { assert !BothFree(h, i); }
  }

  lemma IsFreeMeans(h: Heap, i: int)
    ensures IsFree(h, i) ==> 0 <= i < |h.chain| && h.chain[i] in h.hdr && h.hdr[h.chain[i]].status.Free?
  {
  }

  lemma RemoveFreeFewer(h: Heap, a: int, i: int)
    requires a in h.hdr && |h.lists| == BUCKETS
    ensures IsFree(RemoveFree(h, a), i) ==> IsFree(h, i)
  {
  }

  lemma LonelyIs(h: Heap, k: int)
    ensures Lonely(h, k) <==> !IsFree(h, k - 1) && !IsFree(h, k + 1)
  {
  }

  /** `a` is held, `f` is free, and they are blocks `k` and `k + 1` in one order or the other. */
  ghost predicate Pair(h: Heap, k: nat, a: int, f: int) {
    && k + 1 < |h.chain| && a in h.hdr && f in h.hdr && h.hdr[a].status.Held? && h.hdr[f].status.Free?
    && ((a == h.chain[k] && f == h.chain[k + 1]) || (f == h.chain[k] && a == h.chain[k + 1]))
  }

  lemma MidWF(h: Heap, S: set<int>, out: int)
    requires Mid(h, S, out)
    ensures WF(h) && forall a :: a in h.hdr ==> (h.hdr[a].status.Held? <==> a in S)
  {
  }

  /** Two held neighbours become one. */
  lemma JoinHeld(h: Heap, k: nat, out: int)
    requires k + 1 < |h.chain| && Mid(h, {h.chain[k], h.chain[k + 1]}, out)
    ensures var g := Join(h, k);
            && h.chain[k] in g.hdr && Mid(g, {h.chain[k]}, out)
            && h.chain[k] in g.chain && IndexOf(g.chain, h.chain[k]) == k
  {
    ChainDistinct(h);
    hide Mid, Tiled, Indexed, Bucket, NoDup, DropAt;
    JoinMid(h, k, {h.chain[k], h.chain[k + 1]}, out);
    NoDupAt(h.chain, k, k + 1);
    assert {h.chain[k], h.chain[k + 1]} - {h.chain[k + 1]} == {h.chain[k]};
    MidWF(Join(h, k), {h.chain[k]}, out);
    ChainDistinct(Join(h, k));
    IndexOfUnique(Join(h, k).chain, k);
  }

  /** A held block and a free neighbour become one held block. */
  lemma AbsorbMid(h: Heap, k: nat, a: int, f: int)
    requires Pair(h, k, a, f) && Mid(h, {a}, h.hdr[a].size + h.overhead)
    ensures var g := Join(RemoveFree(h, f), k);
            && h.chain[k] in g.hdr && Mid(g, {h.chain[k]}, g.hdr[h.chain[k]].size + g.overhead)
            && h.chain[k] in g.chain && IndexOf(g.chain, h.chain[k]) == k
            && SameParams(h, g) && g.used == h.used
  {
    hide Mid, Tiled, Indexed, Bucket, DropAt, Without, Lonely;
    MidWF(h, {a}, h.hdr[a].size + h.overhead);
    RemoveFreeMid(h, f, {a}, h.hdr[a].size + h.overhead);
    assert {a} + {f} == {h.chain[k], h.chain[k + 1]};
    JoinHeld(RemoveFree(h, f), k, h.hdr[a].size + h.overhead + h.hdr[f].size + h.overhead);
  }

  lemma AbsorbFreeAt(h: Heap, k: nat, a: int, f: int, i: int)
    requires WF(h) && Pair(h, k, a, f)
    ensures IsFree(Join(RemoveFree(h, f), k), i) ==> i != k && IsFree(RemoveFree(h, f), if i <= k then i else i + 1)
  {
    hide Abut, Indexed, Bucket, DropAt, Without, IsFree;
    RemoveFreeWF(h, f);
    JoinFreeAt(RemoveFree(h, f), k, i);
  }

  /** What lies beyond the free neighbour was not free. */
  lemma AbsorbClear(h: Heap, k: nat, a: int, f: int)
    requires WF(h) && Coalesced(h) && Pair(h, k, a, f)
    ensures !IsFree(Join(RemoveFree(h, f), k), if f == h.chain[k] then k - 1 else k + 1)
  {
    ChainDistinct(h);
    RemoveFreeCoalesced(h, f);
    hide Tiled, Indexed, Coalesced, Bucket, Lonely, IsFree, DropAt, Without, Join;
    IndexOfUnique(h.chain, if f == h.chain[k] then k else k + 1);
    AbsorbFreeAt(h, k, a, f, if f == h.chain[k] then k - 1 else k + 1);
    LonelyIs(RemoveFree(h, f), if f == h.chain[k] then k else k + 1);
  }

  /** Merging backwards pairs the held block with a free predecessor, or leaves the heap alone. */
  lemma PrevPair(h: Heap, a: int)
    requires WF(h) && a in h.hdr && h.hdr[a].status.Held?
    ensures a in h.chain
    ensures var r, k := MergePrev(h, a), IndexOf(h.chain, a);
            if r.1 == a then r == (h, a) && !IsFree(h, k as int - 1)
            else k > 0 && r.1 == h.chain[k - 1] && Pair(h, k - 1, a, r.1) && r == (Join(RemoveFree(h, r.1), k - 1), r.1)
  {
    ChainHas(h, a);
    ChainDistinct(h);
    var k := IndexOf(h.chain, a);
    if k > 0 { ChainIn(h, k - 1); }
    IsFreeMeans(h, k as int - 1);
    hide Abut, Indexed, Join, RemoveFree, IsFree;
  }

  lemma MergePrevMid(h: Heap, a: int)
    requires a in h.hdr && Mid(h, {a}, h.hdr[a].size + h.overhead)
    ensures var (g, b) := MergePrev(h, a);
            b in g.hdr && Mid(g, {b}, g.hdr[b].size + g.overhead) && SameParams(h, g) && g.used == h.used
  {
    MidWF(h, {a}, h.hdr[a].size + h.overhead);
    PrevPair(h, a);
    hide Mid, WF, Join, RemoveFree, Pair;
    if MergePrev(h, a).1 != a { AbsorbMid(h, IndexOf(h.chain, a) - 1, a, MergePrev(h, a).1); }
  }

  lemma MergePrevClear(h: Heap, a: int)
    requires WF(h) && Coalesced(h) && a in h.hdr && h.hdr[a].status.Held?
    requires var (g, b) := MergePrev(h, a); b in g.chain
    ensures var (g, b) := MergePrev(h, a); !IsFree(g, IndexOf(g.chain, b) - 1)
  {
    hide Tiled, Indexed, IsFree, Coalesced, Join, RemoveFree, MergePrev;
    PrevPair(h, a);
    ChainDistinct(h);
    var k, f := IndexOf(h.chain, a), MergePrev(h, a).1;
    hide IndexOf, NoDup;
    if f != a {
      AbsorbClear(h, k - 1, a, f);
      JoinPlace(h, f, k - 1);
    }
  }

  lemma JoinPlace(h: Heap, f: int, k: nat)
    requires |h.lists| == BUCKETS && NoDup(h.chain) && k + 1 < |h.chain| && f in h.hdr
    requires h.chain[k] in h.hdr && h.chain[k + 1] in h.hdr
    ensures var c := Join(RemoveFree(h, f), k).chain; h.chain[k] in c && IndexOf(c, h.chain[k]) == k
  {
    NoDupDrop(h.chain, k + 1);
    hide NoDup, IndexOf, Without, Bucket;
    IndexOfUnique(Join(RemoveFree(h, f), k).chain, k);
  }

  lemma MergeNextMid(h: Heap, a: int)
    requires a in h.hdr && Mid(h, {a}, h.hdr[a].size + h.overhead)
    ensures var g := MergeNext(h, a);
            a in g.hdr && Mid(g, {a}, g.hdr[a].size + g.overhead) && SameParams(h, g) && g.used == h.used
  {
    ChainHas(h, a);
    MidWF(h, {a}, h.hdr[a].size + h.overhead);
    hide Mid, Abut, Indexed, Bucket, Join, RemoveFree;
    var k := IndexOf(h.chain, a);
    if k + 1 < |h.chain| && h.hdr[h.chain[k + 1]].status.Free? {
      AbsorbMid(h, k, a, h.chain[k + 1]);
    }
  }

  lemma MergeNextClear(h: Heap, a: int)
    requires WF(h) && Coalesced(h) && a in h.hdr && h.hdr[a].status.Held?
    requires a in MergeNext(h, a).chain && !IsFree(h, IndexOf(h.chain, a) - 1)
    ensures var g := MergeNext(h, a); Lonely(g, IndexOf(g.chain, a))
  {
    ChainHas(h, a);
    ChainDistinct(h);
    hide Abut, Indexed, Bucket, IsFree, Coalesced, Lonely, DropAt, Without;
    var k := IndexOf(h.chain, a);
    if k + 1 < |h.chain| && h.hdr[h.chain[k + 1]].status.Free? {
      AbsorbClear(h, k, a, h.chain[k + 1]);
      AbsorbFreeAt(h, k, a, h.chain[k + 1], k as int - 1);
      RemoveFreeFewer(h, h.chain[k + 1], k as int - 1);
      NoDupDrop(h.chain, k + 1);
      IndexOfUnique(MergeNext(h, a).chain, k);
    } else {
      IsFreeMeans(h, k + 1);
    }
    LonelyIs(MergeNext(h, a), k);
  }

  /** The states free passes through, up to the final insertion. */
  lemma FreeSteps(h: Heap, a: int)
    requires Steady(h) && a in h.hdr && h.hdr[a].status.Used?
    ensures var h1 := Release(h, a);
            && WF(h1) && a in h1.hdr && h1.hdr[a].status.Held?
            && var (h2, b) := MergePrev(h1, a);
            && WF(h2) && b in h2.hdr && h2.hdr[b].status.Held?
            && var h3 := MergeNext(h2, b);
            && WF(h3) && b in h3.hdr && Mid(h3, {b}, h3.hdr[b].size + h3.overhead) && Lonely(h3, IndexOf(h3.chain, b))
            && SameParams(h, h3) && h3.used == h.used - h.hdr[a].size - h.overhead
  {
    hide Tiled, Indexed, Coalesced, FreeSize, UsedBytes, Bucket, Lonely, MergePrev, MergeNext, IsFree;
    ReleaseMid(h, a);
    var h1 := Release(h, a);
    MergePrevMid(h1, a);
    var (h2, b) := MergePrev(h1, a);
    ChainHas(h2, b);
    MergePrevClear(h1, a);
    MergeNextMid(h2, b);
    var h3 := MergeNext(h2, b);
    ChainHas(h3, b);
    MergeNextClear(h2, b);
  }

  lemma FreeSteady(h: Heap, p: int)
    requires Steady(h)
    ensures var g := FreePtr(h, p); Steady(g) && SameParams(h, g) && g.used == h.used - Returned(h, p)
  {
    hide Steady, Tiled, Indexed, Coalesced, FreeSize, UsedBytes, Bucket, Lonely, MergePrev, MergeNext;
    if Live(h, p) {
      var a := p - h.overhead;
      FreeSteps(h, a);
      var (h2, b) := MergePrev(Release(h, a), a);
      var h3 := MergeNext(h2, b);
      InsertFreeMid(h3, b, {b}, h3.hdr[b].size + h3.overhead);
      assert {b} - {b} == {};
      SteadyMid(InsertFree(h3, b));
    }
  }
}
