/** Theorems over whole runs of the allocator. */
module HeapRuns {
  import opened Basics
  import opened Bits
  import opened Lists
  import opened HeapModel
  import opened HeapSums
  import opened HeapOps
  import opened HeapMalloc

  datatype Call = MallocCall(n: nat) | FreeCall(p: int)

  /** A request that does not tear a block of `h`; any free. */
  predicate Served(w: nat, h: Heap, c: Call)
    requires IsWord(w) && WF(h)
  {
    c.MallocCall? ==> c.n < w && Malloc(w, h, c.n).Done?
  }

  function Step(w: nat, h: Heap, c: Call): (g: Heap)
    requires IsWord(w) && Steady(h) && Served(w, h, c)
    ensures Steady(g) && g.overhead == h.overhead && g.total == h.total
  {
    match c
    case MallocCall(n) => DoneIff(w, h, n); MallocParams(w, h, n); Malloc(w, h, n).heap
    case FreeCall(p) => FreeSteady(h, p); FreePtr(h, p)
  }

  /** No call of the run tears a block of the heap it meets. */
  predicate ServedRun(w: nat, h: Heap, calls: seq<Call>)
    requires IsWord(w) && Steady(h)
    decreases |calls|
  {
    calls == [] || (Served(w, h, calls[0]) && ServedRun(w, Step(w, h, calls[0]), calls[1..]))
  }

  /** The heap after a run of calls, in any order. */
  function Run(w: nat, h: Heap, calls: seq<Call>): (g: Heap)
    requires IsWord(w) && Steady(h) && ServedRun(w, h, calls)
    ensures Steady(g)
    decreases |calls|
  {
    if calls == [] then h else Run(w, Step(w, h, calls[0]), calls[1..])
  }

  /** A request whose sum with a header stays in size_t; any free: the caller's test. */
  predicate SafeCall(w: nat, overhead: nat, c: Call)
    requires IsWord(w)
  {
    c.MallocCall? ==> c.n < w && Safe(w, overhead, c.n)
  }

  /** Every run of such calls is one of these, from any heap. */
  lemma {:induction false} SafeRun(w: nat, h: Heap, calls: seq<Call>)
    requires IsWord(w) && Steady(h) && forall i :: 0 <= i < |calls| ==> SafeCall(w, h.overhead, calls[i])
    ensures ServedRun(w, h, calls)
    decreases |calls|
  {
    hide Steady, Malloc, Safe;
    if calls != [] {
      if calls[0].MallocCall? { DoneIff(w, h, calls[0].n); }
      SafeRun(w, Step(w, h, calls[0]), calls[1..]);
    }
  }

  lemma MallocParams(w: nat, h: Heap, n: nat)
    requires IsWord(w) && WF(h) && n < w && Malloc(w, h, n).Done?
    ensures var g := Malloc(w, h, n).heap; g.overhead == h.overhead && g.total == h.total
  {
    hide Tiled, Indexed, Bucket, Search, Cuts, Rounded, Sum, FreeSize;
  }

  // ---------------------------------------------------------------- used blocks

  /** Sizes of the used blocks by address. */
  function UsedBlocks(h: Heap): map<int, nat> {
    map a | a in h.hdr && h.hdr[a].status.Used? :: h.hdr[a].size
  }

  lemma CarveUsedBlocks(h: Heap, a: int, size: nat)
    requires WF(h) && a in h.hdr && h.hdr[a].status.Held?
    ensures var g := Carve(h, a, size); a in g.hdr && UsedBlocks(g) == UsedBlocks(h)
    ensures var g := Carve(h, a, size);
            if h.hdr[a].size >= size + h.overhead + (h.overhead + ALIGN) then g.hdr[a].size == size else g == h
  {
    ChainHas(h, a);
    hide Tiled, Indexed, Bucket, InsertAfter;
    if h.hdr[a].size >= size + h.overhead + (h.overhead + ALIGN) {
      SplitFresh(h, IndexOf(h.chain, a), size);
    }
  }

  /** Taking a block and cutting it: what becomes of the used blocks and of its size. */
  lemma CarvedUsed(h: Heap, a: int, size: nat)
    requires WF(h) && a in h.hdr && h.hdr[a].status.Free?
    ensures WF(RemoveFree(h, a)) && a in Carve(RemoveFree(h, a), a, size).hdr
    ensures var g := MarkUsed(Carve(RemoveFree(h, a), a, size), a);
            && a in g.hdr && UsedBlocks(g) == UsedBlocks(h)[a := g.hdr[a].size]
            && g.hdr[a].size == if h.hdr[a].size >= size + 2 * h.overhead + ALIGN then size else h.hdr[a].size
  {
    hide Tiled, Indexed, FreeSize, Bucket, Carve;
    RemoveFreeWF(h, a);
    var h1 := RemoveFree(h, a);
    assert UsedBlocks(h1) == UsedBlocks(h);
    CarveUsedBlocks(h1, a, size);
    var h2 := Carve(h1, a, size);
    assert UsedBlocks(MarkUsed(h2, a)) == UsedBlocks(h2)[a := h2.hdr[a].size];
  }

  lemma AllocateAdds(h: Heap, size: nat)
    requires Steady(h)
    ensures var r := Allocate(h, size);
            && (r.1 == NULL ==> r.0 == h)
            && (r.1 != NULL ==> Adds(h, r.0, r.1))
            && (r.1 != NULL ==> r.0.hdr[r.1 - h.overhead].size == Given(h, r.1 - h.overhead, size))
  {
    hide Tiled, Indexed, Coalesced, FreeSize, UsedBytes, Bucket, Search, Carve, RemoveFree, MarkUsed, UsedBlocks;
    var a := Search(h, size + h.overhead);
    SearchFinds(h, size + h.overhead);
    if a != NULL { CarvedUsed(h, a, size); }
  }

  /** The size of block `a` once `size` bytes of it are handed out. */
  function Given(h: Heap, a: int, size: nat): nat {
    if SizeAt(h.hdr, a) >= size + 2 * h.overhead + ALIGN then size else SizeAt(h.hdr, a)
  }

  /** The block in front of `p` was free and is now used; every other used block is where and as it was. */
  ghost predicate Adds(h: Heap, g: Heap, p: int) {
    var a := p - h.overhead;
    && a in h.hdr && h.hdr[a].status.Free? && a in g.hdr && g.hdr[a].size <= h.hdr[a].size
    && UsedBlocks(g) == UsedBlocks(h)[a := g.hdr[a].size]
  }

  /** What a malloc that does not tear its block leaves of `h`. */
  ghost predicate Extends(h: Heap, r: Outcome) {
    r.Done? ==> if r.p == NULL then r.heap == h else Adds(h, r.heap, r.p)
  }

  /** Malloc adds its block to the used ones and leaves every other used block where and as it was. */
  lemma MallocAdds(w: nat, h: Heap, n: nat)
    requires IsWord(w) && Steady(h) && n < w && Malloc(w, h, n).Done?
    ensures var r := Malloc(w, h, n); if r.p == NULL then r.heap == h else Adds(h, r.heap, r.p)
  {
    hide Tiled, Indexed, Coalesced, FreeSize, UsedBytes, Bucket, Search, Cuts, Rounded, Sum;
    if n > 0 {
      if Rounded(w, n) + h.overhead < w {
        MallocExact(w, h, n);
        AllocateAdds(h, Rounded(w, n));
      } else {
        WrappedWhole(w, h, n);
      }
    }
  }

  /** A block taken after a run-over is taken whole, or not at all. */
  lemma WrappedWhole(w: nat, h: Heap, n: nat)
    requires IsWord(w) && Steady(h) && 0 < n < w <= Rounded(w, n) + h.overhead
    ensures Extends(h, Malloc(w, h, n))
  {
    assert IsOverhead(h.overhead);
    hide Tiled, Indexed, Coalesced, FreeSize, UsedBytes, Bucket, Search, Cuts, Rounded, Sum, Carve, Adds, MarkUsed;
    var size := Rounded(w, n);
    var a := Search(h, Sum(w, size, h.overhead));
    SearchFinds(h, Sum(w, size, h.overhead));
    if a != NULL {
      SizeBound(h, a);
      WrappedCuts(w, h.overhead, h.hdr[a].size, size);
      WholeUsed(h, a);
    }
  }

  lemma WholeUsed(h: Heap, a: int)
    requires WF(h) && a in h.hdr && h.hdr[a].status.Free? && a >= 0
    ensures a in RemoveFree(h, a).hdr
    ensures var g := MarkUsed(RemoveFree(h, a), a);
            Adds(h, g, a + h.overhead) && g.hdr[a].size == h.hdr[a].size && a + h.overhead != NULL
  {
    hide Tiled, Indexed, FreeSize, Bucket;
    var h1 := RemoveFree(h, a);
    assert UsedBlocks(h1) == UsedBlocks(h);
    assert UsedBlocks(MarkUsed(h1, a)) == UsedBlocks(h1)[a := h1.hdr[a].size];
  }

  lemma RemoveFreeUsedBlocks(h: Heap, a: int)
    requires a in h.hdr && |h.lists| == BUCKETS && h.hdr[a].status.Free?
    ensures UsedBlocks(RemoveFree(h, a)) == UsedBlocks(h)
  {
  }

  lemma JoinUsedBlocks(h: Heap, k: nat)
    requires Tiled(h) && k + 1 < |h.chain|
    requires h.hdr[h.chain[k]].status.Held? && h.hdr[h.chain[k + 1]].status.Held?
    ensures UsedBlocks(Join(h, k)) == UsedBlocks(h)
  {
  }

  lemma InsertFreeUsedBlocks(h: Heap, a: int)
    requires a in h.hdr && |h.lists| == BUCKETS && h.hdr[a].status.Held?
    ensures UsedBlocks(InsertFree(h, a)) == UsedBlocks(h)
  {
  }

  /** Blocks `k` and `k + 1` become one; `b` is the free one of them and the other is held. */
  lemma AbsorbUsedBlocks(h: Heap, b: int, k: nat)
    requires WF(h) && NoDup(h.chain) && k + 1 < |h.chain| && b in h.hdr && h.hdr[b].status.Free?
    requires var x, y := h.chain[k], h.chain[k + 1];
             (b == x && y in h.hdr && h.hdr[y].status.Held?) || (b == y && x in h.hdr && h.hdr[x].status.Held?)
    ensures RemoveFree(h, b).chain == h.chain && Tiled(RemoveFree(h, b))
    ensures UsedBlocks(Join(RemoveFree(h, b), k)) == UsedBlocks(h)
  {
    RemoveFreeWF(h, b);
    RemoveFreeUsedBlocks(h, b);
    hide Tiled, Indexed, UsedBlocks, Join;
    assert h.chain[k] != h.chain[k + 1];
    JoinUsedBlocks(RemoveFree(h, b), k);
  }

  lemma MergeUsedBlocks(h: Heap, a: int)
    requires WF(h) && a in h.hdr && h.hdr[a].status.Held?
    ensures UsedBlocks(MergePrev(h, a).0) == UsedBlocks(h)
    ensures UsedBlocks(MergeNext(h, a)) == UsedBlocks(h)
  {
    var k := IndexOf(h.chain, a);
    ChainDistinct(h);
    hide Tiled, Indexed, UsedBlocks, RemoveFree, Join;
    if k > 0 && h.hdr[h.chain[k - 1]].status.Free? { AbsorbUsedBlocks(h, h.chain[k - 1], k - 1); }
    if k + 1 < |h.chain| && h.hdr[h.chain[k + 1]].status.Free? { AbsorbUsedBlocks(h, h.chain[k + 1], k); }
  }

  /** Free takes exactly its block out of the used ones; a pointer that is not live changes nothing. */
  lemma FreeRemoves(h: Heap, p: int)
    requires Steady(h)
    ensures UsedBlocks(FreePtr(h, p)) == if Live(h, p) then UsedBlocks(h) - {p - h.overhead} else UsedBlocks(h)
  {
    hide Tiled, Indexed, Coalesced, FreeSize, UsedBytes, Bucket, Lonely, MergePrev, MergeNext, Mid;
    if Live(h, p) {
      var a := p - h.overhead;
      FreeSteps(h, a);
      var h1 := Release(h, a);
      assert UsedBlocks(h1) == UsedBlocks(h) - {a};
      MergeUsedBlocks(h1, a);
      var (h2, b) := MergePrev(h1, a);
      MergeUsedBlocks(h2, b);
      var h3 := MergeNext(h2, b);
      MidWF(h3, {b}, h3.hdr[b].size + h3.overhead);
      InsertFreeUsedBlocks(h3, b);
    }
  }

  // ---------------------------------------------------------------- main results

  /** A fresh pool is steady and all of it is free. */
  lemma CreateSteady(overhead: nat, total: nat)
    requires IsOverhead(overhead) && overhead + ALIGN <= total < U32
    ensures Steady(Create(overhead, total)) && FreeSize(Create(overhead, total)) == total
    ensures Create(overhead, total).minFree == total && UsedBlocks(Create(overhead, total)) == map[]
  {
    var h := Blank(overhead, total);
    EmptyListsSum(h.hdr, overhead, h.lists);
    assert UsedSum(h.hdr, overhead, h.chain[1..]) == 0;
    assert Mid(h, {0}, total);
    InsertFreeMid(h, 0, {0}, total);
    assert {0} - {0} == {};
    SteadyMid(InsertFree(h, 0));
  }

  lemma {:induction false} EmptyListsSum(h: map<int, Header>, o: nat, ls: seq<seq<int>>)
    requires forall i :: 0 <= i < |ls| ==> ls[i] == []
    ensures ListsSum(h, o, ls) == 0
  {
    if ls != [] { EmptyListsSum(h, o, ls[1..]); }
  }

  /** Live payloads are inside the pool, aligned, and apart from every other block. */
  lemma LivePayloads(h: Heap, a: int, b: int)
    requires Steady(h) && a in h.hdr && b in h.hdr && a != b
    ensures 0 <= a && a + h.overhead + h.hdr[a].size <= h.total && (a + h.overhead) % ALIGN == 0
    ensures a + h.overhead + h.hdr[a].size <= b || b + h.overhead + h.hdr[b].size <= a
  {
    var i, j := IndexOf(h.chain, a), IndexOf(h.chain, b);
    InBounds(h, i);
    if i < j { ChainOrder(h, i, j); } else { ChainOrder(h, j, i); }
  }

  /** No free block has room for `need` bytes. */
  ghost predicate NoneFits(h: Heap, need: nat) {
    forall b :: b in h.hdr && h.hdr[b].status.Free? ==> h.hdr[b].size < need
  }

  /** An answer to a request of `size` bytes is right: a refusal means nothing fits, a block is long enough. */
  ghost predicate Right(h: Heap, r: Outcome, size: nat) {
    && r.Done?
    && if r.p == NULL then NoneFits(h, size + h.overhead)
       else r.p - h.overhead in r.heap.hdr && r.heap.hdr[r.p - h.overhead].size >= size
  }

  function Allocated(h: Heap, size: nat): Outcome
    requires WF(h)
  {
    Done(Allocate(h, size).0, Allocate(h, size).1)
  }

  lemma AllocateRight(h: Heap, size: nat)
    requires Steady(h) && size + h.overhead < U32
    ensures Right(h, Allocated(h, size), size)
    ensures Allocated(h, size).p == NULL <==> NoneFits(h, size + h.overhead)
  {
    hide Tiled, Indexed, Coalesced, FreeSize, UsedBytes, Bucket, Search, RemoveFree, MarkUsed, Carve, UsedBlocks;
    SearchCorrect(h, size + h.overhead);
    SearchFinds(h, size + h.overhead);
    AllocateAdds(h, size);
  }

  /** For needs of 32 bits malloc fails exactly when no free block has room, and never gives less than asked. */
  lemma MallocComplete(w: nat, h: Heap, n: nat)
    requires IsWord(w) && Steady(h) && 0 < n < w && AlignUp(n) + h.overhead < U32
    ensures Right(h, Malloc(w, h, n), AlignUp(n)) && AlignUp(n) >= n
    ensures Malloc(w, h, n).p == NULL <==> NoneFits(h, AlignUp(n) + h.overhead)
  {
    RoundedIs(w, n);
    hide Tiled, Indexed, Coalesced, FreeSize, UsedBytes, Malloc, Rounded, AlignUp, Right, Allocate, NoneFits;
    MallocExact(w, h, n);
    AllocateRight(h, AlignUp(n));
  }

  /** Malloc's answer is right, and its block is not torn. */
  ghost predicate Honest(w: nat, h: Heap, n: nat)
    requires IsWord(w) && Steady(h) && n < w
  {
    Right(h, Malloc(w, h, n), AlignUp(n))
  }

  ghost predicate NoneAbove(h: Heap, need: nat)
    requires |h.lists| == BUCKETS
  {
    forall i :: Bucket(need) < i < BUCKETS ==> h.lists[i] == []
  }

  /**
   * The bucket is that of the need truncated to 32 bits, and the sum of size and header may run over size_t. No
   * pool block is that large, so the only right answer is then NULL. Malloc gives it exactly when every bucket
   * above the truncated one is empty, or when no free block has even the bytes that are left of the sum.
   */
  lemma MallocHonestIff(w: nat, h: Heap, n: nat)
    requires IsWord(w) && Steady(h) && 0 < n < w
    ensures var need := AlignUp(n) + h.overhead;
            Honest(w, h, n) <==>
              (if need < U32 then true else if need < w then NoneAbove(h, need) else NoneFits(h, need - w))
  {
    hide WF, Coalesced, Malloc, FreeSize, UsedBytes, NoneFits, Right, NoneAbove;
    if AlignUp(n) + h.overhead < U32 {
      MallocComplete(w, h, n);
    } else if AlignUp(n) + h.overhead < w {
      WideMalloc(w, h, n);
    } else {
      WrappedMalloc(w, h, n);
    }
  }

  lemma WideMalloc(w: nat, h: Heap, n: nat)
    requires IsWord(w) && Steady(h) && 0 < n < w && U32 <= AlignUp(n) + h.overhead < w
    ensures Right(h, Malloc(w, h, n), AlignUp(n)) <==> NoneAbove(h, AlignUp(n) + h.overhead)
  {
    RoundedIs(w, n);
    hide Tiled, Malloc, Indexed, Coalesced, FreeSize, UsedBytes, AlignUp, Rounded, Right, NoneAbove;
    MallocExact(w, h, n);
    AllocateWide(h, AlignUp(n));
  }

  /** No block of a pool is as large as a request that does not fit 32 bits with its header. */
  lemma WideRequest(h: Heap, size: nat, b: int)
    requires Tiled(h) && size + h.overhead >= U32 && b in h.hdr
    ensures h.hdr[b].size < size
  {
    InBounds(h, IndexOf(h.chain, b));
    assert b + h.overhead + h.hdr[b].size <= h.total;
  }

  lemma NoneWide(h: Heap, size: nat)
    requires Tiled(h) && size + h.overhead >= U32
    ensures NoneFits(h, size + h.overhead) && forall b :: b in h.hdr ==> h.hdr[b].size < size
  {
    hide Tiled;
    forall b | b in h.hdr ensures h.hdr[b].size < size { WideRequest(h, size, b); }
  }

  lemma WideSearch(h: Heap, need: nat)
    requires WF(h) && forall b :: b in h.hdr ==> h.hdr[b].size < need
    ensures Search(h, need) == NULL <==> NoneAbove(h, need)
  {
    hide Tiled, Bucket, FirstFit, FirstHead;
    ListsNonNull(h);
    FirstFitSpec(h.hdr, h.lists[Bucket(need)], need);
    FirstHeadSpec(h.lists, Bucket(need) + 1);
    assert FirstFit(h.hdr, h.lists[Bucket(need)], need) == NULL;
  }

  /** A block handed out for such a request is too short. */
  lemma TooShort(h: Heap, r: Outcome, size: nat)
    requires Tiled(h) && size + h.overhead >= U32 && (r.Done? && r.p != NULL ==> Adds(h, r.heap, r.p))
    ensures Right(h, r, size) <==> r.Done? && r.p == NULL
  {
    NoneWide(h, size);
    hide Tiled, UsedBlocks;
  }

  lemma AllocateWide(h: Heap, size: nat)
    requires Steady(h) && size + h.overhead >= U32
    ensures Right(h, Allocated(h, size), size) <==> NoneAbove(h, size + h.overhead)
  {
    AllocateAdds(h, size);
    hide Tiled, Indexed, Coalesced, FreeSize, UsedBytes, NoneAbove, Adds, Right, Allocate;
    TooShort(h, Allocated(h, size), size);
    WideNull(h, size);
  }

  lemma WideNull(h: Heap, size: nat)
    requires WF(h) && size + h.overhead >= U32
    ensures Allocate(h, size).1 == NULL <==> NoneAbove(h, size + h.overhead)
  {
    NoneWide(h, size);
    hide Tiled, Indexed, Search, NoneAbove, NoneFits, RemoveFree, MarkUsed, Carve;
    SearchFinds(h, size + h.overhead);
    WideSearch(h, size + h.overhead);
  }

  lemma WrappedMalloc(w: nat, h: Heap, n: nat)
    requires IsWord(w) && Steady(h) && 0 < n < w <= AlignUp(n) + h.overhead
    ensures Right(h, Malloc(w, h, n), AlignUp(n)) <==> NoneFits(h, AlignUp(n) + h.overhead - w)
  {
    var need := WrappedNeed(w, h, n);
    hide Indexed, Coalesced, FreeSize, UsedBytes, Bucket, Search, Rounded, AlignUp, Adds, Cuts, Sum, Malloc, Right;
    if Malloc(w, h, n).Done? { MallocAdds(w, h, n); }
    TooShort(h, Malloc(w, h, n), AlignUp(n));
    SearchCorrect(h, need);
    SearchFinds(h, need);
    WrappedNull(w, h, n);
  }

  lemma WrappedNeed(w: nat, h: Heap, n: nat) returns (need: nat)
    requires IsWord(w) && WF(h) && 0 < n < w <= AlignUp(n) + h.overhead
    ensures need == AlignUp(n) + h.overhead - w == Sum(w, Rounded(w, n), h.overhead) && need < U32
    ensures AlignUp(n) + h.overhead >= U32
  {
    assert IsOverhead(h.overhead);
    RoundedIs(w, n);
    hide Tiled, Indexed, Rounded, AlignUp;
    need := AlignUp(n) + h.overhead - w;
  }

  /** malloc refuses exactly when its search finds nothing. */
  lemma WrappedNull(w: nat, h: Heap, n: nat)
    requires IsWord(w) && WF(h) && 0 < n < w
    ensures var r := Malloc(w, h, n); r.Done? && r.p == NULL <==> Search(h, Sum(w, Rounded(w, n), h.overhead)) == NULL
  {
    SearchFinds(h, Sum(w, Rounded(w, n), h.overhead));
    hide Tiled, Indexed, Bucket, Search, Rounded, Sum, Cuts, FreeSize;
  }

  /** The failing input: 48-byte headers and one free block of 64 bytes, handed out for 4 GiB. */
  lemma WideRequestShort(h: Heap)
    requires h == Create(48, 112)
    ensures Steady(h) && !Honest(U64, h, U32)
  {
    hide Bucket, Steady, Honest, Create, AlignUp;
    CreateSteady(48, 112);
    CreateListed(48, 112);
    ExampleBuckets();
    MallocHonestIff(U64, h, U32);
  }

  /** The failing input: the largest request rounds to nothing and is given a block of 60 bytes. */
  lemma LargestRequest(w: nat, h: Heap)
    requires IsWord(w) && h == Create(48, 108)
    ensures Steady(h) && !Honest(w, h, w - 1)
  {
    LargestRounds(w);
    hide Steady, Honest, AlignUp, Create;
    CreateSteady(48, 108);
    MallocHonestIff(w, h, w - 1);
    CreateFree(48, 108);
  }

  lemma LargestRounds(w: nat)
    requires IsWord(w)
    ensures AlignUp(w - 1) == w && w - 1 > 0
  {
  }

  lemma CreateFree(overhead: nat, total: nat)
    requires overhead + ALIGN <= total
    ensures var h := Create(overhead, total);
            h.overhead == overhead && 0 in h.hdr && h.hdr[0].status.Free? && h.hdr[0].size == total - overhead
            && h.hdr.Keys == {0}
  {
  }

  // ---------------------------------------------------------------- which requests are safe

  /** A request keeps every heap steady exactly when its sum stays in size_t. */
  lemma SafeIff(w: nat, o: nat, n: nat)
    requires IsWord(w) && IsOverhead(o) && n < w
    ensures (forall h :: Steady(h) && h.overhead == o ==> Survives(h, Malloc(w, h, n))) <==> Safe(w, o, n)
  {
    hide Malloc, Safe, WF, Coalesced, FreeSize, UsedBytes, Survives;
    if Safe(w, o, n) {
      forall h | Steady(h) && h.overhead == o ensures Survives(h, Malloc(w, h, n)) { MallocKeepsIff(w, h, n); }
    } else {
      TornHeap(w, o, n);
    }
  }

  /** The heap of one block that is just long enough to be cut. */
  lemma TornHeap(w: nat, o: nat, n: nat)
    requires IsWord(w) && IsOverhead(o) && n < w && !Safe(w, o, n)
    ensures var h := Create(o, 3 * o + ALIGN); Steady(h) && h.overhead == o && !Survives(h, Malloc(w, h, n))
  {
    hide Rounded, Sum, Create, Steady, Malloc, Safe, Survives;
    var h := Create(o, 3 * o + ALIGN);
    var need := Sum(w, Rounded(w, n), o);
    UnsafeNeed(w, o, n);
    CreateSteady(o, 3 * o + ALIGN);
    CreateFree(o, 3 * o + ALIGN);
    MallocKeepsIff(w, h, n);
    CreateSearch(h, need);
  }

  lemma UnsafeNeed(w: nat, o: nat, n: nat)
    requires IsWord(w) && IsOverhead(o) && n < w && !Safe(w, o, n)
    ensures Sum(w, Rounded(w, n), o) < o
  {
    hide Rounded;
  }

  lemma CreateSearch(h: Heap, need: nat)
    requires Steady(h) && h.hdr.Keys == {0} && h.hdr[0].status.Free? && need <= h.hdr[0].size
    ensures Search(h, need) == 0
  {
    SizeBound(h, 0);
    hide Tiled, Coalesced, FreeSize, UsedBytes, Bucket, Search;
    SearchCorrect(h, need);
  }

  lemma CreateListed(overhead: nat, total: nat)
    requires overhead + ALIGN <= total
    ensures var h := Create(overhead, total);
            |h.lists| == BUCKETS && h.lists[Bucket(total - overhead)] == [0] && h.overhead == overhead
  {
  }

  lemma ExampleBuckets()
    ensures Bucket(AlignUp(U32) + 48) == 5 && Bucket(64) == 6
  {
    assert (U32 + 48) % U32 == 48;
    assert Log2(6) == 2 && Log2(8) == 3;
    assert Log2(24) == 4 && Log2(32) == 5;
  }

  /** No used block is left: the pool is one free block again, and it is all free. */
  lemma AllFreed(h: Heap)
    requires Steady(h) && UsedBlocks(h) == map[]
    ensures h.overhead <= h.total && h.chain == [0] && h.hdr == map[0 := Header(h.total - h.overhead, Free)]
    ensures h.used == 0 && FreeSize(h) == h.total
    ensures h.lists == seq(BUCKETS, i => if i == Bucket(h.total - h.overhead) then [0] else [])
  {
    forall a | a in h.hdr ensures h.hdr[a].status.Free? {
      assert a !in UsedBlocks(h);
    }
    if |h.chain| > 1 {
      assert h.chain[0] in h.hdr && h.chain[1] in h.hdr;
      assert BothFree(h, 0);
    }
    forall a | a in h.hdr ensures a == 0 { assert a in h.chain; }
    assert 0 in h.hdr by { assert h.chain[0] in h.hdr; }
    assert h.hdr.Keys == {0};
    assert UsedSum(h.hdr, h.overhead, h.chain[1..]) == 0;
    var k := Bucket(h.total - h.overhead);
    forall i | 0 <= i < BUCKETS ensures h.lists[i] == if i == k then [0] else [] {
      SingletonList(h, i);
    }
  }

  lemma TwoDiffer(l: seq<int>)
    requires NoDup(l) && |l| > 1
    ensures exists j :: 0 <= j < |l| && l[j] != 0
  {
    if l[0] == 0 { assert l[1] != 0; }
  }

  lemma SingletonList(h: Heap, i: nat)
    requires WF(h) && h.hdr.Keys == {0} && h.hdr[0].status.Free? && i < BUCKETS
    ensures h.lists[i] == if i == Bucket(h.hdr[0].size) then [0] else []
  {
    var l := h.lists[i];
    forall j | 0 <= j < |l| ensures l[j] == 0 && i == Bucket(h.hdr[0].size) {
      var x := l[j];
      assert x in h.lists[i];
      assert x in h.hdr;
    }
    if |l| > 1 { TwoDiffer(l); }
    if i == Bucket(h.hdr[0].size) { assert 0 in l; }
    assert |l| == 1 ==> l == [l[0]];
  }

  function Frees(ps: seq<int>): seq<Call> {
    seq(|ps|, i requires 0 <= i < |ps| => FreeCall(ps[i]))
  }

  lemma {:induction false} FreesServed(w: nat, h: Heap, ps: seq<int>)
    requires IsWord(w) && Steady(h)
    ensures ServedRun(w, h, Frees(ps))
    decreases |ps|
  {
    hide Steady, Step, Malloc;
    if ps != [] {
      FreesServed(w, Step(w, h, FreeCall(ps[0])), ps[1..]);
      assert Frees(ps)[1..] == Frees(ps[1..]);
    }
  }

  lemma {:induction false} FreesUsed(w: nat, h: Heap, ps: seq<int>)
    requires IsWord(w) && Steady(h)
    ensures ServedRun(w, h, Frees(ps))
    ensures var g := Run(w, h, Frees(ps));
            && g.total == h.total && g.overhead == h.overhead
            && (forall a :: a in UsedBlocks(g) ==> a in UsedBlocks(h) && a + h.overhead !in ps)
    decreases |ps|
  {
    hide Steady, Step, Malloc;
    FreesServed(w, h, ps);
    if ps != [] {
      var h1 := Step(w, h, FreeCall(ps[0]));
      StepFree(w, h, ps[0]);
      FreesUsed(w, h1, ps[1..]);
      assert Frees(ps)[1..] == Frees(ps[1..]);
      assert Run(w, h, Frees(ps)) == Run(w, h1, Frees(ps[1..]));
      var g := Run(w, h, Frees(ps));
      forall a | a in UsedBlocks(g) ensures a in UsedBlocks(h) && a + h.overhead !in ps {
        if a + h.overhead == ps[0] { FreeLive(h, a); }
      }
    }
  }

  lemma StepFree(w: nat, h: Heap, p: int)
    requires IsWord(w) && Steady(h)
    ensures var g := Step(w, h, FreeCall(p));
            && UsedBlocks(g) == (if Live(h, p) then UsedBlocks(h) - {p - h.overhead} else UsedBlocks(h))
            && SameParams(h, g)
  {
    FreeRemoves(h, p);
    FreeSteady(h, p);
  }

  lemma FreeLive(h: Heap, a: int)
    requires Steady(h) && a in UsedBlocks(h)
    ensures Live(h, a + h.overhead)
  {
    SizeBound(h, a);
  }

  /** Freeing every live pointer, in any order and with any others in between, gives the whole pool back. */
  lemma FreeAll(w: nat, h: Heap, ps: seq<int>)
    requires IsWord(w) && Steady(h) && forall a :: a in UsedBlocks(h) ==> a + h.overhead in ps
    ensures ServedRun(w, h, Frees(ps))
    ensures var g := Run(w, h, Frees(ps));
            && h.overhead <= h.total && g.chain == [0] && g.hdr == map[0 := Header(h.total - h.overhead, Free)]
            && g.used == 0 && FreeSize(g) == h.total
  {
    hide Steady, Run, ServedRun, UsedBlocks, FreeSize;
    FreesUsed(w, h, ps);
    var g := Run(w, h, Frees(ps));
    assert forall a :: a !in UsedBlocks(g);
    assert UsedBlocks(g) == map[];
    AllFreed(g);
  }

  // ---------------------------------------------------------------- the low-water mark

  /** All heaps of a run, the first one included. */
  function States(w: nat, h: Heap, calls: seq<Call>): (hs: seq<Heap>)
    requires IsWord(w) && Steady(h) && ServedRun(w, h, calls)
    ensures |hs| == |calls| + 1 && hs[0] == h
    decreases |calls|
  {
    if calls == [] then [h] else [h] + States(w, Step(w, h, calls[0]), calls[1..])
  }

  ghost predicate LowWater(m: int, hs: seq<Heap>) {
    && (forall i :: 0 <= i < |hs| ==> m <= FreeSize(hs[i]))
    && (exists i :: 0 <= i < |hs| && m == FreeSize(hs[i]))
  }

  lemma StepMinFree(w: nat, h: Heap, c: Call)
    requires IsWord(w) && Steady(h) && Served(w, h, c) && h.minFree <= FreeSize(h)
    ensures Lowered(h, Step(w, h, c))
  {
    hide Malloc, Tiled, Indexed, Coalesced, UsedBytes, FreeSize, FreePtr, Rounded;
    match c
    case MallocCall(n) => MallocMinFree(w, h, n);
    case FreeCall(p) => FreeSteady(h, p);
  }

  /** The mark is lowered to the free size of `g`, if that is less. */
  ghost predicate Lowered(h: Heap, g: Heap) {
    g.minFree == if FreeSize(g) < h.minFree then FreeSize(g) else h.minFree
  }

  lemma MallocMinFree(w: nat, h: Heap, n: nat)
    requires IsWord(w) && Steady(h) && h.minFree <= FreeSize(h) && n < w && Malloc(w, h, n).Done?
    ensures Lowered(h, Malloc(w, h, n).heap)
  {
    hide Tiled, Indexed, Coalesced, UsedBytes, FreeSize, Rounded, Allocate, Search, Cuts, Sum, Lowered;
    if n == 0 {
      SameMark(h);
    } else if Rounded(w, n) + h.overhead < w {
      MallocExact(w, h, n);
      AllocateMinFree(h, Rounded(w, n));
    } else {
      WrappedMinFree(w, h, n);
    }
  }

  lemma SameMark(h: Heap)
    requires h.minFree <= FreeSize(h)
    ensures Lowered(h, h)
  {
  }

  lemma WrappedMinFree(w: nat, h: Heap, n: nat)
    requires IsWord(w) && Steady(h) && h.minFree <= FreeSize(h) && 0 < n < w <= Rounded(w, n) + h.overhead
    requires Malloc(w, h, n).Done?
    ensures Lowered(h, Malloc(w, h, n).heap)
  {
    assert IsOverhead(h.overhead);
    hide Tiled, Indexed, Coalesced, UsedBytes, FreeSize, Rounded, Search, Cuts, Sum, Carve, MarkUsed, Bucket, Lowered;
    var a := Search(h, Sum(w, Rounded(w, n), h.overhead));
    SearchFinds(h, Sum(w, Rounded(w, n), h.overhead));
    SameMark(h);
    if a != NULL {
      SizeBound(h, a);
      WrappedCuts(w, h.overhead, h.hdr[a].size, Rounded(w, n));
      WholeMinFree(h, a);
    }
  }

  lemma WholeMinFree(h: Heap, a: int)
    requires Steady(h) && a in h.hdr && h.hdr[a].status.Free?
    ensures a in RemoveFree(h, a).hdr && Lowered(h, MarkUsed(RemoveFree(h, a), a))
  {
    hide Tiled, Indexed, Coalesced, UsedBytes, Bucket, ListsSum;
    SetStatusFreeSize(RemoveFree(h, a), a, Used);
  }

  lemma AllocateMinFree(h: Heap, size: nat)
    requires Steady(h) && h.minFree <= FreeSize(h) && size % ALIGN == 0
    ensures Lowered(h, Allocate(h, size).0)
  {
    hide Tiled, Indexed, Coalesced, UsedBytes, Bucket, FirstFit, FirstHead, ListsSum;
    var a := Search(h, size + h.overhead);
    if a != NULL {
      SearchFinds(h, size + h.overhead);
      SteadyMid(h);
      RemoveFreeMid(h, a, {}, 0);
      assert {} + {a} == {a};
      CarveMid(RemoveFree(h, a), a, size, h.hdr[a].size + h.overhead);
    }
  }

  /** The recorded minimum is the least free size of any state of the run, and some state reached it. */
  lemma {:induction false} MinFreeIsLowWater(w: nat, h: Heap, before: seq<Heap>, calls: seq<Call>)
    requires IsWord(w) && Steady(h) && ServedRun(w, h, calls)
    requires LowWater(h.minFree, before + [h])
    ensures LowWater(Run(w, h, calls).minFree, before + States(w, h, calls))
    decreases |calls|
  {
    hide Steady, Step, FreeSize, LowWater, Served;
    if calls == [] {
      assert States(w, h, calls) == [h];
    } else {
      var g := Step(w, h, calls[0]);
      var hs := before + [h];
      LowWaterBelow(h.minFree, hs, |before|);
      StepMinFree(w, h, calls[0]);
      LowWaterExtend(hs, h.minFree, g);
      MinFreeIsLowWater(w, g, hs, calls[1..]);
      assert before + States(w, h, calls) == hs + States(w, g, calls[1..]);
    }
  }

  lemma LowWaterBelow(m: int, hs: seq<Heap>, i: nat)
    requires LowWater(m, hs) && i < |hs|
    ensures m <= FreeSize(hs[i])
  {
  }

  lemma LowWaterExtend(hs: seq<Heap>, m: int, g: Heap)
    requires LowWater(m, hs)
    ensures LowWater(if FreeSize(g) < m then FreeSize(g) else m, hs + [g])
  {
    var i :| 0 <= i < |hs| && m == FreeSize(hs[i]);
    var gs := hs + [g];
    assert gs[i] == hs[i] && gs[|hs|] == g;
    forall j | 0 <= j < |gs| ensures (if FreeSize(g) < m then FreeSize(g) else m) <= FreeSize(gs[j]) {
      if j < |hs| { assert gs[j] == hs[j]; }
    }
  }
}
