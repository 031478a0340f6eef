/** tlsf_malloc with the sums of its size_t arithmetic: when they run over, and what is then handed out. */
module HeapMalloc {
  import opened Basics
  import opened Bits
  import opened Lists
  import opened HeapModel
  import opened HeapSums
  import opened HeapOps

  /** ALIGN_UP in size_t. */
  function Rounded(w: nat, n: nat): (r: nat)
    requires IsWord(w)
    ensures r < w && r % ALIGN == 0
  {
    (n + ALIGN - 1) % w / ALIGN * ALIGN
  }

  function Sum(w: nat, a: nat, b: nat): (r: nat)
    requires IsWord(w)
    ensures r < w
    ensures a < w && b < w ==> r == if a + b < w then a + b else a + b - w
  {
    (a + b) % w
  }

  /** Unsigned subtraction. */
  function Minus(w: nat, a: nat, b: nat): (r: nat)
    requires IsWord(w)
    ensures r < w
    ensures a < w && b < w ==> r == if a >= b then a - b else a - b + w
  {
    (a - b) % w
  }

  /** The header of the part cut off `block` is written at `at`, then `size` as the size of `block` itself. */
  datatype Tear = Tear(block: int, at: int, size: nat)

  /** Torn: the block is cut at a place from which its size does not follow. */
  datatype Outcome = Done(heap: Heap, p: int) | Torn(tear: Tear)

  /** The pointer sum of block_split; pointers are as wide as size_t. */
  function CutAt(w: nat, a: int, size: nat, overhead: nat): int
    requires IsWord(w)
  {
    (a + size + overhead) % w
  }

  /** The size test of tlsf_malloc and the one of block_split, both in size_t. */
  predicate Cuts(w: nat, overhead: nat, have: nat, size: nat)
    requires IsWord(w)
  {
    && have >= Sum(w, Sum(w, size, overhead), overhead + ALIGN)
    && Minus(w, Minus(w, have, size), overhead) >= overhead + ALIGN
  }

  /** tlsf_malloc */
  function Malloc(w: nat, h: Heap, n: nat): (r: Outcome)
    requires IsWord(w) && WF(h) && n < w
  {
    if n == 0 then Done(h, NULL) else
    var size := Rounded(w, n);
    var a := Search(h, Sum(w, size, h.overhead));
    if a == NULL then Done(h, NULL) else
    SearchFinds(h, Sum(w, size, h.overhead));
    RemoveFreeWF(h, a);
    var h1 := RemoveFree(h, a);
    if !Cuts(w, h.overhead, h1.hdr[a].size, size) then Done(MarkUsed(h1, a), a + h.overhead)
    else if size + h.overhead > h1.hdr[a].size then
      Torn(Tear(a, CutAt(w, a, size, h.overhead), size % U32))
    else
      CarveHas(h1, a, size);
      Done(MarkUsed(Carve(h1, a, size), a), a + h.overhead)
  }

  // ---------------------------------------------------------------- the sums

  lemma RoundedIs(w: nat, n: nat)
    requires IsWord(w) && n < w
    ensures Rounded(w, n) == if AlignUp(n) < w then AlignUp(n) else 0
    ensures AlignUp(n) <= w
  {
  }

  /** Needs close to the end of size_t fall into the last bucket, so nothing is taken unchecked. */
  lemma NearTop(w: nat, h: Heap, need: nat)
    requires IsWord(w) && WF(h) && need < w <= need + h.overhead + ALIGN
    ensures var a := Search(h, need); a != NULL ==> a in h.hdr && h.hdr[a].size >= need
  {
    assert IsOverhead(h.overhead);
    TopBucket(w, need);
    SearchFinds(h, need);
    hide Tiled, Bucket, FirstFit;
    ListsNonNull(h);
    FirstFitSpec(h.hdr, h.lists[Bucket(need)], need);
  }

  lemma TopBucket(w: nat, need: nat)
    requires IsWord(w) && need < w <= need + 0x1_0004
    ensures Bucket(need) == 31
  {
    var x := need % U32;
    assert x >= 0x8000_0000;
    Log2Mono(0x8000_0000, x);
    Log2Top();
  }

  lemma Log2Top()
    ensures Log2(0x8000_0000) == 31
  {
    FlsIsLog2(0x8000_0000);
  }

  /** Without a run-over the two tests are the exact one. */
  lemma CutsExact(w: nat, o: nat, have: nat, size: nat)
    requires IsWord(w) && o < 0x1_0000 && have < U32 && size + o < w && (w <= size + o + o + ALIGN ==> have >= size + o)
    ensures Cuts(w, o, have, size) <==> have >= size + o + (o + ALIGN)
  {
  }

  /** Then the search is for the exact need, and a block is cut exactly when the rest can stand on its own. */
  lemma ExactTests(w: nat, h: Heap, size: nat)
    requires IsWord(w) && WF(h) && size + h.overhead < w
    ensures Sum(w, size, h.overhead) == size + h.overhead
    ensures var a := Search(h, size + h.overhead);
            a != NULL ==> a in h.hdr && h.hdr[a].status.Free?
                          && (Cuts(w, h.overhead, h.hdr[a].size, size) <==>
                                h.hdr[a].size >= size + h.overhead + (h.overhead + ALIGN))
  {
    assert IsOverhead(h.overhead);
    var need := size + h.overhead;
    var a := Search(h, need);
    hide Indexed, Bucket, Search, Cuts;
    if a != NULL {
      SearchFinds(h, need);
      SizeBound(h, a);
      if w <= need + h.overhead + ALIGN { NearTop(w, h, need); }
      CutsExact(w, h.overhead, h.hdr[a].size, size);
    }
  }

  /** As long as the size and a header fit size_t, malloc is the exact one. */
  lemma MallocExact(w: nat, h: Heap, n: nat)
    requires IsWord(w) && WF(h) && 0 < n < w && Rounded(w, n) + h.overhead < w
    ensures Malloc(w, h, n) == Done(Allocate(h, Rounded(w, n)).0, Allocate(h, Rounded(w, n)).1)
  {
    hide Tiled, Indexed, Bucket, Search, Cuts, Rounded, Sum, Split, InsertFree, Without;
    ExactTests(w, h, Rounded(w, n));
    var a := Search(h, Rounded(w, n) + h.overhead);
    if a != NULL { RemoveFreeWF(h, a); }
  }

  // ---------------------------------------------------------------- what malloc keeps

  /** No run-over in the sum of size and header: the caller's test. */
  predicate Safe(w: nat, overhead: nat, n: nat)
    requires IsWord(w)
  {
    n == 0 || Rounded(w, n) + overhead < w
  }

  /** With a run-over the need is what is left of the sum, and any block that is a header larger is cut. */
  lemma WrappedCuts(w: nat, o: nat, have: nat, size: nat)
    requires IsWord(w) && o < 0x1_0000 && have < U32 && size < w <= size + o
    ensures Sum(w, size, o) == size + o - w < o
    ensures Cuts(w, o, have, size) <==> have >= (size + o - w) + o + ALIGN
  {
  }

  /** A taken block that is not cut. */
  lemma WholeSteady(h: Heap, a: int)
    requires Steady(h) && a in h.hdr && h.hdr[a].status.Free?
    ensures a in RemoveFree(h, a).hdr && Steady(MarkUsed(RemoveFree(h, a), a))
  {
    hide Tiled, Indexed, Coalesced, FreeSize, UsedBytes, Bucket, Lonely;
    SteadyMid(h);
    RemoveFreeMid(h, a, {}, 0);
    assert {} + {a} == {a};
    MarkUsedMid(RemoveFree(h, a), a);
  }

  /** `g` is how the memory reads after a call on `h`: the heap it leaves, or any in which a torn block has its size. */
  ghost predicate LeftBy(h: Heap, r: Outcome, g: Heap) {
    match r
    case Done(k, _) => g == k
    case Torn(t) => g.overhead == h.overhead && g.total == h.total && t.block in g.hdr && g.hdr[t.block].size == t.size
  }

  ghost predicate Survives(h: Heap, r: Outcome) {
    exists g :: LeftBy(h, r, g) && Steady(g)
  }

  /**
   * malloc keeps the heap steady, for every request, unless the sum of size and header runs over and the block that is
   * then taken is long enough to be cut.
   */
  lemma MallocKeepsIff(w: nat, h: Heap, n: nat)
    requires IsWord(w) && Steady(h) && n < w
    ensures var need := Sum(w, Rounded(w, n), h.overhead);
            Survives(h, Malloc(w, h, n)) <==>
              || Safe(w, h.overhead, n) || Search(h, need) == NULL
              || SizeAt(h.hdr, Search(h, need)) < need + h.overhead + ALIGN
    ensures var r := Malloc(w, h, n); if Survives(h, r) then r.Done? && Steady(r.heap) else r.Torn?
  {
    DoneIff(w, h, n);
    hide Malloc, Steady, Safe, Search, SizeAt, LeftBy;
    if Malloc(w, h, n).Done? {
      DoneSurvives(h, Malloc(w, h, n));
    } else {
      TornBreaks(w, h, n);
    }
  }

  lemma DoneSurvives(h: Heap, r: Outcome)
    requires r.Done? && Steady(r.heap)
    ensures Survives(h, r)
  {
    assert LeftBy(h, r, r.heap);
  }

  /** A torn block is longer than the pool, so no tiling has it. */
  lemma TornBreaks(w: nat, h: Heap, n: nat)
    requires IsWord(w) && Steady(h) && n < w && Malloc(w, h, n).Torn?
    ensures !Survives(h, Malloc(w, h, n))
  {
    var r := Malloc(w, h, n);
    assert h.total < U32;
    hide Malloc, Steady;
    TornHeader(w, h, n, 0);
    forall g | LeftBy(h, r, g) ensures !Steady(g) { TooLong(g, r.tear.block); }
  }

  lemma TooLong(g: Heap, a: int)
    requires a in g.hdr && a + g.overhead + g.hdr[a].size > g.total
    ensures !Steady(g)
  {
    if Steady(g) { BlockInside(g, a); }
  }

  /** A header cut off a free block is written over the block's own, which gets a size that reaches past the pool. */
  ghost predicate OverOwn(h: Heap, t: Tear) {
    && t.block in h.hdr && h.hdr[t.block].status.Free?
    && t.block <= t.at < t.block + h.overhead && t.at + h.overhead <= EndOf(h, t.block)
    && t.block + h.overhead + t.size > h.total
  }

  /** That is what tearing a block does, wherever the memory of the pool starts. */
  lemma TornHeader(w: nat, h: Heap, n: nat, base: nat)
    requires IsWord(w) && Steady(h) && n < w && Malloc(w, h, n).Torn? && base + h.total <= w
    ensures var t := Malloc(w, h, n).tear;
            OverOwn(h, t) && CutAt(w, base + t.block, Rounded(w, n), h.overhead) == base + t.at
  {
    hide Tiled, Indexed, Coalesced, FreeSize, UsedBytes, Rounded, Malloc, CutAt;
    var a := TornIs(w, h, n);
    CutPlace(w, h.overhead, a, h.hdr[a].size, Rounded(w, n), h.total, 0);
    CutPlace(w, h.overhead, a, h.hdr[a].size, Rounded(w, n), h.total, base);
  }

  lemma TornIs(w: nat, h: Heap, n: nat) returns (a: int)
    requires IsWord(w) && Steady(h) && n < w && Malloc(w, h, n).Torn?
    ensures var size := Rounded(w, n);
            && Malloc(w, h, n).tear == Tear(a, CutAt(w, a, size, h.overhead), size % U32)
            && a in h.hdr && h.hdr[a].status.Free? && 0 <= a && a + h.overhead + h.hdr[a].size <= h.total < U32
            && h.overhead < 0x1_0000 && size < w <= size + h.overhead
            && h.hdr[a].size >= (size + h.overhead - w) + h.overhead + ALIGN
  {
    assert IsOverhead(h.overhead) && h.total < U32;
    var size := Rounded(w, n);
    a := Search(h, Sum(w, size, h.overhead));
    hide Tiled, Indexed, Coalesced, FreeSize, UsedBytes, Bucket, Search, Rounded, Cuts, Sum, CutAt, Carve, MarkUsed;
    DoneIff(w, h, n);
    SearchFinds(h, Sum(w, size, h.overhead));
    BlockInside(h, a);
    WrappedCuts(w, h.overhead, h.hdr[a].size, size);
  }

  lemma BlockInside(h: Heap, a: int)
    requires Tiled(h) && a in h.hdr
    ensures 0 <= a && a + h.overhead + h.hdr[a].size <= h.total
  {
    InBounds(h, IndexOf(h.chain, a));
  }

  /** The pointer sum runs over with the sum of the sizes and comes down in the block's own header. */
  lemma CutPlace(w: nat, o: nat, a: int, have: nat, size: nat, total: nat, base: nat)
    requires IsWord(w) && o < 0x1_0000 && 0 <= a && a + o + have <= total < U32 && size < w <= size + o
    requires have >= (size + o - w) + o + ALIGN && base + total <= w
    ensures CutAt(w, base + a, size, o) == base + a + (size + o - w)
    ensures a + o + size % U32 > total
  {
    assert (base + a + size + o) - w < w;
    assert size % U32 == U32 - (w - size);
  }

  /** malloc comes to an end of its own unless a block taken after a run-over is long enough to be cut. */
  lemma DoneIff(w: nat, h: Heap, n: nat)
    requires IsWord(w) && Steady(h) && n < w
    ensures Malloc(w, h, n).Done? ==> Steady(Malloc(w, h, n).heap)
    ensures var need := Sum(w, Rounded(w, n), h.overhead);
            Malloc(w, h, n).Done? <==>
              || Safe(w, h.overhead, n) || Search(h, need) == NULL
              || SizeAt(h.hdr, Search(h, need)) < need + h.overhead + ALIGN
  {
    hide Tiled, Indexed, Coalesced, FreeSize, UsedBytes, Bucket, Search, Rounded, Cuts, Sum;
    if n > 0 {
      if Rounded(w, n) + h.overhead < w {
        MallocExact(w, h, n);
        AllocateSteady(h, Rounded(w, n));
      } else {
        WrappedKeeps(w, h, n);
      }
    }
  }

  lemma WrappedKeeps(w: nat, h: Heap, n: nat)
    requires IsWord(w) && Steady(h) && 0 < n < w <= Rounded(w, n) + h.overhead
    ensures Malloc(w, h, n).Done? ==> Steady(Malloc(w, h, n).heap)
    ensures var need := Sum(w, Rounded(w, n), h.overhead);
            Malloc(w, h, n).Done?
            <==> Search(h, need) == NULL || SizeAt(h.hdr, Search(h, need)) < need + h.overhead + ALIGN
  {
    assert IsOverhead(h.overhead);
    hide Indexed, Coalesced, FreeSize, UsedBytes, Bucket, Search, Rounded, Cuts, Sum;
    var size := Rounded(w, n);
    var need := Sum(w, size, h.overhead);
    var a := Search(h, need);
    WrappedCuts(w, h.overhead, 0, size);
    if a != NULL {
      SearchFinds(h, need);
      SizeBound(h, a);
      WrappedCuts(w, h.overhead, h.hdr[a].size, size);
      WholeSteady(h, a);
      hide Tiled, MarkUsed, Steady;
    }
  }
}
