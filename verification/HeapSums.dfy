/** What each allocator step does to the walked free size and to the used bytes of the chain. */
module HeapSums {
  import opened Bits
  import opened Lists
  import opened HeapModel

  // ---------------------------------------------------------------- free size

  lemma {:induction false} ListSumSame(h: map<int, Header>, g: map<int, Header>, o: nat, l: seq<int>)
    requires forall a :: a in l ==> SizeAt(h, a) == SizeAt(g, a)
    ensures ListSum(h, o, l) == ListSum(g, o, l)
  {
    if l != [] { ListSumSame(h, g, o, l[1..]); }
  }

  lemma {:induction false} ListsSumSame(h: map<int, Header>, g: map<int, Header>, o: nat, ls: seq<seq<int>>)
    requires forall i, a :: 0 <= i < |ls| && a in ls[i] ==> SizeAt(h, a) == SizeAt(g, a)
    ensures ListsSum(h, o, ls) == ListsSum(g, o, ls)
  {
    if ls != [] {
      ListSumSame(h, g, o, ls[0]);
      ListsSumSame(h, g, o, ls[1..]);
    }
  }

  lemma {:induction false} ListsSumUpdate(h: map<int, Header>, o: nat, ls: seq<seq<int>>, i: nat, l: seq<int>)
    requires i < |ls|
    ensures ListsSum(h, o, ls[i := l]) == ListsSum(h, o, ls) - ListSum(h, o, ls[i]) + ListSum(h, o, l)
  {
    if i == 0 {
      assert ls[0 := l][1..] == ls[1..];
    } else {
      assert ls[i := l][1..] == ls[1..][i - 1 := l];
      ListsSumUpdate(h, o, ls[1..], i - 1, l);
    }
  }

  lemma {:induction false} ListSumWithout(h: map<int, Header>, o: nat, l: seq<int>, a: int)
    requires a in l
    ensures ListSum(h, o, Without(l, a)) == ListSum(h, o, l) - SizeAt(h, a) - o
  {
    if l[0] != a {
      ListSumWithout(h, o, l[1..], a);
      assert Without(l, a)[1..] == Without(l[1..], a);
    }
  }

  lemma InsertFreeSize(h: Heap, a: int)
    requires WF(h) && a in h.hdr && h.hdr[a].status.Held?
    ensures FreeSize(InsertFree(h, a)) == FreeSize(h) + h.hdr[a].size + h.overhead
  {
    var g, i := InsertFree(h, a), Bucket(h.hdr[a].size);
    ListsSumSame(h.hdr, g.hdr, h.overhead, g.lists);
    ListsSumUpdate(h.hdr, h.overhead, h.lists, i, [a] + h.lists[i]);
    assert ([a] + h.lists[i])[1..] == h.lists[i];
  }

  lemma RemoveFreeSize(h: Heap, a: int)
    requires WF(h) && a in h.hdr && h.hdr[a].status.Free?
    ensures FreeSize(RemoveFree(h, a)) == FreeSize(h) - h.hdr[a].size - h.overhead
  {
    var g, i := RemoveFree(h, a), Bucket(h.hdr[a].size);
    ListsSumSame(h.hdr, g.hdr, h.overhead, g.lists);
    ListsSumUpdate(h.hdr, h.overhead, h.lists, i, Without(h.lists[i], a));
    ListSumWithout(h.hdr, h.overhead, h.lists[i], a);
  }

  lemma SplitFreeSize(h: Heap, k: nat, size: nat)
    requires WF(h) && k < |h.chain| && h.hdr[h.chain[k]].status.Held? && size + h.overhead <= h.hdr[h.chain[k]].size
    ensures FreeSize(Split(h, k, size)) == FreeSize(h)
  {
    SplitFresh(h, k, size);
    ListsSumSame(h.hdr, Split(h, k, size).hdr, h.overhead, h.lists);
  }

  lemma JoinFreeSize(h: Heap, k: nat)
    requires WF(h) && k + 1 < |h.chain|
    requires h.hdr[h.chain[k]].status.Held? && h.hdr[h.chain[k + 1]].status.Held?
    ensures FreeSize(Join(h, k)) == FreeSize(h)
  {
    ListsSumSame(h.hdr, Join(h, k).hdr, h.overhead, h.lists);
  }

  lemma SetStatusFreeSize(h: Heap, a: int, st: Status)
    requires a in h.hdr
    ensures FreeSize(SetStatus(h, a, st)) == FreeSize(h)
  {
    ListsSumSame(h.hdr, SetStatus(h, a, st).hdr, h.overhead, h.lists);
  }

  // ---------------------------------------------------------------- used bytes

  lemma {:induction false} UsedSumSame(h: map<int, Header>, g: map<int, Header>, o: nat, c: seq<int>)
    requires forall a :: a in c ==> Share(h, o, a) == Share(g, o, a)
    ensures UsedSum(h, o, c) == UsedSum(g, o, c)
  {
    if c != [] {
      assert c[0] in c;
      UsedSumSame(h, g, o, c[1..]);
    }
  }

  lemma {:induction false} UsedSumInsert(h: map<int, Header>, o: nat, c: seq<int>, k: nat, b: int)
    requires k < |c|
    ensures UsedSum(h, o, InsertAfter(c, k, b)) == UsedSum(h, o, c) + Share(h, o, b)
  {
    var r := InsertAfter(c, k, b);
    assert r[0] == c[0];
    if k == 0 {
      assert r[1..] == [b] + c[1..];
      assert r[1..][1..] == c[1..];
    } else {
      UsedSumInsert(h, o, c[1..], k - 1, b);
      assert r[1..] == InsertAfter(c[1..], k - 1, b);
    }
  }

  lemma {:induction false} UsedSumDrop(h: map<int, Header>, o: nat, c: seq<int>, k: nat)
    requires k < |c|
    ensures UsedSum(h, o, DropAt(c, k)) == UsedSum(h, o, c) - Share(h, o, c[k])
  {
    var r := DropAt(c, k);
    if k == 0 {
      assert r == c[1..];
    } else {
      UsedSumDrop(h, o, c[1..], k - 1);
      assert r[1..] == DropAt(c[1..], k - 1);
    }
  }

  lemma {:induction false} UsedSumChange(h: map<int, Header>, g: map<int, Header>, o: nat, c: seq<int>, k: nat)
    requires k < |c| && NoDup(c)
    requires forall a :: a in c && a != c[k] ==> Share(h, o, a) == Share(g, o, a)
    ensures UsedSum(g, o, c) == UsedSum(h, o, c) - Share(h, o, c[k]) + Share(g, o, c[k])
  {
    if k == 0 {
      UsedSumSame(h, g, o, c[1..]);
    } else {
      assert c[0] in c && c[0] != c[k];
      UsedSumChange(h, g, o, c[1..], k - 1);
    }
  }

  function UsedBytes(h: Heap): nat { UsedSum(h.hdr, h.overhead, h.chain) }

  lemma SetStatusUsed(h: Heap, a: int, st: Status)
    requires Tiled(h) && a in h.hdr
    ensures UsedBytes(SetStatus(h, a, st))
            == UsedBytes(h) - Share(h.hdr, h.overhead, a) + (if st.Used? then h.hdr[a].size + h.overhead else 0)
  {
    ChainDistinct(h);
    UsedSumChange(h.hdr, SetStatus(h, a, st).hdr, h.overhead, h.chain, IndexOf(h.chain, a));
  }

  lemma SplitUsed(h: Heap, k: nat, size: nat)
    requires Tiled(h) && k < |h.chain| && h.hdr[h.chain[k]].status.Held? && size + h.overhead <= h.hdr[h.chain[k]].size
    ensures UsedBytes(Split(h, k, size)) == UsedBytes(h)
  {
    var g := Split(h, k, size);
    SplitFresh(h, k, size);
    UsedSumSame(h.hdr, g.hdr, h.overhead, h.chain);
    UsedSumInsert(g.hdr, h.overhead, h.chain, k, h.chain[k] + h.overhead + size);
  }

  lemma JoinUsed(h: Heap, k: nat)
    requires Tiled(h) && k + 1 < |h.chain|
    requires h.hdr[h.chain[k]].status.Held? && h.hdr[h.chain[k + 1]].status.Held?
    ensures UsedBytes(Join(h, k)) == UsedBytes(h)
  {
    UsedSumSame(h.hdr, Join(h, k).hdr, h.overhead, h.chain);
    UsedSumDrop(Join(h, k).hdr, h.overhead, h.chain, k + 1);
  }
}
