/**
 * Intrusive doubly linked lists: nodes are integers, NULL is -1, and a map holds every node's pair of links.
 * The free lists and the physical chain of kernel/alloc.c and the task lists of kernel/scheduler.c are such lists.
 */
module Lists {

  const NULL := -1

  ghost predicate NoDup(s: seq<int>) {
    forall i, j :: 0 <= i < j < |s| ==> s[i] != s[j]
  }

  /** `s` without its first `a`. */
  function Without(s: seq<int>, a: int): seq<int> {
    if s == [] then [] else if s[0] == a then s[1..] else [s[0]] + Without(s[1..], a)
  }

  function IndexOf(s: seq<int>, a: int): (k: nat)
    requires a in s
    ensures k < |s| && s[k] == a && a !in s[..k]
  {
    if s[0] == a then 0 else 1 + IndexOf(s[1..], a)
  }

  /** `c` with `b` put in behind position `k`. */
  function InsertAfter(c: seq<int>, k: nat, b: int): (r: seq<int>)
    requires k < |c|
    ensures |r| == |c| + 1 && r[k + 1] == b
    ensures forall i {:trigger r[i]} :: 0 <= i <= k ==> r[i] == c[i]
    ensures forall i {:trigger r[i]} :: k + 1 < i < |r| ==> r[i] == c[i - 1]
  {
    c[..k + 1] + [b] + c[k + 1..]
  }

  lemma InsertAfterMembers(c: seq<int>, k: nat, b: int)
    requires k < |c|
    ensures forall x :: x in InsertAfter(c, k, b) <==> x in c || x == b
  {
    assert c == c[..k + 1] + c[k + 1..];
  }

  /** `c` without position `k`. */
  function DropAt(c: seq<int>, k: nat): (r: seq<int>)
    requires k < |c|
    ensures |r| == |c| - 1
    ensures forall i {:trigger r[i]} :: 0 <= i < k ==> r[i] == c[i]
    ensures forall i {:trigger r[i]} :: k <= i < |r| ==> r[i] == c[i + 1]
  {
    c[..k] + c[k + 1..]
  }

  lemma {:induction false} WithoutMembers(s: seq<int>, a: int)
    requires NoDup(s)
    ensures NoDup(Without(s, a))
    ensures forall x :: x in Without(s, a) <==> x in s && x != a
  {
    if s != [] {
      var t := s[1..];
      assert NoDup(t);
      WithoutMembers(t, a);
      assert forall x :: x in s <==> x == s[0] || x in t;
      assert s[0] !in t;
      if s[0] != a {
        var w := Without(s, a);
        assert w[1..] == Without(t, a);
        assert w[0] !in w[1..];
        assert forall i :: 0 < i < |w| ==> w[i] == w[1..][i - 1];
        assert forall x :: x in w <==> x == s[0] || x in w[1..];
      }
    }
  }

  lemma {:induction false} IndexOfUnique(s: seq<int>, k: nat)
    requires NoDup(s) && k < |s|
    ensures IndexOf(s, s[k]) == k
  {
    var j := IndexOf(s, s[k]);
  }

  lemma DropAtMembers(c: seq<int>, k: nat)
    requires NoDup(c) && k < |c|
    ensures forall x :: x in DropAt(c, k) <==> x in c && x != c[k]
  {
    var r := DropAt(c, k);
    forall x | x in c && x != c[k] ensures x in r {
      var i :| 0 <= i < |c| && c[i] == x;
      assert x == if i < k then r[i] else r[i - 1];
    }
  }

  lemma NoDupAt(s: seq<int>, i: nat, j: nat)
    requires NoDup(s) && i < j < |s|
    ensures s[i] != s[j]
  {
  }

  lemma NoDupDrop(c: seq<int>, k: nat)
    requires NoDup(c) && k < |c|
    ensures NoDup(DropAt(c, k))
  {
  }

  // ---------------------------------------------------------------- links

  datatype Link = Link(prev: int, next: int)

  type Links = map<int, Link>

  function Head(l: seq<int>): int {
    if l == [] then NULL else l[0]
  }

  /** Node `j` of `l` points at its neighbours in `l`. */
  ghost predicate LinkAt(m: Links, l: seq<int>, j: int)
    requires 0 <= j < |l|
  {
    l[j] in m && m[l[j]] == Link(if j == 0 then NULL else l[j - 1], if j == |l| - 1 then NULL else l[j + 1])
  }

  /** The links of the nodes of `l` spell out `l`, forwards and backwards. */
  ghost predicate Linked(m: Links, l: seq<int>) {
    NoDup(l) && NULL !in l && forall j :: 0 <= j < |l| ==> LinkAt(m, l, j)
  }

  /** Put `a` in front of the list with head `head`. */
  function Push(m: Links, head: int, a: int): Links
    requires head == NULL || head in m
  {
    var m1 := m[a := Link(NULL, head)];
    if head == NULL then m1 else m1[head := m1[head].(prev := a)]
  }

  /** Make the neighbours of `a` bypass it. */
  function Bypass(m: Links, a: int): Links
    requires a in m && (m[a].prev == NULL || m[a].prev in m) && (m[a].next == NULL || m[a].next in m)
  {
    var Link(p, n) := m[a];
    var m1 := if p == NULL then m else m[p := m[p].(next := n)];
    if n == NULL then m1 else m1[n := m1[n].(prev := p)]
  }

  /** Put `b` in behind `a`. */
  function Graft(m: Links, a: int, b: int): Links
    requires a in m && (m[a].next == NULL || m[a].next in m)
  {
    var n := m[a].next;
    var m1 := m[b := Link(a, n)];
    var m2 := if n == NULL then m1 else m1[n := m1[n].(prev := b)];
    m2[a := m2[a].(next := b)]
  }

  lemma LinkedFrame(m: Links, m': Links, l: seq<int>)
    requires Linked(m, l) && forall a :: a in l && a in m ==> a in m' && m'[a] == m[a]
    ensures Linked(m', l)
  {
    forall j | 0 <= j < |l| ensures LinkAt(m', l, j) { assert LinkAt(m, l, j) && l[j] in l; }
  }

  lemma HeadLinked(m: Links, l: seq<int>)
    requires Linked(m, l)
    ensures Head(l) == NULL <==> l == []
    ensures l != [] ==> Head(l) in m && m[Head(l)].prev == NULL
  {
    if l != [] { assert LinkAt(m, l, 0) && l[0] in l; }
  }

  lemma PushLinked(m: Links, l: seq<int>, a: int)
    requires Linked(m, l) && a !in l && a != NULL && (l == [] || Head(l) in m)
    ensures Linked(Push(m, Head(l), a), [a] + l)
  {
    var m', l' := Push(m, Head(l), a), [a] + l;
    HeadLinked(m, l);
    forall j | 0 <= j < |l'| ensures LinkAt(m', l', j) {
      if j > 0 { assert LinkAt(m, l, j - 1) && l'[j] == l[j - 1] && l[j - 1] in l; }
      if j > 1 { NoDupAt(l, 0, j - 1); }
    }
  }

  /** The neighbours that the links of node `k` name are the ones in the list. */
  lemma LinkedNeighbours(m: Links, l: seq<int>, k: nat)
    requires Linked(m, l) && k < |l|
    ensures l[k] in m && l[k] != NULL
    ensures m[l[k]].prev == if k == 0 then NULL else l[k - 1]
    ensures m[l[k]].next == if k == |l| - 1 then NULL else l[k + 1]
    ensures k > 0 ==> l[k - 1] in m && l[k - 1] != NULL
    ensures k < |l| - 1 ==> l[k + 1] in m && l[k + 1] != NULL
  {
    assert LinkAt(m, l, k) && l[k] in l;
    if k > 0 { assert LinkAt(m, l, k - 1) && l[k - 1] in l; }
    if k < |l| - 1 { assert LinkAt(m, l, k + 1) && l[k + 1] in l; }
  }

  lemma BypassLinked(m: Links, l: seq<int>, k: nat)
    requires Linked(m, l) && k < |l|
    ensures l[k] in m && (m[l[k]].prev == NULL || m[l[k]].prev in m) && (m[l[k]].next == NULL || m[l[k]].next in m)
    ensures Linked(Bypass(m, l[k]), DropAt(l, k))
    ensures Head(DropAt(l, k)) == if k == 0 then m[l[k]].next else Head(l)
  {
    LinkedNeighbours(m, l, k);
    NoDupDrop(l, k);
    DropAtMembers(l, k);
    forall j | 0 <= j < |l| - 1 ensures LinkAt(Bypass(m, l[k]), DropAt(l, k), j) { BypassAt(m, l, k, j); }
  }

  lemma BypassAt(m: Links, l: seq<int>, k: nat, j: nat)
    requires Linked(m, l) && k < |l| && j < |l| - 1
    requires l[k] in m && (m[l[k]].prev == NULL || m[l[k]].prev in m) && (m[l[k]].next == NULL || m[l[k]].next in m)
    ensures LinkAt(Bypass(m, l[k]), DropAt(l, k), j)
  {
    LinkedNeighbours(m, l, k);
    var i := if j < k then j else j + 1;
    LinkedNeighbours(m, l, i);
    if 0 < k && i != k - 1 { NoDupPair(l, k - 1, i); }
    if k < |l| - 1 && i != k + 1 { NoDupPair(l, k + 1, i); }
  }

  lemma NoDupPair(s: seq<int>, i: nat, j: nat)
    requires NoDup(s) && i < |s| && j < |s| && i != j
    ensures s[i] != s[j]
  {
    if i < j { NoDupAt(s, i, j); } else { NoDupAt(s, j, i); }
  }

  lemma GraftLinked(m: Links, c: seq<int>, k: nat, b: int)
    requires Linked(m, c) && k < |c| && b !in c && b != NULL
    ensures c[k] in m && (m[c[k]].next == NULL || m[c[k]].next in m)
    ensures Linked(Graft(m, c[k], b), InsertAfter(c, k, b))
  {
    LinkedNeighbours(m, c, k);
    InsertAfterMembers(c, k, b);
    forall j | 0 <= j <= |c| ensures LinkAt(Graft(m, c[k], b), InsertAfter(c, k, b), j) { GraftAt(m, c, k, b, j); }
    NoDupInsert(c, k, b);
  }

  lemma NoDupInsert(c: seq<int>, k: nat, b: int)
    requires NoDup(c) && k < |c| && b !in c
    ensures NoDup(InsertAfter(c, k, b))
  {
  }

  lemma GraftAt(m: Links, c: seq<int>, k: nat, b: int, j: nat)
    requires Linked(m, c) && k < |c| && b !in c && b != NULL && j <= |c|
    requires c[k] in m && (m[c[k]].next == NULL || m[c[k]].next in m)
    ensures LinkAt(Graft(m, c[k], b), InsertAfter(c, k, b), j)
  {
    LinkedNeighbours(m, c, k);
    if j != k + 1 {
      var i := if j <= k then j else j - 1;
      LinkedNeighbours(m, c, i);
      assert c[i] in c;
      if i != k { NoDupPair(c, k, i); }
      if k < |c| - 1 && i != k + 1 { NoDupPair(c, k + 1, i); }
    }
  }

  ghost predicate Disjoint(l: seq<int>, l2: seq<int>) {
    forall x :: x in l ==> x !in l2
  }

  /** Pushing onto one list leaves a disjoint one linked. */
  lemma PushOther(m: Links, l: seq<int>, a: int, l2: seq<int>)
    requires Linked(m, l) && Linked(m, l2) && Disjoint(l, l2) && a !in l2 && (l == [] || Head(l) in m)
    ensures Linked(Push(m, Head(l), a), l2)
  {
    HeadLinked(m, l);
    assert l != [] ==> Head(l) in l;
    LinkedFrame(m, Push(m, Head(l), a), l2);
  }

  /** Unlinking from one list leaves a disjoint one linked. */
  lemma BypassOther(m: Links, l: seq<int>, k: nat, l2: seq<int>)
    requires Linked(m, l) && Linked(m, l2) && Disjoint(l, l2) && k < |l|
    requires l[k] in m && (m[l[k]].prev == NULL || m[l[k]].prev in m) && (m[l[k]].next == NULL || m[l[k]].next in m)
    ensures Linked(Bypass(m, l[k]), l2)
  {
    LinkedNeighbours(m, l, k);
    assert k > 0 ==> l[k - 1] in l;
    assert k < |l| - 1 ==> l[k + 1] in l;
    LinkedFrame(m, Bypass(m, l[k]), l2);
  }
}
