/**
 Binary heaps and sorting over sequences, as Go's container/heap and sort packages perform
 them.  Elements are compared through an integer `rank`; the least rank comes first.
 */
module Ordering {

  // ---------- Heap order ----------

  function Parent(k: nat): (p: nat)
    requires 0 < k
  {
    (k - 1) / 2
  }

  ghost predicate IsHeap<T(!new)>(h: seq<T>, rank: T -> int) {
    forall k :: 0 < k < |h| ==> rank(h[Parent(k)]) <= rank(h[k])
  }

  /** A heap except that the element at `j` may be smaller than its ancestors. */
  ghost predicate HeapBut<T(!new)>(h: seq<T>, rank: T -> int, j: nat) {
    && (forall k :: 0 < k < |h| && k != j ==> rank(h[Parent(k)]) <= rank(h[k]))
    && (forall k :: 0 < k < |h| && Parent(k) == j && 0 < j < |h| ==> rank(h[Parent(j)]) <= rank(h[k]))
  }

  /** A heap on the part rooted at or after `lo`, except that `i` may be larger than its children. */
  ghost predicate HeapBelow<T(!new)>(h: seq<T>, rank: T -> int, lo: nat, i: nat) {
    && (forall k :: 0 < k < |h| && Parent(k) >= lo && Parent(k) != i ==> rank(h[Parent(k)]) <= rank(h[k]))
    && (forall k :: 0 < k < |h| && Parent(k) == i && 0 < i < |h| && Parent(i) >= lo ==>
      rank(h[Parent(i)]) <= rank(h[k]))
  }

  function Swap<T>(h: seq<T>, i: nat, j: nat): (r: seq<T>)
    requires i < |h| && j < |h|
    ensures |r| == |h|
    ensures multiset(r) == multiset(h)
  {
    h[i := h[j]][j := h[i]]
  }

  function Up<T>(h: seq<T>, rank: T -> int, j: nat): (r: seq<T>)
    requires j < |h|
    ensures |r| == |h| && multiset(r) == multiset(h)
    decreases j
  {
    if j == 0 || rank(h[j]) >= rank(h[Parent(j)]) then h
    else Up(Swap(h, Parent(j), j), rank, Parent(j))
  }

  lemma {:induction false} UpRestores<T(!new)>(h: seq<T>, rank: T -> int, j: nat)
    requires j < |h| && HeapBut(h, rank, j)
    ensures IsHeap(Up(h, rank, j), rank)
    decreases j
  {
    if j == 0 || rank(h[j]) >= rank(h[Parent(j)]) {
      assert IsHeap(h, rank);
    } else {
      var p := Parent(j);
      var h' := Swap(h, p, j);
      forall k | 0 < k < |h'| && k != p
        ensures rank(h'[Parent(k)]) <= rank(h'[k])
      {
        if Parent(k) == p { } else if Parent(k) == j { }
      }
      UpRestores(h', rank, p);
    }
  }

  /** The child of `i` that `down` compares with: the smaller one, the left one on a tie. */
  function LeastChild<T>(h: seq<T>, rank: T -> int, i: nat): (j: nat)
    requires 2 * i + 1 < |h|
    ensures 2 * i + 1 <= j <= 2 * i + 2 && j < |h|
  {
    if 2 * i + 2 < |h| && rank(h[2 * i + 2]) < rank(h[2 * i + 1]) then 2 * i + 2 else 2 * i + 1
  }

  function Down<T>(h: seq<T>, rank: T -> int, i: nat): (r: seq<T>)
    ensures |r| == |h| && multiset(r) == multiset(h)
    decreases |h| - i
  {
    if 2 * i + 1 >= |h| then h
    else
      var j := LeastChild(h, rank, i);
      if rank(h[j]) >= rank(h[i]) then h else Down(Swap(h, i, j), rank, j)
  }

  lemma {:induction false} DownRestores<T(!new)>(h: seq<T>, rank: T -> int, lo: nat, i: nat)
    requires lo <= i && HeapBelow(h, rank, lo, i)
    ensures HeapBelow(Down(h, rank, i), rank, lo, |h|)
    decreases |h| - i
  {
    if 2 * i + 1 < |h| {
      var j := LeastChild(h, rank, i);
      if rank(h[j]) < rank(h[i]) {
        DownStep(h, rank, lo, i);
        DownRestores(Swap(h, i, j), rank, lo, j);
      }
    }
  }

  lemma DownStep<T(!new)>(h: seq<T>, rank: T -> int, lo: nat, i: nat)
    requires lo <= i && HeapBelow(h, rank, lo, i) && 2 * i + 1 < |h|
    requires rank(h[LeastChild(h, rank, i)]) < rank(h[i])
    ensures HeapBelow(Swap(h, i, LeastChild(h, rank, i)), rank, lo, LeastChild(h, rank, i))
  {
    var j := LeastChild(h, rank, i);
    var h' := Swap(h, i, j);
    assert Parent(j) == i;
    forall k | 0 < k < |h'| && Parent(k) >= lo && Parent(k) != j
      ensures rank(h'[Parent(k)]) <= rank(h'[k])
    {
      if Parent(k) == i {
        assert k == 2 * i + 1 || k == 2 * i + 2;
      } else if k == i {
        assert rank(h[Parent(i)]) <= rank(h[j]);
      }
    }
    forall k | 0 < k < |h'| && Parent(k) == j
      ensures rank(h'[Parent(j)]) <= rank(h'[k])
    {
      assert rank(h[Parent(k)]) <= rank(h[k]);
    }
  }

  /** A one-position fix-up moves an element either down or up, never both. */
  lemma {:induction false} DownUnchanged<T(!new)>(h: seq<T>, rank: T -> int, i: nat)
    requires i < |h|
    requires forall k :: 0 < k < |h| && Parent(k) == i ==> rank(h[i]) <= rank(h[k])
    ensures Down(h, rank, i) == h
  {
    if 2 * i + 1 < |h| {
      assert Parent(2 * i + 1) == i && Parent(LeastChild(h, rank, i)) == i;
    }
  }

  // ---------- Heap operations ----------

  function HeapPush<T>(h: seq<T>, rank: T -> int, x: T): (r: seq<T>)
    ensures multiset(r) == multiset(h) + multiset{x} && |r| == |h| + 1
  {
    Up(h + [x], rank, |h|)
  }

  lemma HeapPushKeeps<T(!new)>(h: seq<T>, rank: T -> int, x: T)
    requires IsHeap(h, rank)
    ensures IsHeap(HeapPush(h, rank, x), rank)
  {
    UpRestores(h + [x], rank, |h|);
  }

  /** The heap left by Pop; the popped element is `h[0]`. */
  function HeapPop<T>(h: seq<T>, rank: T -> int): (r: seq<T>)
    requires |h| > 0
    ensures |r| == |h| - 1 && multiset(r) + multiset{h[0]} == multiset(h)
  {
    var n := |h| - 1;
    var s := Swap(h, 0, n);
    assert s == s[..n] + [h[0]];
    Down(s[..n], rank, 0)
  }

  lemma HeapPopKeeps<T(!new)>(h: seq<T>, rank: T -> int)
    requires |h| > 0 && IsHeap(h, rank)
    ensures IsHeap(HeapPop(h, rank), rank)
    ensures forall x :: x in h ==> rank(h[0]) <= rank(x)
  {
    var n := |h| - 1;
    var s := Swap(h, 0, n)[..n];
    assert HeapBelow(s, rank, 0, 0);
    DownRestores(s, rank, 0, 0);
    forall x | x in h ensures rank(h[0]) <= rank(x) {
      var k :| 0 <= k < |h| && h[k] == x;
      RootIsLeast(h, rank, k);
    }
  }

  lemma {:induction false} RootIsLeast<T(!new)>(h: seq<T>, rank: T -> int, k: nat)
    requires k < |h| && IsHeap(h, rank)
    ensures rank(h[0]) <= rank(h[k])
    decreases k
  {
    if k > 0 { RootIsLeast(h, rank, Parent(k)); }
  }

  /** The heap left by Remove(i): the last element takes the place of `h[i]` and is sifted. */
  function HeapRemove<T(==)>(h: seq<T>, rank: T -> int, i: nat): (r: seq<T>)
    requires i < |h|
    ensures |r| == |h| - 1 && multiset(r) + multiset{h[i]} == multiset(h)
  {
    var n := |h| - 1;
    if i == n then
      assert h == h[..n] + [h[n]];
      h[..n]
    else
      var s := Swap(h, i, n);
      assert s == s[..n] + [h[i]];
      var d := Down(s[..n], rank, i);
      if d != s[..n] then d else Up(d, rank, i)
  }

  lemma HeapRemoveKeeps<T(!new)>(h: seq<T>, rank: T -> int, i: nat)
    requires i < |h| && IsHeap(h, rank)
    ensures IsHeap(HeapRemove(h, rank, i), rank)
  {
    if i < |h| - 1 {
      Replaced(h, rank, i);
      SiftRestores(Swap(h, i, |h| - 1)[..|h| - 1], rank, i);
    }
  }

  /** A heap except that the element at `i` may be out of order either way. */
  ghost predicate HeapAround<T(!new)>(h: seq<T>, rank: T -> int, i: nat) {
    && (forall k :: 0 < k < |h| && k != i && Parent(k) != i ==> rank(h[Parent(k)]) <= rank(h[k]))
    && (forall k :: 0 < k < |h| && Parent(k) == i && 0 < i < |h| ==> rank(h[Parent(i)]) <= rank(h[k]))
  }

  lemma Replaced<T(!new)>(h: seq<T>, rank: T -> int, i: nat)
    requires i < |h| - 1 && IsHeap(h, rank)
    ensures HeapAround(Swap(h, i, |h| - 1)[..|h| - 1], rank, i)
  {
    var s := Swap(h, i, |h| - 1)[..|h| - 1];
    forall k | 0 < k < |s| && Parent(k) == i && 0 < i
      ensures rank(s[Parent(i)]) <= rank(s[k])
    {
      assert rank(h[Parent(i)]) <= rank(h[i]) <= rank(h[k]);
    }
  }

  lemma SiftRestores<T(!new)>(s: seq<T>, rank: T -> int, i: nat)
    requires i < |s| && HeapAround(s, rank, i)
    ensures IsHeap(if Down(s, rank, i) != s then Down(s, rank, i) else Up(s, rank, i), rank)
  {
    if k :| 0 < k < |s| && Parent(k) == i && rank(s[k]) < rank(s[i]) {
      assert HeapBelow(s, rank, 0, i) by {
        assert i > 0 ==> rank(s[Parent(i)]) <= rank(s[k]);
      }
      DownMoves(s, rank, i, k);
      DownRestores(s, rank, 0, i);
    } else {
      DownUnchanged(s, rank, i);
      UpRestores(s, rank, i);
    }
  }

  lemma DownMoves<T(!new)>(h: seq<T>, rank: T -> int, i: nat, k: nat)
    requires 0 < k < |h| && Parent(k) == i && rank(h[k]) < rank(h[i])
    ensures Down(h, rank, i) != h
  {
    var j := LeastChild(h, rank, i);
    assert k == 2 * i + 1 || k == 2 * i + 2;
    assert rank(h[j]) < rank(h[i]);
    DownKeepsAbove(Swap(h, i, j), rank, j, i);
    assert Down(h, rank, i)[i] == h[j];
  }

  lemma {:induction false} DownKeepsAbove<T(!new)>(h: seq<T>, rank: T -> int, i: nat, k: nat)
    requires k < i && k < |h|
    ensures Down(h, rank, i)[k] == h[k]
    decreases |h| - i
  {
    if 2 * i + 1 < |h| {
      var j := LeastChild(h, rank, i);
      if rank(h[j]) < rank(h[i]) {
        DownKeepsAbove(Swap(h, i, j), rank, j, k);
      }
    }
  }

  /** heap.Init: sift every inner node down, from the last one to the root. */
  function HeapInit<T>(h: seq<T>, rank: T -> int, i: nat := |h| / 2): (r: seq<T>)
    ensures |r| == |h| && multiset(r) == multiset(h)
    decreases i
  {
    if i == 0 then h else HeapInit(Down(h, rank, i - 1), rank, i - 1)
  }

  lemma {:induction false} HeapInitOrders<T(!new)>(h: seq<T>, rank: T -> int, i: nat)
    requires HeapBelow(h, rank, i, |h|)
    ensures IsHeap(HeapInit(h, rank, i), rank)
    decreases i
  {
    if i > 0 {
      DownRestores(h, rank, i - 1, i - 1);
      HeapInitOrders(Down(h, rank, i - 1), rank, i - 1);
    }
  }

  lemma HeapInitIsHeap<T(!new)>(h: seq<T>, rank: T -> int)
    ensures IsHeap(HeapInit(h, rank), rank)
  {
    HeapInitOrders(h, rank, |h| / 2);
  }

  // ---------- Sorting ----------

  ghost predicate SortedBy<T(!new)>(s: seq<T>, rank: T -> int) {
    forall i, j :: 0 <= i < j < |s| ==> rank(s[i]) <= rank(s[j])
  }

  function Insert<T>(s: seq<T>, rank: T -> int, x: T): (r: seq<T>)
    ensures |r| == |s| + 1
    ensures multiset(r) == multiset(s) + multiset{x}
  {
    if s == [] then [x]
    else if rank(x) < rank(s[0]) then [x] + s
    else
      assert s == [s[0]] + s[1..];
      [s[0]] + Insert(s[1..], rank, x)
  }

  lemma {:induction false} InsertOrders<T(!new)>(s: seq<T>, rank: T -> int, x: T)
    requires SortedBy(s, rank)
    ensures SortedBy(Insert(s, rank, x), rank)
  {
    if s != [] && rank(x) >= rank(s[0]) {
      var t := Insert(s[1..], rank, x);
      InsertOrders(s[1..], rank, x);
      hide Insert;
      forall j | 0 <= j < |t| ensures rank(s[0]) <= rank(t[j]) {
        assert t[j] in multiset(t);
        assert t[j] == x || t[j] in s[1..];
      }
    }
  }

  /** sort.Sort: the elements in rank order. */
  function Sort<T>(s: seq<T>, rank: T -> int): (r: seq<T>)
    ensures |r| == |s|
    ensures multiset(r) == multiset(s)
  {
    if s == [] then []
    else
      assert s == [s[0]] + s[1..];
      Insert(Sort(s[1..], rank), rank, s[0])
  }

  lemma {:induction false} SortOrders<T(!new)>(s: seq<T>, rank: T -> int)
    ensures SortedBy(Sort(s, rank), rank)
  {
    if s != [] {
      SortOrders(s[1..], rank);
      InsertOrders(Sort(s[1..], rank), rank, s[0]);
    }
  }
}
