/** The priority queue used for evictions: a binary heap on a stack of fixed-size blocks. */
module Prques {
  import opened Basics
  import opened Ordering

  const BLOCK: nat := 4096

  /** int64 subtraction, which wraps. */
  function Minus(x: int64, y: int64): (d: int64) {
    if x - y >= TWO_63 then x - y - 2 * TWO_63
    else if x - y < -TWO_63 then x - y + 2 * TWO_63
    else x - y
  }

  datatype Item<+V> = Item(value: V, priority: int64)
  datatype Cell<+V> = Nil | Full(item: Item<V>)

  /** Greatest priority first. */
  function Rank<V>(x: Item<V>): int { 0 - x.priority as int }

  /** Live priorities differ by less than 2^63. */
  ghost predicate Close<V(!new)>(s: seq<Item<V>>) {
    forall i, j :: 0 <= i < |s| && 0 <= j < |s| ==> s[i].priority - s[j].priority < TWO_63
  }

  class BlockStack<V(!new)> {
    var size: nat
    var capacity: nat
    var offset: int
    var blocks: seq<array<Cell<V>>>
    var active: array<Cell<V>>

    /** The active block and the offset in it, as Push and Pop leave them. */
    ghost predicate Positioned()
      reads this
    {
      if offset == BLOCK then
        0 < size && size % BLOCK == 0 && size / BLOCK - 1 < |blocks| && active == blocks[size / BLOCK - 1]
      else offset == size % BLOCK && size / BLOCK < |blocks| && active == blocks[size / BLOCK]
    }

    ghost predicate Valid()
      reads this, blocks
    {
      && capacity == |blocks| * BLOCK
      && size <= capacity
      && (forall i :: 0 <= i < |blocks| ==> blocks[i].Length == BLOCK)
      && (forall i, j :: 0 <= i < j < |blocks| ==> blocks[i] != blocks[j])
      && (forall k :: 0 <= k < size ==> blocks[k / BLOCK][k % BLOCK].Full?)
      && Positioned()
    }

    /** The stack as a flat sequence. */
    ghost function Contents(): (s: seq<Item<V>>)
      requires Valid()
      reads this, blocks
      ensures |s| == size
    {
      seq(size, k requires 0 <= k < size && Valid() reads this, blocks => blocks[k / BLOCK][k % BLOCK].item)
    }

    constructor ()
      ensures Valid() && Contents() == [] && fresh(blocks)
    {
      var first := new Cell<V>[BLOCK](_ => Nil);
      size, capacity, offset := 0, BLOCK, 0;
      blocks, active := [first], first;
    }

    method Push(x: Item<V>)
      requires Valid()
      modifies this, blocks
      ensures Valid() && Contents() == old(Contents()) + [x]
      ensures forall i :: 0 <= i < |blocks| ==> blocks[i] in old(blocks) || fresh(blocks[i])
    {
      MakeRoom();
      active[offset] := Full(x);
      offset := offset + 1;
      size := size + 1;
      assert forall k :: 0 <= k < size - 1 ==> k / BLOCK != (size - 1) / BLOCK || k % BLOCK != (size - 1) % BLOCK;
    }

    /** Makes the block that takes the next element active. */
    method MakeRoom()
      requires Valid()
      modifies this
      ensures Valid() && size == old(size) && Contents() == old(Contents())
      ensures size / BLOCK < |blocks| && active == blocks[size / BLOCK] && offset == size % BLOCK
      ensures old(blocks) <= blocks
      ensures forall i :: |old(blocks)| <= i < |blocks| ==> fresh(blocks[i])
    {
      if size == capacity {
        active := new Cell<V>[BLOCK](_ => Nil);
        blocks := blocks + [active];
        capacity := capacity + BLOCK;
        offset := 0;
      } else if offset == BLOCK {
        active := blocks[size / BLOCK];
        offset := 0;
      }
    }

    method Pop() returns (x: Item<V>)
      requires Valid() && size > 0
      modifies this, blocks
      ensures Valid() && blocks == old(blocks)
      ensures old(Contents()) == Contents() + [x]
    {
      StepBack();
      x := active[offset].item;
      active[offset] := Nil;
      assert forall k :: 0 <= k < size ==> k / BLOCK != size / BLOCK || k % BLOCK != size % BLOCK;
    }

    /** Makes the last element's block active, with the offset on it, and takes it off the size. */
    method StepBack()
      requires Valid() && size > 0
      modifies this`size, this`offset, this`active
      ensures Valid() && size == old(size) - 1 && Contents() == old(Contents())[..size]
      ensures size / BLOCK < |blocks| && active == blocks[size / BLOCK] && offset == size % BLOCK
      ensures active[offset].Full? && active[offset].item == old(Contents())[size]
    {
      var top := size - 1;
      assert blocks[top / BLOCK][top % BLOCK].Full?;
      size := size - 1;
      offset := offset - 1;
      if offset < 0 {
        offset := BLOCK - 1;
        active := blocks[size / BLOCK];
      }
    }

    method Less(i: nat, j: nat) returns (b: bool)
      requires Valid() && i < size && j < size
      ensures b <==> Minus(Contents()[i].priority, Contents()[j].priority) > 0
    {
      b := Minus(blocks[i / BLOCK][i % BLOCK].item.priority, blocks[j / BLOCK][j % BLOCK].item.priority) > 0;
    }

    method SwapItems(i: nat, j: nat)
      requires Valid() && i < size && j < size
      modifies blocks
      ensures Valid() && Contents() == Swap(old(Contents()), i, j)
    {
      var a, b := blocks[j / BLOCK][j % BLOCK], blocks[i / BLOCK][i % BLOCK];
      blocks[i / BLOCK][i % BLOCK] := a;
      blocks[j / BLOCK][j % BLOCK] := b;
    }
  }

  lemma CloseComparison<V(!new)>(s: seq<Item<V>>, i: nat, j: nat)
    requires Close(s) && i < |s| && j < |s|
    ensures Minus(s[i].priority, s[j].priority) > 0 <==> Rank(s[i]) < Rank(s[j])
  {
    assert s[i].priority - s[j].priority < TWO_63;
    assert s[j].priority - s[i].priority < TWO_63;
  }

  lemma CloseSame<V(!new)>(s: seq<Item<V>>, r: seq<Item<V>>)
    requires Close(s) && forall x :: x in multiset(r) ==> x in multiset(s)
    ensures Close(r)
  {
    forall i, j | 0 <= i < |r| && 0 <= j < |r| ensures r[i].priority - r[j].priority < TWO_63 {
      assert r[i] in multiset(r) && r[j] in multiset(r);
      assert r[i] in s && r[j] in s;
    }
  }

  /** Sifting down from `i0` in the first `n` elements of `was` has reached `i`. */
  ghost predicate Sifting<V(!new)>(was: seq<Item<V>>, now: seq<Item<V>>, n: nat, i0: nat, i: nat) {
    && |now| == |was|
    && i0 <= i < n <= |now|
    && Ordering.Down(now[..n], Rank, i) == Ordering.Down(was[..n], Rank, i0)
    && now[n..] == was[n..]
    && (i == i0 ==> now == was)
    && (i > i0 ==> Rank(now[i0]) < Rank(was[i0]))
  }

  lemma SiftStarts<V(!new)>(s: seq<Item<V>>, n: nat, i: nat)
    requires i < n <= |s|
    ensures Sifting(s, s, n, i, i)
  {
  }

  lemma SiftStep<V(!new)>(was: seq<Item<V>>, now: seq<Item<V>>, n: nat, i0: nat, i: nat, j: nat)
    requires Sifting(was, now, n, i0, i) && 2 * i + 1 < n
    requires j == LeastChild(now[..n], Rank, i) && Rank(now[j]) < Rank(now[i])
    ensures i < j < n && Sifting(was, Swap(now, i, j), n, i0, j)
  {
    assert Swap(now, i, j)[..n] == Swap(now[..n], i, j);
  }

  lemma SiftEnds<V(!new)>(was: seq<Item<V>>, now: seq<Item<V>>, n: nat, i0: nat, i: nat)
    requires Sifting(was, now, n, i0, i)
    requires 2 * i + 1 < n ==> Rank(now[LeastChild(now[..n], Rank, i)]) >= Rank(now[i])
    ensures now[..n] == Ordering.Down(was[..n], Rank, i0) && now[n..] == was[n..]
    ensures i == i0 <==> now == was
  {
  }

  lemma PopOutcome<V(!new)>(s: seq<Item<V>>)
    requires s != [] && IsHeap(s, Rank) && Close(s)
    ensures IsHeap(HeapPop(s, Rank), Rank) && Close(HeapPop(s, Rank)) && Close(Swap(s, 0, |s| - 1))
    ensures forall x :: x in s ==> x.priority <= s[0].priority
  {
    HeapPopKeeps(s, Rank);
    CloseSame(s, HeapPop(s, Rank));
    CloseSame(s, Swap(s, 0, |s| - 1));
    assert forall x :: x in s ==> Rank(s[0]) <= Rank(x);
  }

  lemma PopLands<V(!new)>(s: seq<Item<V>>, sifted: seq<Item<V>>, left: seq<Item<V>>, x: Item<V>)
    requires s != [] && |sifted| == |s| && sifted == left + [x]
    requires if |s| == 1 then sifted == Swap(s, 0, 0) else
               && sifted[..|s| - 1] == Ordering.Down(Swap(s, 0, |s| - 1)[..|s| - 1], Rank, 0)
               && sifted[|s| - 1..] == Swap(s, 0, |s| - 1)[|s| - 1..]
    ensures left == HeapPop(s, Rank) && x == s[0]
  {
    assert left == sifted[..|s| - 1];
    assert x == sifted[|s| - 1..][0];
  }

  lemma UpStops<V(!new)>(s: seq<Item<V>>, j: nat)
    requires j < |s| && (j == 0 || Rank(s[j]) >= Rank(s[(j - 1) / 2]))
    ensures Ordering.Up(s, Rank, j) == s
  {
  }

  lemma UpStep<V(!new)>(s: seq<Item<V>>, j: nat)
    requires Close(s) && 0 < j < |s| && Rank(s[j]) < Rank(s[(j - 1) / 2])
    ensures Ordering.Up(s, Rank, j) == Ordering.Up(Swap(s, (j - 1) / 2, j), Rank, (j - 1) / 2)
    ensures Close(Swap(s, (j - 1) / 2, j))
  {
    CloseSame(s, Swap(s, (j - 1) / 2, j));
  }

  class Prque<V(!new)> {
    const cont: BlockStack<V>

    ghost predicate Valid()
      reads this, cont, cont.blocks
    {
      && cont.Valid()
      && Close(cont.Contents())
      && IsHeap(cont.Contents(), Rank)
    }

    /** The live items, in heap order. */
    ghost function Items(): (s: seq<Item<V>>)
      requires Valid()
      reads this, cont, cont.blocks
    {
      cont.Contents()
    }

    constructor ()
      ensures Valid() && Items() == [] && fresh(cont) && fresh(cont.blocks)
    {
      cont := new BlockStack<V>();
    }

    /** heap.up */
    method Up(j0: nat)
      requires cont.Valid() && Close(cont.Contents()) && j0 < cont.size
      modifies cont.blocks
      ensures cont.Valid() && cont.Contents() == Ordering.Up(old(cont.Contents()), Rank, j0)
    {
      hide BlockStack.Valid, BlockStack.Contents, Close, Swap, Ordering.Up;
      var j: nat := j0;
      while j != 0
        invariant cont.Valid() && j < cont.size && Close(cont.Contents())
        invariant Ordering.Up(cont.Contents(), Rank, j) == Ordering.Up(old(cont.Contents()), Rank, j0)
      {
        var i := (j - 1) / 2;
        var less := cont.Less(j, i);
        ghost var before := cont.Contents();
        CloseComparison(before, j, i);
        if !less {
          UpStops(before, j);
          return;
        }
        UpStep(before, j);
        cont.SwapItems(i, j);
        j := i;
      }
      UpStops(cont.Contents(), 0);
    }

    /** heap.down over the first `n` elements; tells whether anything moved. */
    method Down(i0: nat, n: nat) returns (moved: bool)
      requires cont.Valid() && Close(cont.Contents()) && i0 < n <= cont.size
      modifies cont.blocks
      ensures cont.Valid() && cont.size == old(cont.size)
      ensures cont.Contents()[..n] == Ordering.Down(old(cont.Contents())[..n], Rank, i0)
      ensures cont.Contents()[n..] == old(cont.Contents())[n..]
      ensures !moved <==> cont.Contents() == old(cont.Contents())
    {
      hide BlockStack.Valid, BlockStack.Contents, Close, Sifting, Swap, LeastChild, Ordering.Down;
      var i: nat := i0;
      SiftStarts(cont.Contents(), n, i0);
      while 2 * i + 1 < n
        invariant cont.Valid() && i0 <= i < n <= cont.size == old(cont.size) && Close(cont.Contents())
        invariant Sifting(old(cont.Contents()), cont.Contents(), n, i0, i)
        decreases n - i
      {
        var j := SmallerChild(i, n);
        var less := cont.Less(j, i);
        CloseComparison(cont.Contents(), j, i);
        if !less { break; }
        ghost var before := cont.Contents();
        SiftStep(old(cont.Contents()), before, n, i0, i, j);
        cont.SwapItems(i, j);
        CloseSame(before, cont.Contents());
        i := j;
      }
      moved := i > i0;
      SiftEnds(old(cont.Contents()), cont.Contents(), n, i0, i);
    }

    method SmallerChild(i: nat, n: nat) returns (j: nat)
      requires cont.Valid() && Close(cont.Contents()) && 2 * i + 1 < n <= cont.size
      ensures j == LeastChild(cont.Contents()[..n], Rank, i)
    {
      hide BlockStack.Valid, BlockStack.Contents, Close;
      j := 2 * i + 1;
      if j + 1 < n {
        var right := cont.Less(j + 1, j);
        CloseComparison(cont.Contents(), j + 1, j);
        if right { j := j + 1; }
      }
    }

    method Push(data: V, priority: int64)
      requires Valid() && Close(Items() + [Item(data, priority)])
      modifies cont, cont.blocks
      ensures Valid() && multiset(Items()) == multiset(old(Items())) + multiset{Item(data, priority)}
      ensures forall i :: 0 <= i < |cont.blocks| ==> cont.blocks[i] in old(cont.blocks) || fresh(cont.blocks[i])
    {
      hide BlockStack.Valid, BlockStack.Contents, Close, IsHeap, Ordering.Up;
      ghost var before := cont.Contents();
      cont.Push(Item(data, priority));
      HeapPushKeeps(before, Rank, Item(data, priority));
      ghost var pushed := cont.Contents();
      Up(cont.size - 1);
      CloseSame(pushed, cont.Contents());
    }

    /** Takes out an item of greatest priority. */
    method Pop() returns (value: V, priority: int64)
      requires Valid() && Items() != []
      modifies cont, cont.blocks
      ensures Valid() && multiset(old(Items())) == multiset(Items()) + multiset{Item(value, priority)}
      ensures forall x :: x in old(Items()) ==> x.priority <= priority
      ensures cont.blocks == old(cont.blocks)
    {
      hide BlockStack.Valid, BlockStack.Contents, Close, IsHeap, Ordering.Down, HeapPop, Swap;
      ghost var before := cont.Contents();
      PopOutcome(before);
      var n := cont.size - 1;
      cont.SwapItems(0, n);
      if n > 0 {
        var _ := Down(0, n);
      }
      ghost var sifted := cont.Contents();
      var x := cont.Pop();
      PopLands(before, sifted, cont.Contents(), x);
      value, priority := x.value, x.priority;
    }

    method Empty() returns (b: bool)
      requires Valid()
      ensures b <==> Items() == []
    {
      b := cont.size == 0;
    }
  }
}
