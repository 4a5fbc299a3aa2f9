/**
 The per-account transaction list: a nonce map, a heap of its nonces and a lazily kept
 sorted copy.  `TxList` is the source's txList together with the txSortedMap it wraps.
 */
module TxLists {
  import opened Basics
  import opened Transactions
  import opened Ordering

  /** `s` lists each element of `keys` exactly once, and nothing else. */
  ghost predicate Enumerates(s: seq<Nonce>, keys: set<Nonce>) {
    forall n :: multiset(s)[n] == if n in keys then 1 else 0
  }

  /** `index` is a duplicate-free min-heap of exactly the keys of `items`. */
  ghost predicate Indexed(items: TxMap, index: seq<Nonce>) {
    && Keyed(items)
    && IsHeap(index, NonceRank)
    && Enumerates(index, items.Keys)
  }

  lemma {:induction false} EnumerationSize(s: seq<Nonce>, keys: set<Nonce>)
    requires Enumerates(s, keys)
    ensures |s| == |keys|
    ensures forall n :: n in s <==> n in keys
  {
    forall n ensures n in s <==> n in keys {
      assert n in s <==> multiset(s)[n] > 0;
    }
    if s != [] {
      assert s == [s[0]] + s[1..];
      EnumerationLess(s, keys, s[1..], s[0]);
      EnumerationSize(s[1..], keys - {s[0]});
    }
  }

  lemma EnumerationLess(s: seq<Nonce>, keys: set<Nonce>, r: seq<Nonce>, x: Nonce)
    requires Enumerates(s, keys) && multiset(r) + multiset{x} == multiset(s)
    ensures x in keys && Enumerates(r, keys - {x})
  {
    assert multiset(s)[x] == multiset(r)[x] + 1;
    forall n ensures multiset(r)[n] == if n in keys - {x} then 1 else 0 {
      assert multiset(s)[n] == multiset(r)[n] + multiset{x}[n];
    }
  }

  lemma IndexPush(items: TxMap, index: seq<Nonce>, tx: Tx)
    requires Indexed(items, index) && tx.nonce !in items
    ensures Indexed(items[tx.nonce := tx], HeapPush(index, NonceRank, tx.nonce))
  {
    HeapPushKeeps(index, NonceRank, tx.nonce);
    assert items[tx.nonce := tx].Keys == items.Keys + {tx.nonce};
  }

  lemma IndexLeast(items: TxMap, index: seq<Nonce>)
    requires Indexed(items, index) && index != []
    ensures index[0] in items && forall n :: n in items ==> index[0] <= n
  {
    EnumerationSize(index, items.Keys);
    forall n | n in items ensures index[0] <= n {
      var k :| 0 <= k < |index| && index[k] == n;
      RootIsLeast(index, NonceRank, k);
    }
  }

  lemma IndexPop(items: TxMap, index: seq<Nonce>)
    requires Indexed(items, index) && index != []
    ensures index[0] in items && Indexed(items - {index[0]}, HeapPop(index, NonceRank))
    ensures forall n :: n in items && n != index[0] ==> index[0] < n
    ensures |items - {index[0]}| == |items| - 1
  {
    IndexLeast(items, index);
    HeapPopKeeps(index, NonceRank);
    EnumerationLess(index, items.Keys, HeapPop(index, NonceRank), index[0]);
    assert (items - {index[0]}).Keys == items.Keys - {index[0]};
  }

  lemma IndexRemove(items: TxMap, index: seq<Nonce>, i: nat)
    requires Indexed(items, index) && i < |index|
    ensures Indexed(items - {index[i]}, HeapRemove(index, NonceRank, i))
  {
    HeapRemoveKeeps(index, NonceRank, i);
    EnumerationLess(index, items.Keys, HeapRemove(index, NonceRank, i), index[i]);
    assert (items - {index[i]}).Keys == items.Keys - {index[i]};
  }

  /** Detaching one more transaction. */
  lemma DetachOne(before: TxMap, gone: seq<Tx>, after: TxMap, n: Nonce)
    requires Keyed(before) && Detached(before, gone, after) && n in after
    ensures Detached(before, gone + [after[n]], after - {n})
  {
    assert (after - {n}).Keys == after.Keys - {n};
    assert forall t :: t in gone + [after[n]] <==> t in gone || t == after[n];
  }

  lemma PeelOne(before: TxMap, gone: seq<Tx>, after: TxMap, index: seq<Nonce>)
    requires Peeled(before, gone, after) && Indexed(after, index) && index != []
    ensures index[0] in after
    ensures Peeled(before, gone + [after[index[0]]], after - {index[0]})
    ensures Indexed(after - {index[0]}, HeapPop(index, NonceRank))
  {
    IndexPop(after, index);
    PeelLow(before, gone, after, index[0]);
  }

  lemma PeelLow(before: TxMap, gone: seq<Tx>, after: TxMap, n: Nonce)
    requires Peeled(before, gone, after) && n in after
    requires forall k :: k in after && k != n ==> n < k
    ensures Peeled(before, gone + [after[n]], after - {n})
  {
    assert after[n].nonce == n;
    DetachOne(before, gone, after, n);
    AppendAscending(gone, after[n]);
    BelowShrinks(gone, after, n);
  }

  lemma BelowShrinks(gone: seq<Tx>, after: TxMap, n: Nonce)
    requires n in after && after[n].nonce == n && Below(gone, after)
    requires forall k :: k in after && k != n ==> n < k
    ensures Below(gone + [after[n]], after - {n})
  {
    assert forall t :: t in gone + [after[n]] ==> t in gone || t == after[n];
  }

  lemma AboveShrinks(gone: seq<Tx>, after: TxMap, n: Nonce)
    requires n in after && after[n].nonce == n && Above(gone, after)
    requires forall k :: k in after && k != n ==> k < n
    ensures Above(gone + [after[n]], after - {n})
  {
    assert forall t :: t in gone + [after[n]] ==> t in gone || t == after[n];
  }

  lemma AppendAscending(s: seq<Tx>, t: Tx)
    requires Ascending(s) && (forall u :: u in s ==> u.nonce < t.nonce)
    ensures Ascending(s + [t])
  {
    forall i, j | 0 <= i < j < |s + [t]| ensures (s + [t])[i].nonce < (s + [t])[j].nonce {
      if j == |s| { assert s[i] in s; }
    }
  }

  lemma AppendDescending(s: seq<Tx>, t: Tx)
    requires Descending(s) && (forall u :: u in s ==> u.nonce > t.nonce)
    ensures Descending(s + [t])
  {
    forall i, j | 0 <= i < j < |s + [t]| ensures (s + [t])[i].nonce > (s + [t])[j].nonce {
      if j == |s| { assert s[i] in s; }
    }
  }

  /** The items left are those of the first `size` entries of the sorted index. */
  ghost predicate Capping(before: TxMap, gone: seq<Tx>, after: TxMap, index: seq<Nonce>, size: nat) {
    && size == |after| <= |index|
    && Capped(before, gone, after)
    && SortedBy(index, NonceRank)
    && Enumerates(index[..size], after.Keys)
  }

  lemma CapOne(before: TxMap, gone: seq<Tx>, after: TxMap, index: seq<Nonce>, size: nat)
    requires Capping(before, gone, after, index, size) && 0 < size
    ensures index[size - 1] in after
    ensures Capping(before, gone + [after[index[size - 1]]], after - {index[size - 1]}, index, size - 1)
  {
    var last := index[size - 1];
    assert index[..size] == index[..size - 1] + [last];
    EnumerationLess(index[..size], after.Keys, index[..size - 1], last);
    assert (after - {last}).Keys == after.Keys - {last};
    EnumerationSize(index[..size], after.Keys);
    forall n | n in after && n != last ensures n < last {
      assert n in index[..size];
      var i :| 0 <= i < size && index[..size][i] == n;
      assert NonceRank(index[i]) <= NonceRank(index[size - 1]);
    }
    CapHigh(before, gone, after, last);
  }

  lemma CapEnds(before: TxMap, gone: seq<Tx>, after: TxMap, index: seq<Nonce>, size: nat)
    requires Capping(before, gone, after, index, size)
    ensures Indexed(after, HeapInit(index[..size], NonceRank))
  {
    HeapInitIsHeap(index[..size], NonceRank);
  }

  lemma CapHigh(before: TxMap, gone: seq<Tx>, after: TxMap, n: Nonce)
    requires Capped(before, gone, after) && n in after
    requires forall k :: k in after && k != n ==> k < n
    ensures Capped(before, gone + [after[n]], after - {n})
  {
    assert after[n].nonce == n;
    DetachOne(before, gone, after, n);
    AppendDescending(gone, after[n]);
    AboveShrinks(gone, after, n);
  }

  lemma LeftAtOrAbove(items: TxMap, index: seq<Nonce>, threshold: Nonce)
    requires Indexed(items, index) && (index == [] || index[0] >= threshold)
    ensures forall n :: n in items ==> threshold <= n
  {
    EnumerationSize(index, items.Keys);
    if index != [] { IndexLeast(items, index); }
  }

  lemma SortedIndex(items: TxMap, index: seq<Nonce>)
    requires Indexed(items, index)
    ensures Capping(items, [], items, Sort(index, NonceRank), |items|)
  {
    hide Sort, IsHeap;
    var s := Sort(index, NonceRank);
    EnumerationSize(index, items.Keys);
    SortOrders(index, NonceRank);
    assert s[..|items|] == s;
  }

  /** Pops the heap while its least nonce is below `threshold`. */
  method PopBelow(before: TxMap, heap: seq<Nonce>, threshold: Nonce)
    returns (removed: seq<Tx>, after: TxMap, index: seq<Nonce>)
    requires Indexed(before, heap)
    ensures Indexed(after, index) && Peeled(before, removed, after)
    ensures forall t :: t in removed ==> t.nonce < threshold
    ensures forall n :: n in after ==> threshold <= n
  {
    removed, after, index := [], before, heap;
    while |index| > 0 && index[0] < threshold
      invariant Indexed(after, index)
      invariant Peeled(before, removed, after)
      invariant forall t :: t in removed ==> t.nonce < threshold
      decreases |index|
    {
      PeelOne(before, removed, after, index);
      removed := removed + [after[index[0]]];
      after := after - {index[0]};
      index := HeapPop(index, NonceRank);
    }
    LeftAtOrAbove(after, index, threshold);
  }

  /** Sorts the index and drops from its high end until `threshold` items are left. */
  method DropHighest(before: TxMap, heap: seq<Nonce>, threshold: nat)
    returns (drops: seq<Tx>, after: TxMap, index: seq<Nonce>)
    requires Indexed(before, heap) && threshold < |before|
    ensures Indexed(after, index) && Capped(before, drops, after) && |after| == threshold
  {
    hide Capped, SortedBy, Enumerates, IsHeap, Sort, HeapInit;
    SortedIndex(before, heap);
    index := Sort(heap, NonceRank);
    drops, after := [], before;
    var size := |before|;
    while size > threshold
      invariant threshold <= size && Capping(before, drops, after, index, size)
    {
      CapOne(before, drops, after, index, size);
      drops := drops + [after[index[size - 1]]];
      after := after - {index[size - 1]};
      size := size - 1;
    }
    CapEnds(before, drops, after, index, threshold);
    index := HeapInit(index[..threshold], NonceRank);
  }

  /** Pops the consecutive run that starts at the least nonce. */
  method PopRun(before: TxMap, heap: seq<Nonce>)
    returns (ready: seq<Tx>, after: TxMap, index: seq<Nonce>)
    requires Indexed(before, heap) && heap != []
    ensures Indexed(after, index) && Peeled(before, ready, after)
    ensures ready != [] && ready[0].nonce == heap[0] && Consecutive(ready)
    ensures ready[|ready| - 1].nonce + 1 !in after
  {
    ready, after, index := [], before, heap;
    var next := heap[0];
    while |index| > 0 && index[0] == next
      invariant Running(before, heap[0], ready, after, index, next)
      invariant ready == [] ==> index == heap
      decreases |index|
    {
      RunOne(before, heap[0], ready, after, index, next);
      ready := ready + [after[next]];
      after := after - {next};
      index := HeapPop(index, NonceRank);
      next := Succ(next);
    }
    RunEnds(ready, after, index, next);
  }

  /** A run popped so far from the heap top `first`; `next` is its continuation. */
  ghost predicate Running(before: TxMap, first: Nonce, ready: seq<Tx>, after: TxMap, index: seq<Nonce>, next: Nonce) {
    && Indexed(after, index)
    && Peeled(before, ready, after)
    && (if ready == [] then next == first else RunTo(ready, first, next))
  }

  lemma RunOne(before: TxMap, first: Nonce, ready: seq<Tx>, after: TxMap, index: seq<Nonce>, next: Nonce)
    requires Running(before, first, ready, after, index, next) && index != [] && index[0] == next
    ensures next in after
    ensures Running(before, first, ready + [after[next]], after - {next}, HeapPop(index, NonceRank), Succ(next))
  {
    PeelOne(before, ready, after, index);
    RunGrows(ready, after[next], first, next);
  }

  /** `run` is consecutive from `first`, and `next` is the uint64 after its end. */
  ghost predicate RunTo(run: seq<Tx>, first: Nonce, next: Nonce) {
    && run != []
    && run[0].nonce == first
    && Consecutive(run)
    && next == Succ(run[|run| - 1].nonce)
  }

  lemma RunGrows(run: seq<Tx>, t: Tx, first: Nonce, next: Nonce)
    requires t.nonce == next
    requires if run == [] then next == first else RunTo(run, first, next)
    requires forall u :: u in run ==> u.nonce < next
    ensures RunTo(run + [t], first, Succ(next))
  {
    if run != [] {
      assert run[|run| - 1] in run;
    }
  }

  lemma RunEnds(ready: seq<Tx>, after: TxMap, index: seq<Nonce>, next: Nonce)
    requires Indexed(after, index) && Below(ready, after) && ready != []
    requires index == [] || index[0] != next
    requires next == Succ(ready[|ready| - 1].nonce)
    ensures ready[|ready| - 1].nonce + 1 !in after
  {
    var last := ready[|ready| - 1];
    assert last in ready;
    EnumerationSize(index, after.Keys);
    if index != [] {
      IndexLeast(after, index);
      assert last.nonce < index[0];
    }
  }

  /** A walk over a Go map: its keys, in some order. */
  method AnyOrder(keys: set<Nonce>) returns (s: seq<Nonce>)
    ensures Enumerates(s, keys)
  {
    s := [];
    var todo := keys;
    while todo != {}
      invariant todo <= keys && Enumerates(s, keys - todo)
    {
      var n :| n in todo;
      assert keys - (todo - {n}) == (keys - todo) + {n};
      s := s + [n];
      todo := todo - {n};
    }
    assert keys - {} == keys;
  }

  /** Splits off the transactions for which `filter` holds. */
  method Partition(items: TxMap, filter: Tx -> bool) returns (removed: seq<Tx>, kept: TxMap)
    requires Keyed(items)
    ensures Detached(items, removed, kept) && Distinct(removed)
    ensures forall t :: t in removed ==> filter(t)
    ensures forall n :: n in kept ==> !filter(kept[n])
  {
    removed, kept := [], items;
    var todo := items.Keys;
    while todo != {}
      invariant todo <= kept.Keys && Detached(items, removed, kept) && Distinct(removed)
      invariant forall t :: t in removed ==> filter(t)
      invariant forall n :: n in kept ==> n in todo || !filter(kept[n])
    {
      var n :| n in todo;
      if filter(items[n]) {
        DetachOne(items, removed, kept, n);
        assert items[n] !in removed;
        removed := removed + [items[n]];
        kept := kept - {n};
      }
      todo := todo - {n};
    }
  }

  /** The transactions of `items` in nonce order, gathered in any order and then sorted. */
  method SortItems(items: TxMap) returns (s: seq<Tx>)
    requires Keyed(items)
    ensures Listing(s, items)
  {
    var keys := AnyOrder(items.Keys);
    EnumerationSize(keys, items.Keys);
    var txs := seq(|keys|, i requires 0 <= i < |keys| => assert keys[i] in keys; items[keys[i]]);
    s := Sort(txs, TxRank);
    SortedGathering(items, keys, txs);
  }

  lemma SortedGathering(items: TxMap, keys: seq<Nonce>, txs: seq<Tx>)
    requires Keyed(items) && Enumerates(keys, items.Keys) && |txs| == |keys|
    requires forall i :: 0 <= i < |keys| ==> keys[i] in items && txs[i] == items[keys[i]]
    ensures Listing(Sort(txs, TxRank), items)
  {
    hide Sort, Listing, Enumerates;
    var s := Sort(txs, TxRank);
    SortOrders(txs, TxRank);
    Gathered(items, keys, txs);
    SameMembers(s, txs);
    SortedMeansNonces(s);
    SortedIsListing(s, items);
  }

  lemma Gathered(items: TxMap, keys: seq<Nonce>, txs: seq<Tx>)
    requires Keyed(items) && Enumerates(keys, items.Keys) && |txs| == |keys|
    requires forall i :: 0 <= i < |keys| ==> keys[i] in items && txs[i] == items[keys[i]]
    ensures |txs| == |items|
    ensures forall t :: t in txs ==> t.nonce in items && items[t.nonce] == t
    ensures forall n :: n in items ==> items[n] in txs
  {
    EnumerationSize(keys, items.Keys);
    forall n | n in items ensures items[n] in txs {
      var i :| 0 <= i < |keys| && keys[i] == n;
      assert txs[i] in txs;
    }
  }

  lemma SortedMeansNonces(s: seq<Tx>)
    requires SortedBy(s, TxRank)
    ensures forall i, j :: 0 <= i < j < |s| ==> s[i].nonce <= s[j].nonce
  {
    forall i, j | 0 <= i < j < |s| ensures s[i].nonce <= s[j].nonce {
      assert TxRank(s[i]) <= TxRank(s[j]);
    }
  }

  lemma SameMembers<T>(s: seq<T>, r: seq<T>)
    requires multiset(s) == multiset(r)
    ensures forall t :: t in s <==> t in r
  {
    forall t ensures t in s <==> t in r {
      assert t in s <==> t in multiset(s);
      assert t in r <==> t in multiset(r);
    }
  }

  class TxList {
    const strict: bool          // pending lists are strict, queue lists are not
    ghost const owner: Address  // the account the list is kept for
    var items: TxMap
    var index: seq<Nonce>
    var cache: Option<seq<Tx>>

    /** The heap indexes the items, and a kept cache is their nonce-ordered listing. */
    ghost predicate Valid()
      reads this
    {
      && Indexed(items, index)
      && (cache.Some? ==> Listing(cache.value, items))
    }

    constructor (strict: bool, ghost owner: Address)
      ensures Valid()
      ensures this.strict == strict && this.owner == owner && items == map[]
    {
      this.strict := strict;
      this.owner := owner;
      items := map[];
      index := [];
      cache := None;
    }

    /** Inserts or overwrites by nonce. */
    method Put(tx: Tx)
      requires Valid()
      modifies this
      ensures Valid() && items == old(items)[tx.nonce := tx]
    {
      if tx.nonce !in items {
        IndexPush(items, index, tx);
        index := HeapPush(index, NonceRank, tx.nonce);
      } else {
        assert items[tx.nonce := tx].Keys == items.Keys;
      }
      items, cache := items[tx.nonce := tx], None;
    }

    /** Refuses a nonce that is already taken. */
    method Add(tx: Tx) returns (inserted: bool)
      requires Valid()
      modifies this
      ensures Valid()
      ensures inserted <==> tx.nonce !in old(items)
      ensures items == if inserted then old(items)[tx.nonce := tx] else old(items)
    {
      if tx.nonce in items { return false; }
      Put(tx);
      inserted := true;
    }

    /** Removes and returns, in order, every transaction below `threshold`. */
    method Forward(threshold: Nonce) returns (removed: seq<Tx>)
      requires Valid()
      modifies this
      ensures Valid() && Peeled(old(items), removed, items)
      ensures forall t :: t in removed ==> t.nonce < threshold
      ensures forall n :: n in items ==> threshold <= n
    {
      removed, items, index := PopBelow(items, index, threshold);
      if cache.Some? {
        ListingWithoutLow(cache.value, old(items), removed, items);
        cache := Some(cache.value[|removed|..]);
      }
    }

    /** Keeps only the `threshold` lowest nonces; the rest come back highest first. */
    method Cap(threshold: nat) returns (drops: seq<Tx>)
      requires Valid()
      modifies this
      ensures Valid() && Capped(old(items), drops, items)
      ensures |items| == if |old(items)| <= threshold then |old(items)| else threshold
    {
      hide Listing, Indexed, Capped;
      if |items| <= threshold {
        NothingCapped(items, index);
        return [];
      }
      drops, items, index := DropHighest(items, index, threshold);
      if cache.Some? {
        ListingWithoutHigh(cache.value, old(items), drops, items);
        cache := Some(cache.value[..|cache.value| - |drops|]);
      }
    }

    /** Removes everything the filter accepts and rebuilds the heap if anything went. */
    method Filter(filter: Tx -> bool) returns (removed: seq<Tx>)
      requires Valid()
      modifies this
      ensures Valid() && Detached(old(items), removed, items) && Distinct(removed)
      ensures forall t :: t in removed ==> filter(t)
      ensures forall n :: n in items ==> !filter(items[n])
    {
      var kept;
      removed, kept := Partition(items, filter);
      if |removed| > 0 {
        var keys := AnyOrder(kept.Keys);
        HeapInitIsHeap(keys, NonceRank);
        items, index, cache := kept, HeapInit(keys, NonceRank), None;
      } else {
        NothingDetached(items, kept);
      }
    }

    /** Removes by nonce; a strict list also gives up everything above it. */
    method Remove(tx: Tx) returns (removed: bool, invalids: seq<Tx>)
      requires Valid()
      modifies this
      ensures Valid()
      ensures removed <==> tx.nonce in old(items)
      ensures !removed ==> items == old(items) && invalids == []
      ensures removed ==> Detached(old(items) - {tx.nonce}, invalids, items) && Distinct(invalids)
      ensures removed && strict ==>
                && (forall t :: t in invalids ==> tx.nonce < t.nonce)
                && (forall n :: n in items ==> n < tx.nonce)
      ensures !strict ==> invalids == []
    {
      hide Listing, Enumerates, IsHeap, HeapRemove;
      if tx.nonce !in items { return false, []; }
      var i := FindIndex(items, index, tx.nonce);
      IndexRemove(items, index, i);
      index := HeapRemove(index, NonceRank, i);
      items := items - {tx.nonce};
      cache := None;
      removed, invalids := true, [];
      if strict {
        invalids := Filter((t: Tx) => t.nonce > tx.nonce);
        assert forall n :: n in items ==> items[n].nonce == n;
      }
    }

    /** Removes the consecutive run that starts at the least nonce, if that is not past `start`. */
    method Ready(start: Nonce) returns (ready: seq<Tx>)
      requires Valid()
      modifies this
      ensures Valid() && Peeled(old(items), ready, items) && Consecutive(ready)
      ensures ready == [] ==> forall n :: n in items ==> start < n
      ensures ready != [] ==> ready[0].nonce <= start && ready[|ready| - 1].nonce + 1 !in items
    {
      if |index| == 0 || index[0] > start {
        NoneReady(items, index, start);
        return [];
      }
      ready, items, index := PopRun(items, index);
      cache := None;
    }

    /** The transactions in nonce order, cached until the next change. */
    method Flatten() returns (txs: seq<Tx>)
      requires Valid()
      modifies this
      ensures Valid() && items == old(items) && Listing(txs, items)
    {
      if cache.None? {
        var sorted := SortItems(items);
        cache := Some(sorted);
      }
      txs := cache.value;
    }
  }

  lemma NoneReady(items: TxMap, index: seq<Nonce>, start: Nonce)
    requires Indexed(items, index) && (index == [] || index[0] > start)
    ensures forall n :: n in items ==> start < n
  {
    EnumerationSize(index, items.Keys);
    if index != [] { IndexLeast(items, index); }
  }

  lemma NothingCapped(items: TxMap, index: seq<Nonce>)
    requires Indexed(items, index)
    ensures Capped(items, [], items)
  {
  }

  lemma NothingDetached(before: TxMap, after: TxMap)
    requires Detached(before, [], after)
    ensures before == after
  {
    assert before.Keys == after.Keys;
  }

  method FindIndex(items: TxMap, index: seq<Nonce>, nonce: Nonce) returns (i: nat)
    requires Indexed(items, index) && nonce in items
    ensures i < |index| && index[i] == nonce
  {
    EnumerationSize(index, items.Keys);
    i := 0;
    while index[i] != nonce
      invariant i < |index| && nonce !in index[..i]
      decreases |index| - i
    {
      assert index == index[..i] + [index[i]] + index[i + 1..];
      i := i + 1;
    }
  }
}
