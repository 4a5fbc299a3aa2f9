/** Dropping queued transactions when the queue book is over its limit, or has gone idle. */
module QueueEviction {
  import opened Transactions
  import opened TxLists
  import opened PoolState
  import opened Accounts
  import opened TxPools
  import opened Eviction

  /** Of the queue list of `a` in `q0`, exactly the transactions `rest` are left in `q`. */
  ghost predicate LeftOver(q0: Book, q: Book, a: Address, rest: seq<Tx>) {
    && a in q0
    && q == Trimmed(q0, a, ListOf(q, a))
    && Keyed(ListOf(q, a))
    && Listing(rest, ListOf(q, a))
    && (forall t :: t in rest ==> t.from == a)
  }

  lemma ListingFront(s: seq<Tx>, m: TxMap)
    requires Listing(s, m) && Keyed(m) && s != []
    ensures Listing(s[..|s| - 1], m - {s[|s| - 1].nonce})
  {
    var k := |s| - 1;
    var front, last := s[..k], s[k];
    forall t | t in front ensures t in s && t.nonce != last.nonce {
      var i :| 0 <= i < k && front[i] == t;
      assert s[i].nonce < s[k].nonce;
    }
    forall n | n in m && n != last.nonce ensures m[n] in front {
      var i :| 0 <= i < |s| && s[i] == m[n];
      assert i != k && front[i] == m[n];
    }
  }

  lemma LeftOverSize(q0: Book, q: Book, a: Address, rest: seq<Tx>)
    requires LeftOver(q0, q, a, rest)
    ensures Count(q) == Count(q0) - |q0[a]| + |rest|
    ensures rest == [] ==> a !in q
    ensures SameBut(q0, q, a)
  {
    ListingSize(rest, ListOf(q, a));
    CountTrimmed(q0, a, ListOf(q, a));
  }

  lemma LeftOverLess(q0: Book, q: Book, a: Address, rest: seq<Tx>, less: seq<Tx>, n: Nonce)
    requires LeftOver(q0, q, a, rest) && a in q && n in q[a]
    requires Listing(less, q[a] - {n}) && forall t :: t in less ==> t in rest
    ensures LeftOver(q0, Trimmed(q, a, q[a] - {n}), a, less)
  {
    var m := q[a] - {n};
    assert q != q0 - {a};
    assert q == q0[a := q[a]];
    if m == map[] {
      assert q0[a := q[a]] - {a} == q0 - {a};
    } else {
      assert q0[a := q[a]][a := m] == q0[a := m];
    }
  }

  /** removeTx on a queued transaction touches the queue only. */
  method DropQueued(pool: TxPool, t: Tx)
    requires pool.Sound() && pool.Inv() && Holds(pool.queue.book, t)
    modifies pool`all, pool`virtual, pool.pending, pool.queue, pool.pending.Repr, pool.queue.Repr
    ensures pool.Sound() && pool.Inv() && pool.pending.Repr == old(pool.pending.Repr)
    ensures fresh(pool.queue.Repr - old(pool.queue.Repr))
    ensures pool.pending.book == old(pool.pending.book) && pool.virtual == old(pool.virtual)
    ensures pool.queue.book == Trimmed(old(pool.queue.book), t.from, old(pool.queue.book)[t.from] - {t.nonce})
    ensures pool.all == old(pool.all) - {t.hash}
    ensures NothingNew(old(pool.all), pool.all)
    ensures forall u :: Lost(old(pool.all), pool.all, u) ==> u.from == t.from
  {
    hide AccountLists.Valid, TxPool.Inv, Trimmed, CutAt;
    QueuedIsExact(pool, t);
    pool.RemoveTx(t.hash);
  }

  lemma QueuedIsExact(pool: TxPool, t: Tx)
    requires pool.Inv() && Holds(pool.queue.book, t)
    ensures t.hash in pool.all && pool.all[t.hash] == t && !Taken(pool.pending.book, t.from, t.nonce)
    ensures forall u :: Lost(pool.all, pool.all - {t.hash}, u) ==> u.from == t.from
  {
    assert Knows(pool.all, t);
    assert Taken(pool.queue.book, t.from, t.nonce);
    RemoveOneKeeps(pool.pending.book, pool.queue.book, pool.all, t);
  }

  /** Drops every queued transaction of account `a`, in nonce order. */
  method DropQueue(pool: TxPool, a: Address) returns (size: nat)
    requires pool.Sound() && pool.Inv() && a in pool.queue.book
    modifies pool`all, pool`virtual, pool.pending, pool.queue, pool.pending.Repr, pool.queue.Repr
    ensures pool.Sound() && pool.Inv() && pool.pending.Repr == old(pool.pending.Repr)
    ensures fresh(pool.queue.Repr - old(pool.queue.Repr))
    ensures pool.pending.book == old(pool.pending.book) && pool.virtual == old(pool.virtual)
    ensures size == |old(pool.queue.book)[a]| && Count(pool.queue.book) == Count(old(pool.queue.book)) - size
    ensures a !in pool.queue.book && SameBut(old(pool.queue.book), pool.queue.book, a)
    ensures NothingNew(old(pool.all), pool.all)
    ensures forall u :: Lost(old(pool.all), pool.all, u) ==> u.from == a
  {
    hide AccountLists.Valid, TxPool.Inv, Trimmed, LeftOver, Count, Lost, NothingNew, SameBut;
    ghost var q0 := pool.queue.book;
    NothingLost(pool.all);
    var txs := pool.queue.Flatten(a);
    Untouched(pool, a, txs);
    for i := 0 to |txs|
      invariant pool.Sound() && pool.Inv() && pool.pending.Repr == old(pool.pending.Repr)
      invariant fresh(pool.queue.Repr - old(pool.queue.Repr))
      invariant pool.pending.book == old(pool.pending.book) && pool.virtual == old(pool.virtual)
      invariant LeftOver(q0, pool.queue.book, a, txs[i..])
      invariant NothingNew(old(pool.all), pool.all)
      invariant forall u :: Lost(old(pool.all), pool.all, u) ==> u.from == a
    {
      ghost var known := pool.all;
      DropFirst(q0, pool.queue.book, a, txs, i);
      DropQueued(pool, txs[i]);
      LostOverTwo(old(pool.all), known, pool.all);
    }
    assert txs[|txs|..] == [];
    LeftOverSize(q0, pool.queue.book, a, []);
    ListingSize(txs, q0[a]);
    size := |txs|;
  }

  lemma Untouched(pool: TxPool, a: Address, txs: seq<Tx>)
    requires pool.Inv() && a in pool.queue.book && Listing(txs, pool.queue.book[a])
    ensures LeftOver(pool.queue.book, pool.queue.book, a, txs[0..]) && Keyed(pool.queue.book[a])
  {
    var q := pool.queue.book;
    FiledKeyed(q, a);
    assert txs[0..] == txs;
    assert q[a := q[a]] == q;
    forall t | t in txs ensures t.from == a {
      assert Taken(q, a, t.nonce);
    }
  }

  lemma DropFirst(q0: Book, q: Book, a: Address, txs: seq<Tx>, i: nat)
    requires i < |txs| && LeftOver(q0, q, a, txs[i..])
    ensures a in q && Holds(q, txs[i]) && txs[i].from == a
    ensures LeftOver(q0, Trimmed(q, a, q[a] - {txs[i].nonce}), a, txs[i + 1..])
  {
    var rest := txs[i..];
    assert rest[0] == txs[i] && rest[0] in rest && rest[1..] == txs[i + 1..];
    ListingTail(rest, q[a]);
    hide Listing, Trimmed;
    LeftOverLess(q0, q, a, rest, rest[1..], txs[i].nonce);
  }

  /** Drops the last `drop` queued transactions of account `a`, highest nonce first. */
  method DropQueueTail(pool: TxPool, a: Address, drop: nat)
    requires pool.Sound() && pool.Inv() && a in pool.queue.book && drop <= |pool.queue.book[a]|
    modifies pool`all, pool`virtual, pool.pending, pool.queue, pool.pending.Repr, pool.queue.Repr
    ensures pool.Sound() && pool.Inv() && pool.pending.Repr == old(pool.pending.Repr)
    ensures fresh(pool.queue.Repr - old(pool.queue.Repr))
    ensures pool.pending.book == old(pool.pending.book) && pool.virtual == old(pool.virtual)
    ensures Count(pool.queue.book) == Count(old(pool.queue.book)) - drop
    ensures SameBut(old(pool.queue.book), pool.queue.book, a)
    ensures LowPart(ListOf(pool.queue.book, a), old(pool.queue.book)[a])
    ensures NothingNew(old(pool.all), pool.all)
    ensures forall u :: Lost(old(pool.all), pool.all, u) ==> u.from == a
  {
    hide AccountLists.Valid, TxPool.Inv, Trimmed, LeftOver, Count, Lost, NothingNew, SameBut, LowPart;
    ghost var q0 := pool.queue.book;
    NothingLost(pool.all);
    var txs := pool.queue.Flatten(a);
    Untouched(pool, a, txs);
    ListingSize(txs, q0[a]);
    assert txs[..|txs|] == txs[0..];
    var i, left := |txs|, drop;
    while left > 0
      invariant 0 <= left <= i && i - left == |txs| - drop && i <= |txs|
      invariant pool.Sound() && pool.Inv() && pool.pending.Repr == old(pool.pending.Repr)
      invariant fresh(pool.queue.Repr - old(pool.queue.Repr))
      invariant pool.pending.book == old(pool.pending.book) && pool.virtual == old(pool.virtual)
      invariant LeftOver(q0, pool.queue.book, a, txs[..i])
      invariant NothingNew(old(pool.all), pool.all)
      invariant forall u :: Lost(old(pool.all), pool.all, u) ==> u.from == a
      decreases left
    {
      ghost var known := pool.all;
      DropLast(q0, pool.queue.book, a, txs, i);
      DropQueued(pool, txs[i - 1]);
      LostOverTwo(old(pool.all), known, pool.all);
      i, left := i - 1, left - 1;
    }
    LeftOverSize(q0, pool.queue.book, a, txs[..i]);
    LeftOverIsLow(q0, pool.queue.book, a, txs, i);
  }

  lemma DropLast(q0: Book, q: Book, a: Address, txs: seq<Tx>, i: nat)
    requires 0 < i <= |txs| && LeftOver(q0, q, a, txs[..i])
    ensures a in q && Holds(q, txs[i - 1]) && txs[i - 1].from == a
    ensures LeftOver(q0, Trimmed(q, a, q[a] - {txs[i - 1].nonce}), a, txs[..i - 1])
  {
    var rest := txs[..i];
    assert rest[i - 1] == txs[i - 1] && rest[i - 1] in rest && rest[..i - 1] == txs[..i - 1];
    ListingFront(rest, q[a]);
    hide Listing, Trimmed;
    LeftOverLess(q0, q, a, rest, rest[..i - 1], txs[i - 1].nonce);
  }

  lemma LeftOverIsLow(q0: Book, q: Book, a: Address, txs: seq<Tx>, i: nat)
    requires i <= |txs| && LeftOver(q0, q, a, txs[..i]) && Keyed(q0[a]) && Listing(txs, q0[a])
    ensures LowPart(ListOf(q, a), q0[a])
  {
    var m, whole := ListOf(q, a), q0[a];
    forall n | n in m ensures n in whole && m[n] == whole[n] && exists j :: 0 <= j < i && txs[j] == m[n] {
      assert m[n] in txs[..i];
      var j :| 0 <= j < i && txs[..i][j] == m[n];
      assert txs[j] in txs;
    }
    forall l | 0 <= l < i ensures txs[l].nonce in m {
      assert txs[..i][l] in txs[..i];
    }
    forall n, k | n in m && k in whole && k !in m ensures n < k {
      var j :| 0 <= j < i && txs[j] == m[n];
      assert whole[k] in txs;
      var l :| 0 <= l < |txs| && txs[l] == whole[k];
    }
  }

  /** Only local accounts have queued transactions. */
  ghost predicate OnlyLocals(q: Book, locals: set<Address>) {
    forall a :: a in q ==> a in locals
  }

  /** `q` comes from `q0` by dropping high ends of remote lists. */
  ghost predicate Shortened(q0: Book, q: Book, locals: set<Address>) {
    && LowParts(q, q0)
    && (forall a :: a in locals ==> ListOf(q, a) == ListOf(q0, a))
  }

  /** The remote accounts still to be considered are the first `k` of `addresses`. */
  ghost predicate Considering(q0: Book, q: Book, locals: set<Address>, addresses: seq<Address>, k: nat) {
    && k <= |addresses|
    && DistinctAccounts(addresses)
    && Shortened(q0, q, locals)
    && (forall a :: a in addresses[..k] ==> a in q && a !in locals)
    && (forall a :: a in q && a !in locals ==> a in addresses[..k])
  }

  lemma ConsiderNext(q0: Book, q: Book, q': Book, locals: set<Address>, addresses: seq<Address>, k: nat)
    requires 0 < k && Considering(q0, q, locals, addresses, k)
    requires SameBut(q, q', addresses[k - 1]) && LowPart(ListOf(q', addresses[k - 1]), q[addresses[k - 1]])
    requires NoEmptyList(q')
    requires NoEmptyList(q)
    ensures Shortened(q0, q', locals)
    ensures addresses[k - 1] !in q' ==> Considering(q0, q', locals, addresses, k - 1)
  {
    var a := addresses[k - 1];
    PrefixGrows(addresses, k - 1);
    forall b | b in q' ensures b in q0 && LowPart(q'[b], q0[b]) {
      if b == a {
        LowPartTwice(q'[b], q[b], q0[b]);
      } else {
        assert ListOf(q, b) == ListOf(q', b);
      }
    }
    forall b ensures b != a ==> (b in q <==> b in q') {
      assert b != a ==> ListOf(q, b) == ListOf(q', b);
    }
  }

  /**
   Drops queued transactions of remote accounts until the queue fits or only local accounts
   are left.  The order of `addresses`, by heartbeat in the source, does not matter.
   */
  method EvictQueue(pool: TxPool)
    requires pool.Sound() && pool.Inv()
    modifies pool`all, pool`virtual, pool.pending, pool.queue, pool.pending.Repr, pool.queue.Repr
    ensures pool.Sound() && pool.Inv() && pool.pending.Repr == old(pool.pending.Repr)
    ensures fresh(pool.queue.Repr - old(pool.queue.Repr))
    ensures pool.pending.book == old(pool.pending.book) && pool.virtual == old(pool.virtual)
    ensures Shortened(old(pool.queue.book), pool.queue.book, pool.locals)
    ensures Count(old(pool.queue.book)) <= pool.globalQueue ==> pool.queue.book == old(pool.queue.book)
    ensures Count(old(pool.queue.book)) > pool.globalQueue ==>
              || Count(pool.queue.book) == pool.globalQueue
              || (Count(pool.queue.book) > pool.globalQueue && OnlyLocals(pool.queue.book, pool.locals))
    ensures NothingNew(old(pool.all), pool.all)
    ensures forall t :: Lost(old(pool.all), pool.all, t) ==> t.from !in pool.locals
  {
    hide AccountLists.Valid, TxPool.Inv, Count, Lost, NothingNew, Considering, Shortened, OnlyLocals, SameBut,
         LowPart, ListOf;
    ghost var q0 := pool.queue.book;
    NothingLost(pool.all);
    NothingShortened(q0, pool.locals);
    var queued := CountTxs(pool.queue);
    if queued <= pool.globalQueue { return; }
    var addresses := RemoteAccounts(pool);
    var k: nat, drop: nat := |addresses|, queued - pool.globalQueue;
    while drop > 0 && k > 0
      invariant pool.Sound() && pool.Inv() && pool.pending.Repr == old(pool.pending.Repr)
      invariant fresh(pool.queue.Repr - old(pool.queue.Repr))
      invariant pool.pending.book == old(pool.pending.book) && pool.virtual == old(pool.virtual)
      invariant Count(pool.queue.book) == pool.globalQueue + drop && k <= |addresses|
      invariant Shortened(q0, pool.queue.book, pool.locals)
      invariant drop > 0 ==> Considering(q0, pool.queue.book, pool.locals, addresses, k)
      invariant NothingNew(old(pool.all), pool.all)
      invariant forall t :: Lost(old(pool.all), pool.all, t) ==> t.from !in pool.locals
      decreases k
    {
      ghost var q, known := pool.queue.book, pool.all;
      var a := addresses[k - 1];
      ConsideredIsRemote(pool, q0, addresses, k);
      drop := DropFrom(pool, a, drop);
      NoEmptyQueue(pool);
      ConsiderNext(q0, q, pool.queue.book, pool.locals, addresses, k);
      LostOverTwo(old(pool.all), known, pool.all);
      k := k - 1;
    }
    if drop > 0 {
      NoneLeft(q0, pool.queue.book, pool.locals, addresses);
    }
  }

  /** Drops the whole queue of `a`, or only its last `drop` transactions if it is longer than that. */
  method DropFrom(pool: TxPool, a: Address, drop: nat) returns (left: nat)
    requires pool.Sound() && pool.Inv() && a in pool.queue.book
    modifies pool`all, pool`virtual, pool.pending, pool.queue, pool.pending.Repr, pool.queue.Repr
    ensures pool.Sound() && pool.Inv() && pool.pending.Repr == old(pool.pending.Repr)
    ensures fresh(pool.queue.Repr - old(pool.queue.Repr))
    ensures pool.pending.book == old(pool.pending.book) && pool.virtual == old(pool.virtual)
    ensures left <= drop && Count(pool.queue.book) + drop == Count(old(pool.queue.book)) + left
    ensures SameBut(old(pool.queue.book), pool.queue.book, a)
    ensures LowPart(ListOf(pool.queue.book, a), old(pool.queue.book)[a])
    ensures left > 0 ==> a !in pool.queue.book
    ensures NothingNew(old(pool.all), pool.all)
    ensures forall u :: Lost(old(pool.all), pool.all, u) ==> u.from == a
  {
    hide AccountLists.Valid, TxPool.Inv, Count, Lost, NothingNew, SameBut, LowPart, ListOf;
    ghost var q := pool.queue.book;
    var size := pool.queue.Len(a);
    if size <= drop {
      var dropped := DropQueue(pool, a);
      left := drop - size;
    } else {
      DropQueueTail(pool, a, drop);
      left := 0;
    }
    EmptyIsLow(pool.queue.book, a, q[a]);
  }

  lemma NothingShortened(q: Book, locals: set<Address>)
    ensures Shortened(q, q, locals)
  {
  }

  lemma ConsideredIsRemote(pool: TxPool, q0: Book, addresses: seq<Address>, k: nat)
    requires pool.Inv() && 0 < k <= |addresses| && Considering(q0, pool.queue.book, pool.locals, addresses, k)
    ensures addresses[k - 1] in pool.queue.book && addresses[k - 1] !in pool.locals && NoEmptyList(pool.queue.book)
  {
    PrefixGrows(addresses, k - 1);
  }

  lemma NoEmptyQueue(pool: TxPool)
    requires pool.Inv()
    ensures NoEmptyList(pool.queue.book)
  {
  }

  lemma EmptyIsLow(q: Book, a: Address, m: TxMap)
    ensures a !in q ==> LowPart(ListOf(q, a), m)
  {
  }

  lemma NoneLeft(q0: Book, q: Book, locals: set<Address>, addresses: seq<Address>)
    requires Considering(q0, q, locals, addresses, 0)
    ensures OnlyLocals(q, locals)
  {
  }

  /** The remote accounts with queued transactions, in some order. */
  method RemoteAccounts(pool: TxPool) returns (addresses: seq<Address>)
    requires pool.Sound()
    ensures Considering(pool.queue.book, pool.queue.book, pool.locals, addresses, |addresses|)
  {
    hide AccountLists.Valid;
    var accounts := pool.queue.Accounts();
    addresses := [];
    for i := 0 to |accounts|
      invariant DistinctAccounts(addresses)
      invariant forall a :: a in addresses <==> a in accounts[..i] && a !in pool.locals
    {
      PrefixGrows(accounts, i);
      if accounts[i] !in pool.locals {
        addresses := addresses + [accounts[i]];
      }
    }
    assert accounts[..|accounts|] == accounts;
    assert addresses[..|addresses|] == addresses;
  }

  /** The housekeeping tick: the queues of the remote accounts in `idle` are dropped. */
  method EvictIdle(pool: TxPool, idle: set<Address>)
    requires pool.Sound() && pool.Inv()
    modifies pool`all, pool`virtual, pool.pending, pool.queue, pool.pending.Repr, pool.queue.Repr
    ensures pool.Sound() && pool.Inv() && pool.pending.Repr == old(pool.pending.Repr)
    ensures fresh(pool.queue.Repr - old(pool.queue.Repr))
    ensures pool.pending.book == old(pool.pending.book) && pool.virtual == old(pool.virtual)
    ensures forall a :: ListOf(pool.queue.book, a) ==
                        if a in idle && a !in pool.locals then map[] else ListOf(old(pool.queue.book), a)
    ensures NothingNew(old(pool.all), pool.all)
    ensures forall t :: Lost(old(pool.all), pool.all, t) ==> t.from in idle && t.from !in pool.locals
  {
    hide AccountLists.Valid, TxPool.Inv, Count, Lost, NothingNew, NoEmptyList;
    NothingLost(pool.all);
    var accounts := pool.queue.Accounts();
    for i := 0 to |accounts|
      invariant pool.Sound() && pool.Inv() && pool.pending.Repr == old(pool.pending.Repr)
      invariant fresh(pool.queue.Repr - old(pool.queue.Repr))
      invariant pool.pending.book == old(pool.pending.book) && pool.virtual == old(pool.virtual)
      invariant IdleGone(old(pool.queue.book), pool.queue.book, idle - pool.locals, accounts, i)
      invariant NothingNew(old(pool.all), pool.all)
      invariant forall t :: Lost(old(pool.all), pool.all, t) ==> t.from in idle && t.from !in pool.locals
    {
      var a := accounts[i];
      NoEmptyQueue(pool);
      if a !in pool.locals && a in idle {
        ghost var known, q := pool.all, pool.queue.book;
        IdleNext(old(pool.queue.book), q, q, idle - pool.locals, accounts, i);
        var size := DropQueue(pool, a);
        NoEmptyQueue(pool);
        IdleNext(old(pool.queue.book), q, pool.queue.book, idle - pool.locals, accounts, i);
        LostOverTwo(old(pool.all), known, pool.all);
      } else {
        IdleNext(old(pool.queue.book), pool.queue.book, pool.queue.book, idle - pool.locals, accounts, i);
      }
    }
    assert accounts[..|accounts|] == accounts;
  }

  ghost predicate IdleGone(q0: Book, q: Book, idle: set<Address>, accounts: seq<Address>, i: nat) {
    && i <= |accounts|
    && DistinctAccounts(accounts)
    && (forall a :: a in accounts <==> a in q0)
    && (forall a :: a in q ==> a in q0)
    && (forall a :: a in q0 && (a in idle && a in accounts[..i]) ==> a !in q)
    && (forall a :: a in q0 && !(a in idle && a in accounts[..i]) ==> a in q && q[a] == q0[a])
  }

  lemma IdleNext(q0: Book, q: Book, q': Book, idle: set<Address>, accounts: seq<Address>, i: nat)
    requires IdleGone(q0, q, idle, accounts, i) && i < |accounts| && NoEmptyList(q') && NoEmptyList(q)
    ensures accounts[i] in q
    ensures accounts[i] !in idle && q' == q ==> IdleGone(q0, q', idle, accounts, i + 1)
    ensures accounts[i] in idle && accounts[i] !in q' && SameBut(q, q', accounts[i]) ==>
      IdleGone(q0, q', idle, accounts, i + 1)
  {
    PrefixGrows(accounts, i);
    var a := accounts[i];
    if SameBut(q, q', a) {
      forall b ensures b != a ==> (b in q <==> b in q') && (b in q ==> q[b] == q'[b]) {
        assert b != a ==> ListOf(q, b) == ListOf(q', b);
      }
    }
  }
}
