/** The pool's entry points: adding, resetting after a block, and drawing a proposal. */
module PoolOperations {
  import opened Basics
  import opened Transactions
  import opened TxLists
  import opened PoolState
  import opened Accounts
  import opened TxPools
  import opened Eviction
  import opened QueueEviction

  /** The pool is within its limits, as far as local accounts allow. */
  ghost predicate WithinLimits(pool: TxPool)
    reads pool, pool.pending, pool.queue
  {
    && (Count(pool.pending.book) <= pool.globalSlots || WithinSlots(pool.pending.book, pool.locals, pool.accountSlots))
    && (Count(pool.queue.book) <= pool.globalQueue || OnlyLocals(pool.queue.book, pool.locals))
  }

  /** Only stale transactions and those of remote accounts are ever dropped, and nothing is made up. */
  ghost predicate MayDrop(before: Index, after: Index, locals: set<Address>, ledger: Ledger) {
    && NothingNew(before, after)
    && forall t :: Lost(before, after, t) ==> t.from !in locals || t.nonce < NonceAt(ledger, t.from)
  }

  lemma TrimmedStaysFresh(p0: Book, p: Book, virtual: map<Address, Nonce>, ledger: Ledger, wrapped: set<Address>)
    requires Fresh(p0, ledger) && p.Keys == p0.Keys && LowParts(p, p0) && NonceInv(p, virtual, ledger, wrapped)
    ensures Fresh(p, ledger)
  {
    forall a | a in p ensures StartsAt(p[a], NonceAt(ledger, a)) {
      assert RunInv(p[a], virtual[a], NonceAt(ledger, a), a in wrapped);
      var lo, hi :| IsRun(p[a], lo, hi);
      assert lo in p[a];
      assert LowPart(p[a], p0[a]) && StartsAt(p0[a], NonceAt(ledger, a));
      LowPartStarts(p[a], p0[a], NonceAt(ledger, a));
    }
  }

  // ---------- What can be lost, and why ----------

  /** The books of the pool at one moment. */
  datatype Books = Books(pending: Book, queue: Book, all: Index, virtual: map<Address, Nonce>)

  /** What decides which transactions may stay. */
  datatype Rules = Rules(
    ledger: Ledger, locals: set<Address>, wrapped: set<Address>,
    accountSlots: nat, globalSlots: nat, accountQueue: nat, globalQueue: nat)

  ghost function BooksOf(pool: TxPool): Books
    reads pool, pool.pending, pool.queue
  {
    Books(pool.pending.book, pool.queue.book, pool.all, pool.virtual)
  }

  ghost function RulesOf(pool: TxPool): Rules
    reads pool
  {
    Rules(pool.ledger, pool.locals, pool.wrapped, pool.accountSlots, pool.globalSlots, pool.accountQueue,
          pool.globalQueue)
  }

  ghost predicate Coherent(b: Books, r: Rules) {
    IndexInv(b.pending, b.queue, b.all, {}) && NonceInv(b.pending, b.virtual, r.ledger, r.wrapped)
  }

  ghost predicate Resting(b: Books, r: Rules, a: Address) {
    AtRest(b.queue, b.virtual, r.ledger, r.locals, r.accountQueue, a)
  }

  ghost predicate Stale(r: Rules, t: Tx) {
    t.nonce < NonceAt(r.ledger, t.from)
  }

  /** The queue of its remote sender is full with lower nonces. */
  ghost predicate Crowded(b: Books, r: Rules, t: Tx) {
    t.from !in r.locals && OverCap(b.queue, t.from, r.accountQueue, t)
  }

  /** Too many transactions were pending; its remote sender had more than its slots and keeps that many lower ones. */
  ghost predicate Squeezed(mid: Books, now: Books, r: Rules, t: Tx) {
    && Holds(mid.pending, t) && t.from !in r.locals
    && Count(mid.pending) > r.globalSlots && |mid.pending[t.from]| > r.accountSlots
    && t.from in now.pending && |now.pending[t.from]| >= r.accountSlots
    && forall n :: n in now.pending[t.from] ==> n < t.nonce
  }

  /** Too many transactions were queued, and what its remote sender has kept there is lower. */
  ghost predicate Overflowed(mid: Books, now: Books, r: Rules, t: Tx) {
    && Holds(mid.queue, t) && t.from !in r.locals && Count(mid.queue) > r.globalQueue
    && forall n :: n in ListOf(now.queue, t.from) ==> n < t.nonce
  }

  /**
   * `mid` comes from `was` by promoting the accounts `done`: nothing pending is lost, nothing of other accounts
   * changes, and of the accounts themselves only what is stale or beyond the limit of the queue.
   */
  ghost predicate Promoted(was: Books, mid: Books, done: set<Address>, r: Rules) {
    && NothingNew(was.all, mid.all) && Grown(was.pending, mid.pending)
    && (forall t :: Lost(was.all, mid.all, t) ==> t.from in done && (Stale(r, t) || Crowded(mid, r, t)))
    && (forall a :: a !in done ==> Untouched(was, mid, a))
    && (forall a :: a in done ==> Resting(mid, r, a))
  }

  ghost predicate Untouched(was: Books, now: Books, a: Address) {
    ListOf(now.pending, a) == ListOf(was.pending, a) && ListOf(now.queue, a) == ListOf(was.queue, a)
  }

  /** `now` comes from `mid` by enforcing the two limits of the whole pool, and those only. */
  ghost predicate Evicted(mid: Books, now: Books, r: Rules) {
    && Settled(mid.pending, now.pending, r.locals, r.accountSlots)
    && (Count(mid.pending) <= r.globalSlots ==> now.pending == mid.pending)
    && (Count(mid.pending) > r.globalSlots ==>
         Count(now.pending) + |Remote(now.pending, r.locals)| > r.globalSlots)
    && Shortened(mid.queue, now.queue, r.locals)
    && (Count(mid.queue) <= r.globalQueue ==> now.queue == mid.queue)
    && (Count(mid.queue) > r.globalQueue ==>
         Count(now.queue) == r.globalQueue || OnlyLocals(now.queue, r.locals))
  }

  /** The books before and after, and between promotion and eviction. */
  datatype Passage = Passage(was: Books, mid: Books, now: Books)

  ghost predicate Lawful(p: Passage, accounts: set<Address>, r: Rules) {
    Promoted(p.was, p.mid, accounts, r) && Coherent(p.mid, r) && Evicted(p.mid, p.now, r)
  }

  /** The reasons for which a transaction can be lost. */
  ghost predicate Explained(p: Passage, r: Rules, t: Tx) {
    Stale(r, t) || Crowded(p.mid, r, t) || Squeezed(p.mid, p.now, r, t) || Overflowed(p.mid, p.now, r, t)
  }

  /** Every transaction that was known and is not any more has been lost for one of the reasons. */
  ghost predicate OnlyExplained(p: Passage, r: Rules) {
    NothingNew(p.was.all, p.now.all) && forall t :: Lost(p.was.all, p.now.all, t) ==> Explained(p, r, t)
  }

  lemma LostPending(mid: Books, now: Books, r: Rules, t: Tx)
    requires Evicted(mid, now, r) && Holds(mid.pending, t) && !Holds(now.pending, t)
    ensures Squeezed(mid, now, r, t)
  {
    hide Count, Shortened, Fair, Remote;
    var a := t.from;
    assert a in now.pending && LowPart(now.pending[a], mid.pending[a]);
    assert now.pending[a] != mid.pending[a];
    assert t.nonce !in now.pending[a];
    assert now.pending[a].Keys < mid.pending[a].Keys;
    SubsetSize(now.pending[a].Keys + {t.nonce}, mid.pending[a].Keys);
  }

  lemma LostQueued(mid: Books, now: Books, r: Rules, t: Tx)
    requires Evicted(mid, now, r) && Holds(mid.queue, t) && !Holds(now.queue, t)
    ensures Overflowed(mid, now, r, t)
  {
    hide Count, Settled, Remote, OnlyLocals;
    assert t.from in now.queue ==> LowPart(now.queue[t.from], mid.queue[t.from]);
  }

  lemma StillHeld(mid: Books, now: Books, r: Rules, t: Tx)
    requires Evicted(mid, now, r)
    ensures Holds(now.pending, t) ==> Holds(mid.pending, t)
    ensures Holds(now.queue, t) ==> Holds(mid.queue, t)
  {
    hide Count, Remote, OnlyLocals, Fair, Spared;
    var a := t.from;
    assert a in now.pending ==> LowPart(now.pending[a], mid.pending[a]);
    assert a in now.queue ==> LowPart(now.queue[a], mid.queue[a]);
  }

  lemma EvictionExplained(mid: Books, now: Books, r: Rules)
    requires Coherent(mid, r) && Coherent(now, r) && Evicted(mid, now, r)
    ensures NothingNew(mid.all, now.all)
    ensures forall t :: Lost(mid.all, now.all, t) ==> Squeezed(mid, now, r, t) || Overflowed(mid, now, r, t)
  {
    hide Evicted, Squeezed, Overflowed, Filed, Exclusive, InTransit, NonceInv, Holds, Knows;
    forall t ensures Knows(now.all, t) ==> Knows(mid.all, t) {
      StillHeld(mid, now, r, t);
    }
    forall t | Lost(mid.all, now.all, t)
      ensures Squeezed(mid, now, r, t) || Overflowed(mid, now, r, t)
    {
      if Holds(mid.pending, t) {
        LostPending(mid, now, r, t);
      } else {
        LostQueued(mid, now, r, t);
      }
    }
  }

  lemma LossesExplained(p: Passage, accounts: set<Address>, r: Rules)
    requires Lawful(p, accounts, r) && Coherent(p.now, r)
    ensures OnlyExplained(p, r) && MayDrop(p.was.all, p.now.all, r.locals, r.ledger)
  {
    hide Evicted, Coherent, Stale, Crowded, Squeezed, Overflowed, NothingNew, Lost, Grown;
    EvictionExplained(p.mid, p.now, r);
    LostOverTwo(p.was.all, p.mid.all, p.now.all);
    forall t | Explained(p, r, t)
      ensures t.from !in r.locals || t.nonce < NonceAt(r.ledger, t.from)
    {
      ReasonsSpareLocals(p, r, t);
    }
  }

  lemma ReasonsSpareLocals(p: Passage, r: Rules, t: Tx)
    requires Explained(p, r, t)
    ensures t.from !in r.locals || t.nonce < NonceAt(r.ledger, t.from)
  {
  }

  /** One account more. */
  lemma PromotedMore(was: Books, b: Books, b': Books, done: set<Address>, r: Rules, a: Address)
    requires Promoted(was, b, done, r)
    requires SameBut(b.pending, b'.pending, a) && SameBut(b.queue, b'.queue, a) && Grown(b.pending, b'.pending)
    requires NextSameBut(b.virtual, b'.virtual, r.ledger, a) && Resting(b', r, a)
    requires Resting(b, r, a) ==> b'.queue == b.queue
    requires NothingNew(b.all, b'.all)
    requires forall t :: Lost(b.all, b'.all, t) ==> t.from == a && (Stale(r, t) || Crowded(b', r, t))
    ensures Promoted(was, b', done + {a}, r)
  {
    hide NothingNew, Lost, Resting, Stale, Crowded, SameBut, NextSameBut, Grown;
    LostOverTwo(was.all, b.all, b'.all);
    GrownTwice(was.pending, b.pending, b'.pending);
    forall t | Lost(was.all, b.all, t)
      ensures Stale(r, t) || Crowded(b', r, t)
    {
      if Crowded(b, r, t) {
        if t.from == a {
          StillCrowded(b, b', r, t);
        } else {
          OtherLists(b, b', r, a, t.from);
          StillCrowded(b, b', r, t);
        }
      }
    }
    forall c | c != a
      ensures c !in done ==> Untouched(was, b', c)
      ensures c in done ==> Resting(b', r, c)
    {
      OtherLists(b, b', r, a, c);
    }
  }

  lemma GrownTwice(a: Book, b: Book, c: Book)
    requires Grown(a, b) && Grown(b, c)
    ensures Grown(a, c)
  {
  }

  lemma StillCrowded(b: Books, b': Books, r: Rules, t: Tx)
    requires Crowded(b, r, t) && ListOf(b'.queue, t.from) == ListOf(b.queue, t.from)
    ensures Crowded(b', r, t)
  {
  }

  lemma OtherLists(b: Books, b': Books, r: Rules, a: Address, c: Address)
    requires c != a && SameBut(b.pending, b'.pending, a) && SameBut(b.queue, b'.queue, a)
    requires NextSameBut(b.virtual, b'.virtual, r.ledger, a)
    ensures ListOf(b'.pending, c) == ListOf(b.pending, c) && ListOf(b'.queue, c) == ListOf(b.queue, c)
    ensures Resting(b, r, c) ==> Resting(b', r, c)
  {
    ServedOthers(b.queue, b'.queue, b.virtual, b'.virtual, r.ledger, a, c);
  }

  function Members(accounts: seq<Address>): set<Address> {
    set a | a in accounts
  }

  lemma MembersSnoc(accounts: seq<Address>, i: nat)
    requires i < |accounts|
    ensures Members(accounts[..i + 1]) == Members(accounts[..i]) + {accounts[i]}
    ensures accounts[..0] == [] && accounts[..|accounts|] == accounts
  {
  }

  /** Nothing executable or stale of `a` is left queued, and a remote account is within its queue limit. */
  ghost predicate Served(pool: TxPool, a: Address)
    reads pool, pool.queue
  {
    AtRest(pool.queue.book, pool.virtual, pool.ledger, pool.locals, pool.accountQueue, a)
  }

  lemma ServedOthers(q: Book, q': Book, v: map<Address, Nonce>, v': map<Address, Nonce>, ledger: Ledger, a: Address,
                     b: Address)
    requires b != a && SameBut(q, q', a) && NextSameBut(v, v', ledger, a)
    ensures ListOf(q', b) == ListOf(q, b)
    ensures Exhausted(q, v, ledger, b) ==> Exhausted(q', v', ledger, b)
    ensures NoneStale(q, ledger, b) ==> NoneStale(q', ledger, b)
  {
    assert ListOf(q, b) == ListOf(q', b);
    assert forall n: Nonce :: Taken(q', b, n) <==> n in ListOf(q', b);
    assert forall n: Nonce :: Taken(q, b, n) <==> n in ListOf(q, b);
  }

  lemma ServedLonger(q: Book, q': Book, v: map<Address, Nonce>, v': map<Address, Nonce>, ledger: Ledger, a: Address)
    requires LowParts(q', q) && NextLowered(v, v', ledger)
    ensures |ListOf(q', a)| <= |ListOf(q, a)|
    ensures Exhausted(q, v, ledger, a) ==> Exhausted(q', v', ledger, a)
    ensures NoneStale(q, ledger, a) ==> NoneStale(q', ledger, a)
  {
    if a in q' {
      SubsetSize(q'[a].Keys, q[a].Keys);
    }
    forall n: Nonce | Exhausted(q, v, ledger, a) && Taken(q', a, n) ensures NextNonce(v', ledger, a) < n {
      assert Taken(q, a, n);
      assert NextNonce(v', ledger, a) <= NextNonce(v, ledger, a);
    }
    forall n: Nonce | NoneStale(q, ledger, a) && Taken(q', a, n) ensures NonceAt(ledger, a) <= n {
      assert Taken(q, a, n);
    }
  }

  lemma Unqueued(pool: TxPool, a: Address)
    requires a !in pool.queue.book
    ensures Served(pool, a)
  {
  }

  /**
   * promoteExecutables: moves what has become executable, then enforces the limits.  A transaction is lost only when
   * it is stale, beyond the queue limit of its sender, or when one of the two limits of the pool was exceeded.
   */
  method PromoteExecutables(pool: TxPool, accounts: seq<Address>) returns (ghost passage: Passage)
    requires pool.Sound() && pool.Inv()
    modifies pool`all, pool`virtual, pool.pending, pool.queue, pool.pending.Repr, pool.queue.Repr
    ensures pool.Sound() && pool.Inv() && WithinLimits(pool)
    ensures fresh(pool.pending.Repr - old(pool.pending.Repr)) && fresh(pool.queue.Repr - old(pool.queue.Repr))
    ensures Fresh(old(pool.pending.book), pool.ledger) ==> Fresh(pool.pending.book, pool.ledger)
    ensures passage.was == old(BooksOf(pool)) && passage.now == BooksOf(pool)
    ensures Lawful(passage, Members(accounts), RulesOf(pool)) && OnlyExplained(passage, RulesOf(pool))
    ensures MayDrop(old(pool.all), pool.all, pool.locals, pool.ledger)
    ensures forall a :: a in accounts ==> Served(pool, a)
    ensures pool.queue.book.Keys <= old(pool.queue.book).Keys
    ensures NewOnlyPending(old(pool.virtual), pool.virtual, pool.pending.book)
  {
    hide AccountLists.Valid, TxPool.Inv, Lost, NothingNew, SameBut, MayDrop, Fresh, Settled, WithinSlots, OnlyLocals,
         Shortened, Count, Exhausted, NoneStale, NextLowered, Promoted, Coherent, Evicted, OnlyExplained, Remote;
    ghost var was := BooksOf(pool);
    PromoteAll(pool, accounts);
    ghost var mid := BooksOf(pool);
    InvIsCoherent(pool);
    EvictPending(pool);
    SettledStaysFresh(pool, mid.pending);
    StillOnlyPending(old(pool.virtual), mid.virtual, pool.virtual, mid.pending, pool.pending.book, pool.ledger,
                     pool.locals, pool.accountSlots);
    EvictQueue(pool);
    InvIsCoherent(pool);
    ShortenedIsLow(mid.queue, pool.queue.book, pool.locals);
    passage := Passage(was, mid, BooksOf(pool));
    EvictedBoth(mid, passage.now, RulesOf(pool));
    LossesExplained(passage, Members(accounts), RulesOf(pool));
    forall a | a in accounts ensures Served(pool, a) {
      RestsLonger(was, mid, passage.now, Members(accounts), RulesOf(pool), a);
    }
  }

  lemma InvIsCoherent(pool: TxPool)
    requires pool.Inv()
    ensures Coherent(BooksOf(pool), RulesOf(pool))
  {
  }

  lemma EvictedBoth(mid: Books, now: Books, r: Rules)
    requires Settled(mid.pending, now.pending, r.locals, r.accountSlots)
    requires Count(mid.pending) <= r.globalSlots ==> now.pending == mid.pending
    requires Count(mid.pending) > r.globalSlots ==>
               Count(now.pending) + |Remote(now.pending, r.locals)| > r.globalSlots
    requires Shortened(mid.queue, now.queue, r.locals)
    requires Count(mid.queue) <= r.globalQueue ==> now.queue == mid.queue
    requires Count(mid.queue) > r.globalQueue ==>
               || Count(now.queue) == r.globalQueue
               || (Count(now.queue) > r.globalQueue && OnlyLocals(now.queue, r.locals))
    ensures Evicted(mid, now, r)
  {
  }

  lemma RestsLonger(was: Books, mid: Books, now: Books, accounts: set<Address>, r: Rules, a: Address)
    requires Promoted(was, mid, accounts, r) && a in accounts
    requires LowParts(now.queue, mid.queue) && NextLowered(mid.virtual, now.virtual, r.ledger)
    ensures Resting(now, r, a)
  {
    assert Resting(mid, r, a);
    hide Promoted, Exhausted, NoneStale, LowParts, NextLowered;
    ServedLonger(mid.queue, now.queue, mid.virtual, now.virtual, r.ledger, a);
  }

  lemma StillOnlyPending(first: map<Address, Nonce>, second: map<Address, Nonce>, third: map<Address, Nonce>,
                         p: Book, p': Book,
                         ledger: Ledger, locals: set<Address>, slots: nat)
    requires NewOnlyPending(first, second, p) && NextLowered(second, third, ledger) && Settled(p, p', locals, slots)
    ensures NewOnlyPending(first, third, p')
  {
    assert third.Keys == second.Keys && p'.Keys == p.Keys;
  }

  lemma ShortenedIsLow(q: Book, q': Book, locals: set<Address>)
    requires Shortened(q, q', locals)
    ensures LowParts(q', q) && q'.Keys <= q.Keys
  {
  }

  lemma SettledStaysFresh(pool: TxPool, p: Book)
    requires pool.Inv() && Settled(p, pool.pending.book, pool.locals, pool.accountSlots)
    ensures Fresh(p, pool.ledger) ==> Fresh(pool.pending.book, pool.ledger)
  {
    if Fresh(p, pool.ledger) {
      hide Fresh, LowParts;
      TrimmedStaysFresh(p, pool.pending.book, pool.virtual, pool.ledger, pool.wrapped);
    }
  }

  method PromoteAll(pool: TxPool, accounts: seq<Address>)
    requires pool.Sound() && pool.Inv()
    modifies pool`all, pool`virtual, pool.pending, pool.queue, pool.pending.Repr, pool.queue.Repr
    ensures pool.Sound() && pool.Inv()
    ensures fresh(pool.pending.Repr - old(pool.pending.Repr)) && pool.queue.Repr == old(pool.queue.Repr)
    ensures Fresh(old(pool.pending.book), pool.ledger) ==> Fresh(pool.pending.book, pool.ledger)
    ensures Promoted(old(BooksOf(pool)), BooksOf(pool), Members(accounts), RulesOf(pool))
    ensures pool.queue.book.Keys <= old(pool.queue.book).Keys
    ensures NewOnlyPending(old(pool.virtual), pool.virtual, pool.pending.book)
  {
    hide AccountLists.Valid, TxPool.Inv, Lost, NothingNew, SameBut, Fresh, Exhausted, NoneStale, NextSameBut, OverCap,
         Promoted, Grown;
    ghost var was := BooksOf(pool);
    NonePromoted(was, RulesOf(pool));
    assert accounts[..0] == [];
    for i := 0 to |accounts|
      invariant pool.Sound() && pool.Inv()
      invariant fresh(pool.pending.Repr - old(pool.pending.Repr)) && pool.queue.Repr == old(pool.queue.Repr)
      invariant Fresh(old(pool.pending.book), pool.ledger) ==> Fresh(pool.pending.book, pool.ledger)
      invariant Promoted(was, BooksOf(pool), Members(accounts[..i]), RulesOf(pool))
      invariant pool.queue.book.Keys <= old(pool.queue.book).Keys
      invariant NewOnlyPending(old(pool.virtual), pool.virtual, pool.pending.book)
    {
      ghost var b := BooksOf(pool);
      pool.PromoteAccount(accounts[i]);
      MembersSnoc(accounts, i);
      PromotedMore(was, b, BooksOf(pool), Members(accounts[..i]), RulesOf(pool), accounts[i]);
    }
    assert accounts[..|accounts|] == accounts;
  }

  lemma NonePromoted(b: Books, r: Rules)
    ensures Promoted(b, b, Members([]), r)
  {
  }

  lemma NothingDropped(all: Index, locals: set<Address>, ledger: Ledger)
    ensures MayDrop(all, all, locals, ledger)
  {
  }

  // ---------- Adding ----------

  /** The books when `tx` has been offered: it is queued if it is taken in. */
  ghost function Queued(b: Books, capacity: nat, tx: Tx, valid: bool): Books {
    if TakesIn(b.pending, b.queue, b.all, capacity, tx, valid)
    then b.(queue := File(b.queue, tx), all := b.all[tx.hash := tx])
    else b
  }

  /** addTx: queues one transaction and promotes its sender. */
  method AddTx(pool: TxPool, tx: Tx, local: bool, valid: bool) returns (error: AddError, ghost passage: Passage)
    requires pool.Sound() && pool.Inv()
    modifies pool`all, pool`virtual, pool`locals, pool`wrapped, pool.pending, pool.queue, pool.pending.Repr,
             pool.queue.Repr
    ensures pool.Sound() && pool.Inv()
    ensures fresh(pool.pending.Repr - old(pool.pending.Repr)) && fresh(pool.queue.Repr - old(pool.queue.Repr))
    ensures error == Answer(old(pool.pending.book), old(pool.queue.book), old(pool.all), pool.Capacity(), tx, valid)
    ensures error.NoError? ==> WithinLimits(pool) && Served(pool, tx.from)
    ensures error.NoError? ==>
      var taken := Taken(old(pool.pending.book), tx.from, tx.nonce);
      var offered := if taken then old(pool.all) else old(pool.all)[tx.hash := tx];
      MayDrop(offered, pool.all, pool.locals, pool.ledger)
    ensures error.NoError? ==>
      && passage.was == Queued(old(BooksOf(pool)), pool.Capacity(), tx, valid) && passage.now == BooksOf(pool)
      && Lawful(passage, {tx.from}, RulesOf(pool)) && OnlyExplained(passage, RulesOf(pool))
    ensures error.NoError? ==> NewOnlyPending(old(pool.virtual), pool.virtual, pool.pending.book)
    ensures
      local && TakesIn(old(pool.pending.book), old(pool.queue.book), old(pool.all), pool.Capacity(), tx, valid) ==>
        tx.from in pool.locals
    ensures !error.NoError? ==>
      && pool.all == old(pool.all)
      && pool.pending.book == old(pool.pending.book) && pool.queue.book == old(pool.queue.book)
    ensures Fresh(old(pool.pending.book), pool.ledger) ==> Fresh(pool.pending.book, pool.ledger)
    ensures pool.wrapped <= old(pool.wrapped) + LastNonces([tx])
  {
    hide AccountLists.Valid, TxPool.Inv, Lost, NothingNew, MayDrop, Fresh, WithinLimits, File, Answer, Served, Lawful,
         OnlyExplained;
    error := pool.AddOne(tx, local, valid);
    if !error.NoError? {
      passage := Passage(BooksOf(pool), BooksOf(pool), BooksOf(pool));
      return;
    }
    assert Members([tx.from]) == {tx.from};
    passage := PromoteExecutables(pool, [tx.from]);
  }

  lemma NoLastNonces()
    ensures LastNonces([]) == {}
  {
  }

  /** Offers a batch to `add`, remembering the accounts that were answered without an error. */
  method OfferBatch(pool: TxPool, txs: seq<Tx>, local: bool, valid: seq<bool>)
    returns (errors: seq<AddError>, dirty: set<Address>)
    requires pool.Sound() && pool.Inv() && |valid| == |txs|
    modifies pool`all, pool`locals, pool`wrapped, pool.queue, pool.queue.Repr
    ensures pool.Sound() && pool.Inv() && fresh(pool.queue.Repr - old(pool.queue.Repr))
    ensures Offer(errors, pool.queue.book, pool.all) ==
            OfferAll(pool.pending.book, old(pool.queue.book), old(pool.all), pool.Capacity(), txs, valid)
    ensures |errors| == |txs|
    ensures forall a :: a in dirty <==> exists i :: 0 <= i < |txs| && errors[i].NoError? && txs[i].from == a
    ensures pool.wrapped <= old(pool.wrapped) + LastNonces(txs)
  {
    hide AccountLists.Valid, TxPool.Inv, File, Answer, TakesIn, LastNonces;
    NoLastNonces();
    errors, dirty := [], {};
    for i := 0 to |txs|
      invariant pool.Sound() && pool.Inv() && fresh(pool.queue.Repr - old(pool.queue.Repr))
      invariant Offer(errors, pool.queue.book, pool.all) ==
                OfferAll(pool.pending.book, old(pool.queue.book), old(pool.all), pool.Capacity(), txs[..i], valid[..i])
      invariant |errors| == i
      invariant forall a :: a in dirty <==> exists j :: 0 <= j < i && errors[j].NoError? && txs[j].from == a
      invariant pool.wrapped <= old(pool.wrapped) + LastNonces(txs[..i])
    {
      assert txs[..i + 1][..i] == txs[..i] && valid[..i + 1][..i] == valid[..i];
      LastNoncesJoin(txs[..i], [txs[i]]);
      assert txs[..i + 1] == txs[..i] + [txs[i]];
      var error := pool.AddOne(txs[i], local, valid[i]);
      errors := errors + [error];
      if error.NoError? {
        dirty := dirty + {txs[i].from};
      }
    }
    assert txs[..|txs|] == txs && valid[..|txs|] == valid;
  }

  /** The accounts of which a transaction was answered without an error. */
  ghost function Touched(txs: seq<Tx>, errors: seq<AddError>): set<Address>
    requires |errors| == |txs|
  {
    set i | 0 <= i < |txs| && errors[i].NoError? :: txs[i].from
  }

  /** A batch has been offered and the accounts it touched, if any, promoted. */
  ghost predicate Processed(p: Passage, touched: set<Address>, r: Rules) {
    OnlyExplained(p, r) && if touched == {} then p.now == p.was else Lawful(p, touched, r)
  }

  lemma NothingToExplain(b: Books, r: Rules)
    ensures OnlyExplained(Passage(b, b, b), r)
  {
  }

  /** addTxsLocked: queues a batch and promotes the accounts it touched. */
  method AddTxs(pool: TxPool, txs: seq<Tx>, local: bool, valid: seq<bool>)
    returns (errors: seq<AddError>, ghost passage: Passage)
    requires pool.Sound() && pool.Inv() && |valid| == |txs|
    modifies pool`all, pool`virtual, pool`locals, pool`wrapped, pool.pending, pool.queue, pool.pending.Repr,
             pool.queue.Repr
    ensures pool.Sound() && pool.Inv()
    ensures fresh(pool.pending.Repr - old(pool.pending.Repr)) && fresh(pool.queue.Repr - old(pool.queue.Repr))
    ensures
      var offer := OfferAll(old(pool.pending.book), old(pool.queue.book), old(pool.all), pool.Capacity(), txs, valid);
      && errors == offer.errors && |errors| == |txs|
      && MayDrop(offer.all, pool.all, pool.locals, pool.ledger)
      && pool.queue.book.Keys <= offer.queue.Keys
      && passage.was == Books(old(pool.pending.book), offer.queue, offer.all, old(pool.virtual))
      && passage.now == BooksOf(pool)
    ensures Processed(passage, Touched(txs, errors), RulesOf(pool))
    ensures forall i :: 0 <= i < |txs| && errors[i].NoError? ==> Served(pool, txs[i].from)
    ensures Fresh(old(pool.pending.book), pool.ledger) ==> Fresh(pool.pending.book, pool.ledger)
    ensures pool.wrapped <= old(pool.wrapped) + LastNonces(txs)
  {
    hide AccountLists.Valid, TxPool.Inv, Lost, NothingNew, MayDrop, Fresh, WithinLimits, Served, OfferAll, Lawful,
         OnlyExplained;
    var dirty;
    errors, dirty := OfferBatch(pool, txs, local, valid);
    NothingDropped(pool.all, pool.locals, pool.ledger);
    assert forall i :: 0 <= i < |txs| && errors[i].NoError? ==> txs[i].from in dirty;
    assert dirty == Touched(txs, errors);
    if |dirty| > 0 {
      var accounts := InSomeOrder(dirty);
      assert Members(accounts) == dirty;
      passage := PromoteExecutables(pool, accounts);
    } else {
      assert dirty == {};
      passage := Passage(BooksOf(pool), BooksOf(pool), BooksOf(pool));
      NothingToExplain(BooksOf(pool), RulesOf(pool));
    }
  }

  method InSomeOrder(accounts: set<Address>) returns (s: seq<Address>)
    ensures forall a :: a in s <==> a in accounts
  {
    s := [];
    var todo := accounts;
    while todo != {}
      invariant todo <= accounts && forall a :: a in s <==> a in accounts && a !in todo
    {
      var a :| a in todo;
      s, todo := s + [a], todo - {a};
    }
  }

  // ---------- Reset ----------

  /** The accounts already demoted start at their ledger nonce; the others are still as in `p0`. */
  ghost predicate Demoting(p0: Book, p: Book, ledger: Ledger, accounts: seq<Address>, i: nat) {
    && i <= |accounts|
    && DistinctAccounts(accounts)
    && (forall a :: a in accounts <==> a in p0)
    && (forall a :: a in p ==> a in p0)
    && (forall a :: a in p && a in accounts[..i] ==> StartsAt(p[a], NonceAt(ledger, a)))
    && (forall a :: a in p0 && a !in accounts[..i] ==> a in p)
  }

  lemma DemoteNext(p0: Book, p: Book, p': Book, ledger: Ledger, accounts: seq<Address>, i: nat)
    requires Demoting(p0, p, ledger, accounts, i) && i < |accounts|
    ensures accounts[i] in p
    ensures
      var a := accounts[i];
      && (if a in p' then p' == p[a := p'[a]] else p' == p - {a})
      && (a in p' ==> StartsAt(p'[a], NonceAt(ledger, a)))
      ==> Demoting(p0, p', ledger, accounts, i + 1)
  {
    PrefixGrows(accounts, i);
  }

  /** demoteUnexecutables: every pending list is forwarded to its ledger nonce. */
  method DemoteUnexecutables(pool: TxPool)
    requires pool.Sound() && pool.Inv()
    modifies pool`all, pool.pending, pool.pending.Repr
    ensures pool.Sound() && pool.Inv() && pool.pending.Repr == old(pool.pending.Repr)
    ensures Fresh(pool.pending.book, pool.ledger)
    ensures NothingNew(old(pool.all), pool.all)
    ensures forall t :: Lost(old(pool.all), pool.all, t) ==> t.nonce < NonceAt(pool.ledger, t.from)
  {
    hide AccountLists.Valid, TxPool.Inv, Lost, NothingNew, Demoting, StartsAt;
    ghost var p0 := pool.pending.book;
    NothingLost(pool.all);
    var accounts := pool.pending.Accounts();
    DemotionStarts(p0, pool.ledger, accounts);
    for i := 0 to |accounts|
      invariant pool.Sound() && pool.Inv() && pool.pending.Repr == old(pool.pending.Repr)
      invariant Demoting(p0, pool.pending.book, pool.ledger, accounts, i)
      invariant NothingNew(old(pool.all), pool.all)
      invariant forall t :: Lost(old(pool.all), pool.all, t) ==> t.nonce < NonceAt(pool.ledger, t.from)
    {
      ghost var p, known := pool.pending.book, pool.all;
      DemoteNext(p0, p, p, pool.ledger, accounts, i);
      pool.DemoteAccount(accounts[i]);
      DemoteNext(p0, p, pool.pending.book, pool.ledger, accounts, i);
      LostOverTwo(old(pool.all), known, pool.all);
    }
    DemotionEnds(p0, pool.pending.book, pool.ledger, accounts);
  }

  lemma DemotionStarts(p: Book, ledger: Ledger, accounts: seq<Address>)
    requires DistinctAccounts(accounts) && forall a :: a in accounts <==> a in p
    ensures Demoting(p, p, ledger, accounts, 0)
  {
  }

  lemma DemotionEnds(p0: Book, p: Book, ledger: Ledger, accounts: seq<Address>)
    requires Demoting(p0, p, ledger, accounts, |accounts|)
    ensures Fresh(p, ledger)
  {
    assert accounts[..|accounts|] == accounts;
  }

  /** `v` is the uint64 after the highest nonce of `m`. */
  ghost predicate PastEnd(m: TxMap, v: Nonce) {
    exists last: Nonce :: last in m && v == Succ(last) && forall n :: n in m ==> n <= last
  }

  /** Sets every virtual nonce just past the end of the pending list. */
  method RefreshNonces(pool: TxPool)
    requires pool.Sound() && pool.Inv()
    modifies pool`virtual, pool.pending.Repr
    ensures pool.Sound() && pool.Inv()
    ensures forall a :: a in pool.pending.book ==> a in pool.virtual && PastEnd(pool.pending.book[a], pool.virtual[a])
    ensures forall a :: a !in pool.pending.book ==>
      NextNonce(pool.virtual, pool.ledger, a) == NextNonce(old(pool.virtual), pool.ledger, a)
  {
    hide AccountLists.Valid, TxPool.Inv, Listing, PastEnd;
    var accounts := pool.pending.Accounts();
    for i := 0 to |accounts|
      invariant pool.Sound() && pool.Inv()
      invariant forall a :: a in accounts[..i] ==> a in pool.virtual && PastEnd(pool.pending.book[a], pool.virtual[a])
      invariant forall a :: a !in pool.pending.book ==>
        NextNonce(pool.virtual, pool.ledger, a) == NextNonce(old(pool.virtual), pool.ledger, a)
    {
      var a := accounts[i];
      PrefixGrows(accounts, i);
      var txs := pool.pending.Flatten(a);
      RefreshOne(pool, a, txs);
      SetVirtual(pool, a, Succ(txs[|txs| - 1].nonce));
    }
    assert accounts[..|accounts|] == accounts;
  }

  method SetVirtual(pool: TxPool, a: Address, v: Nonce)
    requires pool.Sound() && pool.Inv()
    requires NonceInv(pool.pending.book, pool.virtual[a := v], pool.ledger, pool.wrapped)
    modifies pool`virtual
    ensures pool.Sound() && pool.Inv() && pool.virtual == old(pool.virtual)[a := v]
  {
    hide AccountLists.Valid, NonceInv, IndexInv, MaxSeen, NoEmptyList;
    pool.virtual := pool.virtual[a := v];
  }

  lemma RefreshOne(pool: TxPool, a: Address, txs: seq<Tx>)
    requires pool.Inv() && a in pool.pending.book && Listing(txs, pool.pending.book[a])
    ensures txs != []
    ensures NonceInv(pool.pending.book, pool.virtual[a := Succ(txs[|txs| - 1].nonce)], pool.ledger, pool.wrapped)
    ensures PastEnd(pool.pending.book[a], Succ(txs[|txs| - 1].nonce))
  {
    var p := pool.pending.book;
    FiledKeyed(p, a);
    hide NonceInv;
    RefreshKeepsRuns(p, pool.virtual, pool.ledger, pool.wrapped, a, txs);
    var last := txs[|txs| - 1];
    assert last in txs;
    assert Taken(p, a, last.nonce) && Holds(p, last);
    assert Knows(pool.all, last);
    forall n | n in p[a] ensures n <= last.nonce {
      var i :| 0 <= i < |txs| && txs[i] == p[a][n];
    }
  }

  /** Of the pending transactions only stale ones are gone, and the queue is untouched. */
  ghost predicate Demoted(b: Books, b': Books, r: Rules) {
    && b'.queue == b.queue && Fresh(b'.pending, r.ledger) && Coherent(b', r)
    && NothingNew(b.all, b'.all) && forall t :: Lost(b.all, b'.all, t) ==> Stale(r, t)
  }

  /** A lost transaction has been lost in the first passage, as stale, or in the second passage. */
  lemma LostInBetween(first: Passage, second: Passage, r: Rules)
    requires OnlyExplained(first, r) && Demoted(first.now, second.was, r) && OnlyExplained(second, r)
    ensures forall t :: Lost(first.was.all, second.now.all, t) ==> Explained(first, r, t) || Explained(second, r, t)
  {
    hide Lost, NothingNew, Coherent, Fresh, Stale, Crowded, Squeezed, Overflowed;
    LostOverTwo(first.was.all, first.now.all, second.was.all);
    LostOverTwo(first.was.all, second.was.all, second.now.all);
  }

  /** reset: after a block, puts the pool in step with the ledger. */
  method Reset(pool: TxPool, reinject: seq<Tx>, valid: seq<bool>) returns (ghost first: Passage, ghost second: Passage)
    requires pool.Sound() && pool.Inv() && |valid| == |reinject|
    modifies pool`all, pool`virtual, pool`locals, pool`wrapped, pool.pending, pool.queue, pool.pending.Repr,
             pool.queue.Repr
    ensures pool.Sound() && pool.Inv() && WithinLimits(pool)
    ensures fresh(pool.pending.Repr - old(pool.pending.Repr)) && fresh(pool.queue.Repr - old(pool.queue.Repr))
    ensures Fresh(pool.pending.book, pool.ledger)
    ensures forall a :: Served(pool, a)
    ensures pool.wrapped <= old(pool.wrapped) + LastNonces(reinject)
    ensures
      var offer := OfferAll(old(pool.pending.book), old(pool.queue.book), old(pool.all), pool.Capacity(), reinject,
                            valid);
      && first.was == Books(old(pool.pending.book), offer.queue, offer.all, old(pool.virtual))
      && |offer.errors| == |reinject| && Processed(first, Touched(reinject, offer.errors), RulesOf(pool))
    ensures Demoted(first.now, second.was, RulesOf(pool)) && second.now == BooksOf(pool)
    ensures Lawful(second, second.was.queue.Keys, RulesOf(pool))
    ensures forall t :: Lost(first.was.all, pool.all, t) ==>
      Explained(first, RulesOf(pool), t) || Explained(second, RulesOf(pool), t)
  {
    hide AccountLists.Valid, TxPool.Inv, Lost, NothingNew, MayDrop, Fresh, WithinLimits, Served, LastNonces, OfferAll,
         Lawful, OnlyExplained, Explained, Coherent, Touched;
    var errors;
    errors, first := AddTxs(pool, reinject, false, valid);
    DemoteUnexecutables(pool);
    RefreshNonces(pool);
    InvIsCoherent(pool);
    ghost var between := BooksOf(pool);
    assert Demoted(first.now, between, RulesOf(pool));
    var accounts := pool.queue.Accounts();
    assert forall a :: a in accounts <==> a in pool.queue.book;
    assert Members(accounts) == pool.queue.book.Keys;
    second := PromoteExecutables(pool, accounts);
    LostInBetween(first, second, RulesOf(pool));
    forall a ensures Served(pool, a) {
      if a !in accounts { Unqueued(pool, a); }
    }
  }

  // ---------- Proposals ----------

  /** The transactions of `txs` sent by `a`, in order. */
  ghost function OfAccount(txs: seq<Tx>, a: Address): seq<Tx> {
    if txs == [] then []
    else
      var k := |txs| - 1;
      if txs[k].from == a then OfAccount(txs[..k], a) + [txs[k]] else OfAccount(txs[..k], a)
  }

  lemma {:induction false} OfAccountJoin(x: seq<Tx>, y: seq<Tx>, a: Address)
    ensures OfAccount(x + y, a) == OfAccount(x, a) + OfAccount(y, a)
  {
    if y == [] {
      assert x + y == x;
    } else {
      var k := |y| - 1;
      assert (x + y)[..|x| + k] == x + y[..k];
      OfAccountJoin(x, y[..k], a);
    }
  }

  lemma {:induction false} OfAccountSame(x: seq<Tx>, a: Address, b: Address)
    requires forall t :: t in x ==> t.from == b
    ensures OfAccount(x, a) == if a == b then x else []
  {
    if x != [] {
      var k := |x| - 1;
      assert x[k] in x && x == x[..k] + [x[k]];
      OfAccountSame(x[..k], a, b);
    }
  }

  lemma OfAccountMore(done: seq<Tx>, more: seq<Tx>, b: Address)
    requires (forall t :: t in more ==> t.from == b) && OfAccount(done, b) == []
    ensures forall a :: OfAccount(done + more, a) == if a == b then more else OfAccount(done, a)
  {
    hide OfAccount;
    forall a ensures OfAccount(done + more, a) == if a == b then more else OfAccount(done, a) {
      OfAccountJoin(done, more, a);
      OfAccountSame(more, a, b);
    }
  }

  /** What a proposal holds of account `a` is an initial part of its pending list. */
  ghost predicate Initial(p: Book, a: Address, s: seq<Tx>) {
    s == [] || (a in p && exists full :: Listing(full, p[a]) && s <= full)
  }

  /** The first `i` accounts are listed in full, the others not at all. */
  ghost predicate Drawn(p: Book, txs: seq<Tx>, accounts: seq<Address>, i: nat) {
    && i <= |accounts|
    && DistinctAccounts(accounts)
    && (forall a :: a in accounts <==> a in p)
    && (forall a :: a in accounts[..i] ==> Listing(OfAccount(txs, a), p[a]))
    && (forall a :: a !in accounts[..i] ==> OfAccount(txs, a) == [])
    && (forall t :: t in txs ==> Holds(p, t))
  }

  lemma DrawPart(p: Book, done: seq<Tx>, accounts: seq<Address>, i: nat, full: seq<Tx>, j: nat)
    requires Drawn(p, done, accounts, i) && i < |accounts| && j <= |full|
    requires Filed(p) && Listing(full, p[accounts[i]])
    ensures forall a :: Initial(p, a, OfAccount(done + full[..j], a))
    ensures forall t :: t in done + full[..j] ==> Holds(p, t)
    ensures j == |full| ==> Drawn(p, done + full[..j], accounts, i + 1)
  {
    var b := accounts[i];
    PrefixGrows(accounts, i);
    forall t | t in full ensures t.from == b && Holds(p, t) {
      assert Taken(p, b, t.nonce);
    }
    OfAccountMore(done, full[..j], b);
    hide OfAccount;
    forall a ensures Initial(p, a, OfAccount(done + full[..j], a)) {
      if a == b {
        assert full[..j] <= full;
      } else if a in accounts[..i] {
        assert Listing(OfAccount(done, a), p[a]) && OfAccount(done, a) <= OfAccount(done, a);
      }
    }
    if j == |full| { assert full[..j] == full; }
  }

  /**
   GetTxsFromTXPool: pending transactions, account by account, at most `count` of them.  A
   count of zero or less sets no bound.
   */
  method GetTxs(pool: TxPool, count: int) returns (txs: seq<Tx>)
    requires pool.Sound() && pool.Inv()
    modifies pool.pending.Repr
    ensures pool.Sound() && pool.Inv()
    ensures forall a :: Initial(pool.pending.book, a, OfAccount(txs, a))
    ensures forall t :: t in txs ==> Holds(pool.pending.book, t)
    ensures count > 0 ==> |txs| <= count
    ensures count <= 0 || |txs| < count ==> forall a :: a in pool.pending.book ==>
      Listing(OfAccount(txs, a), pool.pending.book[a])
  {
    hide AccountLists.Valid, TxPool.Inv, Drawn, Initial, Listing, OfAccount, Holds;
    var accounts := pool.pending.Accounts();
    txs := [];
    DrawStarts(pool.pending.book, accounts);
    for i := 0 to |accounts|
      invariant pool.Sound() && pool.Inv()
      invariant Drawn(pool.pending.book, txs, accounts, i)
      invariant forall a :: Initial(pool.pending.book, a, OfAccount(txs, a))
      invariant forall t :: t in txs ==> Holds(pool.pending.book, t)
      invariant count > 0 ==> |txs| < count
    {
      PrefixGrows(accounts, i);
      var full := pool.pending.Flatten(accounts[i]);
      PendingFiled(pool);
      ghost var done := txs;
      for j := 0 to |full|
        invariant txs == done + full[..j]
        invariant count > 0 ==> |txs| < count
      {
        assert done + full[..j] + [full[j]] == done + full[..j + 1];
        txs := txs + [full[j]];
        if |txs| == count {
          DrawPart(pool.pending.book, done, accounts, i, full, j + 1);
          return;
        }
      }
      DrawPart(pool.pending.book, done, accounts, i, full, |full|);
    }
    DrawEnds(pool.pending.book, txs, accounts);
  }

  lemma PendingFiled(pool: TxPool)
    requires pool.Inv()
    ensures Filed(pool.pending.book)
  {
  }

  lemma DrawStarts(p: Book, accounts: seq<Address>)
    requires DistinctAccounts(accounts) && forall a :: a in accounts <==> a in p
    ensures Drawn(p, [], accounts, 0) && forall a :: Initial(p, a, OfAccount([], a))
  {
  }

  lemma DrawEnds(p: Book, txs: seq<Tx>, accounts: seq<Address>)
    requires Drawn(p, txs, accounts, |accounts|)
    ensures forall a :: a in p ==> Listing(OfAccount(txs, a), p[a])
  {
    assert accounts[..|accounts|] == accounts;
  }

  /**
   A proposal drawn from a pool that is in step with the ledger holds, for every account, a
   consecutive run of nonces that starts at the account's ledger nonce.
   */
  lemma ProposalIsExecutable(pool: TxPool, txs: seq<Tx>, a: Address)
    requires pool.Inv() && Fresh(pool.pending.book, pool.ledger)
    requires Initial(pool.pending.book, a, OfAccount(txs, a))
    ensures
      var s := OfAccount(txs, a);
      Consecutive(s) && (s != [] ==> s[0].nonce == NonceAt(pool.ledger, a))
  {
    hide TxPool.Inv, OfAccount, Listing, StartsAt, RunInv;
    var s, p := OfAccount(txs, a), pool.pending.book;
    if s != [] {
      var full :| Listing(full, p[a]) && s <= full;
      PendingRun(pool, a);
      FreshListing(p[a], pool.virtual[a], NonceAt(pool.ledger, a), a in pool.wrapped, full);
    }
  }

  lemma PendingRun(pool: TxPool, a: Address)
    requires pool.Inv() && a in pool.pending.book
    ensures a in pool.virtual
    ensures RunInv(pool.pending.book[a], pool.virtual[a], NonceAt(pool.ledger, a), a in pool.wrapped)
    ensures Keyed(pool.pending.book[a])
  {
    FiledKeyed(pool.pending.book, a);
  }

  lemma FreshListing(m: TxMap, v: Nonce, l: Nonce, wrapped: bool, full: seq<Tx>)
    requires Keyed(m) && RunInv(m, v, l, wrapped) && StartsAt(m, l) && Listing(full, m)
    ensures forall i :: 0 <= i < |full| ==> full[i].nonce == l + i
  {
    var lo, hi :| IsRun(m, lo, hi) && lo <= l;
    assert lo in m;
    forall i | 0 <= i < |full| ensures full[i].nonce == l + i { RunListing(m, lo, hi, full, i); }
  }

  /** The listing of a gapless run counts up from its start. */
  lemma {:induction false} RunListing(m: TxMap, lo: int, hi: int, full: seq<Tx>, i: nat)
    requires Keyed(m) && IsRun(m, lo, hi) && Listing(full, m) && i < |full|
    ensures full[i].nonce == lo + i
  {
    assert full[i] in full;
    if i == 0 {
      var j :| 0 <= j < |full| && full[j] == m[lo];
    } else {
      RunListing(m, lo, hi, full, i - 1);
      var j :| 0 <= j < |full| && full[j] == m[lo + i];
      assert full[i - 1].nonce < full[i].nonce;
    }
  }

  // ---------- Every run ----------

  /** What can happen to the pool between two points in time. */
  datatype Event =
    | Submit(tx: Tx, local: bool, valid: bool)
    | SubmitBatch(txs: seq<(Tx, bool)>, local: bool)
    | BlockCommitted(account: Address, nonce: Nonce)
    | BlockHandled(reinject: seq<(Tx, bool)>)
    | Removed(hash: Hash)
    | IdleTick(idle: set<Address>)
    | ProposalDrawn(count: int)

  function Txs(s: seq<(Tx, bool)>): (r: seq<Tx>)
    ensures |r| == |s|
  {
    seq(|s|, i requires 0 <= i < |s| => s[i].0)
  }

  function Verdicts(s: seq<(Tx, bool)>): (r: seq<bool>)
    ensures |r| == |s|
  {
    seq(|s|, i requires 0 <= i < |s| => s[i].1)
  }

  /** Ledger nonces never go down. */
  function Raise(ledger: Ledger, a: Address, n: Nonce): (r: Ledger)
    ensures NonceRises(ledger, r)
  {
    if n > NonceAt(ledger, a) then ledger[a := n] else ledger
  }

  /** The accounts of which an event offers a transaction with the last nonce. */
  ghost function Offered(event: Event): set<Address> {
    match event
    case Submit(tx, _, _) => LastNonces([tx])
    case SubmitBatch(txs, _) => LastNonces(Txs(txs))
    case BlockHandled(reinject) => LastNonces(Txs(reinject))
    case _ => {}
  }

  ghost function EverOffered(events: seq<Event>): set<Address> {
    if events == [] then {} else EverOffered(events[..|events| - 1]) + Offered(events[|events| - 1])
  }

  /** Handles one event. */
  method Handle(pool: TxPool, event: Event)
    requires pool.Sound() && pool.Inv()
    modifies pool, pool.pending, pool.queue, pool.pending.Repr, pool.queue.Repr
    ensures pool.Sound() && pool.Inv()
    ensures fresh(pool.pending.Repr - old(pool.pending.Repr)) && fresh(pool.queue.Repr - old(pool.queue.Repr))
    ensures event.BlockHandled? ==> Fresh(pool.pending.book, pool.ledger) && WithinLimits(pool)
    ensures pool.wrapped <= old(pool.wrapped) + Offered(event)
  {
    hide AccountLists.Valid, TxPool.Inv, Fresh, WithinLimits, MayDrop, Lost, NothingNew, Served, OfferAll, Initial,
         CutAt, Holds, Answer,
         Listing, LastNonces, LowerTo;
    match event
    case Submit(tx, local, valid) =>
      var error;
      ghost var passage;
      error, passage := AddTx(pool, tx, local, valid);
    case SubmitBatch(txs, local) =>
      var errors;
      ghost var passage;
      errors, passage := AddTxs(pool, Txs(txs), local, Verdicts(txs));
    case BlockCommitted(account, nonce) =>
      pool.LedgerAdvances(Raise(pool.ledger, account, nonce));
    case BlockHandled(reinject) =>
      ghost var first, second := Reset(pool, Txs(reinject), Verdicts(reinject));
    case Removed(hash) =>
      pool.RemoveTx(hash);
    case IdleTick(idle) =>
      EvictIdle(pool, idle);
    case ProposalDrawn(count) =>
      var txs := GetTxs(pool, count);
  }

  /** The pending list of `a` is a gapless run from at or below the ledger nonce, and the virtual nonce is its end. */
  ghost predicate EndsAtVirtual(pool: TxPool, a: Address)
    requires a in pool.pending.book
    reads pool, pool.pending
  {
    a in pool.virtual &&
    exists lo: int :: lo <= NonceAt(pool.ledger, a) && IsRun(pool.pending.book[a], lo, pool.virtual[a])
  }

  /**
   From an empty pool, every sequence of events leads to a pool in which the invariant holds.  An account of
   which none of the events offered nonce 2^64 - 1 has, if it has pending transactions, the end of their run
   as its virtual nonce, and else no virtual nonce above the ledger's.
   */
  method EveryRun(accountSlots: nat, globalSlots: nat, accountQueue: nat, globalQueue: nat, locals: set<Address>,
                  ledger: Ledger,
                  events: seq<Event>) returns (pool: TxPool)
    requires accountSlots >= 1 && globalSlots + globalQueue < TWO_64 / 2
    ensures pool.Sound() && pool.Inv() && pool.wrapped <= EverOffered(events)
    ensures forall a :: a in pool.pending.book && a !in EverOffered(events) ==> EndsAtVirtual(pool, a)
    ensures forall a :: a in pool.pending.book ==>
      a in pool.virtual && (EndsAtVirtual(pool, a) <==> pool.virtual[a] != 0)
    ensures forall a :: a in pool.virtual && a !in pool.pending.book ==> pool.virtual[a] <= NonceAt(pool.ledger, a)
  {
    hide AccountLists.Valid, TxPool.Inv, Fresh, WithinLimits, Offered;
    pool := new TxPool(accountSlots, globalSlots, accountQueue, globalQueue, locals, ledger);
    for i := 0 to |events|
      invariant pool.Sound() && pool.Inv() && pool.wrapped <= EverOffered(events[..i])
      invariant fresh(pool) && fresh(pool.pending) && fresh(pool.queue) && fresh(pool.pending.Repr)
      invariant fresh(pool.queue.Repr)
    {
      assert events[..i + 1][..i] == events[..i];
      Handle(pool, events[i]);
    }
    assert events[..|events|] == events;
    VirtualNonces(pool);
  }

  /** What the invariant says of virtual nonces: each is the end of its run unless it is zero. */
  lemma VirtualNonces(pool: TxPool)
    requires pool.Inv()
    ensures forall a :: a in pool.pending.book && a !in pool.wrapped ==> EndsAtVirtual(pool, a)
    ensures forall a :: a in pool.pending.book ==>
      a in pool.virtual && (EndsAtVirtual(pool, a) <==> pool.virtual[a] != 0)
    ensures forall a :: a in pool.virtual && a !in pool.pending.book ==> pool.virtual[a] <= NonceAt(pool.ledger, a)
  {
    forall a | a in pool.pending.book
      ensures a in pool.virtual && (a !in pool.wrapped ==> EndsAtVirtual(pool, a))
      ensures EndsAtVirtual(pool, a) <==> pool.virtual[a] != 0
    {
      assert RunInv(pool.pending.book[a], pool.virtual[a], NonceAt(pool.ledger, a), a in pool.wrapped);
    }
  }

  /** A pending transaction with the last nonce forces the virtual nonce to zero, which is not the end of the run. */
  lemma LastNonceWraps(pool: TxPool, a: Address)
    requires pool.Inv() && a in pool.pending.book && TWO_64 - 1 in pool.pending.book[a]
    ensures a in pool.virtual && pool.virtual[a] == 0 && !EndsAtVirtual(pool, a)
  {
    assert RunInv(pool.pending.book[a], pool.virtual[a], NonceAt(pool.ledger, a), a in pool.wrapped);
  }

  /** Such a pool is one submission away: the account's ledger nonce is the last one and it sends just that. */
  method OfferLastNonce(tx: Tx) returns (pool: TxPool)
    requires tx.nonce == TWO_64 - 1
    ensures pool.Sound() && pool.Inv() && tx.from in pool.pending.book && tx.nonce in pool.pending.book[tx.from]
    ensures tx.from in pool.virtual && pool.virtual[tx.from] == 0 && !EndsAtVirtual(pool, tx.from)
  {
    hide AccountLists.Valid, TxPool.Inv, WithinLimits, Fresh, LastNonces, MayDrop, NewOnlyPending, Served;
    pool := new TxPool(1, 1, 1, 1, {}, map[tx.from := TWO_64 - 1]);
    var error;
    ghost var passage;
    error, passage := AddTx(pool, tx, true, true);
    OnlyPending(pool, tx);
    LastNonceWraps(pool, tx.from);
  }

  /** A lone transaction that is not lost and could be executed is pending. */
  lemma OnlyPending(pool: TxPool, tx: Tx)
    requires pool.Inv() && MayDrop(map[tx.hash := tx], pool.all, pool.locals, pool.ledger)
    requires tx.from in pool.locals && NonceAt(pool.ledger, tx.from) == tx.nonce && Served(pool, tx.from)
    requires NewOnlyPending(map[], pool.virtual, pool.pending.book)
    ensures Taken(pool.pending.book, tx.from, tx.nonce)
  {
    hide NonceInv, MaxSeen, NoEmptyList, Exclusive, InTransit, Filed;
    var known := map[tx.hash := tx];
    assert Knows(known, tx) && !Lost(known, pool.all, tx);
    assert Holds(pool.pending.book, tx) || Holds(pool.queue.book, tx);
    if Holds(pool.queue.book, tx) {
      assert Taken(pool.queue.book, tx.from, tx.nonce);
      assert NextNonce(pool.virtual, pool.ledger, tx.from) < tx.nonce;
      assert tx.from in pool.virtual && tx.from in pool.pending.book;
      PendingIsKnown(pool, known, tx);
    }
  }

  /** If `tx` is all there is to know and its sender has something pending, that is `tx`. */
  lemma PendingIsKnown(pool: TxPool, known: Index, tx: Tx)
    requires pool.Inv() && known == map[tx.hash := tx] && NothingNew(known, pool.all) && tx.from in pool.pending.book
    ensures Taken(pool.pending.book, tx.from, tx.nonce)
  {
    hide IndexInv, MaxSeen, NoEmptyList, RunInv, NothingNew;
    var p, a := pool.pending.book, tx.from;
    RunNotEmpty(p[a], pool.virtual[a], NonceAt(pool.ledger, a), a in pool.wrapped);
    var n: Nonce :| n in p[a];
    HeldIsKnown(p, pool.queue.book, pool.all, known, tx, n);
  }

  lemma RunNotEmpty(m: TxMap, v: Nonce, l: Nonce, wrapped: bool)
    requires RunInv(m, v, l, wrapped)
    ensures m != map[] && exists n: Nonce :: n in m
  {
    var lo, hi :| IsRun(m, lo, hi) && lo <= l;
    assert lo in m;
  }

  lemma HeldIsKnown(p: Book, q: Book, all: Index, known: Index, tx: Tx, n: Nonce)
    requires IndexInv(p, q, all, {}) && known == map[tx.hash := tx] && NothingNew(known, all)
    requires Taken(p, tx.from, n)
    ensures n == tx.nonce
  {
    hide Exclusive, InTransit;
    var t := p[tx.from][n];
    assert t.from == tx.from && t.nonce == n && Holds(p, t);
    assert Knows(all, t);
    assert Knows(known, t);
  }
}
