/** The transaction pool and its mutex-protected operations. */
module TxPools {
  import opened Basics
  import opened Transactions
  import opened TxLists
  import opened PoolState
  import opened Accounts

  class TxPool {
    const accountSlots: nat
    const globalSlots: nat
    const accountQueue: nat
    const globalQueue: nat

    const pending: AccountLists
    const queue: AccountLists
    var all: Index
    var virtual: map<Address, Nonce>
    var locals: set<Address>
    var ledger: Ledger        // what ledger.GetNonce answers
    ghost var wrapped: set<Address>   // senders of which a transaction with nonce 2^64 - 1 has been let in

    function Capacity(): nat {
      globalSlots + globalQueue
    }

    /** Every account is guaranteed a slot, and the pool fits into memory. */
    ghost predicate Configured() {
      accountSlots >= 1 && Capacity() < TWO_64 / 2
    }

    /** The list objects are in order and the two books share none of them. */
    ghost predicate Sound()
      reads pending, queue, pending.Repr, queue.Repr
    {
      && pending.Valid() && queue.Valid()
      && pending.strict && !queue.strict
      && pending.Repr !! queue.Repr
    }

    /** What every mutex-protected operation finds and leaves. */
    ghost predicate Inv()
      reads this, pending, queue
    {
      Core() && NoEmptyList(queue.book)
    }

    /** The part of the invariant that also holds while a queue list is being emptied. */
    ghost predicate Core()
      reads this, pending, queue
    {
      && Configured()
      && IndexInv(pending.book, queue.book, all, {})
      && NonceInv(pending.book, virtual, ledger, wrapped)
      && MaxSeen(all, wrapped)
      && |all| <= Capacity()
    }

    constructor (accountSlots: nat, globalSlots: nat, accountQueue: nat, globalQueue: nat, locals: set<Address>,
                 ledger: Ledger)
      requires accountSlots >= 1 && globalSlots + globalQueue < TWO_64 / 2
      ensures Sound() && Inv() && fresh(pending) && fresh(queue) && fresh(pending.Repr) && fresh(queue.Repr)
      ensures wrapped == {} && all == map[] && virtual == map[] && this.locals == locals && this.ledger == ledger
      ensures this.globalSlots == globalSlots && this.globalQueue == globalQueue && pending.book == map[]
      ensures queue.book == map[]
    {
      this.accountSlots, this.globalSlots := accountSlots, globalSlots;
      this.accountQueue, this.globalQueue := accountQueue, globalQueue;
      pending := new AccountLists(true);
      queue := new AccountLists(false);
      all, virtual, this.locals, this.ledger, wrapped := map[], map[], locals, ledger, {};
    }

    /** Between two operations blocks may be committed: ledger nonces rise. */
    method LedgerAdvances(after: Ledger)
      requires Sound() && Inv() && NonceRises(ledger, after)
      modifies this`ledger
      ensures Sound() && Inv() && ledger == after
    {
      LedgerRiseKeeps(pending.book, virtual, ledger, after, wrapped);
      ledger := after;
    }

    // ---------- Single transactions ----------

    /** Puts a transaction into its sender's queue unless the nonce is taken there. */
    method EnqueueTx(tx: Tx) returns (inserted: bool)
      requires Sound()
      modifies this`all, queue, queue.Repr
      ensures Sound() && fresh(queue.Repr - old(queue.Repr))
      ensures inserted <==> !Taken(old(queue.book), tx.from, tx.nonce)
      ensures queue.book == if inserted then File(old(queue.book), tx) else old(queue.book)
      ensures all == if inserted && tx.hash !in old(all) then old(all)[tx.hash := tx] else old(all)
    {
      hide AccountLists.Valid;
      queue.Open(tx.from);
      inserted := queue.Add(tx);
      if inserted && tx.hash !in all {
        all := all[tx.hash := tx];
      }
    }

    /** Puts a transaction into its sender's pending list and sets the virtual nonce past it. */
    method PromoteTx(a: Address, tx: Tx) returns (inserted: bool)
      requires Sound() && tx.from == a
      modifies this`all, this`virtual, pending, pending.Repr
      ensures Sound() && fresh(pending.Repr - old(pending.Repr))
      ensures inserted <==> !Taken(old(pending.book), a, tx.nonce)
      ensures inserted ==>
                && pending.book == File(old(pending.book), tx)
                && virtual == old(virtual)[a := Succ(tx.nonce)]
                && all == if tx.hash in old(all) then old(all) else old(all)[tx.hash := tx]
      ensures !inserted ==>
                pending.book == old(pending.book) && virtual == old(virtual) && all == old(all) - {tx.hash}
    {
      hide AccountLists.Valid;
      pending.Open(a);
      inserted := pending.Add(tx);
      if !inserted {
        all := all - {tx.hash};
        return;
      }
      if tx.hash !in all {
        all := all[tx.hash := tx];
      }
      virtual := virtual[a := Succ(tx.nonce)];
    }

    /** Drops the hashes of `txs` from the index, one by one. */
    method Forget(txs: seq<Tx>)
      modifies this`all
      ensures all == old(all) - HashesOf(txs)
    {
      for i := 0 to |txs|
        invariant all == old(all) - HashesOf(txs[..i])
      {
        assert HashesOf(txs[..i + 1]) == HashesOf(txs[..i]) + {txs[i].hash} by {
          assert txs[..i + 1] == txs[..i] + [txs[i]];
        }
        all := all - {txs[i].hash};
      }
      assert txs[..|txs|] == txs;
    }

    /** `add`: validates a transaction and queues it.  `valid` is the verdict of validateTx. */
    method AddOne(tx: Tx, local: bool, valid: bool) returns (error: AddError)
      requires Sound() && Inv()
      modifies this`all, this`locals, this`wrapped, queue, queue.Repr
      ensures Sound() && Inv() && fresh(queue.Repr - old(queue.Repr))
      ensures error == Answer(pending.book, old(queue.book), old(all), Capacity(), tx, valid)
      ensures
        if TakesIn(pending.book, old(queue.book), old(all), Capacity(), tx, valid)
        then queue.book == File(old(queue.book), tx) && all == old(all)[tx.hash := tx] &&
             locals == if local then old(locals) + {tx.from} else old(locals)
        else queue.book == old(queue.book) && all == old(all) && locals == old(locals)
      ensures wrapped <= old(wrapped) + LastNonces([tx])
    {
      hide AccountLists.Valid, IndexInv, NonceInv, MaxSeen, NoEmptyList, File;
      if tx.hash in all { return KnownTransaction; }
      if !valid { return InvalidTransaction; }
      if |all| >= Capacity() { return QueueFull; }
      var replacesPending := pending.Has(tx.from, tx.nonce);
      if replacesPending { return NoError; }
      ghost var q, known := queue.book, all;
      var inserted := EnqueueTx(tx);
      if !inserted { return ReplaceUnderpriced; }
      EnterKeeps(pending.book, q, known, {}, tx);
      EnterKeepsRest(q, known, wrapped, tx);
      if local { locals := locals + {tx.from}; }
      WrapKeeps(pending.book, virtual, ledger, wrapped, wrapped + LastNonces([tx]));
      wrapped := wrapped + LastNonces([tx]);
      error := NoError;
    }

    // ---------- Promotion ----------

    /** Moves the transactions `ready`, already taken off the queue, into the pending list. */
    method PromoteRun(a: Address, ready: seq<Tx>)
      requires Sound() && Promoting(pending.book, queue.book, all, virtual, ledger, wrapped, a, ready, 0)
      modifies this`all, this`virtual, pending, pending.Repr
      ensures Sound() && fresh(pending.Repr - old(pending.Repr))
      ensures Promoting(pending.book, queue.book, all, virtual, ledger, wrapped, a, ready, |ready|)
      ensures all == old(all)
      ensures SameBut(old(pending.book), pending.book, a)
      ensures Fresh(old(pending.book), ledger) ==> Fresh(pending.book, ledger)
      ensures NextSameBut(old(virtual), virtual, ledger, a)
      ensures NewOnlyPending(old(virtual), virtual, pending.book) && old(pending.book).Keys <= pending.book.Keys
      ensures NextNonce(virtual, ledger, a) ==
              if ready == [] then NextNonce(old(virtual), ledger, a) else Succ(ready[|ready| - 1].nonce)
    {
      hide AccountLists.Valid, Promoting, Fresh;
      for i := 0 to |ready|
        invariant Sound() && fresh(pending.Repr - old(pending.Repr))
        invariant Promoting(pending.book, queue.book, all, virtual, ledger, wrapped, a, ready, i)
        invariant all == old(all)
        invariant SameBut(old(pending.book), pending.book, a)
        invariant Fresh(old(pending.book), ledger) ==> Fresh(pending.book, ledger)
        invariant NextSameBut(old(virtual), virtual, ledger, a)
        invariant NewOnlyPending(old(virtual), virtual, pending.book) && old(pending.book).Keys <= pending.book.Keys
        invariant NextNonce(virtual, ledger, a) ==
                  if i == 0 then NextNonce(old(virtual), ledger, a) else Succ(ready[i - 1].nonce)
      {
        PromoteNext(pending.book, queue.book, all, virtual, ledger, wrapped, a, ready, i);
        var promoted := PromoteTx(a, ready[i]);
      }
    }

    /** Drops the queued transactions of `a` that the ledger has passed. */
    method DropStale(a: Address)
      requires Sound() && Core() && a in queue.book
      modifies this`all, queue`book, queue.Repr
      ensures Sound() && Core()
      ensures a in queue.book && queue.book == old(queue.book)[a := queue.book[a]]
      ensures forall n :: n in queue.book[a] ==> NonceAt(ledger, a) <= n
      ensures NothingNew(old(all), all)
      ensures forall t :: Lost(old(all), all, t) ==> t.from == a && t.nonce < NonceAt(ledger, a)
      ensures NoneStale(old(queue.book), ledger, a) ==> queue.book == old(queue.book)
    {
      hide AccountLists.Valid, IndexInv, NonceInv, MaxSeen, Detached, Lost, NothingNew, HashesOf;
      var gone := queue.Forward(a, NonceAt(ledger, a));
      if NoneStale(old(queue.book), ledger, a) {
        NothingStale(old(queue.book), queue.book, gone, ledger, a);
      }
      LeaveKeeps(pending.book, old(queue.book), all, {}, a, gone, queue.book[a]);
      ShrinkKeeps(all, HashesOf(gone), wrapped);
      Forget(gone);
    }

    /** Promotes whatever follows on from the pending list of `a`. */
    method PromoteReady(a: Address)
      requires Sound() && Core() && a in queue.book
      requires forall n :: n in queue.book[a] ==> NonceAt(ledger, a) <= n
      modifies this`all, this`virtual, pending, queue`book, pending.Repr, queue.Repr
      ensures Sound() && Core() && fresh(pending.Repr - old(pending.Repr)) && all == old(all)
      ensures a in queue.book && queue.book == old(queue.book)[a := queue.book[a]]
      ensures SameBut(old(pending.book), pending.book, a)
      ensures Fresh(old(pending.book), ledger) ==> Fresh(pending.book, ledger)
      ensures NextSameBut(old(virtual), virtual, ledger, a)
      ensures NewOnlyPending(old(virtual), virtual, pending.book) && old(pending.book).Keys <= pending.book.Keys
      ensures forall n :: n in queue.book[a] ==> NextNonce(virtual, ledger, a) < n
      ensures forall n :: n in queue.book[a] ==> n in old(queue.book)[a]
      ensures Grown(old(pending.book), pending.book)
      ensures Exhausted(old(queue.book), old(virtual), ledger, a) ==> queue.book == old(queue.book)
    {
      hide AccountLists.Valid, IndexInv, NonceInv, MaxSeen, Detached, Fresh, Grown, Exhausted;
      var ready := queue.Ready(a, NextNonce(virtual, ledger, a));
      PromotionStarts(pending.book, old(queue.book), all, virtual, ledger, wrapped, a, ready, queue.book[a]);
      QueueShrinks(old(queue.book), queue.book, ready, a);
      if Exhausted(old(queue.book), virtual, ledger, a) {
        NothingReady(old(queue.book), queue.book, ready, virtual, ledger, a);
      }
      PromoteRun(a, ready);
      assert SetOf(ready[|ready|..]) == {};
      PastTheRun(ready, queue.book[a]);
      PendingGrows(old(pending.book), old(queue.book), pending.book, queue.book, all);
    }

    /** A remote account may keep only `accountQueue` queued transactions. */
    method CapQueue(a: Address)
      requires Sound() && Core() && a in queue.book
      modifies this`all, queue`book, queue.Repr
      ensures Sound() && Core()
      ensures a in queue.book && queue.book == old(queue.book)[a := queue.book[a]]
      ensures forall n :: n in queue.book[a] ==> n in old(queue.book)[a]
      ensures a !in locals ==> |queue.book[a]| <= accountQueue
      ensures a in locals || |old(queue.book)[a]| <= accountQueue ==> queue.book == old(queue.book)
      ensures NothingNew(old(all), all)
      ensures forall t :: Lost(old(all), all, t) ==>
        t.from == a && a !in locals && OverCap(queue.book, a, accountQueue, t)
    {
      hide AccountLists.Valid, IndexInv, NonceInv, MaxSeen, HashesOf;
      if a !in locals {
        var drops := queue.Cap(a, accountQueue);
        if |old(queue.book)[a]| <= accountQueue {
          NothingGone(old(queue.book)[a], drops, queue.book[a]);
        }
        LeaveKeeps(pending.book, old(queue.book), all, {}, a, drops, queue.book[a]);
        ShrinkKeeps(all, HashesOf(drops), wrapped);
        Forget(drops);
      }
    }

    /** A queue list that has become empty goes. */
    method DropIfEmpty(a: Address)
      requires Sound() && Core() && a in queue.book && NoEmptyBut(queue.book, a)
      modifies queue`lists, queue`book
      ensures Sound() && Inv()
      ensures queue.book == Trimmed(old(queue.book), a, old(queue.book)[a])
    {
      hide AccountLists.Valid, IndexInv, NonceInv, MaxSeen;
      if queue.book[a] == map[] {
        ForgetKeeps(pending.book, queue.book, all, {}, a);
      }
      assert queue.book[a := queue.book[a]] == queue.book;
      queue.DeleteIfEmpty(a);
    }

    /** Caps the queue list of `a` and drops it when it is empty. */
    method TrimQueue(a: Address)
      requires Sound() && Core() && a in queue.book && NoEmptyBut(queue.book, a)
      modifies this`all, queue, queue.Repr
      ensures Sound() && Inv() && queue.Repr == old(queue.Repr)
      ensures
        || queue.book == old(queue.book) - {a}
        || (a in queue.book && queue.book == old(queue.book)[a := queue.book[a]])
      ensures forall n :: Taken(queue.book, a, n) ==> n in old(queue.book)[a]
      ensures a in queue.book && a !in locals ==> |queue.book[a]| <= accountQueue
      ensures old(queue.book)[a] != map[] && (a in locals || |old(queue.book)[a]| <= accountQueue) ==>
        queue.book == old(queue.book)
      ensures NothingNew(old(all), all)
      ensures forall t :: Lost(old(all), all, t) ==>
        t.from == a && a !in locals && OverCap(queue.book, a, accountQueue, t)
    {
      hide AccountLists.Valid, Core, Lost, NothingNew;
      CapQueue(a);
      TrimmedList(queue.book, a);
      hide OverCap;
      ghost var q := queue.book;
      DropIfEmpty(a);
      SameOverCap(q, queue.book, a, accountQueue);
    }

    /** What the ledger has passed goes, and what is executable becomes pending. */
    method PromoteQueued(a: Address)
      requires Sound() && Inv() && a in queue.book
      modifies this`all, this`virtual, pending, queue`book, pending.Repr, queue.Repr
      ensures Sound() && Core() && fresh(pending.Repr - old(pending.Repr)) && NoEmptyBut(queue.book, a)
      ensures a in queue.book && queue.book == old(queue.book)[a := queue.book[a]]
      ensures SameBut(old(pending.book), pending.book, a) && Grown(old(pending.book), pending.book)
      ensures Fresh(old(pending.book), ledger) ==> Fresh(pending.book, ledger)
      ensures NextSameBut(old(virtual), virtual, ledger, a)
      ensures NewOnlyPending(old(virtual), virtual, pending.book) && old(pending.book).Keys <= pending.book.Keys
      ensures forall n :: n in queue.book[a] ==> NextNonce(virtual, ledger, a) < n && NonceAt(ledger, a) <= n
      ensures Exhausted(old(queue.book), old(virtual), ledger, a) && NoneStale(old(queue.book), ledger, a) ==>
        queue.book == old(queue.book)
      ensures NothingNew(old(all), all)
      ensures forall t :: Lost(old(all), all, t) ==> t.from == a && t.nonce < NonceAt(ledger, a)
    {
      hide AccountLists.Valid, Core, Fresh, Lost, NothingNew, Capacity, NextSameBut, NewOnlyPending, Grown, SameBut,
           Exhausted, NoneStale;
      DropStale(a);
      PromoteReady(a);
    }

    /** One round of promoteExecutables: account `a`. */
    method PromoteAccount(a: Address)
      requires Sound() && Inv()
      modifies this`all, this`virtual, pending, queue, pending.Repr, queue.Repr
      ensures Sound() && Inv() && fresh(pending.Repr - old(pending.Repr)) && queue.Repr == old(queue.Repr)
      ensures SameBut(old(pending.book), pending.book, a)
      ensures SameBut(old(queue.book), queue.book, a)
      ensures Fresh(old(pending.book), ledger) ==> Fresh(pending.book, ledger)
      ensures Exhausted(queue.book, virtual, ledger, a)
      ensures a in queue.book && a !in locals ==> |queue.book[a]| <= accountQueue
      ensures NextSameBut(old(virtual), virtual, ledger, a) && queue.book.Keys <= old(queue.book).Keys
      ensures NewOnlyPending(old(virtual), virtual, pending.book) && old(pending.book).Keys <= pending.book.Keys
      ensures Grown(old(pending.book), pending.book) && NoneStale(queue.book, ledger, a)
      ensures AtRest(old(queue.book), old(virtual), ledger, locals, accountQueue, a) ==> queue.book == old(queue.book)
      ensures NothingNew(old(all), all)
      ensures forall t :: Lost(old(all), all, t) ==>
                && t.from == a
                && (t.nonce < NonceAt(ledger, a) || (a !in locals && OverCap(queue.book, a, accountQueue, t)))
    {
      hide AccountLists.Valid, Core, Fresh, Lost, NothingNew, Capacity, OverCap, NextSameBut, NewOnlyPending, Grown;
      AllStays(pending.book);
      NothingMade(virtual, pending.book);
      NextSame(virtual, ledger, a);
      var present := queue.Contains(a);
      NothingLost(all);
      if !present { return; }
      ghost var q0 := queue.book;
      assert SameBut(q0, q0, a) && NoEmptyBut(q0, a) && q0[a] != map[];
      assert AtRest(q0, virtual, ledger, locals, accountQueue, a) ==> a in locals || |q0[a]| <= accountQueue;
      hide SameBut, ListOf, Exhausted, NoneStale, NoEmptyBut;
      PromoteQueued(a);
      ghost var known, q1 := all, queue.book;
      SameButStep(q0, q0, q1, a);
      TrimQueue(a);
      SameButStep(q0, q1, queue.book, a);
      NothingLeft(q1, queue.book, virtual, ledger, a);
      LostOverTwo(old(all), known, all);
    }

    // ---------- Demotion ----------

    /**
     One round of demoteUnexecutables.  The branch that handles a gap in front of a pending
     list ("should never happen") is shown to be dead.
     */
    method DemoteAccount(a: Address)
      requires Sound() && Inv() && a in pending.book
      modifies this`all, pending, pending.Repr
      ensures Sound() && Inv() && pending.Repr == old(pending.Repr)
      ensures if a in pending.book then pending.book == old(pending.book)[a := pending.book[a]]
              else pending.book == old(pending.book) - {a}
      ensures a in pending.book ==> StartsAt(pending.book[a], NonceAt(ledger, a))
      ensures NothingNew(old(all), all)
      ensures forall t :: Lost(old(all), all, t) ==> t.from == a && t.nonce < NonceAt(ledger, a)
    {
      hide AccountLists.Valid, IndexInv, NonceInv, MaxSeen, NoEmptyList, Lost, NothingNew, Capacity;
      ghost var p := pending.book;
      DropPassed(a);
      var n := pending.Len(a);
      var has := pending.Has(a, NonceAt(ledger, a));
      if n > 0 && !has {
        assert false;
      }
      TrimUpdated(p, a, pending.book[a]);
      pending.DeleteIfEmpty(a);
    }

    /** Drops the pending transactions of `a` that the ledger has passed; the list may end up empty. */
    method DropPassed(a: Address)
      requires Sound() && Core() && a in pending.book
      modifies this`all, pending`book, pending.Repr
      ensures Sound() && a in pending.book && pending.book == old(pending.book)[a := pending.book[a]]
      ensures MaxSeen(all, wrapped) && |all| <= Capacity()
      ensures
        var p := Trimmed(old(pending.book), a, pending.book[a]);
        IndexInv(p, queue.book, all, {}) && NonceInv(p, virtual, ledger, wrapped)
      ensures pending.book[a] != map[] ==> StartsAt(pending.book[a], NonceAt(ledger, a))
      ensures NothingNew(old(all), all)
      ensures forall t :: Lost(old(all), all, t) ==> t.from == a && t.nonce < NonceAt(ledger, a)
    {
      hide AccountLists.Valid, IndexInv, NonceInv, MaxSeen, HashesOf, Lost, NothingNew, Peeled, Capacity, Trimmed,
           StartsAt;
      ghost var p := pending.book;
      var gone := pending.Forward(a, NonceAt(ledger, a));
      DemoteKeeps(p, queue.book, all, virtual, ledger, wrapped, a, gone, pending.book[a]);
      ShrinkKeeps(all, HashesOf(gone), wrapped);
      Forget(gone);
    }

    // ---------- Removal ----------

    /** Queues again, one by one, transactions that were cut off a pending list. */
    method Requeue(txs: seq<Tx>)
      requires Sound() && Requeueing(pending.book, queue.book, all, txs, 0)
      modifies this`all, queue, queue.Repr
      ensures Sound() && fresh(queue.Repr - old(queue.Repr)) && all == old(all)
      ensures IndexInv(pending.book, queue.book, all, {}) && NoEmptyList(queue.book)
    {
      hide AccountLists.Valid, Requeueing, File;
      for i := 0 to |txs|
        invariant Sound() && fresh(queue.Repr - old(queue.Repr)) && all == old(all)
        invariant Requeueing(pending.book, queue.book, all, txs, i)
      {
        RequeueNext(pending.book, queue.book, all, txs, i);
        var inserted := EnqueueTx(txs[i]);
      }
      Requeued(pending.book, queue.book, all, txs);
    }

    /** Cuts the pending list of `tx.from` at `tx`; the transactions above it are handed back. */
    method CutPending(tx: Tx) returns (invalids: seq<Tx>)
      requires Sound() && Inv() && Holds(pending.book, tx)
      modifies this`all, pending, pending.Repr
      ensures Sound() && pending.Repr == old(pending.Repr)
      ensures all == old(all) - {tx.hash} && MaxSeen(all, wrapped) && |all| <= Capacity()
      ensures Requeueing(pending.book, queue.book, all, invalids, 0)
      ensures tx.from in virtual
      ensures NonceInv(pending.book, LowerTo(virtual, tx.from, tx.nonce), ledger, wrapped)
      ensures CutAt(old(pending.book), pending.book, tx)
    {
      hide AccountLists.Valid, IndexInv, NonceInv, MaxSeen, NoEmptyList, Capacity, SetOf, CutAt, LowerTo, Requeueing,
           Detached, Distinct;
      ghost var p := pending.book;
      var a := tx.from;
      var removed, invalids' := pending.Remove(tx);
      invalids := invalids';
      ghost var m := pending.book[a];
      CutKeeps(p, queue.book, all, virtual, ledger, wrapped, tx, invalids, m);
      ShrinkKeeps(all, {tx.hash}, wrapped);
      all := all - {tx.hash};
      TrimUpdated(p, a, pending.book[a]);
      pending.DeleteIfEmpty(a);
    }

    /** removeTx, for a transaction that is in the pending book. */
    method RemovePending(tx: Tx)
      requires Sound() && Inv() && Holds(pending.book, tx)
      modifies this`all, this`virtual, pending, queue, pending.Repr, queue.Repr
      ensures Sound() && Inv() && pending.Repr == old(pending.Repr) && fresh(queue.Repr - old(queue.Repr))
      ensures all == old(all) - {tx.hash}
      ensures CutAt(old(pending.book), pending.book, tx) && virtual == LowerTo(old(virtual), tx.from, tx.nonce)
    {
      hide AccountLists.Valid, IndexInv, NonceInv, MaxSeen, NoEmptyList, Capacity, Requeueing, CutAt;
      var invalids := CutPending(tx);
      Requeue(invalids);
      if NextNonce(virtual, ledger, tx.from) > tx.nonce {
        virtual := virtual[tx.from := tx.nonce];
      }
    }

    /** removeTx, for a transaction that is in the queue book. */
    method RemoveQueued(tx: Tx)
      requires Sound() && Inv() && Holds(queue.book, tx)
      modifies this`all, queue, queue.Repr
      ensures Sound() && Inv() && queue.Repr == old(queue.Repr)
      ensures all == old(all) - {tx.hash}
      ensures queue.book == Trimmed(old(queue.book), tx.from, old(queue.book)[tx.from] - {tx.nonce})
    {
      hide AccountLists.Valid, IndexInv, NonceInv, MaxSeen, Capacity, Configured, Lost, NothingNew, Detached,
           Distinct, NoEmptyBut;
      ghost var q := queue.book;
      var a := tx.from;
      TrimUpdated(q, a, q[a] - {tx.nonce});
      NoEmptyAfter(q, a, q[a] - {tx.nonce});
      hide Trimmed, NoEmptyList;
      RemoveOneKeeps(pending.book, q, all, tx);
      ShrinkKeeps(all, {tx.hash}, wrapped);
      var removed, invalids := queue.Remove(tx);
      NothingDetached(q[a] - {tx.nonce}, queue.book[a]);
      all := all - {tx.hash};
      DropIfEmpty(a);
    }

    /** removeTx: forgets a known transaction, and requeues what its absence invalidates. */
    method RemoveTx(hash: Hash)
      requires Sound() && Inv()
      modifies this`all, this`virtual, pending, queue, pending.Repr, queue.Repr
      ensures Sound() && Inv() && pending.Repr == old(pending.Repr) && fresh(queue.Repr - old(queue.Repr))
      ensures all == old(all) - {hash}
      ensures hash in old(all) ==>
                var t := old(all)[hash];
                if Taken(old(pending.book), t.from, t.nonce)
                then old(pending.book)[t.from][t.nonce] == t && CutAt(old(pending.book), pending.book, t) &&
                     virtual == LowerTo(old(virtual), t.from, t.nonce)
                else Holds(old(queue.book), t) && pending.book == old(pending.book) && virtual == old(virtual) &&
                     queue.book == Trimmed(old(queue.book), t.from, old(queue.book)[t.from] - {t.nonce})
      ensures hash !in old(all) ==>
        pending.book == old(pending.book) && queue.book == old(queue.book) && virtual == old(virtual)
    {
      hide AccountLists.Valid, Core, NoEmptyList, CutAt, Trimmed;
      if hash !in all { return; }
      var tx := all[hash];
      assert tx.hash == hash && Knows(all, tx) && IndexInv(pending.book, queue.book, all, {}) by { KnownHash(); }
      RemovalIsExact(pending.book, queue.book, all, tx);
      hide IndexInv;
      var isPending := pending.Has(tx.from, tx.nonce);
      if isPending {
        RemovePending(tx);
      } else {
        RemoveQueued(tx);
      }
    }

    lemma KnownHash()
      requires Core()
      ensures IndexInv(pending.book, queue.book, all, {})
      ensures forall h :: h in all ==> all[h].hash == h
    {
    }
  }

  lemma NothingMade(virtual: map<Address, Nonce>, p: Book)
    ensures NewOnlyPending(virtual, virtual, p)
  {
  }

  lemma NextSame(virtual: map<Address, Nonce>, ledger: Ledger, a: Address)
    ensures NextSameBut(virtual, virtual, ledger, a)
  {
  }

  lemma TrimmedList(q: Book, a: Address)
    requires a in q
    ensures ListOf(Trimmed(q, a, q[a]), a) == ListOf(q, a)
  {
  }

  lemma NothingLeft(q: Book, q': Book, virtual: map<Address, Nonce>, ledger: Ledger, a: Address)
    requires a in q && forall n :: n in q[a] ==> NextNonce(virtual, ledger, a) < n && NonceAt(ledger, a) <= n
    requires forall n :: Taken(q', a, n) ==> n in q[a]
    ensures Exhausted(q', virtual, ledger, a) && NoneStale(q', ledger, a)
  {
  }

  lemma NothingGone(before: TxMap, gone: seq<Tx>, after: TxMap)
    requires Detached(before, gone, after) && |after| == |before|
    ensures after == before
  {
  }

  /** Whatever is forwarded or taken off comes from the list. */
  lemma NothingStale(q: Book, q': Book, gone: seq<Tx>, ledger: Ledger, a: Address)
    requires a in q && a in q' && q' == q[a := q'[a]] && Peeled(q[a], gone, q'[a]) && NoneStale(q, ledger, a)
    requires forall t :: t in gone ==> t.nonce < NonceAt(ledger, a)
    ensures q' == q
  {
    if gone != [] {
      assert Taken(q, a, gone[0].nonce);
      assert false;
    }
    NothingGone(q[a], gone, q'[a]);
  }

  lemma NothingReady(q: Book, q': Book, ready: seq<Tx>, virtual: map<Address, Nonce>, ledger: Ledger, a: Address)
    requires a in q && a in q' && q' == q[a := q'[a]] && Peeled(q[a], ready, q'[a])
    requires Exhausted(q, virtual, ledger, a)
    requires ready != [] ==> ready[0].nonce <= NextNonce(virtual, ledger, a)
    ensures q' == q
  {
    if ready != [] {
      assert ready[0] in ready && Taken(q, a, ready[0].nonce);
      assert false;
    }
    NothingGone(q[a], ready, q'[a]);
  }

  lemma QueueShrinks(q: Book, q': Book, gone: seq<Tx>, a: Address)
    requires a in q && a in q' && q' == q[a := q'[a]] && Peeled(q[a], gone, q'[a])
    ensures Grown(q', q) && forall n :: n in q'[a] ==> n in q[a]
  {
  }

  lemma AllStays(b: Book)
    ensures Grown(b, b)
  {
  }

  lemma SameOverCap(q: Book, q': Book, a: Address, cap: nat)
    requires ListOf(q', a) == ListOf(q, a)
    ensures forall t :: OverCap(q, a, cap, t) ==> OverCap(q', a, cap, t)
  {
  }

  lemma Requeued(p: Book, q: Book, all: Index, txs: seq<Tx>)
    requires Requeueing(p, q, all, txs, |txs|)
    ensures IndexInv(p, q, all, {}) && NoEmptyList(q)
  {
    assert SetOf(txs[|txs|..]) == {};
  }
}
