/** Keeping the pool within its limits: fair trimming of pending lists, dropping of queues. */
module Eviction {
  import opened Basics
  import opened Transactions
  import opened TxLists
  import opened PoolState
  import opened Accounts
  import opened TxPools
  import opened Prques

  /** `m` is a low part of `whole`. */
  ghost predicate LowPart(m: TxMap, whole: TxMap) {
    && (forall n :: n in m ==> n in whole && m[n] == whole[n])
    && (forall n, k :: n in m && k in whole && k !in m ==> n < k)
  }

  /** The sum of the list lengths. */
  method CountTxs(lists: AccountLists) returns (total: nat)
    requires lists.Valid()
    ensures total == Count(lists.book)
  {
    hide AccountLists.Valid, Count, Uncounted;
    var accounts := lists.Accounts();
    total := 0;
    ghost var rest := lists.book;
    CountingStarts(lists.book, accounts);
    for i := 0 to |accounts|
      invariant Uncounted(lists.book, accounts, i, rest)
      invariant total + Count(rest) == Count(lists.book)
    {
      var a := accounts[i];
      CountNext(lists.book, accounts, i, rest);
      var n := lists.Len(a);
      total := total + n;
      rest := rest - {a};
    }
    CountingEnds(lists.book, accounts, rest);
  }

  /** `rest` holds the lists of the accounts from position `i` on. */
  ghost predicate Uncounted(b: Book, accounts: seq<Address>, i: nat, rest: Book) {
    && i <= |accounts|
    && DistinctAccounts(accounts)
    && (forall a :: a in accounts <==> a in b)
    && (forall a :: a in rest <==> a in b && a !in accounts[..i])
    && (forall a :: a in rest ==> rest[a] == b[a])
  }

  lemma CountingStarts(b: Book, accounts: seq<Address>)
    requires DistinctAccounts(accounts) && forall a :: a in accounts <==> a in b
    ensures Uncounted(b, accounts, 0, b)
  {
  }

  lemma CountNext(b: Book, accounts: seq<Address>, i: nat, rest: Book)
    requires Uncounted(b, accounts, i, rest) && i < |accounts|
    ensures accounts[i] in b
    ensures Uncounted(b, accounts, i + 1, rest - {accounts[i]})
    ensures Count(rest) == |b[accounts[i]]| + Count(rest - {accounts[i]})
  {
    var a := accounts[i];
    PrefixGrows(accounts, i);
    CountPick(rest, a);
  }

  lemma PrefixGrows(s: seq<Address>, i: nat)
    requires i < |s| && DistinctAccounts(s)
    ensures s[i] in s && s[i] !in s[..i]
    ensures forall a :: a in s[..i + 1] <==> a in s[..i] || a == s[i]
  {
    assert s[..i + 1] == s[..i] + [s[i]];
  }

  lemma CountingEnds(b: Book, accounts: seq<Address>, rest: Book)
    requires Uncounted(b, accounts, |accounts|, rest)
    ensures Count(rest) == 0
  {
    assert accounts[..|accounts|] == accounts;
    assert rest == map[];
  }

  /** Dropping the top transaction of account `a` keeps everything in order. */
  lemma DropTopKeeps(p: Book, q: Book, all: Index, virtual: map<Address, Nonce>, ledger: Ledger, wrapped: set<Address>,
                     a: Address, t: Tx, after: TxMap)
    requires IndexInv(p, q, all, {}) && NonceInv(p, virtual, ledger, wrapped) && NoEmptyList(q)
    requires a in p && Capped(p[a], [t], after) && after != map[]
    ensures a in virtual && t.from == a
    ensures IndexInv(p[a := after], q, all - {t.hash}, {})
    ensures NonceInv(p[a := after], LowerTo(virtual, a, t.nonce), ledger, wrapped)
    ensures forall u :: Lost(all, all - {t.hash}, u) <==> u == t
  {
    TopIsHeld(p, a, t, after);
    assert SetOf([]) == {};
    hide IndexInv, NonceInv, NoEmptyList, Capped;
    CutKeeps(p, q, all, virtual, ledger, wrapped, t, [], after);
    Requeued(p[a := after], q, all - {t.hash}, []);
    IndexInvSwap(p, q, all, {});
    RemoveOneKeeps(q, p, all, t);
  }

  lemma TopIsHeld(p: Book, a: Address, t: Tx, after: TxMap)
    requires Filed(p) && a in p && Capped(p[a], [t], after)
    ensures Holds(p, t) && t.from == a
    ensures Detached(p[a] - {t.nonce}, [], after)
    ensures forall n :: n in after ==> n < t.nonce
    ensures LowPart(after, p[a])
  {
    assert t in [t];
    assert Taken(p, a, t.nonce);
    var m := p[a];
    assert (m - {t.nonce}).Keys == m.Keys - {t.nonce};
    assert forall u :: u in [t] <==> u == t;
    forall n | n in m - {t.nonce} ensures n in after {
      assert m[n].nonce == n;
    }
  }

  lemma LowPartStarts(m: TxMap, whole: TxMap, l: Nonce)
    requires LowPart(m, whole) && m != map[] && StartsAt(whole, l)
    ensures StartsAt(m, l)
  {
    var n :| n in m;
    assert l in m;
  }

  /** Drops the highest pending transaction of `a` and lowers the virtual nonce to it. */
  method DropTop(pool: TxPool, a: Address)
    requires pool.Sound() && pool.Inv() && a in pool.pending.book && |pool.pending.book[a]| >= 2
    modifies pool`all, pool`virtual, pool.pending`book, pool.pending.Repr
    ensures NextLowered(old(pool.virtual), pool.virtual, pool.ledger)
    ensures pool.Sound() && pool.Inv()
    ensures a in pool.pending.book && pool.pending.book == old(pool.pending.book)[a := pool.pending.book[a]]
    ensures |pool.pending.book[a]| == |old(pool.pending.book)[a]| - 1
    ensures LowPart(pool.pending.book[a], old(pool.pending.book)[a])
    ensures NothingNew(old(pool.all), pool.all)
    ensures forall t :: Lost(old(pool.all), pool.all, t) ==> t.from == a
  {
    hide AccountLists.Valid, IndexInv, NonceInv, MaxSeen, NoEmptyList, Lost, NothingNew, LowPart, LowerTo, Capped,
         NextLowered;
    ghost var p := pool.pending.book;
    var n := pool.pending.Len(a);
    var drops := pool.pending.Cap(a, n - 1);
    ghost var m := pool.pending.book[a];
    OneDrop(p, pool.queue.book, pool.all, a, drops, m);
    var tx := drops[0];
    DropTopKeeps(p, pool.queue.book, pool.all, pool.virtual, pool.ledger, pool.wrapped, a, tx, m);
    ShrinkKeeps(pool.all, {tx.hash}, pool.wrapped);
    LoweredNonce(pool.virtual, pool.ledger, a, tx.nonce);
    pool.all := pool.all - {tx.hash};
    if NextNonce(pool.virtual, pool.ledger, a) > tx.nonce {
      pool.virtual := pool.virtual[a := tx.nonce];
    }
  }

  lemma LoweredNonce(virtual: map<Address, Nonce>, ledger: Ledger, a: Address, n: Nonce)
    requires a in virtual
    ensures LowerTo(virtual, a, n) == if NextNonce(virtual, ledger, a) > n then virtual[a := n] else virtual
    ensures NextLowered(virtual, LowerTo(virtual, a, n), ledger)
  {
  }

  lemma OneDrop(p: Book, q: Book, all: Index, a: Address, drops: seq<Tx>, after: TxMap)
    requires IndexInv(p, q, all, {}) && a in p && Capped(p[a], drops, after)
    requires |p[a]| >= 2 && |after| == |p[a]| - 1
    ensures |drops| == 1 && drops == [drops[0]] && Capped(p[a], [drops[0]], after) && after != map[]
    ensures LowPart(after, p[a])
  {
    assert |drops| == 1 && drops == [drops[0]];
    hide Capped, LowPart, Detached, Holds;
    TopIsHeld(p, a, drops[0], after);
  }

  // ---------- Pending: trimming high rollers ----------

  /** The lists of `accounts` have each lost their top transaction; the other lists are as before. */
  ghost predicate CutEach(before: Book, after: Book, accounts: seq<Address>) {
    && after.Keys == before.Keys
    && (forall a :: a in before && a !in accounts ==> after[a] == before[a])
    && (forall a :: a in before && a in accounts ==> |after[a]| == |before[a]| - 1)
  }

  ghost predicate DistinctAccounts(s: seq<Address>) {
    forall i, j :: 0 <= i < j < |s| ==> s[i] != s[j]
  }

  /** One equalisation round: each of `accounts` loses its top transaction. */
  method CutRound(pool: TxPool, accounts: seq<Address>)
    requires pool.Sound() && pool.Inv() && DistinctAccounts(accounts)
    requires forall a :: a in accounts ==> a in pool.pending.book && |pool.pending.book[a]| >= 2
    modifies pool`all, pool`virtual, pool.pending`book, pool.pending.Repr
    ensures NextLowered(old(pool.virtual), pool.virtual, pool.ledger)
    ensures pool.Sound() && pool.Inv()
    ensures CutEach(old(pool.pending.book), pool.pending.book, accounts)
    ensures Count(pool.pending.book) == Count(old(pool.pending.book)) - |accounts|
    ensures LowParts(pool.pending.book, old(pool.pending.book))
    ensures NothingNew(old(pool.all), pool.all)
    ensures forall t :: Lost(old(pool.all), pool.all, t) ==> t.from in accounts
  {
    hide AccountLists.Valid, TxPool.Inv, Lost, NothingNew, LowPart, LowParts, CutEach, Count, NextLowered;
    NextNotLowered(pool.virtual, pool.ledger);
    CutStarts(pool.pending.book, pool.all);
    for i := 0 to |accounts|
      invariant pool.Sound() && pool.Inv() && NextLowered(old(pool.virtual), pool.virtual, pool.ledger)
      invariant CutEach(old(pool.pending.book), pool.pending.book, accounts[..i])
      invariant Count(pool.pending.book) == Count(old(pool.pending.book)) - i
      invariant LowParts(pool.pending.book, old(pool.pending.book))
      invariant NothingNew(old(pool.all), pool.all)
      invariant forall t :: Lost(old(pool.all), pool.all, t) ==> t.from in accounts[..i]
    {
      ghost var p, known, v := pool.pending.book, pool.all, pool.virtual;
      var a := accounts[i];
      CutNext(old(pool.pending.book), p, accounts, i);
      DropTop(pool, a);
      CutOne(old(pool.pending.book), p, accounts, i, pool.pending.book[a]);
      LostOverTwo(old(pool.all), known, pool.all);
      NextLoweredTwo(old(pool.virtual), v, pool.virtual, pool.ledger);
      assert accounts[..i + 1] == accounts[..i] + [a];
    }
    assert accounts[..|accounts|] == accounts;
  }

  ghost predicate LowParts(after: Book, before: Book) {
    forall a :: a in after ==> a in before && LowPart(after[a], before[a])
  }

  lemma CutStarts(p: Book, all: Index)
    ensures CutEach(p, p, []) && LowParts(p, p)
    ensures NothingNew(all, all) && forall t :: !Lost(all, all, t)
  {
  }

  lemma CutNext(before: Book, p: Book, accounts: seq<Address>, i: nat)
    requires i < |accounts| && DistinctAccounts(accounts) && CutEach(before, p, accounts[..i])
    requires accounts[i] in before
    ensures accounts[i] in p && p[accounts[i]] == before[accounts[i]]
  {
    assert accounts[i] !in accounts[..i];
  }

  lemma CutOne(before: Book, p: Book, accounts: seq<Address>, i: nat, m: TxMap)
    requires i < |accounts| && DistinctAccounts(accounts) && CutEach(before, p, accounts[..i]) && LowParts(p, before)
    requires accounts[i] in p && |m| == |p[accounts[i]]| - 1 && LowPart(m, p[accounts[i]])
    requires p[accounts[i]] == before[accounts[i]]
    ensures CutEach(before, p[accounts[i] := m], accounts[..i + 1])
    ensures LowParts(p[accounts[i] := m], before)
    ensures Count(p[accounts[i] := m]) == Count(p) - 1
  {
    var a := accounts[i];
    CountTrimmed(p, a, m);
    hide Count, Trimmed, LowPart, CutEach, LowParts;
    assert accounts[..i + 1] == accounts[..i] + [a];
    CutMore(before, p, accounts[..i], a, m);
    LowerOne(before, p, a, m);
  }

  lemma LowerOne(before: Book, p: Book, a: Address, m: TxMap)
    requires LowParts(p, before) && a in before && LowPart(m, before[a])
    ensures LowParts(p[a := m], before)
  {
  }

  lemma CutMore(before: Book, p: Book, done: seq<Address>, a: Address, m: TxMap)
    requires CutEach(before, p, done) && a in before && p[a] == before[a] && |m| == |before[a]| - 1
    ensures CutEach(before, p[a := m], done + [a])
  {
    assert forall b :: b in done + [a] <==> b in done || b == a;
  }

  lemma LowPartsTwice(first: Book, second: Book, third: Book)
    requires LowParts(second, first) && LowParts(third, second)
    ensures LowParts(third, first)
  {
    forall a | a in third ensures a in first && LowPart(third[a], first[a]) {
      LowPartTwice(third[a], second[a], first[a]);
    }
  }

  lemma LowPartTwice(m: TxMap, mid: TxMap, whole: TxMap)
    requires LowPart(m, mid) && LowPart(mid, whole)
    ensures LowPart(m, whole)
  {
  }

  /** An account that was trimmed is left at least as long as every other remote account. */
  ghost predicate Fair(p0: Book, p: Book, locals: set<Address>) {
    forall a, b :: a in p && a in p0 && p[a] != p0[a] && b in p && b !in locals ==> |p[b]| <= |p[a]|
  }

  /** Local accounts are not trimmed, and nobody is trimmed below the guaranteed slots. */
  ghost predicate Spared(p0: Book, p: Book, locals: set<Address>, slots: nat) {
    forall a :: a in p && a in p0 && p[a] != p0[a] ==> a !in locals && slots <= |p[a]|
  }

  ghost predicate WithinSlots(p: Book, locals: set<Address>, slots: nat) {
    forall a :: a in p && a !in locals ==> |p[a]| <= slots
  }

  /** The book `p` part way through trimming `p0`: `offenders` have been taken off the heap `spam`. */
  ghost predicate Trimming(p0: Book, p: Book, locals: set<Address>, slots: nat, offenders: seq<Address>,
                           spam: set<Address>) {
    && p.Keys == p0.Keys
    && DistinctAccounts(offenders)
    && (forall o :: o in offenders ==> o in p && o !in locals && o !in spam && slots <= |p[o]|)
    && (forall s :: s in spam ==> s in p && s !in locals && slots < |p[s]|)
    && (forall s, o :: s in spam && o in offenders ==> |p[s]| <= |p[o]|)
    && (forall a :: a in p && a !in offenders ==> p[a] == p0[a])
    && (forall a :: a in p && a !in offenders && a !in spam && a !in locals ==> |p[a]| <= slots)
  }

  /** The first `k` offenders are level, at `len`. */
  ghost predicate Level(p: Book, offenders: seq<Address>, k: nat, len: nat) {
    k <= |offenders| && forall i :: 0 <= i < k ==> offenders[i] in p && |p[offenders[i]]| == len
  }

  lemma TrimmingIsFair(p0: Book, p: Book, locals: set<Address>, slots: nat, offenders: seq<Address>, spam: set<Address>,
                       k: nat, len: nat)
    requires Trimming(p0, p, locals, slots, offenders, spam) && Level(p, offenders, k, len)
    requires
      || k == |offenders|
      || (k == |offenders| - 1 && p[offenders[k]] == p0[offenders[k]] && |p[offenders[k]]| <= len)
    ensures Fair(p0, p, locals) && Spared(p0, p, locals, slots)
  {
    forall a, b | a in p && a in p0 && p[a] != p0[a] && b in p && b !in locals ensures |p[b]| <= |p[a]| {
      assert a in offenders;
      var i :| 0 <= i < |offenders| && offenders[i] == a;
      assert i < k;
      if b in offenders {
        var j :| 0 <= j < |offenders| && offenders[j] == b;
      }
    }
  }

  /** The longest spammer becomes the next offender. */
  lemma NextOffender(p0: Book, p: Book, locals: set<Address>, slots: nat, offenders: seq<Address>, spam: set<Address>,
                     len: nat, o: Address)
    requires Trimming(p0, p, locals, slots, offenders, spam) && Level(p, offenders, |offenders|, len)
    requires o in spam && forall s :: s in spam ==> |p[s]| <= |p[o]|
    ensures Trimming(p0, p, locals, slots, offenders + [o], spam - {o})
    ensures Level(p, offenders + [o], |offenders|, len)
    ensures offenders != [] ==> |p[o]| <= len
    ensures p[o] == p0[o]
  {
    assert forall a :: a in offenders + [o] <==> a in offenders || a == o;
    if offenders != [] {
      assert offenders[0] in offenders;
    }
  }

  /** A round over the first `k` offenders, all longer than the floor. */
  lemma RoundKeepsTrimming(p0: Book, p: Book, p': Book, locals: set<Address>, slots: nat,
                           offenders: seq<Address>, spam: set<Address>, k: nat, len: nat)
    requires Trimming(p0, p, locals, slots, offenders, spam) && Level(p, offenders, k, len) && k <= |offenders|
    requires CutEach(p, p', offenders[..k]) && slots < len
    requires forall s :: s in spam ==> |p[s]| < len
    ensures Trimming(p0, p', locals, slots, offenders, spam) && Level(p', offenders, k, len - 1)
    ensures forall i :: k <= i < |offenders| ==> offenders[i] in p && p'[offenders[i]] == p[offenders[i]]
  {
    forall i | 0 <= i < |offenders| ensures offenders[i] in offenders[..k] <==> i < k {
      if i < k { assert offenders[..k][i] == offenders[i]; }
    }
  }

  /** The heap `s` holds exactly the accounts `spam`, ranked by the length of their lists. */
  ghost predicate Ranks(s: seq<Item<Address>>, spam: set<Address>, p: Book) {
    && (forall a :: a in spam ==> a in p && |p[a]| < TWO_63)
    && forall x :: multiset(s)[x] == if x.value in spam && x.priority == |p[x.value]| then 1 else 0
  }

  lemma RanksMembers(s: seq<Item<Address>>, spam: set<Address>, p: Book)
    requires Ranks(s, spam, p)
    ensures forall x :: x in s ==> x.value in spam && x.priority == |p[x.value]|
    ensures forall a :: a in spam ==> Item(a, |p[a]|) in s
    ensures s == [] <==> spam == {}
  {
    forall x | x in s ensures x.value in spam && x.priority == |p[x.value]| {
      assert multiset(s)[x] > 0;
    }
    forall a | a in spam ensures Item(a, |p[a]|) in s {
      assert multiset(s)[Item(a, |p[a]|)] == 1;
    }
    if s != [] { assert s[0] in s; }
  }

  /** Taking a top item off the heap. */
  lemma RanksPop(s: seq<Item<Address>>, s': seq<Item<Address>>, spam: set<Address>, p: Book, o: Address,
                 priority: int64)
    requires Ranks(s, spam, p) && multiset(s) == multiset(s') + multiset{Item(o, priority)}
    requires forall x :: x in s ==> x.priority <= priority
    ensures o in spam && (forall a :: a in spam ==> |p[a]| <= |p[o]|)
    ensures Ranks(s', spam - {o}, p)
  {
    RanksMembers(s, spam, p);
    var top := Item(o, priority);
    assert multiset(s)[top] > 0;
    assert top in s;
    forall a | a in spam ensures |p[a]| <= |p[o]| {
      assert Item(a, |p[a]|) in s;
    }
    forall x ensures multiset(s')[x] == if x.value in spam - {o} && x.priority == |p[x.value]| then 1 else 0 {
      assert multiset(s)[x] == multiset(s')[x] + multiset{top}[x];
    }
  }

  lemma RanksPush(s: seq<Item<Address>>, s': seq<Item<Address>>, spam: set<Address>, p: Book, a: Address)
    requires Ranks(s, spam, p) && a in p && a !in spam && |p[a]| < TWO_63
    requires multiset(s') == multiset(s) + multiset{Item(a, |p[a]|)}
    ensures Ranks(s', spam + {a}, p)
  {
    forall x ensures multiset(s')[x] == if x.value in spam + {a} && x.priority == |p[x.value]| then 1 else 0 {
      assert multiset(s')[x] == multiset(s)[x] + multiset{Item(a, |p[a]|)}[x];
    }
  }

  lemma RanksClose(s: seq<Item<Address>>, spam: set<Address>, p: Book, x: Item<Address>)
    requires Ranks(s, spam, p) && x.priority >= 0
    ensures Close(s + [x])
  {
    RanksMembers(s, spam, p);
    var t := s + [x];
    forall i | 0 <= i < |t| ensures 0 <= t[i].priority {
      if i < |s| { assert t[i] in s; }
    }
  }

  ghost function Spammers(p: Book, locals: set<Address>, slots: nat): set<Address> {
    set a | a in p && a !in locals && |p[a]| > slots
  }

  method PushSpammer(spammers: Prque<Address>, a: Address, n: nat, ghost spam: set<Address>, ghost p: Book)
    requires spammers.Valid() && Ranks(spammers.Items(), spam, p)
    requires a in p && a !in spam && n == |p[a]| < TWO_63
    modifies spammers.cont, spammers.cont.blocks
    ensures spammers.Valid() && Ranks(spammers.Items(), spam + {a}, p)
    ensures forall i :: 0 <= i < |spammers.cont.blocks| ==>
              spammers.cont.blocks[i] in old(spammers.cont.blocks) || fresh(spammers.cont.blocks[i])
  {
    hide Prque.Valid, Prque.Items, Close, Ranks;
    ghost var s := spammers.Items();
    RanksClose(s, spam, p, Item(a, n));
    spammers.Push(a, n);
    RanksPush(s, spammers.Items(), spam, p, a);
  }

  /** The remote accounts with more than their guaranteed slots, longest first. */
  method GatherSpammers(pool: TxPool) returns (spammers: Prque<Address>)
    requires pool.Sound() && pool.Inv()
    ensures spammers.Valid() && fresh(spammers.cont) && fresh(spammers.cont.blocks)
    ensures Ranks(spammers.Items(), Spammers(pool.pending.book, pool.locals, pool.accountSlots), pool.pending.book)
  {
    hide AccountLists.Valid, Prque.Valid, Prque.Items, IndexInv, NonceInv, MaxSeen, NoEmptyList, Close, Ranks;
    forall a | a in pool.pending.book ensures |pool.pending.book[a]| < TWO_63 {
      ListFits(pool.pending.book, pool.queue.book, pool.all, a);
    }
    hide TxPool.Inv, TxPool.Core;
    spammers := new Prque<Address>();
    NoneRanked(pool.pending.book);
    ghost var spam: set<Address> := {};
    var accounts := pool.pending.Accounts();
    for i := 0 to |accounts|
      invariant spammers.Valid() && fresh(spammers.cont) && fresh(spammers.cont.blocks)
      invariant Ranks(spammers.Items(), spam, pool.pending.book)
      invariant SpamSoFar(spam, pool.pending.book, pool.locals, pool.accountSlots, accounts, i)
    {
      var a := accounts[i];
      SpamGrows(spam, pool.pending.book, pool.locals, pool.accountSlots, accounts, i);
      var n := pool.pending.Len(a);
      if a !in pool.locals && n > pool.accountSlots {
        PushSpammer(spammers, a, n, spam, pool.pending.book);
        spam := spam + {a};
      }
    }
    assert spam == Spammers(pool.pending.book, pool.locals, pool.accountSlots);
  }

  ghost predicate SpamSoFar(spam: set<Address>, p: Book, locals: set<Address>, slots: nat, accounts: seq<Address>,
                            i: nat) {
    && i <= |accounts|
    && DistinctAccounts(accounts)
    && (forall a :: a in accounts ==> a in p)
    && (forall a :: a in spam <==> a in Spammers(p, locals, slots) && a in accounts[..i])
  }

  lemma SpamGrows(spam: set<Address>, p: Book, locals: set<Address>, slots: nat, accounts: seq<Address>, i: nat)
    requires SpamSoFar(spam, p, locals, slots, accounts, i) && i < |accounts|
    ensures accounts[i] in p && accounts[i] !in spam
    ensures SpamSoFar(if accounts[i] in Spammers(p, locals, slots) then spam + {accounts[i]} else spam,
                      p, locals, slots, accounts, i + 1)
  {
    var a := accounts[i];
    assert a in accounts && a !in accounts[..i];
    assert accounts[..i + 1] == accounts[..i] + [a];
  }

  lemma NoneRanked(p: Book)
    ensures Ranks([], {}, p)
  {
  }

  /** The first `k` offenders are being cut from the book `p1` down to `floor`, and stand at `len`. */
  ghost predicate Cutting(p0: Book, p1: Book, p: Book, locals: set<Address>, slots: nat,
                          offenders: seq<Address>, spam: set<Address>, k: nat, floor: nat, len: nat) {
    && Trimming(p0, p, locals, slots, offenders, spam)
    && LowParts(p, p0)
    && 0 < k <= |offenders| && Level(p, offenders, k, len)
    && slots <= floor <= len
    && (forall s :: s in spam ==> s in p && |p[s]| <= floor)
    && (forall a :: a in p1 && a !in offenders[..k] ==> a in p && p[a] == p1[a])
  }

  lemma CutFurther(p0: Book, p1: Book, p: Book, p': Book, locals: set<Address>, slots: nat,
                   offenders: seq<Address>, spam: set<Address>, k: nat, floor: nat, len: nat)
    requires Cutting(p0, p1, p, locals, slots, offenders, spam, k, floor, len) && floor < len
    requires CutEach(p, p', offenders[..k]) && LowParts(p', p)
    ensures Cutting(p0, p1, p', locals, slots, offenders, spam, k, floor, len - 1)
  {
    hide LowParts, Trimming, Level;
    RoundKeepsTrimming(p0, p, p', locals, slots, offenders, spam, k, len);
    LowPartsTwice(p0, p, p');
    assert forall s :: s in spam ==> s in p' && p'[s] == p[s] by {
      SpamUntouched(p0, p, locals, slots, offenders, spam, k);
    }
  }

  lemma SpamUntouched(p0: Book, p: Book, locals: set<Address>, slots: nat, offenders: seq<Address>,
                      spam: set<Address>, k: nat)
    requires Trimming(p0, p, locals, slots, offenders, spam) && k <= |offenders|
    ensures forall s :: s in spam ==> s in p && s !in offenders[..k]
  {
    assert forall o :: o in offenders[..k] ==> o in offenders && o !in spam;
  }

  /**
   Cuts the first `k` offenders, all level at `len`, round by round until the pool fits or
   they are down to `floor`.
   */
  method CutDown(pool: TxPool, offenders: seq<Address>, k: nat, floor: nat, total: nat,
                 ghost p0: Book, ghost spam: set<Address>, ghost len: nat)
    returns (left: nat, ghost len': nat)
    requires pool.Sound() && pool.Inv() && total == Count(pool.pending.book)
    requires Cutting(p0, pool.pending.book, pool.pending.book, pool.locals, pool.accountSlots, offenders, spam, k,
                     floor, len)
    modifies pool`all, pool`virtual, pool.pending`book, pool.pending.Repr
    ensures NextLowered(old(pool.virtual), pool.virtual, pool.ledger)
    ensures pool.Sound() && pool.Inv() && left == Count(pool.pending.book)
    ensures Cutting(p0, old(pool.pending.book), pool.pending.book, pool.locals, pool.accountSlots, offenders, spam,
                    k, floor, len')
    ensures left <= pool.globalSlots || len' == floor
    ensures total > pool.globalSlots ==> left + k > pool.globalSlots
    ensures NothingNew(old(pool.all), pool.all)
    ensures forall t :: Lost(old(pool.all), pool.all, t) ==> t.from in offenders
  {
    hide AccountLists.Valid, TxPool.Inv, Cutting, LowParts, CutEach, Lost, NothingNew, Count, NextLowered;
    NextNotLowered(pool.virtual, pool.ledger);
    SlotGuaranteed(pool);
    left, len' := total, len;
    NothingLost(pool.all);
    CuttingFacts(p0, old(pool.pending.book), pool.pending.book, pool.locals, pool.accountSlots, offenders, spam, k,
                 floor, len');
    var n := FrontLength(pool, offenders, k, len);
    while left > pool.globalSlots && n > floor
      invariant pool.Sound() && pool.Inv() && left == Count(pool.pending.book)
      invariant NextLowered(old(pool.virtual), pool.virtual, pool.ledger)
      invariant Cutting(p0, old(pool.pending.book), pool.pending.book, pool.locals, pool.accountSlots, offenders,
                        spam, k, floor, len')
      invariant n == len' && floor <= len' && (total > pool.globalSlots ==> left + k > pool.globalSlots)
      invariant NothingNew(old(pool.all), pool.all)
      invariant forall t :: Lost(old(pool.all), pool.all, t) ==> t.from in offenders
      decreases len'
    {
      ghost var p, known, v := pool.pending.book, pool.all, pool.virtual;
      CuttingFacts(p0, old(pool.pending.book), p, pool.locals, pool.accountSlots, offenders, spam, k, floor, len');
      CutRound(pool, offenders[..k]);
      CutFurther(p0, old(pool.pending.book), p, pool.pending.book, pool.locals, pool.accountSlots, offenders, spam,
                 k, floor, len');
      LostOverTwo(old(pool.all), known, pool.all);
      NextLoweredTwo(old(pool.virtual), v, pool.virtual, pool.ledger);
      left := left - k;
      len' := len' - 1;
      CuttingFacts(p0, old(pool.pending.book), pool.pending.book, pool.locals, pool.accountSlots, offenders, spam, k,
                   floor, len');
      n := FrontLength(pool, offenders, k, len');
    }
  }

  lemma CuttingFacts(p0: Book, p1: Book, p: Book, locals: set<Address>, slots: nat,
                     offenders: seq<Address>, spam: set<Address>, k: nat, floor: nat, len: nat)
    requires Cutting(p0, p1, p, locals, slots, offenders, spam, k, floor, len)
    ensures 0 < k <= |offenders| && Level(p, offenders, k, len) && slots <= floor <= len
    ensures DistinctAccounts(offenders[..k])
    ensures len >= 2 ==> forall a :: a in offenders[..k] ==> a in p && |p[a]| >= 2
  {
  }

  /** The length the loops test: that of the last offender in the round. */
  method FrontLength(pool: TxPool, offenders: seq<Address>, k: nat, ghost len: nat) returns (n: nat)
    requires pool.Sound() && 0 < k <= |offenders| && Level(pool.pending.book, offenders, k, len)
    ensures n == len
  {
    n := pool.pending.Len(offenders[k - 1]);
  }

  lemma SlotGuaranteed(pool: TxPool)
    requires pool.Inv()
    ensures pool.accountSlots >= 1
  {
  }

  /** All offenders are level at `len`. */
  ghost predicate Levelled(p0: Book, p: Book, locals: set<Address>, slots: nat,
                           offenders: seq<Address>, spam: set<Address>, len: nat) {
    && Trimming(p0, p, locals, slots, offenders, spam)
    && LowParts(p, p0)
    && Level(p, offenders, |offenders|, len)
  }

  /** A state in which eviction may stop. */
  ghost predicate Settled(p0: Book, p: Book, locals: set<Address>, slots: nat) {
    && p.Keys == p0.Keys
    && LowParts(p, p0)
    && Fair(p0, p, locals)
    && Spared(p0, p, locals, slots)
  }

  lemma LevelledIsSettled(p0: Book, p: Book, locals: set<Address>, slots: nat,
                          offenders: seq<Address>, spam: set<Address>, len: nat)
    requires Levelled(p0, p, locals, slots, offenders, spam, len)
    ensures Settled(p0, p, locals, slots)
  {
    TrimmingIsFair(p0, p, locals, slots, offenders, spam, |offenders|, len);
  }

  /** Levelling the earlier offenders with the new one `o`, which itself stays as it was. */
  lemma CutMeetsNext(p0: Book, p1: Book, p: Book, locals: set<Address>, slots: nat,
                     offenders: seq<Address>, spam: set<Address>, o: Address, len: nat)
    requires offenders != [] && o in p1 && o in p0 && p1[o] == p0[o] && o !in offenders
    requires Cutting(p0, p1, p, locals, slots, offenders + [o], spam, |offenders|, |p1[o]|, len)
    ensures Settled(p0, p, locals, slots)
    ensures len == |p1[o]| ==> Levelled(p0, p, locals, slots, offenders + [o], spam, len)
  {
    var all := offenders + [o];
    assert all[..|offenders|] == offenders;
    assert p[o] == p0[o];
    hide Trimming, LowParts, Fair, Spared;
    TrimmingIsFair(p0, p, locals, slots, all, spam, |offenders|, len);
    assert p.Keys == p0.Keys by { TrimmingKeys(p0, p, locals, slots, all, spam); }
  }

  lemma TrimmingKeys(p0: Book, p: Book, locals: set<Address>, slots: nat, offenders: seq<Address>, spam: set<Address>)
    requires Trimming(p0, p, locals, slots, offenders, spam)
    ensures p.Keys == p0.Keys
    ensures forall s :: s in spam ==> s in p && s !in offenders && p[s] == p0[s] && slots < |p[s]|
    ensures forall o :: o in offenders ==> o !in locals
  {
  }

  /** Adds the longest remaining spammer to the offenders and levels the others with it. */
  method EqualizeNext(pool: TxPool, offenders: seq<Address>, offender: Address, total: nat,
                      ghost p0: Book, ghost spam: set<Address>, ghost len: nat)
    returns (left: nat, ghost len': nat)
    requires pool.Sound() && pool.Inv() && total == Count(pool.pending.book)
    requires Levelled(p0, pool.pending.book, pool.locals, pool.accountSlots, offenders, spam, len)
    requires offender in spam
    requires forall s :: s in spam ==> s in pool.pending.book && |pool.pending.book[s]| <= |pool.pending.book[offender]|
    modifies pool`all, pool`virtual, pool.pending`book, pool.pending.Repr
    ensures NextLowered(old(pool.virtual), pool.virtual, pool.ledger)
    ensures pool.Sound() && pool.Inv() && left == Count(pool.pending.book)
    ensures Settled(p0, pool.pending.book, pool.locals, pool.accountSlots)
    ensures total > pool.globalSlots ==> left + |offenders| + 1 > pool.globalSlots
    ensures left > pool.globalSlots ==>
              Levelled(p0, pool.pending.book, pool.locals, pool.accountSlots, offenders + [offender],
                       spam - {offender}, len')
    ensures forall s :: s in spam ==> s in pool.pending.book && pool.pending.book[s] == old(pool.pending.book)[s]
    ensures NothingNew(old(pool.all), pool.all)
    ensures forall t :: Lost(old(pool.all), pool.all, t) ==> t.from !in pool.locals
  {
    hide AccountLists.Valid, TxPool.Inv, Trimming, LowParts, Count, Lost, NothingNew, Settled, Level, Cutting,
         NextLowered;
    NextNotLowered(pool.virtual, pool.ledger);
    ghost var p := pool.pending.book;
    NextOffender(p0, p, pool.locals, pool.accountSlots, offenders, spam, len, offender);
    TrimmingKeys(p0, p, pool.locals, pool.accountSlots, offenders, spam);
    NothingLost(pool.all);
    if offenders == [] {
      assert offenders + [offender] == [offender];
      FirstOffender(p0, p, pool.locals, pool.accountSlots, offender, spam - {offender});
      LevelledIsSettled(p0, p, pool.locals, pool.accountSlots, [offender], spam - {offender}, |p[offender]|);
      return total, |p[offender]|;
    }
    var threshold := pool.pending.Len(offender);
    CuttingStarts(p0, p, pool.locals, pool.accountSlots, offenders, spam - {offender}, offender, len);
    left, len' := CutDown(pool, offenders + [offender], |offenders|, threshold, total, p0, spam - {offender}, len);
    CutMeetsNext(p0, p, pool.pending.book, pool.locals, pool.accountSlots, offenders, spam - {offender}, offender,
                 len');
    CuttingRest(p0, p, pool.pending.book, pool.locals, pool.accountSlots, offenders, spam, offender, threshold, len');
  }

  lemma FirstOffender(p0: Book, p: Book, locals: set<Address>, slots: nat, o: Address, spam: set<Address>)
    requires Trimming(p0, p, locals, slots, [o], spam) && LowParts(p, p0)
    ensures Levelled(p0, p, locals, slots, [o], spam, |p[o]|)
  {
    assert o in [o];
  }

  lemma CuttingStarts(p0: Book, p: Book, locals: set<Address>, slots: nat,
                      offenders: seq<Address>, spam: set<Address>, o: Address, len: nat)
    requires Trimming(p0, p, locals, slots, offenders + [o], spam) && LowParts(p, p0) && offenders != []
    requires o in p && Level(p, offenders + [o], |offenders|, len) && |p[o]| <= len && slots <= |p[o]|
    requires forall s :: s in spam ==> s in p && |p[s]| <= |p[o]|
    ensures Cutting(p0, p, p, locals, slots, offenders + [o], spam, |offenders|, |p[o]|, len)
  {
  }

  lemma CuttingRest(p0: Book, p1: Book, p: Book, locals: set<Address>, slots: nat,
                    offenders: seq<Address>, spam: set<Address>, o: Address, floor: nat, len: nat)
    requires Cutting(p0, p1, p, locals, slots, offenders + [o], spam - {o}, |offenders|, floor, len)
    requires forall s :: s in spam ==> s in p1 && s !in offenders
    ensures forall s :: s in spam ==> s in p && p[s] == p1[s]
    ensures forall a :: a in offenders + [o] ==> a !in locals
  {
    assert (offenders + [o])[..|offenders|] == offenders;
  }

  /** Trims over-long pending lists, longest first and all together, until the pool fits. */
  method EvictPending(pool: TxPool)
    requires pool.Sound() && pool.Inv()
    modifies pool`all, pool`virtual, pool.pending`book, pool.pending.Repr
    ensures NextLowered(old(pool.virtual), pool.virtual, pool.ledger)
    ensures pool.Sound() && pool.Inv()
    ensures Settled(old(pool.pending.book), pool.pending.book, pool.locals, pool.accountSlots)
    ensures
      || Count(pool.pending.book) <= pool.globalSlots
      || WithinSlots(pool.pending.book, pool.locals, pool.accountSlots)
    ensures Count(old(pool.pending.book)) <= pool.globalSlots ==> pool.pending.book == old(pool.pending.book)
    ensures Count(old(pool.pending.book)) > pool.globalSlots ==>
              Count(pool.pending.book) + |Remote(pool.pending.book, pool.locals)| > pool.globalSlots
    ensures NothingNew(old(pool.all), pool.all)
    ensures forall t :: Lost(old(pool.all), pool.all, t) ==> t.from !in pool.locals
  {
    hide AccountLists.Valid, TxPool.Inv, Count, Lost, NothingNew, Levelled, Settled, WithinSlots, NextLowered, Remote;
    NextNotLowered(pool.virtual, pool.ledger);
    var total := CountTxs(pool.pending);
    NothingLost(pool.all);
    TrimmingStarts(pool.pending.book, pool.locals, pool.accountSlots);
    if total <= pool.globalSlots { return; }
    var offenders;
    ghost var spam, len;
    offenders, total, spam, len := EqualizeAll(pool, total);
    ghost var known, v := pool.all, pool.virtual;
    if total > pool.globalSlots {
      FloorAll(pool, offenders, total, old(pool.pending.book), spam, len);
      LostOverTwo(old(pool.all), known, pool.all);
      NextLoweredTwo(old(pool.virtual), v, pool.virtual, pool.ledger);
    }
    SameRemote(old(pool.pending.book), pool.pending.book, pool.locals, pool.accountSlots);
  }

  lemma SameRemote(p0: Book, p: Book, locals: set<Address>, slots: nat)
    requires Settled(p0, p, locals, slots)
    ensures Remote(p, locals) == Remote(p0, locals)
  {
    assert p.Keys == p0.Keys;
  }

  lemma TrimmingStarts(p: Book, locals: set<Address>, slots: nat)
    ensures Levelled(p, p, locals, slots, [], Spammers(p, locals, slots), 0) && Settled(p, p, locals, slots)
  {
  }

  ghost function Remote(p: Book, locals: set<Address>): set<Address> {
    set a | a in p && a !in locals
  }

  /** Offenders are remote accounts, each taken off the heap once. */
  ghost predicate Called(offenders: seq<Address>, spam: set<Address>, p0: Book, locals: set<Address>) {
    && DistinctAccounts(offenders)
    && (forall o :: o in offenders ==> o in p0 && o !in locals && o !in spam)
    && (forall s :: s in spam ==> s in p0 && s !in locals)
  }

  lemma NoneCalled(p: Book, locals: set<Address>, slots: nat)
    ensures Called([], Spammers(p, locals, slots), p, locals)
  {
  }

  lemma CallNext(offenders: seq<Address>, spam: set<Address>, p0: Book, locals: set<Address>, o: Address)
    requires Called(offenders, spam, p0, locals) && o in spam
    ensures Called(offenders + [o], spam - {o}, p0, locals)
  {
  }

  lemma {:induction false} CalledAreRemote(offenders: seq<Address>, spam: set<Address>, p0: Book, locals: set<Address>)
    requires Called(offenders, spam, p0, locals)
    ensures |offenders| <= |Remote(p0, locals)|
  {
    DistinctFit(offenders, Remote(p0, locals));
  }

  lemma {:induction false} DistinctFit(s: seq<Address>, r: set<Address>)
    requires DistinctAccounts(s) && forall a :: a in s ==> a in r
    ensures |s| <= |r|
  {
    if s != [] {
      var k := |s| - 1;
      assert forall a :: a in s[..k] ==> a in r - {s[k]} by {
        forall a | a in s[..k]
          ensures a in r - {s[k]}
        {
          var i :| 0 <= i < k && s[i] == a;
        }
      }
      DistinctFit(s[..k], r - {s[k]});
    }
  }

  /** First phase: level the offenders with ever shorter spammers. */
  method EqualizeAll(pool: TxPool, count: nat)
    returns (offenders: seq<Address>, total: nat, ghost spam: set<Address>, ghost len: nat)
    requires pool.Sound() && pool.Inv() && count == Count(pool.pending.book)
    modifies pool`all, pool`virtual, pool.pending`book, pool.pending.Repr
    ensures NextLowered(old(pool.virtual), pool.virtual, pool.ledger)
    ensures pool.Sound() && pool.Inv() && total == Count(pool.pending.book)
    ensures Settled(old(pool.pending.book), pool.pending.book, pool.locals, pool.accountSlots)
    ensures total > pool.globalSlots ==>
              && spam == {}
              && Levelled(old(pool.pending.book), pool.pending.book, pool.locals, pool.accountSlots, offenders, spam,
                          len)
    ensures NothingNew(old(pool.all), pool.all)
    ensures forall t :: Lost(old(pool.all), pool.all, t) ==> t.from !in pool.locals
    ensures count > pool.globalSlots ==> total + |Remote(old(pool.pending.book), pool.locals)| > pool.globalSlots
    ensures |offenders| <= |Remote(old(pool.pending.book), pool.locals)|
  {
    hide AccountLists.Valid, Prque.Valid, Prque.Items, Close, TxPool.Inv, Count, Lost, NothingNew,
         Levelled, Settled, Ranks, Spammers, NextLowered, Called, Remote;
    NextNotLowered(pool.virtual, pool.ledger);
    ghost var p0 := pool.pending.book;
    NothingLost(pool.all);
    TrimmingStarts(p0, pool.locals, pool.accountSlots);
    var spammers := GatherSpammers(pool);
    offenders, total, spam, len := [], count, Spammers(p0, pool.locals, pool.accountSlots), 0;
    NoneCalled(p0, pool.locals, pool.accountSlots);
    while true
      invariant Called(offenders, spam, p0, pool.locals)
      invariant count > pool.globalSlots ==> total + |offenders| > pool.globalSlots
      invariant pool.Sound() && pool.Inv() && total == Count(pool.pending.book)
      invariant NextLowered(old(pool.virtual), pool.virtual, pool.ledger)
      invariant spammers.Valid() && fresh(spammers.cont) && fresh(spammers.cont.blocks)
      invariant Ranks(spammers.Items(), spam, pool.pending.book)
      invariant Settled(p0, pool.pending.book, pool.locals, pool.accountSlots)
      invariant total > pool.globalSlots ==>
        Levelled(p0, pool.pending.book, pool.locals, pool.accountSlots, offenders, spam, len)
      invariant NothingNew(old(pool.all), pool.all)
      invariant forall t :: Lost(old(pool.all), pool.all, t) ==> t.from !in pool.locals
      decreases spam
    {
      var empty := spammers.Empty();
      if total <= pool.globalSlots || empty {
        RanksMembers(spammers.Items(), spam, pool.pending.book);
        CalledAreRemote(offenders, spam, p0, pool.locals);
        break;
      }
      ghost var known, v := pool.all, pool.virtual;
      var offender;
      offender, total, len := NextSpammer(pool, spammers, offenders, total, p0, spam, len);
      CallNext(offenders, spam, p0, pool.locals, offender);
      LostOverTwo(old(pool.all), known, pool.all);
      NextLoweredTwo(old(pool.virtual), v, pool.virtual, pool.ledger);
      offenders := offenders + [offender];
      spam := spam - {offender};
    }
  }

  /** Takes the next spammer off the heap and levels the offenders with it. */
  method NextSpammer(pool: TxPool, spammers: Prque<Address>, offenders: seq<Address>, total: nat,
                     ghost p0: Book, ghost spam: set<Address>, ghost len: nat)
    returns (offender: Address, left: nat, ghost len': nat)
    requires pool.Sound() && pool.Inv() && total == Count(pool.pending.book) && total > pool.globalSlots
    requires Levelled(p0, pool.pending.book, pool.locals, pool.accountSlots, offenders, spam, len)
    requires spammers.Valid() && spammers.Items() != [] && Ranks(spammers.Items(), spam, pool.pending.book)
    modifies pool`all, pool`virtual, pool.pending`book, pool.pending.Repr, spammers.cont, spammers.cont.blocks
    ensures NextLowered(old(pool.virtual), pool.virtual, pool.ledger)
    ensures pool.Sound() && pool.Inv() && left == Count(pool.pending.book)
    ensures spammers.Valid() && spammers.cont.blocks == old(spammers.cont.blocks)
    ensures offender in spam && Ranks(spammers.Items(), spam - {offender}, pool.pending.book)
    ensures Settled(p0, pool.pending.book, pool.locals, pool.accountSlots)
    ensures left + |offenders| + 1 > pool.globalSlots
    ensures left > pool.globalSlots ==>
              Levelled(p0, pool.pending.book, pool.locals, pool.accountSlots, offenders + [offender],
                       spam - {offender}, len')
    ensures NothingNew(old(pool.all), pool.all)
    ensures forall t :: Lost(old(pool.all), pool.all, t) ==> t.from !in pool.locals
  {
    hide AccountLists.Valid, Prque.Valid, Prque.Items, Close, TxPool.Inv, Count, Lost, NothingNew, Levelled, Settled,
         Ranks, NextLowered;
    ghost var p := pool.pending.book;
    offender := PopSpammer(spammers, spam, p);
    left, len' := EqualizeNext(pool, offenders, offender, total, p0, spam, len);
    RanksSame(spammers.Items(), spam - {offender}, p, pool.pending.book);
  }

  /** Takes the spammer with the longest list off the heap. */
  method PopSpammer(spammers: Prque<Address>, ghost spam: set<Address>, ghost p: Book) returns (offender: Address)
    requires spammers.Valid() && spammers.Items() != [] && Ranks(spammers.Items(), spam, p)
    modifies spammers.cont, spammers.cont.blocks
    ensures spammers.Valid() && Ranks(spammers.Items(), spam - {offender}, p)
    ensures spammers.cont.blocks == old(spammers.cont.blocks)
    ensures offender in spam && forall a :: a in spam ==> a in p && |p[a]| <= |p[offender]|
  {
    hide Prque.Valid, Prque.Items, Close, Ranks;
    ghost var s := spammers.Items();
    RanksInBook(s, spam, p);
    var value, priority := spammers.Pop();
    offender := value;
    RanksPop(s, spammers.Items(), spam, p, offender, priority);
  }

  lemma RanksInBook(s: seq<Item<Address>>, spam: set<Address>, p: Book)
    requires Ranks(s, spam, p)
    ensures forall a :: a in spam ==> a in p
  {
  }

  lemma RanksSame(s: seq<Item<Address>>, spam: set<Address>, p: Book, p': Book)
    requires Ranks(s, spam, p) && forall a :: a in spam ==> a in p' && a in p && p'[a] == p[a]
    ensures Ranks(s, spam, p')
  {
  }

  /** Second phase: with no spammers left, cut all offenders towards their guaranteed slots. */
  method FloorAll(pool: TxPool, offenders: seq<Address>, total: nat, ghost p0: Book, ghost spam: set<Address>,
                  ghost len: nat)
    requires pool.Sound() && pool.Inv() && total == Count(pool.pending.book) && spam == {}
    requires Levelled(p0, pool.pending.book, pool.locals, pool.accountSlots, offenders, spam, len)
    modifies pool`all, pool`virtual, pool.pending`book, pool.pending.Repr
    ensures NextLowered(old(pool.virtual), pool.virtual, pool.ledger)
    ensures pool.Sound() && pool.Inv()
    ensures Settled(p0, pool.pending.book, pool.locals, pool.accountSlots)
    ensures
      || Count(pool.pending.book) <= pool.globalSlots
      || WithinSlots(pool.pending.book, pool.locals, pool.accountSlots)
    ensures total > pool.globalSlots ==> Count(pool.pending.book) + |offenders| > pool.globalSlots
    ensures NothingNew(old(pool.all), pool.all)
    ensures forall t :: Lost(old(pool.all), pool.all, t) ==> t.from !in pool.locals
  {
    hide AccountLists.Valid, TxPool.Inv, Count, Lost, NothingNew, Levelled, Settled, WithinSlots, Cutting, NextLowered;
    NextNotLowered(pool.virtual, pool.ledger);
    LevelledIsSettled(p0, pool.pending.book, pool.locals, pool.accountSlots, offenders, spam, len);
    NothingLost(pool.all);
    if |offenders| == 0 {
      FlooredIsWithin(p0, pool.pending.book, pool.locals, pool.accountSlots, offenders, len);
      return;
    }
    FloorStarts(p0, pool.pending.book, pool.locals, pool.accountSlots, offenders, len);
    ghost var p1 := pool.pending.book;
    var left;
    ghost var len';
    left, len' := CutDown(pool, offenders, |offenders|, pool.accountSlots, total, p0, {}, len);
    FloorEnds(p0, p1, pool.pending.book, pool.locals, pool.accountSlots, offenders, len');
    LevelledIsSettled(p0, pool.pending.book, pool.locals, pool.accountSlots, offenders, {}, len');
    FlooredIsWithin(p0, pool.pending.book, pool.locals, pool.accountSlots, offenders, len');
  }

  lemma FloorStarts(p0: Book, p: Book, locals: set<Address>, slots: nat, offenders: seq<Address>, len: nat)
    requires Levelled(p0, p, locals, slots, offenders, {}, len) && offenders != []
    ensures Cutting(p0, p, p, locals, slots, offenders, {}, |offenders|, slots, len)
  {
    assert offenders[0] in offenders;
  }

  lemma FloorEnds(p0: Book, p1: Book, p: Book, locals: set<Address>, slots: nat, offenders: seq<Address>, len: nat)
    requires Cutting(p0, p1, p, locals, slots, offenders, {}, |offenders|, slots, len)
    ensures Levelled(p0, p, locals, slots, offenders, {}, len)
    ensures forall a :: a in offenders ==> a !in locals
  {
  }

  lemma FlooredIsWithin(p0: Book, p: Book, locals: set<Address>, slots: nat, offenders: seq<Address>, len: nat)
    requires Levelled(p0, p, locals, slots, offenders, {}, len)
    ensures offenders == [] || len <= slots ==> WithinSlots(p, locals, slots)
  {
    if offenders == [] || len <= slots {
      forall a | a in p && a !in locals ensures |p[a]| <= slots {
        if a in offenders {
          var i :| 0 <= i < |offenders| && offenders[i] == a;
        }
      }
    }
  }
}
