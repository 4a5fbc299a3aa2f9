/**
 What the transaction pool's structures mean together: two books of per-account lists
 (pending and queue), the hash index over both, and the virtual nonces.
 */
module PoolState {
  import opened Basics
  import opened Transactions

  /** Per-account transaction lists. */
  type Book = map<Address, TxMap>

  type Index = map<Hash, Tx>

  /** The account nonces recorded by the ledger; an unknown account has nonce 0. */
  type Ledger = map<Address, Nonce>

  function NonceAt(ledger: Ledger, a: Address): Nonce {
    if a in ledger then ledger[a] else 0
  }

  ghost predicate NonceRises(before: Ledger, after: Ledger) {
    forall a :: NonceAt(before, a) <= NonceAt(after, a)
  }

  // ---------- The hash index ----------

  ghost predicate Taken(b: Book, a: Address, n: Nonce) {
    a in b && n in b[a]
  }

  ghost predicate Holds(b: Book, t: Tx) {
    Taken(b, t.from, t.nonce) && b[t.from][t.nonce] == t
  }

  /** Every transaction is filed under its own sender and nonce. */
  ghost predicate Filed(b: Book) {
    forall a, n :: Taken(b, a, n) ==> b[a][n].from == a && b[a][n].nonce == n
  }

  ghost predicate Knows(all: Index, t: Tx) {
    t.hash in all && all[t.hash] == t
  }

  /** No nonce of an account is used in both books. */
  ghost predicate Exclusive(p: Book, q: Book) {
    forall a, n :: Taken(p, a, n) ==> !Taken(q, a, n)
  }

  /** The transactions on their way between the books occupy free, distinct slots. */
  ghost predicate InTransit(p: Book, q: Book, transit: set<Tx>) {
    && (forall t :: t in transit ==> !Taken(p, t.from, t.nonce) && !Taken(q, t.from, t.nonce))
    && (forall t, u :: t in transit && u in transit && t.from == u.from && t.nonce == u.nonce ==> t == u)
  }

  /** The index holds exactly the transactions of the two books and those in transit. */
  ghost predicate IndexInv(p: Book, q: Book, all: Index, transit: set<Tx>) {
    && Filed(p)
    && Filed(q)
    && Exclusive(p, q)
    && InTransit(p, q, transit)
    && (forall h :: h in all ==> all[h].hash == h)
    && (forall t :: Knows(all, t) <==> Holds(p, t) || Holds(q, t) || t in transit)
  }

  lemma IndexInvSwap(p: Book, q: Book, all: Index, transit: set<Tx>)
    requires IndexInv(p, q, all, transit)
    ensures IndexInv(q, p, all, transit)
  {
  }

  function ListOf(b: Book, a: Address): TxMap {
    if a in b then b[a] else map[]
  }

  function File(b: Book, t: Tx): Book {
    b[t.from := ListOf(b, t.from)[t.nonce := t]]
  }

  ghost function HashesOf(txs: seq<Tx>): set<Hash> {
    set t | t in txs :: t.hash
  }

  ghost function SetOf(txs: seq<Tx>): set<Tx> {
    set t | t in txs
  }

  lemma FileHolds(b: Book, t: Tx)
    requires Filed(b) && !Taken(b, t.from, t.nonce)
    ensures Filed(File(b, t))
    ensures forall a, n :: Taken(File(b, t), a, n) <==> Taken(b, a, n) || (a == t.from && n == t.nonce)
    ensures forall u :: Holds(File(b, t), u) <==> Holds(b, u) || u == t
  {
    var c := File(b, t);
    forall a, n ensures Taken(c, a, n) <==> Taken(b, a, n) || (a == t.from && n == t.nonce) {}
    forall u ensures Holds(c, u) <==> Holds(b, u) || u == t {
      if u.from == t.from && u.nonce == t.nonce {
        assert Taken(c, u.from, u.nonce);
      }
    }
  }

  /** A new transaction enters one of the books. */
  lemma EnterKeeps(p: Book, q: Book, all: Index, transit: set<Tx>, t: Tx)
    requires IndexInv(p, q, all, transit)
    requires t.hash !in all && !Taken(p, t.from, t.nonce) && !Taken(q, t.from, t.nonce)
    requires forall u :: u in transit ==> u.from != t.from || u.nonce != t.nonce
    ensures IndexInv(p, File(q, t), all[t.hash := t], transit)
  {
    FileHolds(q, t);
    forall u ensures Knows(all[t.hash := t], u) <==> Knows(all, u) || u == t {}
  }

  /** A transaction in transit settles in the second book. */
  lemma SettleKeeps(p: Book, q: Book, all: Index, transit: set<Tx>, t: Tx)
    requires IndexInv(p, q, all, transit) && t in transit
    ensures IndexInv(p, File(q, t), all, transit - {t}) && Knows(all, t) && !Taken(q, t.from, t.nonce)
  {
    FileHolds(q, t);
  }

  lemma ReplaceHolds(b: Book, a: Address, gone: seq<Tx>, after: TxMap)
    requires Filed(b) && a in b && Detached(b[a], gone, after)
    ensures Filed(b[a := after])
    ensures forall c, n :: Taken(b[a := after], c, n) ==> Taken(b, c, n)
    ensures forall t :: t in gone ==> Holds(b, t) && t.from == a && !Taken(b[a := after], t.from, t.nonce)
    ensures forall t :: Holds(b[a := after], t) <==> Holds(b, t) && t !in gone
  {
    var c := b[a := after];
    forall x, n | Taken(c, x, n) ensures Taken(b, x, n) && c[x][n] == b[x][n] {}
    forall t | t in gone ensures Holds(b, t) && t.from == a && !Taken(c, t.from, t.nonce) {
      assert Taken(b, a, t.nonce);
    }
    forall t ensures Holds(c, t) <==> Holds(b, t) && t !in gone {
      if Holds(b, t) && t !in gone {
        assert t.nonce in b[t.from];
      }
    }
  }

  /** Transactions that `before` knows and `after` does not. */
  ghost predicate Lost(before: Index, after: Index, t: Tx) {
    Knows(before, t) && !Knows(after, t)
  }

  /** No transaction is known to `after` that was not known to `before`. */
  ghost predicate NothingNew(before: Index, after: Index) {
    forall t :: Knows(after, t) ==> Knows(before, t)
  }

  lemma LostOverTwo(first: Index, second: Index, third: Index)
    ensures forall t :: Lost(first, third, t) ==> Lost(first, second, t) || Lost(second, third, t)
    ensures NothingNew(first, second) && NothingNew(second, third) ==> NothingNew(first, third)
  {
  }

  lemma NothingLost(all: Index)
    ensures NothingNew(all, all) && forall t :: !Lost(all, all, t)
  {
  }

  /** The two books agree on every account but `a`. */
  ghost predicate SameBut(before: Book, after: Book, a: Address) {
    forall b :: b != a ==> ListOf(before, b) == ListOf(after, b)
  }

  lemma SameButStep(q0: Book, q1: Book, q2: Book, a: Address)
    requires SameBut(q0, q1, a)
    requires q2 == q1 - {a} || (a in q2 && q2 == q1[a := q2[a]])
    ensures SameBut(q0, q2, a)
  {
  }

  /** Transactions leave the second book and the index for good. */
  lemma LeaveKeeps(p: Book, q: Book, all: Index, transit: set<Tx>, a: Address, gone: seq<Tx>, after: TxMap)
    requires IndexInv(p, q, all, transit) && a in q && Detached(q[a], gone, after)
    ensures IndexInv(p, q[a := after], all - HashesOf(gone), transit)
    ensures forall t :: Lost(all, all - HashesOf(gone), t) <==> t in gone
    ensures forall t :: t in gone ==> t.from == a && Holds(q, t)
  {
    hide Detached, HashesOf, Filed, Holds, Taken;
    ReplaceHolds(q, a, gone, after);
    assert forall t :: t in gone ==> Holds(q, t) && Knows(all, t);
    ForgetHashes(all, gone);
    forall t | t in gone ensures !Holds(p, t) && t !in transit { HeldOnce(p, q, transit, t); }
  }

  lemma HeldOnce(p: Book, q: Book, transit: set<Tx>, t: Tx)
    requires Exclusive(p, q) && InTransit(p, q, transit) && Holds(q, t)
    ensures !Holds(p, t) && t !in transit
  {
    assert Taken(q, t.from, t.nonce);
  }

  lemma ForgetHashes(all: Index, gone: seq<Tx>)
    requires forall h :: h in all ==> all[h].hash == h
    requires forall t :: t in gone ==> Knows(all, t)
    ensures forall t :: Knows(all - HashesOf(gone), t) <==> Knows(all, t) && t !in gone
  {
    forall t | Knows(all, t) && t.hash in HashesOf(gone) ensures t in gone {
      var u :| u in gone && u.hash == t.hash;
      assert Knows(all, u);
    }
  }

  /** Transactions are taken off the second book but stay known. */
  lemma TakeKeeps(p: Book, q: Book, all: Index, a: Address, gone: seq<Tx>, after: TxMap)
    requires IndexInv(p, q, all, {}) && a in q && Detached(q[a], gone, after)
    ensures IndexInv(p, q[a := after], all, SetOf(gone))
  {
    ReplaceHolds(q, a, gone, after);
    GoneIsInTransit(p, q, a, gone, after);
  }

  lemma GoneIsInTransit(p: Book, q: Book, a: Address, gone: seq<Tx>, after: TxMap)
    requires Exclusive(p, q) && Filed(q) && a in q && Detached(q[a], gone, after)
    ensures InTransit(p, q[a := after], SetOf(gone))
  {
    ReplaceHolds(q, a, gone, after);
    forall t | t in gone ensures !Taken(p, t.from, t.nonce) {
      assert Holds(q, t);
    }
    forall t, u | t in gone && u in gone && t.from == u.from && t.nonce == u.nonce ensures t == u {
      assert Holds(q, t) && Holds(q, u);
    }
  }

  lemma ForgetKeeps(p: Book, q: Book, all: Index, transit: set<Tx>, a: Address)
    requires IndexInv(p, q, all, transit) && a in q && q[a] == map[]
    ensures IndexInv(p, q - {a}, all, transit)
  {
    var c := q - {a};
    forall x, n ensures Taken(c, x, n) <==> Taken(q, x, n) {}
    forall t ensures Holds(c, t) <==> Holds(q, t) {
      assert Taken(c, t.from, t.nonce) <==> Taken(q, t.from, t.nonce);
    }
  }

  /** Removal by nonce hits the transaction it was asked for. */
  lemma RemovalIsExact(p: Book, q: Book, all: Index, t: Tx)
    requires IndexInv(p, q, all, {}) && Knows(all, t)
    ensures Taken(p, t.from, t.nonce) ==> p[t.from][t.nonce] == t && !Taken(q, t.from, t.nonce)
    ensures !Taken(p, t.from, t.nonce) ==> Holds(q, t)
  {
    if Taken(p, t.from, t.nonce) { assert !Taken(q, t.from, t.nonce); }
  }

  // ---------- Virtual nonces ----------

  /** The nonces of `m` are exactly lo, lo + 1, ..., hi - 1. */
  ghost predicate IsRun(m: TxMap, lo: int, hi: int) {
    0 <= lo < hi <= TWO_64 && forall n: Nonce :: n in m <==> lo <= n < hi
  }

  /**
   A pending list is a gapless run that starts at or below the ledger nonce `l`, and the
   virtual nonce `v` is the first nonce after it.  The uint64 successor of 2^64 - 1 is 0, so
   once a transaction of the account with that nonce has been let in (`wrapped`) `v` may also be 0.
   */
  ghost predicate RunInv(m: TxMap, v: Nonce, l: Nonce, wrapped: bool) {
    exists lo: int, hi: int :: IsRun(m, lo, hi) && lo <= l && (v == hi || (wrapped && v == 0))
  }

  ghost predicate NonceInv(p: Book, virtual: map<Address, Nonce>, ledger: Ledger, wrapped: set<Address>) {
    && (forall a :: a in p ==> a in virtual && RunInv(p[a], virtual[a], NonceAt(ledger, a), a in wrapped))
    && (forall a :: a in virtual && a !in p ==> virtual[a] <= NonceAt(ledger, a))
  }

  /** PendingCache.GetNonce: the virtual nonce, or else the ledger's. */
  function NextNonce(virtual: map<Address, Nonce>, ledger: Ledger, a: Address): Nonce {
    if a in virtual then virtual[a] else NonceAt(ledger, a)
  }

  lemma RunInvIntro(m: TxMap, v: Nonce, l: Nonce, wrapped: bool, lo: int, hi: int)
    requires IsRun(m, lo, hi) && lo <= l && (v == hi || (wrapped && v == 0))
    ensures RunInv(m, v, l, wrapped)
  {
  }

  /** The ledger may move on between two pool operations. */
  lemma LedgerRiseKeeps(p: Book, virtual: map<Address, Nonce>, before: Ledger, after: Ledger, wrapped: set<Address>)
    requires NonceInv(p, virtual, before, wrapped) && NonceRises(before, after)
    ensures NonceInv(p, virtual, after, wrapped)
  {
    forall a | a in p ensures RunInv(p[a], virtual[a], NonceAt(after, a), a in wrapped) {
      var lo, hi :|
        && IsRun(p[a], lo, hi) && lo <= NonceAt(before, a)
        && (virtual[a] == hi || (a in wrapped && virtual[a] == 0));
      assert NonceAt(before, a) <= NonceAt(after, a);
      RunInvIntro(p[a], virtual[a], NonceAt(after, a), a in wrapped, lo, hi);
    }
    forall a | a in virtual && a !in p ensures virtual[a] <= NonceAt(after, a) {
      assert NonceAt(before, a) <= NonceAt(after, a);
    }
  }

  lemma WrapKeeps(p: Book, virtual: map<Address, Nonce>, ledger: Ledger, before: set<Address>, after: set<Address>)
    requires NonceInv(p, virtual, ledger, before) && before <= after
    ensures NonceInv(p, virtual, ledger, after)
  {
    forall a | a in p ensures RunInv(p[a], virtual[a], NonceAt(ledger, a), a in after) {
      assert RunInv(p[a], virtual[a], NonceAt(ledger, a), a in before);
    }
  }

  /** After stale nonces are dropped, what is ready to leave the queue extends the pending run. */
  lemma ReadyExtends(p: Book, q: Book, all: Index, virtual: map<Address, Nonce>, ledger: Ledger, wrapped: set<Address>,
                     a: Address, first: Nonce)
    requires IndexInv(p, q, all, {}) && NonceInv(p, virtual, ledger, wrapped)
    requires Taken(q, a, first) && NonceAt(ledger, a) <= first <= NextNonce(virtual, ledger, a)
    ensures a !in p ==> first == NonceAt(ledger, a)
    ensures a in p ==> virtual[a] == first && exists lo: int :: lo <= NonceAt(ledger, a) && IsRun(p[a], lo, first)
  {
    assert !Taken(p, a, first);
    if a in p {
      var lo, hi :|
        && IsRun(p[a], lo, hi) && lo <= NonceAt(ledger, a)
        && (virtual[a] == hi || (a in wrapped && virtual[a] == 0));
      assert first !in p[a];
      assert first == hi;
    }
  }

  ghost predicate Extends(p: Book, virtual: map<Address, Nonce>, ledger: Ledger, a: Address, next: int) {
    if a in p then exists lo: int :: lo <= NonceAt(ledger, a) && IsRun(p[a], lo, next)
    else next == NonceAt(ledger, a)
  }

  /** Promoting the next transaction keeps the run gapless. */
  lemma PromoteKeepsRuns(p: Book, virtual: map<Address, Nonce>, ledger: Ledger, wrapped: set<Address>, t: Tx)
    requires NonceInv(p, virtual, ledger, wrapped) && Extends(p, virtual, ledger, t.from, t.nonce)
    requires t.nonce == TWO_64 - 1 ==> t.from in wrapped
    ensures NonceInv(File(p, t), virtual[t.from := Succ(t.nonce)], ledger, wrapped)
    ensures Extends(File(p, t), virtual[t.from := Succ(t.nonce)], ledger, t.from, t.nonce + 1)
  {
    var a, next := t.from, t.nonce + 1;
    var lo: int := t.nonce;
    if a in p {
      lo :| lo <= NonceAt(ledger, a) && IsRun(p[a], lo, t.nonce);
    }
    RunPush(ListOf(p, a), lo, t);
    RunInvIntro(File(p, t)[a], Succ(t.nonce), NonceAt(ledger, a), a in wrapped, lo, next);
  }

  lemma RunPush(m: TxMap, lo: int, t: Tx)
    requires (m == map[] && lo == t.nonce) || IsRun(m, lo, t.nonce)
    ensures IsRun(m[t.nonce := t], lo, t.nonce + 1)
  {
  }

  /** Dropping what the ledger has passed leaves no gap in front. */
  lemma PassedKeepsRuns(p: Book, virtual: map<Address, Nonce>, ledger: Ledger, wrapped: set<Address>,
                        a: Address, gone: seq<Tx>, after: TxMap)
    requires NonceInv(p, virtual, ledger, wrapped) && a in p && Keyed(p[a]) && Detached(p[a], gone, after)
    requires forall t :: t in gone ==> t.nonce < NonceAt(ledger, a)
    requires forall n :: n in after ==> NonceAt(ledger, a) <= n
    ensures after != map[] ==> NonceAt(ledger, a) in after && NonceInv(p[a := after], virtual, ledger, wrapped)
    ensures after == map[] ==> NonceInv(p - {a}, virtual, ledger, wrapped)
  {
    var l := NonceAt(ledger, a);
    var lo, hi :| IsRun(p[a], lo, hi) && lo <= l && (virtual[a] == hi || (a in wrapped && virtual[a] == 0));
    forall n: Nonce ensures n in after <==> l <= n < hi {
      if n in p[a] && n !in after { assert p[a][n] in gone; }
    }
    if l < hi {
      assert l in after && IsRun(after, l, hi);
      RunInvIntro(after, virtual[a], l, a in wrapped, l, hi);
    } else {
      assert after.Keys == {};
    }
  }

  /** Cutting a pending list at `n` and lowering the virtual nonce to `n` keeps the invariant. */
  lemma CutKeepsRuns(p: Book, virtual: map<Address, Nonce>, ledger: Ledger, wrapped: set<Address>,
                     a: Address, n: Nonce, after: TxMap)
    requires NonceInv(p, virtual, ledger, wrapped) && a in p && n in p[a]
    requires forall k: Nonce :: k in after <==> k in p[a] && k < n
    ensures
      var v := virtual[a := if virtual[a] > n then n else virtual[a]];
      if after == map[] then NonceInv(p - {a}, v, ledger, wrapped) else NonceInv(p[a := after], v, ledger, wrapped)
  {
    var l := NonceAt(ledger, a);
    var v := virtual[a := if virtual[a] > n then n else virtual[a]];
    var lo, hi :| IsRun(p[a], lo, hi) && lo <= l && (virtual[a] == hi || (a in wrapped && virtual[a] == 0));
    if after == map[] {
      assert lo !in after;
    } else {
      assert IsRun(after, lo, n);
      RunInvIntro(after, v[a], l, a in wrapped, lo, n);
    }
  }

  /** Setting the virtual nonce just past the last pending transaction. */
  lemma RefreshKeepsRuns(p: Book, virtual: map<Address, Nonce>, ledger: Ledger, wrapped: set<Address>,
                         a: Address, txs: seq<Tx>)
    requires NonceInv(p, virtual, ledger, wrapped) && a in p && Keyed(p[a]) && Listing(txs, p[a])
    ensures txs != []
    ensures
      var last := txs[|txs| - 1].nonce;
      (last == TWO_64 - 1 ==> a in wrapped) ==> NonceInv(p, virtual[a := Succ(last)], ledger, wrapped)
  {
    var l := NonceAt(ledger, a);
    var lo, hi :| IsRun(p[a], lo, hi) && lo <= l && (virtual[a] == hi || (a in wrapped && virtual[a] == 0));
    LastOfRun(p[a], lo, hi, txs);
    if txs[|txs| - 1].nonce == TWO_64 - 1 ==> a in wrapped {
      RunInvIntro(p[a], Succ(txs[|txs| - 1].nonce), l, a in wrapped, lo, hi);
    }
  }

  lemma LastOfRun(m: TxMap, lo: int, hi: int, txs: seq<Tx>)
    requires Keyed(m) && IsRun(m, lo, hi) && Listing(txs, m)
    ensures txs != [] && txs[|txs| - 1].nonce == hi - 1
  {
    assert lo in m && hi - 1 in m;
    var i :| 0 <= i < |txs| && txs[i] == m[hi - 1];
    assert txs[|txs| - 1] in txs;
  }

  // ---------- Whole-pool predicates ----------

  /** The senders among `txs` that offer the last nonce, 2^64 - 1. */
  ghost function LastNonces(txs: seq<Tx>): set<Address> {
    set i | 0 <= i < |txs| && txs[i].nonce == TWO_64 - 1 :: txs[i].from
  }

  lemma LastNoncesJoin(s: seq<Tx>, t: seq<Tx>)
    ensures LastNonces(s + t) == LastNonces(s) + LastNonces(t)
  {
    forall a | a in LastNonces(s) + LastNonces(t)
      ensures a in LastNonces(s + t)
    {
      if a in LastNonces(s) {
        var i :| 0 <= i < |s| && s[i].nonce == TWO_64 - 1 && s[i].from == a;
        assert (s + t)[i] == s[i];
      } else {
        var i :| 0 <= i < |t| && t[i].nonce == TWO_64 - 1 && t[i].from == a;
        assert (s + t)[|s| + i] == t[i];
      }
    }
  }

  /** A transaction with the last nonce is in the pool only if one of its sender has been let in. */
  ghost predicate MaxSeen(all: Index, wrapped: set<Address>) {
    forall h :: h in all && all[h].nonce == TWO_64 - 1 ==> all[h].from in wrapped
  }

  ghost predicate NoEmptyList(b: Book) {
    forall a :: a in b ==> b[a] != map[]
  }

  ghost predicate NoEmptyBut(b: Book, a: Address) {
    forall c :: c in b && c != a ==> b[c] != map[]
  }

  lemma NoEmptyAfter(b: Book, a: Address, m: TxMap)
    requires NoEmptyList(b)
    ensures NoEmptyBut(b[a := m], a)
  {
  }

  lemma EnterKeepsRest(q: Book, all: Index, wrapped: set<Address>, t: Tx)
    requires NoEmptyList(q) && MaxSeen(all, wrapped) && t.hash !in all
    ensures NoEmptyList(File(q, t)) && MaxSeen(all[t.hash := t], wrapped + LastNonces([t]))
    ensures |all[t.hash := t]| == |all| + 1
  {
    assert [t][0] == t;
    assert all[t.hash := t].Keys == all.Keys + {t.hash};
    assert t.nonce in File(q, t)[t.from];
  }

  /** Every pending list starts exactly at its account's ledger nonce. */
  ghost predicate Fresh(p: Book, ledger: Ledger) {
    forall a :: a in p ==> StartsAt(p[a], NonceAt(ledger, a))
  }

  ghost predicate StartsAt(m: TxMap, l: Nonce) {
    l in m && forall n :: n in m ==> l <= n
  }

  /** Taking the ready transactions off a forwarded queue starts a promotion. */
  lemma PromotionStarts(p: Book, q: Book, all: Index, virtual: map<Address, Nonce>, ledger: Ledger,
                        wrapped: set<Address>,
                        a: Address, ready: seq<Tx>, after: TxMap)
    requires IndexInv(p, q, all, {}) && NonceInv(p, virtual, ledger, wrapped) && MaxSeen(all, wrapped)
    requires a in q && Peeled(q[a], ready, after) && Consecutive(ready)
    requires forall n :: n in q[a] ==> NonceAt(ledger, a) <= n
    requires ready != [] ==> ready[0].nonce <= NextNonce(virtual, ledger, a)
    ensures Promoting(p, q[a := after], all, virtual, ledger, wrapped, a, ready, 0)
  {
    TakeKeeps(p, q, all, a, ready, after);
    assert ready[0..] == ready;
    forall t | t in ready ensures t.from == a {
      assert Taken(q, a, t.nonce);
    }
    if ready != [] {
      assert ready[0] in ready;
      assert Taken(q, a, ready[0].nonce);
      ReadyExtends(p, q, all, virtual, ledger, wrapped, a, ready[0].nonce);
    }
  }

  lemma ShrinkKeeps(all: Index, hashes: set<Hash>, wrapped: set<Address>)
    requires MaxSeen(all, wrapped)
    ensures MaxSeen(all - hashes, wrapped) && |all - hashes| <= |all| && NothingNew(all, all - hashes)
  {
    var left := all - hashes;
    assert left.Keys <= all.Keys;
    SubsetSize(left.Keys, all.Keys);
  }

  lemma {:induction false} SubsetSize<T>(s: set<T>, u: set<T>)
    requires s <= u
    ensures |s| <= |u|
    decreases s
  {
    if s != {} {
      var x :| x in s;
      SubsetSize(s - {x}, u - {x});
    }
  }

  /** A pending list that starts at the ledger nonce still does after a promotion. */
  lemma PromoteKeepsFresh(p: Book, virtual: map<Address, Nonce>, ledger: Ledger, t: Tx)
    requires Fresh(p, ledger) && Extends(p, virtual, ledger, t.from, t.nonce)
    ensures Fresh(File(p, t), ledger)
  {
    var a := t.from;
    if a in p {
      assert StartsAt(p[a], NonceAt(ledger, a));
      var lo: int :| lo <= NonceAt(ledger, a) && IsRun(p[a], lo, t.nonce);
      assert NonceAt(ledger, a) in p[a];
    }
    assert StartsAt(File(p, t)[a], NonceAt(ledger, a));
  }

  /** The pool part way through promoting `ready`, whose first `i` transactions are done. */
  ghost predicate Promoting(p: Book, q: Book, all: Index, virtual: map<Address, Nonce>, ledger: Ledger,
                            wrapped: set<Address>,
                            a: Address, ready: seq<Tx>, i: nat) {
    && i <= |ready|
    && Ascending(ready) && Consecutive(ready)
    && (forall t :: t in ready ==> t.from == a)
    && IndexInv(p, q, all, SetOf(ready[i..]))
    && MaxSeen(all, wrapped)
    && NonceInv(p, virtual, ledger, wrapped)
    && (ready != [] ==> Extends(p, virtual, ledger, a, ready[0].nonce + i))
  }

  lemma PromoteNext(p: Book, q: Book, all: Index, virtual: map<Address, Nonce>, ledger: Ledger, wrapped: set<Address>,
                    a: Address, ready: seq<Tx>, i: nat)
    requires Promoting(p, q, all, virtual, ledger, wrapped, a, ready, i) && i < |ready|
    ensures !Taken(p, a, ready[i].nonce) && ready[i].hash in all && ready[i].from == a
    ensures Promoting(File(p, ready[i]), q, all, virtual[a := Succ(ready[i].nonce)], ledger, wrapped, a, ready, i + 1)
    ensures Fresh(p, ledger) ==> Fresh(File(p, ready[i]), ledger)
  {
    hide IndexInv, NonceInv, Extends, File;
    var t := ready[i];
    assert t in ready[i..];
    assert t in ready;
    IndexInvSwap(p, q, all, SetOf(ready[i..]));
    SettleKeeps(q, p, all, SetOf(ready[i..]), t);
    RestOf(ready, i);
    IndexInvSwap(q, File(p, t), all, SetOf(ready[i + 1..]));
    PromoteKeepsRuns(p, virtual, ledger, wrapped, t);
    hide Fresh;
    if Fresh(p, ledger) { PromoteKeepsFresh(p, virtual, ledger, t); }
  }

  /** What is left behind a taken run lies beyond the nonce after it. */
  lemma PastTheRun(ready: seq<Tx>, after: TxMap)
    requires Below(ready, after)
    requires ready != [] ==> ready[|ready| - 1].nonce + 1 !in after
    ensures ready != [] ==> forall n :: n in after ==> Succ(ready[|ready| - 1].nonce) < n
  {
    if ready != [] {
      assert ready[|ready| - 1] in ready;
    }
  }

  lemma RestOf(txs: seq<Tx>, i: nat)
    requires i < |txs| && Ascending(txs)
    ensures SetOf(txs[i..]) - {txs[i]} == SetOf(txs[i + 1..])
  {
    assert txs[i..] == [txs[i]] + txs[i + 1..];
    assert txs[i] !in txs[i + 1..];
  }

  // ---------- Leaving the pending book ----------

  function Trimmed(b: Book, a: Address, m: TxMap): Book {
    if m == map[] then b - {a} else b[a := m]
  }

  lemma TrimUpdated(b: Book, a: Address, m: TxMap)
    ensures Trimmed(b[a := m], a, m) == Trimmed(b, a, m)
  {
    assert b[a := m] - {a} == b - {a};
  }

  lemma LeaveFirstKeeps(p: Book, q: Book, all: Index, a: Address, gone: seq<Tx>, after: TxMap)
    requires IndexInv(p, q, all, {}) && a in p && Detached(p[a], gone, after)
    ensures IndexInv(Trimmed(p, a, after), q, all - HashesOf(gone), {})
    ensures forall t :: Lost(all, all - HashesOf(gone), t) <==> t in gone
    ensures forall t :: t in gone ==> t.from == a && Holds(p, t)
  {
    hide IndexInv, Detached, HashesOf, Lost, Holds;
    IndexInvSwap(p, q, all, {});
    LeaveKeeps(q, p, all, {}, a, gone, after);
    TrimKeeps(q, p, all - HashesOf(gone), {}, a, after);
    IndexInvSwap(q, Trimmed(p, a, after), all - HashesOf(gone), {});
  }

  lemma TrimKeeps(p: Book, q: Book, all: Index, transit: set<Tx>, a: Address, after: TxMap)
    requires IndexInv(p, q[a := after], all, transit)
    ensures IndexInv(p, Trimmed(q, a, after), all, transit)
  {
    hide IndexInv;
    if after == map[] {
      ForgetKeeps(p, q[a := after], all, transit, a);
      assert q[a := after] - {a} == q - {a};
    }
  }

  /** Demotion of account `a`: its list is forwarded to the ledger nonce. */
  lemma DemoteKeeps(p: Book, q: Book, all: Index, virtual: map<Address, Nonce>, ledger: Ledger, wrapped: set<Address>,
                    a: Address, gone: seq<Tx>, after: TxMap)
    requires IndexInv(p, q, all, {}) && NonceInv(p, virtual, ledger, wrapped)
    requires a in p && Peeled(p[a], gone, after)
    requires forall t :: t in gone ==> t.nonce < NonceAt(ledger, a)
    requires forall n :: n in after ==> NonceAt(ledger, a) <= n
    ensures IndexInv(Trimmed(p, a, after), q, all - HashesOf(gone), {})
    ensures NonceInv(Trimmed(p, a, after), virtual, ledger, wrapped)
    ensures after != map[] ==> StartsAt(after, NonceAt(ledger, a))
    ensures forall t :: Lost(all, all - HashesOf(gone), t) ==> t.from == a && t.nonce < NonceAt(ledger, a)
  {
    hide IndexInv, NonceInv, Detached, HashesOf, Lost, Holds;
    LeaveFirstKeeps(p, q, all, a, gone, after);
    PassedKeepsRuns(p, virtual, ledger, wrapped, a, gone, after);
  }

  // ---------- Taking a transaction out of the middle of a pending list ----------

  lemma TakeFirstKeeps(p: Book, q: Book, all: Index, a: Address, gone: seq<Tx>, after: TxMap)
    requires IndexInv(p, q, all, {}) && a in p && Detached(p[a], gone, after)
    ensures IndexInv(Trimmed(p, a, after), q, all, SetOf(gone))
  {
    hide IndexInv, Detached, SetOf;
    IndexInvSwap(p, q, all, {});
    TakeKeeps(q, p, all, a, gone, after);
    TrimKeeps(q, p, all, SetOf(gone), a, after);
    IndexInvSwap(q, Trimmed(p, a, after), all, SetOf(gone));
  }

  /** Transaction `t` goes for good, the ones above it go into transit. */
  lemma CutKeepsIndex(p: Book, q: Book, all: Index, t: Tx, above: seq<Tx>, after: TxMap)
    requires IndexInv(p, q, all, {}) && Holds(p, t)
    requires Detached(p[t.from] - {t.nonce}, above, after)
    ensures IndexInv(Trimmed(p, t.from, after), q, all - {t.hash}, SetOf(above))
  {
    hide IndexInv, HashesOf, SetOf, Detached;
    var a, m := t.from, p[t.from] - {t.nonce};
    IndexInvSwap(p, q, all, {});
    RemoveOneKeeps(q, p, all, t);
    IndexInvSwap(q, p[a := m], all - {t.hash}, {});
    TakeFirstKeeps(p[a := m], q, all - {t.hash}, a, above, after);
    assert p[a := m] - {a} == p - {a} && p[a := m][a := after] == p[a := after];
  }

  lemma OneGone(m: TxMap, t: Tx)
    requires Keyed(m) && t.nonce in m && m[t.nonce] == t
    ensures Detached(m, [t], m - {t.nonce})
  {
    assert (m - {t.nonce}).Keys == m.Keys - {t.nonce};
  }

  /** A single transaction of the second book goes for good. */
  lemma RemoveOneKeeps(p: Book, q: Book, all: Index, t: Tx)
    requires IndexInv(p, q, all, {}) && Holds(q, t)
    ensures IndexInv(p, q[t.from := q[t.from] - {t.nonce}], all - {t.hash}, {})
    ensures forall u :: Lost(all, all - {t.hash}, u) <==> u == t
  {
    FiledKeyed(q, t.from);
    OneGone(q[t.from], t);
    LeaveKeeps(p, q, all, {}, t.from, [t], q[t.from] - {t.nonce});
    assert HashesOf([t]) == {t.hash};
    assert forall u :: u in [t] <==> u == t;
  }

  lemma FiledKeyed(b: Book, a: Address)
    requires Filed(b) && a in b
    ensures Keyed(b[a])
  {
    forall n | n in b[a] ensures b[a][n].nonce == n {
      assert Taken(b, a, n);
    }
  }

  /** The pool part way through queueing again the transactions `txs` cut off a pending list. */
  ghost predicate Requeueing(p: Book, q: Book, all: Index, txs: seq<Tx>, i: nat) {
    && i <= |txs|
    && Distinct(txs)
    && NoEmptyList(q)
    && IndexInv(p, q, all, SetOf(txs[i..]))
  }

  lemma RequeueNext(p: Book, q: Book, all: Index, txs: seq<Tx>, i: nat)
    requires Requeueing(p, q, all, txs, i) && i < |txs|
    ensures !Taken(q, txs[i].from, txs[i].nonce) && txs[i].hash in all
    ensures Requeueing(p, File(q, txs[i]), all, txs, i + 1)
  {
    var t := txs[i];
    assert txs[i..] == [t] + txs[i + 1..];
    assert SetOf(txs[i..]) - {t} == SetOf(txs[i + 1..]);
    hide IndexInv, SetOf;
    SettleKeeps(p, q, all, SetOf(txs[i..]), t);
    assert t.nonce in File(q, t)[t.from];
  }

  /** The pending list of `t.from` has lost `t` and everything above it; the other lists are as before. */
  ghost predicate CutAt(before: Book, after: Book, t: Tx) {
    && SameBut(before, after, t.from)
    && (forall n: Nonce :: Taken(after, t.from, n) <==> Taken(before, t.from, n) && n < t.nonce)
  }

  function LowerTo(virtual: map<Address, Nonce>, a: Address, n: Nonce): map<Address, Nonce>
    requires a in virtual
  {
    if virtual[a] > n then virtual[a := n] else virtual
  }

  lemma CutKeeps(p: Book, q: Book, all: Index, virtual: map<Address, Nonce>, ledger: Ledger, wrapped: set<Address>,
                 t: Tx, above: seq<Tx>, after: TxMap)
    requires IndexInv(p, q, all, {}) && NonceInv(p, virtual, ledger, wrapped) && NoEmptyList(q) && Holds(p, t)
    requires Detached(p[t.from] - {t.nonce}, above, after) && Distinct(above)
    requires forall u :: u in above ==> t.nonce < u.nonce
    requires forall n :: n in after ==> n < t.nonce
    ensures t.from in virtual
    ensures
      var p' := Trimmed(p, t.from, after);
      && Requeueing(p', q, all - {t.hash}, above, 0)
      && NonceInv(p', LowerTo(virtual, t.from, t.nonce), ledger, wrapped)
      && CutAt(p, p', t)
  {
    CutBelow(p, t, above, after);
    TrimmedIsCut(p, t, after);
    hide IndexInv, NonceInv, Detached, CutAt, SetOf, Trimmed, Holds;
    CutKeepsIndex(p, q, all, t, above, after);
    assert above[0..] == above;
    CutLowers(p, virtual, ledger, wrapped, t, after);
  }

  lemma CutBelow(p: Book, t: Tx, above: seq<Tx>, after: TxMap)
    requires Filed(p) && Holds(p, t) && Detached(p[t.from] - {t.nonce}, above, after)
    requires forall u :: u in above ==> t.nonce < u.nonce
    requires forall n :: n in after ==> n < t.nonce
    ensures forall n: Nonce :: n in after <==> n in p[t.from] && n < t.nonce
  {
    var m := p[t.from];
    forall n: Nonce | n in m && n < t.nonce ensures n in after {
      assert n in m - {t.nonce};
      assert Taken(p, t.from, n);
    }
  }

  lemma TrimmedIsCut(p: Book, t: Tx, after: TxMap)
    requires t.from in p && forall n: Nonce :: n in after <==> n in p[t.from] && n < t.nonce
    ensures CutAt(p, Trimmed(p, t.from, after), t)
  {
  }

  lemma CutLowers(p: Book, virtual: map<Address, Nonce>, ledger: Ledger, wrapped: set<Address>, t: Tx, after: TxMap)
    requires NonceInv(p, virtual, ledger, wrapped) && t.from in p && t.nonce in p[t.from]
    requires forall n: Nonce :: n in after <==> n in p[t.from] && n < t.nonce
    ensures t.from in virtual
    ensures NonceInv(Trimmed(p, t.from, after), LowerTo(virtual, t.from, t.nonce), ledger, wrapped)
  {
    CutKeepsRuns(p, virtual, ledger, wrapped, t.from, t.nonce, after);
    assert virtual[t.from := virtual[t.from]] == virtual;
  }

  // ---------- Sizes ----------

  /** The number of transactions in a book. */
  ghost function Count(b: Book): nat
    decreases |b|
  {
    if b == map[] then 0
    else
      var a :| a in b;
      assert (b - {a}).Keys == b.Keys - {a};
      |b[a]| + Count(b - {a})
  }

  lemma {:induction false} CountPick(b: Book, a: Address)
    requires a in b
    ensures Count(b) == |b[a]| + Count(b - {a})
    decreases |b|
  {
    var c :| c in b && Count(b) == |b[c]| + Count(b - {c});
    if c != a {
      assert (b - {c}).Keys == b.Keys - {c};
      CountPick(b - {c}, a);
      assert b - {c} - {a} == b - {a} - {c};
      assert (b - {a}).Keys == b.Keys - {a};
      CountPick(b - {a}, c);
    }
  }

  lemma CountTrimmed(b: Book, a: Address, m: TxMap)
    requires a in b
    ensures Count(b[a := m]) == Count(b) - |b[a]| + |m|
    ensures Count(Trimmed(b, a, m)) == Count(b) - |b[a]| + |m|
  {
    hide Count;
    CountPick(b, a);
    CountPut(b, a, m);
  }

  lemma CountPut(b: Book, a: Address, m: TxMap)
    ensures Count(b[a := m]) == |m| + Count(b - {a})
  {
    hide Count;
    CountPick(b[a := m], a);
    assert b[a := m] - {a} == b - {a};
  }

  /** No list is longer than the index. */
  lemma ListFits(p: Book, q: Book, all: Index, a: Address)
    requires IndexInv(p, q, all, {}) && a in p
    ensures |p[a]| <= |all|
  {
    var m := p[a];
    forall n | n in m ensures m[n].hash in all && all[m[n].hash] == m[n] && m[n].nonce == n {
      assert Taken(p, a, n) && Holds(p, m[n]);
      assert Knows(all, m[n]);
    }
    DistinctHashes(m.Keys, m, all.Keys, all);
  }

  lemma {:induction false} DistinctHashes(nonces: set<Nonce>, m: TxMap, hashes: set<Hash>, all: Index)
    requires nonces <= m.Keys && hashes <= all.Keys
    requires forall n :: n in nonces ==> m[n].hash in hashes && all[m[n].hash] == m[n] && m[n].nonce == n
    ensures |nonces| <= |hashes|
    decreases nonces
  {
    if nonces != {} {
      var n :| n in nonces;
      DistinctHashes(nonces - {n}, m, hashes - {m[n].hash}, all);
    }
  }

  lemma {:induction false} EmptyCount(b: Book)
    requires forall a :: a in b ==> b[a] == map[]
    ensures Count(b) == 0
    decreases |b|
  {
    if b != map[] {
      var a :| a in b;
      assert (b - {a}).Keys == b.Keys - {a};
      CountPick(b, a);
      EmptyCount(b - {a});
    }
  }

  /** The index has one entry for every pending and every queued transaction. */
  lemma {:induction false} IndexCount(p: Book, q: Book, all: Index)
    requires IndexInv(p, q, all, {})
    ensures |all| == Count(p) + Count(q)
    decreases |all|
  {
    if h :| h in all {
      var t := all[h];
      assert Knows(all, t);
      assert (all - {h}).Keys == all.Keys - {h};
      if Holds(p, t) {
        IndexInvSwap(p, q, all, {});
        IndexCountStep(q, p, all, t);
        IndexInvSwap(q, p[t.from := p[t.from] - {t.nonce}], all - {h}, {});
        IndexCount(p[t.from := p[t.from] - {t.nonce}], q, all - {h});
      } else {
        IndexCountStep(p, q, all, t);
        IndexCount(p, q[t.from := q[t.from] - {t.nonce}], all - {h});
      }
    } else {
      NoneKnown(p, q, all);
      EmptyCount(p);
      EmptyCount(q);
      assert all.Keys == {};
    }
  }

  lemma IndexCountStep(p: Book, q: Book, all: Index, t: Tx)
    requires IndexInv(p, q, all, {}) && Holds(q, t)
    ensures IndexInv(p, q[t.from := q[t.from] - {t.nonce}], all - {t.hash}, {})
    ensures Count(q[t.from := q[t.from] - {t.nonce}]) == Count(q) - 1
  {
    RemoveOneKeeps(p, q, all, t);
    hide IndexInv;
    var m := q[t.from];
    assert (m - {t.nonce}).Keys == m.Keys - {t.nonce};
    CountTrimmed(q, t.from, m - {t.nonce});
  }

  lemma NoneKnown(p: Book, q: Book, all: Index)
    requires IndexInv(p, q, all, {}) && all.Keys == {}
    ensures forall a :: a in p ==> p[a] == map[]
    ensures forall a :: a in q ==> q[a] == map[]
  {
    assert |all| == 0;
    forall a | a in p ensures p[a] == map[] {
      ListFits(p, q, all, a);
    }
    IndexInvSwap(p, q, all, {});
    forall a | a in q ensures q[a] == map[] {
      ListFits(q, p, all, a);
    }
  }

  // ---------- Promotion, seen from outside ----------

  /** No queued transaction of `a` could be executed next. */
  ghost predicate Exhausted(q: Book, virtual: map<Address, Nonce>, ledger: Ledger, a: Address) {
    forall n :: Taken(q, a, n) ==> NextNonce(virtual, ledger, a) < n
  }

  ghost predicate NoneStale(q: Book, ledger: Ledger, a: Address) {
    forall n :: Taken(q, a, n) ==> NonceAt(ledger, a) <= n
  }

  /** There is nothing to be done for `a`: no queued transaction is executable or stale, nor are there too many. */
  ghost predicate AtRest(q: Book, virtual: map<Address, Nonce>, ledger: Ledger, locals: set<Address>, cap: nat,
                         a: Address) {
    && Exhausted(q, virtual, ledger, a) && NoneStale(q, ledger, a)
    && (a !in locals ==> |ListOf(q, a)| <= cap)
  }

  /** What was held is still held. */
  ghost predicate Grown(before: Book, after: Book) {
    forall t :: Holds(before, t) ==> Holds(after, t)
  }

  /** What leaves neither the index nor enters the queue stays pending. */
  lemma PendingGrows(p: Book, q: Book, p': Book, q': Book, all: Index)
    requires IndexInv(p, q, all, {}) && IndexInv(p', q', all, {}) && Grown(q', q)
    ensures Grown(p, p')
  {
    hide Filed, InTransit;
    forall t | Holds(p, t)
      ensures Holds(p', t)
    {
      assert Knows(all, t);
      assert Holds(q', t) ==> Holds(q, t);
      assert !Taken(q, t.from, t.nonce);
    }
  }

  /** Transaction `t` was cut off a remote queue list that is full without it. */
  ghost predicate OverCap(q: Book, a: Address, cap: nat, t: Tx) {
    && t.from == a
    && |ListOf(q, a)| == cap
    && (forall n :: n in ListOf(q, a) ==> n < t.nonce)
  }

  ghost predicate NextSameBut(before: map<Address, Nonce>, after: map<Address, Nonce>, ledger: Ledger, a: Address) {
    forall b :: b != a ==> NextNonce(before, ledger, b) == NextNonce(after, ledger, b)
  }

  ghost predicate NextLowered(before: map<Address, Nonce>, after: map<Address, Nonce>, ledger: Ledger) {
    after.Keys == before.Keys && forall a :: NextNonce(after, ledger, a) <= NextNonce(before, ledger, a)
  }

  /** A virtual nonce is made only for an account with pending transactions. */
  ghost predicate NewOnlyPending(before: map<Address, Nonce>, after: map<Address, Nonce>, p: Book) {
    forall a :: a in after && a !in before ==> a in p
  }

  lemma NextLoweredTwo(first: map<Address, Nonce>, second: map<Address, Nonce>, third: map<Address, Nonce>,
                       ledger: Ledger)
    requires NextLowered(first, second, ledger) && NextLowered(second, third, ledger)
    ensures NextLowered(first, third, ledger)
  {
    forall a ensures NextNonce(third, ledger, a) <= NextNonce(first, ledger, a) {
      assert NextNonce(second, ledger, a) <= NextNonce(first, ledger, a);
    }
  }

  lemma NextNotLowered(virtual: map<Address, Nonce>, ledger: Ledger)
    ensures NextLowered(virtual, virtual, ledger)
  {
  }

  // ---------- Adding, as a function ----------

  datatype AddError = NoError | KnownTransaction | InvalidTransaction | QueueFull | ReplaceUnderpriced

  /** The queue and the index after transactions were offered to `add`, with its answers. */
  datatype Offer = Offer(errors: seq<AddError>, queue: Book, all: Index)

  ghost function Answer(p: Book, q: Book, all: Index, capacity: nat, t: Tx, valid: bool): AddError {
    if t.hash in all then KnownTransaction
    else if !valid then InvalidTransaction
    else if |all| >= capacity then QueueFull
    else if Taken(p, t.from, t.nonce) then NoError
    else if Taken(q, t.from, t.nonce) then ReplaceUnderpriced
    else NoError
  }

  /** Whether the transaction is really taken in: a nonce already pending is answered but ignored. */
  ghost predicate TakesIn(p: Book, q: Book, all: Index, capacity: nat, t: Tx, valid: bool) {
    Answer(p, q, all, capacity, t, valid) == NoError && !Taken(p, t.from, t.nonce)
  }

  ghost function OfferAll(p: Book, q: Book, all: Index, capacity: nat, txs: seq<Tx>, valid: seq<bool>): Offer
    requires |valid| == |txs|
  {
    if txs == [] then Offer([], q, all)
    else
      var k := |txs| - 1;
      var o := OfferAll(p, q, all, capacity, txs[..k], valid[..k]);
      var answer := Answer(p, o.queue, o.all, capacity, txs[k], valid[k]);
      if TakesIn(p, o.queue, o.all, capacity, txs[k], valid[k])
      then Offer(o.errors + [answer], File(o.queue, txs[k]), o.all[txs[k].hash := txs[k]])
      else Offer(o.errors + [answer], o.queue, o.all)
  }
}
