/** Processing whole blocks: one overlay per contract, flushed at the end. */
module Blocks {
  import opened Basics
  import opened Tokens
  import opened Overlay
  import opened Contracts
  import opened Refusals
  import opened Faults

  datatype Block = Block(number: nat, txs: seq<Tx>)

  type Handlers = map<Chain, ContractApi>

  /** Every overlay shows its contract's part of the flat state `s`; a contract without overlay is unchanged. */
  ghost predicate Tracks(hs: Handlers, store: Store, s: State)
    reads store, set c | c in hs :: hs[c], set c | c in hs :: hs[c].memory
  {
    && (forall c :: c in hs ==> Follows(hs[c], c, store, s))
    && (forall c, d :: c in hs && d in hs && c != d ==> hs[c].memory != hs[d].memory)
    && (forall c :: c !in hs ==> Agree(store.db, s, c))
  }

  ghost predicate Follows(h: ContractApi, c: Chain, store: Store, s: State)
    reads h, h.memory, store
  {
    h.chain == c && h.store == store && h.Valid() && Agree(h.View(), s, c)
  }

  lemma AgreeTrans(s: State, t: State, u: State, c: Chain)
    requires Agree(s, t, c) && Agree(t, u, c)
    ensures Agree(s, u, c)
  {
  }

  lemma AgreeBack(s: State, t: State, c: Chain)
    requires Agree(s, t, c)
    ensures Agree(t, s, c)
  {
  }

  /** The handler of the contract, made when it is first needed. */
  method HandlerFor(hs: Handlers, store: Store, tx: Tx, c: Chain, ghost s: State)
    returns (hs': Handlers, h: ContractApi)
    requires store.Coherent() && Tracks(hs, store, s)
    ensures Tracks(hs', store, s) && c in hs' && hs'[c] == h
    ensures if c in hs then hs' == hs else hs' == hs[c := h] && fresh(h) && fresh(h.memory)
  {
    if c in hs {
      return hs, hs[c];
    }
    h := new ContractApi(c, store, tx.sender);
    OverlaidNothing(store.db);
    hs' := hs[c := h];
  }

  /**
   * One transaction through its overlay, whatever it can read there; `f` is what the database failed to read.
   * Restoring the snapshot after a refusal restores nothing, because the snapshot is the live overlay: the effect of
   * the refused transaction stays.
   */
  method InvokeWithSnapshot(h: ContractApi, tx: Tx, c: Chain, store: Store, ghost s: State)
    returns (ok: bool, ghost f: Faulty)
    requires tx.contract == Some(c) && Follows(h, c, store, s)
    modifies h, h.memory
    ensures h.memory == old(h.memory)
    ensures Follows(h, c, store, FaultyEffect(s, f, tx).1) && ok == FaultyEffect(s, f, tx).0
    ensures f !! store.cache.Keys
  {
    hide Overlaid, Agree, FaultyEffect;
    h.from := tx.sender;
    h.broken := *;
    ghost var v := h.View();
    f := h.Failing();
    var snapshot := h.GetSnapshot();
    ok := Invoke(h, tx);
    if !ok {
      h.SnapshotRestore(snapshot);
    }
    EffectLocal(v, s, f, tx, c);
  }

  /** All overlays but the one of contract `c`. */
  ghost predicate OthersTrack(hs: Handlers, store: Store, s: State, c: Chain)
    reads store, set d | d in hs && d != c :: hs[d], set d | d in hs && d != c :: hs[d].memory
  {
    && (forall d :: d in hs && d != c ==> Follows(hs[d], d, store, s))
    && (forall d :: d !in hs && d != c ==> Agree(store.db, s, d))
  }

  lemma OthersStep(hs: Handlers, store: Store, s: State, f: Faulty, tx: Tx, c: Chain)
    requires tx.contract == Some(c) && OthersTrack(hs, store, s, c)
    ensures OthersTrack(hs, store, FaultyEffect(s, f, tx).1, c)
  {
    hide Overlaid, Agree, FaultyEffect;
    forall d: Chain | d != c
      ensures d in hs ==> Follows(hs[d], d, store, FaultyEffect(s, f, tx).1)
      ensures d !in hs ==> Agree(store.db, FaultyEffect(s, f, tx).1, d)
    {
      EffectOther(s, f, tx, d);
      AgreeBack(FaultyEffect(s, f, tx).1, s, d);
      if d in hs {
        assert Follows(hs[d], d, store, s);
        AgreeTrans(hs[d].View(), s, FaultyEffect(s, f, tx).1, d);
      } else {
        AgreeTrans(store.db, s, FaultyEffect(s, f, tx).1, d);
      }
    }
  }

  method ProcessTx(hs: Handlers, store: Store, tx: Tx, ghost s: State) returns (ok: bool, ghost f: Faulty)
    requires tx.contract.Some? && tx.contract.value in hs && Tracks(hs, store, s)
    modifies hs[tx.contract.value], hs[tx.contract.value].memory
    ensures hs[tx.contract.value].memory == old(hs[tx.contract.value].memory)
    ensures Tracks(hs, store, FaultyEffect(s, f, tx).1) && f !! store.cache.Keys
  {
    var c := tx.contract.value;
    var h := hs[c];
    Separate(hs, store, s, c);
    hide Follows, OthersTrack;
    ok, f := InvokeWithSnapshot(h, tx, c, store, s);
    OthersStep(hs, store, s, f, tx, c);
    Together(hs, store, FaultyEffect(s, f, tx).1, c);
  }

  lemma Separate(hs: Handlers, store: Store, s: State, c: Chain)
    requires Tracks(hs, store, s) && c in hs
    ensures OthersTrack(hs, store, s, c) && Follows(hs[c], c, store, s)
    ensures forall d :: d in hs && d != c ==> hs[d] != hs[c] && hs[d].memory != hs[c].memory
  {
    assert forall d :: d in hs ==> Follows(hs[d], d, store, s);
  }

  lemma Together(hs: Handlers, store: Store, s: State, c: Chain)
    requires c in hs && OthersTrack(hs, store, s, c) && Follows(hs[c], c, store, s)
    requires forall d :: d in hs && d != c ==> hs[d].memory != hs[c].memory
    ensures Tracks(hs, store, s)
  {
    forall d, e | d in hs && e in hs && d != e
      ensures hs[d].memory != hs[e].memory
    {
      assert d == c || e == c by {
        match d case HGS => case HNB =>
      }
    }
  }

  // ---------- Flushing ----------

  /** The items written so far cover exactly the flushed overlays. */
  ghost predicate Flushed(items: seq<Item>, hs: Handlers, left: set<Chain>, store: Store, s: State)
    reads store
  {
    && (forall k :: k in ChangesOf(items) ==> k.chain in hs && k.chain !in left)
    && (forall c :: c in hs && c !in left ==> Agree(Overlaid(store.db, ChangesOf(items)), s, c))
  }

  lemma SameChanges(s: State, m: Changes, n: Changes, c: Chain)
    requires forall k: StateKey :: k.chain == c ==> (k in m <==> k in n) && (k in m ==> m[k] == n[k])
    ensures Agree(Overlaid(s, m), Overlaid(s, n), c)
  {
  }

  lemma FlushOne(items: seq<Item>, more: seq<Item>, hs: Handlers, left: set<Chain>, store: Store, s: State, c: Chain)
    requires Flushed(items, hs, left, store, s) && c in left && c in hs
    requires forall k :: k in ChangesOf(more) ==> k.chain == c
    requires Agree(Overlaid(store.db, ChangesOf(more)), s, c)
    ensures Flushed(items + more, hs, left - {c}, store, s)
  {
    hide Overlaid, Agree, ChangesOf;
    ChangesJoin(items, more);
    var m := ChangesOf(items + more);
    forall d | d in hs && d !in left - {c}
      ensures Agree(Overlaid(store.db, m), s, d)
    {
      if d == c {
        SameChanges(store.db, m, ChangesOf(more), d);
        AgreeTrans(Overlaid(store.db, m), Overlaid(store.db, ChangesOf(more)), s, d);
      } else {
        SameChanges(store.db, m, ChangesOf(items), d);
        AgreeTrans(Overlaid(store.db, m), Overlaid(store.db, ChangesOf(items)), s, d);
      }
    }
  }

  /** The changes of all overlays, contract by contract in any order. */
  method Flush(hs: Handlers, store: Store, ghost s: State) returns (items: seq<Item>)
    requires Tracks(hs, store, s)
    ensures Overlaid(store.db, ChangesOf(items)) == s
  {
    hide Overlaid, Agree;
    items := [];
    var left := hs.Keys;
    while left != {}
      invariant left <= hs.Keys && Flushed(items, hs, left, store, s)
      decreases |left|
    {
      var c :| c in left;
      assert Follows(hs[c], c, store, s);
      var more := hs[c].GetAllState();
      FlushOne(items, more, hs, left, store, s, c);
      items := items + more;
      left := left - {c};
    }
    AllFlushed(items, hs, store, s);
  }

  lemma AllFlushed(items: seq<Item>, hs: Handlers, store: Store, s: State)
    requires Tracks(hs, store, s) && Flushed(items, hs, {}, store, s)
    ensures Overlaid(store.db, ChangesOf(items)) == s
  {
    var t := Overlaid(store.db, ChangesOf(items));
    forall c: Chain
      ensures Agree(t, s, c)
    {
      if c !in hs {
        assert Agree(t, store.db, c);
        AgreeTrans(t, store.db, s, c);
      }
    }
    AgreeOnAll(t, s);
  }

  // ---------- Blocks ----------

  /** The nonce store after a block: one past the last transaction of each sender. */
  function NoncesAfter(ns: map<Address, nat>, txs: seq<Tx>): map<Address, nat> {
    if txs == [] then ns
    else
      var tx := txs[|txs| - 1];
      NoncesAfter(ns, txs[..|txs| - 1])[tx.sender := (tx.nonce + 1) % TWO_64]
  }

  predicate SentBy(txs: seq<Tx>, a: Address) {
    exists i :: 0 <= i < |txs| && txs[i].sender == a
  }

  /** Transaction `i` is the last of its sender. */
  predicate LastOfSender(txs: seq<Tx>, i: nat)
    requires i < |txs|
  {
    forall j :: i < j < |txs| ==> txs[j].sender != txs[i].sender
  }

  /** Each sender stands one past its last transaction, modulo 2^64; everyone else stands where it stood. */
  ghost predicate NoncesMoved(was: map<Address, nat>, now: map<Address, nat>, txs: seq<Tx>) {
    && (forall i :: 0 <= i < |txs| && LastOfSender(txs, i) ==>
        txs[i].sender in now && now[txs[i].sender] == (txs[i].nonce + 1) % TWO_64)
    && (forall a :: !SentBy(txs, a) ==> (a in now <==> a in was) && (a in now ==> now[a] == was[a]))
  }

  lemma {:induction false} SenderMoves(ns: map<Address, nat>, txs: seq<Tx>, i: nat)
    requires i < |txs| && LastOfSender(txs, i)
    ensures txs[i].sender in NoncesAfter(ns, txs)
    ensures NoncesAfter(ns, txs)[txs[i].sender] == (txs[i].nonce + 1) % TWO_64
    decreases |txs|
  {
    var k := |txs| - 1;
    if i < k {
      assert txs[k].sender != txs[i].sender;
      SenderMoves(ns, txs[..k], i);
    }
  }

  lemma {:induction false} OthersStand(ns: map<Address, nat>, txs: seq<Tx>, a: Address)
    requires !SentBy(txs, a)
    ensures a in NoncesAfter(ns, txs) <==> a in ns
    ensures a in ns ==> NoncesAfter(ns, txs)[a] == ns[a]
    decreases |txs|
  {
    if txs != [] {
      var k := |txs| - 1;
      assert txs[k].sender != a;
      OthersStand(ns, txs[..k], a);
    }
  }

  lemma NoncesFollow(ns: map<Address, nat>, txs: seq<Tx>)
    ensures NoncesMoved(ns, NoncesAfter(ns, txs), txs)
  {
    hide NoncesAfter, SentBy, LastOfSender;
    var now := NoncesAfter(ns, txs);
    forall i | 0 <= i < |txs| && LastOfSender(txs, i)
      ensures txs[i].sender in now && now[txs[i].sender] == (txs[i].nonce + 1) % TWO_64
    {
      SenderMoves(ns, txs, i);
    }
    forall a | !SentBy(txs, a)
      ensures (a in now <==> a in ns) && (a in now ==> now[a] == ns[a])
    {
      OthersStand(ns, txs, a);
    }
  }

  predicate Installed(txs: seq<Tx>) {
    forall i :: 0 <= i < |txs| ==> txs[i].contract.Some?
  }

  /** One transaction, with its contract's overlay made if need be. */
  method OneTx(hs: Handlers, store: Store, tx: Tx, ghost s: State) returns (hs': Handlers, ghost f: Faulty)
    requires tx.contract.Some? && store.Coherent() && Tracks(hs, store, s)
    modifies set c | c in hs :: hs[c], set c | c in hs :: hs[c].memory
    ensures Tracks(hs', store, FaultyEffect(s, f, tx).1) && hs.Keys <= hs'.Keys && f !! store.cache.Keys
    ensures forall c :: c in hs' && c !in hs ==> fresh(hs'[c]) && fresh(hs'[c].memory)
    ensures forall c :: c in hs ==> hs'[c] == hs[c] && hs[c].memory == old(hs[c].memory)
  {
    hide Overlaid, Agree, FaultyEffect, Follows;
    var h;
    hs', h := HandlerFor(hs, store, tx, tx.contract.value, s);
    var ok;
    ok, f := ProcessTx(hs', store, tx, s);
  }

  function NonceItem(tx: Tx): (Address, nat) {
    (tx.sender, (tx.nonce + 1) % TWO_64)
  }

  /**
   * Runs the transactions in order, `fs` being what the database failed to read in each; a transaction of a
   * contract that is not installed stops the block.
   */
  method RunTxs(store: Store, txs: seq<Tx>)
    returns (ok: bool, hs: Handlers, ni: seq<(Address, nat)>, ghost fs: seq<Faulty>)
    requires store.Coherent()
    ensures ok == Installed(txs)
    ensures ok ==> |fs| == |txs| && Tracks(hs, store, FaultyRun(store.db, txs, fs))
    ensures forall i :: 0 <= i < |fs| ==> fs[i] !! store.cache.Keys
    ensures ok ==> |ni| == |txs| && forall i :: 0 <= i < |ni| ==> ni[i] == NonceItem(txs[i])
  {
    hide Overlaid, Agree, FaultyRun, FaultyEffect, Tracks;
    hs, ni, fs := map[], [], [];
    NothingRun(store.db);
    NothingTracked(store);
    for i := 0 to |txs|
      invariant store.Coherent() && forall c :: c in hs ==> fresh(hs[c]) && fresh(hs[c].memory)
      invariant |fs| == i && Tracks(hs, store, FaultyRun(store.db, txs[..i], fs))
      invariant |ni| == i && forall j :: 0 <= j < i ==> ni[j] == NonceItem(txs[j])
      invariant Installed(txs[..i]) && forall j :: 0 <= j < |fs| ==> fs[j] !! store.cache.Keys
    {
      var tx := txs[i];
      if tx.contract == None {
        return false, hs, ni, fs;
      }
      ghost var f;
      hs, f := OneTx(hs, store, tx, FaultyRun(store.db, txs[..i], fs));
      RunMore(store.db, txs[..i], fs, tx, f);
      assert txs[..i + 1] == txs[..i] + [tx];
      fs := fs + [f];
      ni := ni + [NonceItem(tx)];
    }
    assert txs[..|txs|] == txs;
    ok := true;
  }

  lemma RunMore(s: State, txs: seq<Tx>, fs: seq<Faulty>, tx: Tx, f: Faulty)
    requires |txs| == |fs|
    ensures FaultyRun(s, txs + [tx], fs + [f]) == FaultyEffect(FaultyRun(s, txs, fs), f, tx).1
  {
    assert (txs + [tx])[..|txs|] == txs && (fs + [f])[..|fs|] == fs;
  }

  class Ledger {
    const store: Store
    var height: nat
    var nonces: map<Address, nat>

    constructor (st: Store, h: nat)
      ensures store == st && height == h && nonces == map[]
    {
      store, height, nonces := st, h, map[];
    }

    /** Refused, without effect, unless the block is the next one. */
    method WriteLedger(number: nat, items: seq<Item>, ni: seq<(Address, nat)>) returns (ok: bool)
      requires store.Coherent()
      modifies this, store
      ensures store.Coherent() && ok == (number == old(height))
      ensures !ok ==> store.db == old(store.db) && height == old(height) && nonces == old(nonces)
      ensures ok ==> store.db == Overlaid(old(store.db), ChangesOf(items)) && height == old(height) + 1
      ensures ok ==> nonces == Noted(old(nonces), ni)
    {
      hide Overlaid, ChangesOf;
      if number != height {
        return false;
      }
      store.SetContractState(items);
      height := number + 1;
      for i := 0 to |ni|
        invariant nonces == Noted(old(nonces), ni[..i])
        modifies `nonces
      {
        assert ni[..i + 1] == ni[..i] + [ni[i]];
        NotedSnoc(old(nonces), ni[..i], ni[i]);
        nonces := nonces[ni[i].0 := ni[i].1];
      }
      assert ni[..|ni|] == ni;
      ok := true;
    }

    /**
     * A block leaves the state that its transactions, run one by one on a flat map, would leave:
     * whatever the order in which overlays are flushed, whatever the cache has dropped and whatever the database
     * failed to read, which `fs` tells for each transaction.
     */
    method BlockProcess(b: Block) returns (ok: bool, ghost fs: seq<Faulty>)
      requires store.Coherent()
      modifies this, store
      ensures store.Coherent()
      ensures ok == (Installed(b.txs) && b.number == old(height))
      ensures !ok ==> store.db == old(store.db) && height == old(height) && nonces == old(nonces)
      ensures ok ==>
        && |fs| == |b.txs| && store.db == FaultyRun(old(store.db), b.txs, fs)
        && height == old(height) + 1
        && nonces == NoncesAfter(old(nonces), b.txs) && NoncesMoved(old(nonces), nonces, b.txs)
      ensures forall i :: 0 <= i < |fs| ==> fs[i] !! old(store.cache).Keys
      ensures ok && Faultless(fs) ==> store.db == RunEffects(old(store.db), b.txs)
      ensures ok && Faultless(fs) && WellFormed(old(store.db)) ==>
        store.db == Run(old(store.db), b.txs) && WellFormed(store.db)
    {
      hide Overlaid, Agree, Run, RunEffects, FaultyRun, WellFormed, Follows, Tracks, ChangesOf, Faultless, NoncesMoved;
      var known, hs, ni;
      known, hs, ni, fs := RunTxs(store, b.txs);
      if !known {
        return false, fs;
      }
      if Faultless(fs) {
        FaultlessRun(store.db, b.txs, fs);
      }
      if WellFormed(store.db) {
        WellFormedRuns(store.db, b.txs);
      }
      var items := Flush(hs, store, FaultyRun(store.db, b.txs, fs));
      NoncesNoted(nonces, b.txs, ni);
      NoncesFollow(nonces, b.txs);
      ok := WriteLedger(b.number, items, ni);
    }

    /** Releasing an epoch outside of a block; a refusal leaves the store alone. */
    method UnfreezeToken(e: nat, anyone: Address) returns (ok: bool, ghost f: Faulty)
      requires store.Coherent()
      modifies store
      ensures store.Coherent() && ok == FaultyThaw(old(store.db), f, e).0 && f !! old(store.cache).Keys
      ensures store.db == if ok then FaultyThaw(old(store.db), f, e).1 else old(store.db)
      ensures f == {} && WellFormed(old(store.db)) ==> ok && WellFormed(store.db)
    {
      hide Overlaid, FaultyThaw, ChangesOf, WellFormed;
      var h := new ContractApi(HNB, store, anyone);
      h.broken := *;
      f := h.Failing();
      OverlaidNothing(store.db);
      if WellFormed(store.db) {
        ThawKeeps(store.db, e);
      }
      ok := UnFreezePro(h, e);
      if !ok {
        return false, f;
      }
      var items := h.GetAllState();
      store.SetContractState(items);
    }
  }

  lemma ThawKeeps(s: State, e: nat)
    requires WellFormed(s)
    ensures FaultyThaw(s, {}, e).0 && WellFormed(FaultyThaw(s, {}, e).1)
  {
    var records := RecordsOf(s, e);
    assert forall i :: 0 <= i < |records| ==> Fetched(s, {}, HNB, records[i].from);
    ReleaseKeeps(s, records);
  }

  function Noted(ns: map<Address, nat>, ni: seq<(Address, nat)>): map<Address, nat> {
    if ni == [] then ns
    else Noted(ns, ni[..|ni| - 1])[ni[|ni| - 1].0 := ni[|ni| - 1].1]
  }

  lemma NotedSnoc(ns: map<Address, nat>, ni: seq<(Address, nat)>, x: (Address, nat))
    ensures Noted(ns, ni + [x]) == Noted(ns, ni)[x.0 := x.1]
  {
    assert (ni + [x])[..|ni|] == ni;
  }

  lemma NothingRun(s: State)
    ensures FaultyRun(s, [], []) == s
  {
  }

  lemma NothingTracked(store: Store)
    ensures Tracks(map[], store, store.db)
  {
  }

  lemma {:induction false} NoncesNoted(ns: map<Address, nat>, txs: seq<Tx>, ni: seq<(Address, nat)>)
    requires |ni| == |txs| && forall i :: 0 <= i < |ni| ==> ni[i] == NonceItem(txs[i])
    ensures Noted(ns, ni) == NoncesAfter(ns, txs)
    decreases |txs|
  {
    if txs != [] {
      NoncesNoted(ns, txs[..|txs| - 1], ni[..|txs| - 1]);
    }
  }
}
