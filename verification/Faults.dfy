/** Transactions while entries cannot be fetched from the database, and when the coins are still conserved. */
module Faults {
  import opened Basics
  import opened Tokens
  import opened Refusals
  import opened TokenLaws

  /** The entries whose reading fails during a transaction. */
  type Faulty = set<StateKey>

  function TallyKey(e: nat): StateKey {
    StateKey(HNB, Tally(e))
  }

  function RecordsKey(e: nat): StateKey {
    StateKey(HNB, Records(e))
  }

  predicate Fetched(s: State, f: Faulty, c: Chain, a: Address) {
    Acct(c, a) !in f && AccountReadable(s, c, a)
  }

  /** A transfer is refused when either account cannot be fetched. */
  function FaultyTransfer(s: State, f: Faulty, c: Chain, from: Address, to: Address, amount: int64): Option<State> {
    if Acct(c, from) in f || Acct(c, to) in f then None else Transfer(s, c, from, to, amount)
  }

  /** The checks of a vote up to its tally. */
  predicate Admitted(s: State, from: Option<Address>, c: Option<Candidate>, power: int64, e: nat) {
    && c.Some? && from.Some? && power != 0 && e != 0 && Acct(HNB, from.value) in s
    && AccountReadable(s, HNB, from.value) && power <= Balance(s, HNB, from.value)
  }

  /** The first half of a vote; a tally that cannot be fetched is taken for success, with nothing done. */
  function FaultyCounted(s: State, f: Faulty, from: Option<Address>, c: Option<Candidate>, power: int64, e: nat)
    : Option<State>
  {
    if !Admitted(s, from, c, power, e) || Acct(HNB, from.value) in f then None
    else if TallyKey(e) in f then Some(s)
    else Counted(s, from, c, power, e)
  }

  /** A vote and whether it is accepted; records that cannot be fetched are again taken for success. */
  function FaultyVote(s: State, f: Faulty, from: Option<Address>, c: Option<Candidate>, power: int64, e: nat)
    : (bool, State)
  {
    var half := FaultyCounted(s, f, from, c, power, e);
    if half.None? then (false, s)
    else if RecordsKey(e) in f then (true, half.value)
    else if !RecordsReadable(s, e) then (false, half.value)
    else (true, Recorded(half.value, from.value, power, e))
  }

  /** How many records can be released before one whose account cannot be fetched or read. */
  function FaultyReleasable(s: State, f: Faulty, records: seq<VoteRecord>): (k: nat)
    ensures k <= |records|
    ensures forall i :: 0 <= i < k ==> Fetched(s, f, HNB, records[i].from)
    ensures k < |records| ==> !Fetched(s, f, HNB, records[k].from)
    decreases |records|
  {
    if records == [] || !Fetched(s, f, HNB, records[0].from) then 0 else 1 + FaultyReleasable(s, f, records[1..])
  }

  /** A release; records that cannot be fetched are taken for success, with nothing done. */
  function FaultyThaw(s: State, f: Faulty, e: nat): (bool, State) {
    var records := RecordsOf(s, e);
    var k := FaultyReleasable(s, f, records);
    if RecordsKey(e) in f then (true, s)
    else if !RecordsReadable(s, e) then (false, s)
    else if k < |records| then (false, Release(s, records[..k]))
    else (true, Release(s, records) - {StateKey(HNB, Records(e)), StateKey(HNB, Tally(e))})
  }

  /** Whether a transaction is accepted, and what it leaves. */
  function FaultyEffect(s: State, f: Faulty, tx: Tx): (bool, State) {
    if tx.contract.None? then (false, s)
    else
      match tx.op
      case Same(to, amount) =>
        var t := FaultyTransfer(s, f, tx.contract.value, tx.sender, to, amount);
        (t.Some?, Or(t, s))
      case Vote(from, c, power, e) =>
        if tx.contract.value == HNB then FaultyVote(s, f, from, c, power, e) else (true, s)
      case Unfreeze(e) => if tx.contract.value == HNB then FaultyThaw(s, f, e) else (true, s)
      case Unknown => (true, s)
      case Unreadable => (false, s)
  }

  function FaultyRun(s: State, txs: seq<Tx>, fs: seq<Faulty>): State
    requires |txs| == |fs|
    decreases |txs|
  {
    if txs == [] then s
    else
      var k := |txs| - 1;
      FaultyEffect(FaultyRun(s, txs[..k], fs[..k]), fs[k], txs[k]).1
  }

  // ---------- Without faults ----------

  lemma {:induction false} NoFaultyRelease(s: State, records: seq<VoteRecord>)
    ensures FaultyReleasable(s, {}, records) == Releasable(s, records)
    decreases |records|
  {
    if records != [] {
      NoFaultyRelease(s, records[1..]);
    }
  }

  /** When every entry can be fetched this is the effect without faults. */
  lemma NoFaults(s: State, tx: Tx)
    ensures FaultyEffect(s, {}, tx) == (Accepted(s, tx), Effect(s, tx))
  {
    hide Wrap, Release;
    if tx.contract == Some(HNB) && tx.op.Unfreeze? {
      NoFaultyRelease(s, RecordsOf(s, tx.op.thawed));
      assert RecordsOf(s, tx.op.thawed)[..0] == [];
      NothingReleased(s);
    }
  }

  lemma NothingReleased(s: State)
    ensures Release(s, []) == s
  {
  }

  ghost predicate Faultless(fs: seq<Faulty>) {
    forall i :: 0 <= i < |fs| ==> fs[i] == {}
  }

  lemma {:induction false} FaultlessRun(s: State, txs: seq<Tx>, fs: seq<Faulty>)
    requires |txs| == |fs| && Faultless(fs)
    ensures FaultyRun(s, txs, fs) == RunEffects(s, txs)
    decreases |txs|
  {
    if txs != [] {
      var k := |txs| - 1;
      FaultlessRun(s, txs[..k], fs[..k]);
      NoFaults(RunEffects(s, txs[..k]), txs[k]);
    }
  }

  // ---------- Conservation ----------

  lemma {:induction false} ReleaseWellFormed(s: State, records: seq<VoteRecord>)
    requires WellFormed(s)
    ensures WellFormed(Release(s, records))
  {
    ReleaseKeeps(s, records);
  }

  lemma FaultyKeeps(s: State, f: Faulty, tx: Tx)
    requires WellFormed(s)
    ensures WellFormed(FaultyEffect(s, f, tx).1)
  {
    hide Wrap;
    if tx.contract == Some(HNB) && tx.op.Unfreeze? {
      var records := RecordsOf(s, tx.op.thawed);
      ReleaseWellFormed(s, records);
      ReleaseWellFormed(s, records[..FaultyReleasable(s, f, records)]);
    }
  }

  lemma RecordedTotal(s: State, from: Address, power: int64, e: nat, d: Chain)
    requires WellFormed(s)
    ensures Total(Recorded(s, from, power, e), d) == Total(s, d) + if d == HNB then power else 0
  {
    hide Total;
    var records := RecordsOf(s, e);
    var v := Frozen(records + [VoteRecord(from, power)]);
    TotalPut(s, StateKey(HNB, Records(e)), v, d);
    PowersSnoc(records, VoteRecord(from, power));
  }

  lemma CountedTotal(s: State, from: Option<Address>, c: Option<Candidate>, power: int64, e: nat, d: Chain)
    requires WellFormed(s) && Counted(s, from, c, power, e).Some?
    ensures
      var x := Balance(s, HNB, from.value) - power;
      Total(Counted(s, from, c, power, e).value, d) ==
        if d == HNB then Total(s, d) - power + (Wrap(x) - x) else Total(s, d)
  {
    hide Total, Wrap;
    var tally, k := TallyOf(s, e), StateKey(HNB, Tally(e));
    var v := Votes(tally[c.value := Wrap(Voted(tally, c.value) + power)]);
    TotalPut(s, k, v, d);
    TotalCredit(s[k := v], HNB, from.value, Balance(s, HNB, from.value) - power, d);
  }

  /**
   * The steps that make or destroy coins: a vote for which just one of tally and records cannot be fetched, and a
   * release that stops at an account after returning votes that do not cancel out.
   */
  predicate Unbalanced(s: State, f: Faulty, tx: Tx) {
    && tx.contract == Some(HNB)
    && match tx.op
       case Vote(from, c, power, e) =>
         && Admitted(s, from, c, power, e) && Acct(HNB, from.value) !in f
         && (TallyKey(e) in f) != (RecordsKey(e) in f)
       case Unfreeze(e) =>
         var records := RecordsOf(s, e);
         var k := FaultyReleasable(s, f, records);
         RecordsKey(e) !in f && k < |records| && Powers(records[..k]) % TWO_64 != 0
       case _ => false
  }

  lemma NotCongruent(a: int, n: int)
    ensures Congruent(a + n, a) <==> n % TWO_64 == 0
  {
  }

  lemma SmallShift(power: int64)
    requires power != 0
    ensures power % TWO_64 != 0 && (0 - power as int) % TWO_64 != 0
  {
  }

  lemma VoteBalance(s: State, f: Faulty, from: Option<Address>, c: Option<Candidate>, power: int64, e: nat, d: Chain)
    requires WellFormed(s)
    ensures
      var half := Admitted(s, from, c, power, e) && Acct(HNB, from.value) !in f;
      Congruent(Total(FaultyVote(s, f, from, c, power, e).1, d), Total(s, d)) <==>
        !(d == HNB && half && (TallyKey(e) in f) != (RecordsKey(e) in f))
  {
    assert RecordsKey(e) in s ==> Typed(RecordsKey(e), s[RecordsKey(e)]);
    assert TallyKey(e) in s ==> Typed(TallyKey(e), s[TallyKey(e)]);
    hide Total, Wrap, Congruent, WellFormed, Recorded;
    var t := Total(s, d);
    OffByWraps(t, 0, 0);
    if FaultyCounted(s, f, from, c, power, e).Some? {
      SmallShift(power);
      NotCongruent(t, power);
      if TallyKey(e) in f {
        RecordedTotal(s, from.value, power, e, d);
      } else {
        CountedBalance(s, from, c, power, e, d);
      }
    }
  }

  lemma CountedBalance(s: State, from: Option<Address>, c: Option<Candidate>, power: int64, e: nat, d: Chain)
    requires WellFormed(s) && Counted(s, from, c, power, e).Some?
    ensures
      var half := Counted(s, from, c, power, e).value;
      && (Congruent(Total(half, d), Total(s, d)) <==> d != HNB)
      && Congruent(Total(Recorded(half, from.value, power, e), d), Total(s, d))
  {
    hide Total, Wrap, Congruent, Recorded;
    var half, t := Counted(s, from, c, power, e).value, Total(s, d);
    var x := Balance(s, HNB, from.value) - power;
    CountedTotal(s, from, c, power, e, d);
    assert WellFormed(half);
    RecordedTotal(half, from.value, power, e, d);
    OffByWraps(t, x, 0);
    SmallShift(power);
    ShiftedByWrap(t, power, x);
  }

  lemma ShiftedByWrap(t: int, power: int64, x: int)
    requires power != 0
    ensures !Congruent(t - power + (Wrap(x) - x), t)
  {
    SmallShift(power);
    WrapCongruent(x);
  }

  lemma ThawBalance(s: State, f: Faulty, e: nat, d: Chain)
    requires WellFormed(s)
    ensures
      var records := RecordsOf(s, e);
      var k := FaultyReleasable(s, f, records);
      Congruent(Total(FaultyThaw(s, f, e).1, d), Total(s, d)) <==>
        !(d == HNB && RecordsKey(e) !in f && k < |records| && Powers(records[..k]) % TWO_64 != 0)
  {
    assert RecordsKey(e) in s ==> Typed(RecordsKey(e), s[RecordsKey(e)]);
    hide Total, Wrap, Congruent, WellFormed, Release, Powers, FaultyReleasable, RecordsOf;
    var t, records := Total(s, d), RecordsOf(s, e);
    OffByWraps(t, 0, 0);
    PartReleased(s, records[..FaultyReleasable(s, f, records)], d);
    AllReleased(s, e, d);
  }

  lemma PartReleased(s: State, front: seq<VoteRecord>, d: Chain)
    requires WellFormed(s)
    ensures Congruent(Total(Release(s, front), d), Total(s, d)) <==> !(d == HNB && Powers(front) % TWO_64 != 0)
  {
    hide Total, Wrap, Congruent, WellFormed, Release, Powers;
    var t := Total(s, d);
    ReleaseCongruent(s, front, d);
    NotCongruent(t, Powers(front));
    CongruentBack(Total(Release(s, front), d), t + Powers(front), t);
  }

  lemma AllReleased(s: State, e: nat, d: Chain)
    requires WellFormed(s)
    ensures
      var t := Release(s, RecordsOf(s, e)) - {StateKey(HNB, Records(e)), StateKey(HNB, Tally(e))};
      Congruent(Total(t, d), Total(s, d))
  {
    hide Total, Wrap, Congruent, WellFormed, Release, Powers, RecordsOf;
    var records := RecordsOf(s, e);
    ForgetEpoch(s, e, d);
    ReleaseElsewhere(s, records, EpochKeys(e));
    ReleaseCongruent(s - EpochKeys(e), records, d);
  }

  lemma CongruentBack(a: int, b: int, c: int)
    ensures Congruent(a, b) ==> (Congruent(a, c) <==> Congruent(b, c))
  {
  }

  /** From a state that can be read, a step keeps the totals modulo 2^64 exactly when it is not such a step. */
  lemma FaultyStepConserves(s: State, f: Faulty, tx: Tx)
    requires WellFormed(s)
    ensures Congruent(Total(FaultyEffect(s, f, tx).1, HGS), Total(s, HGS))
    ensures Congruent(Total(FaultyEffect(s, f, tx).1, HNB), Total(s, HNB)) <==> !Unbalanced(s, f, tx)
  {
    hide Congruent, Wrap, Transfer, Total, FaultyVote, FaultyThaw, WellFormed, Admitted;
    forall d: Chain
      ensures Congruent(Total(FaultyEffect(s, f, tx).1, d), Total(s, d)) <==> !(d == HNB && Unbalanced(s, f, tx))
    {
      OffByWraps(Total(s, d), 0, 0);
      if tx.contract.Some? {
        match tx.op
        case Same(to, amount) =>
          StepConservesModulo(s, tx, d);
        case Vote(from, c, power, e) =>
          VoteBalance(s, f, from, c, power, e, d);
        case Unfreeze(e) =>
          ThawBalance(s, f, e, d);
        case _ =>
      }
    }
  }

  lemma FaultyRunStep(s: State, txs: seq<Tx>, fs: seq<Faulty>, i: nat)
    requires |txs| == |fs| && i < |txs|
    ensures FaultyRun(s, txs[..i + 1], fs[..i + 1]) == FaultyEffect(FaultyRun(s, txs[..i], fs[..i]), fs[i], txs[i]).1
  {
    assert txs[..i + 1][..i] == txs[..i] && fs[..i + 1][..i] == fs[..i];
  }

  lemma {:induction false} FaultyRunKeeps(s: State, txs: seq<Tx>, fs: seq<Faulty>, i: nat)
    requires WellFormed(s) && |txs| == |fs| && i <= |txs|
    ensures WellFormed(FaultyRun(s, txs[..i], fs[..i]))
  {
    hide FaultyEffect, WellFormed;
    if i > 0 {
      FaultyRunKeeps(s, txs, fs, i - 1);
      FaultyRunStep(s, txs, fs, i - 1);
      FaultyKeeps(FaultyRun(s, txs[..i - 1], fs[..i - 1]), fs[i - 1], txs[i - 1]);
    }
  }

  /** The supply of HNB at a point of the run is what it was, modulo 2^64. */
  ghost predicate KeptAt(s: State, txs: seq<Tx>, fs: seq<Faulty>, i: nat)
    requires |txs| == |fs| && i <= |txs|
  {
    Congruent(Total(FaultyRun(s, txs[..i], fs[..i]), HNB), Total(s, HNB))
  }

  ghost predicate UnbalancedAt(s: State, txs: seq<Tx>, fs: seq<Faulty>, i: nat)
    requires |txs| == |fs| && i < |txs|
  {
    Unbalanced(FaultyRun(s, txs[..i], fs[..i]), fs[i], txs[i])
  }

  lemma KeptNext(s: State, txs: seq<Tx>, fs: seq<Faulty>, i: nat)
    requires WellFormed(s) && |txs| == |fs| && i < |txs| && KeptAt(s, txs, fs, i)
    ensures KeptAt(s, txs, fs, i + 1) <==> !UnbalancedAt(s, txs, fs, i)
  {
    hide FaultyEffect, FaultyRun, Congruent, Total, WellFormed, Unbalanced;
    var t := FaultyRun(s, txs[..i], fs[..i]);
    FaultyRunStep(s, txs, fs, i);
    FaultyRunKeeps(s, txs, fs, i);
    FaultyStepConserves(t, fs[i], txs[i]);
    var u := FaultyEffect(t, fs[i], txs[i]).1;
    CongruentBack(Total(t, HNB), Total(s, HNB), Total(u, HNB));
    CongruentSwap(Total(u, HNB), Total(t, HNB));
    CongruentSwap(Total(u, HNB), Total(s, HNB));
  }

  lemma CongruentSwap(a: int, b: int)
    ensures Congruent(a, b) <==> Congruent(b, a)
  {
  }

  /** Over every run with whatever faults: the supply is kept throughout exactly when no step is unbalanced. */
  lemma FaultyRunsConserve(s: State, txs: seq<Tx>, fs: seq<Faulty>)
    requires WellFormed(s) && |txs| == |fs|
    ensures (forall i :: 0 <= i <= |txs| ==> KeptAt(s, txs, fs, i)) <==>
            (forall i :: 0 <= i < |txs| ==> !UnbalancedAt(s, txs, fs, i))
  {
    hide KeptAt, UnbalancedAt, WellFormed;
    if forall i :: 0 <= i <= |txs| ==> KeptAt(s, txs, fs, i) {
      forall i | 0 <= i < |txs|
        ensures !UnbalancedAt(s, txs, fs, i)
      {
        KeptNext(s, txs, fs, i);
        assert KeptAt(s, txs, fs, i + 1);
      }
    }
    if forall i :: 0 <= i < |txs| ==> !UnbalancedAt(s, txs, fs, i) {
      forall i | 0 <= i <= |txs|
        ensures KeptAt(s, txs, fs, i)
      {
        KeptSoFar(s, txs, fs, i);
      }
    }
  }

  lemma {:induction false} KeptSoFar(s: State, txs: seq<Tx>, fs: seq<Faulty>, i: nat)
    requires WellFormed(s) && |txs| == |fs| && i <= |txs|
    requires forall j :: 0 <= j < |txs| ==> !UnbalancedAt(s, txs, fs, j)
    ensures KeptAt(s, txs, fs, i)
  {
    hide UnbalancedAt, WellFormed;
    if i == 0 {
      OffByWraps(Total(s, HNB), 0, 0);
    } else {
      KeptSoFar(s, txs, fs, i - 1);
      hide KeptAt;
      KeptNext(s, txs, fs, i - 1);
    }
  }

  /** A vote whose tally cannot be fetched is recorded and not charged: its release will add coins. */
  lemma FreeVote(user: Address, cand: Candidate)
    ensures
      var s := Install(Install(map[], HGS, user), HNB, user);
      var tx := Tx(Some(HNB), user, 0, Vote(Some(user), Some(cand), 7, 1));
      var (ok, t) := FaultyEffect(s, {TallyKey(1)}, tx);
      && ok && Unbalanced(s, {TallyKey(1)}, tx)
      && Balance(t, HNB, user) == SUPPLY && RecordsOf(t, 1) == [VoteRecord(user, 7)]
      && Total(t, HNB) == SUPPLY + 7
  {
    hide Install, Total, Solvent, Wrap;
    var s := Install(Install(map[], HGS, user), HNB, user);
    InstalledState(user);
    InstalledEntries(user, HNB);
    SolventIsWellFormed(s);
    RecordedTotal(s, user, 7, 1, HNB);
  }

  lemma SolventIsWellFormed(s: State)
    requires Solvent(s)
    ensures WellFormed(s)
  {
  }
}
