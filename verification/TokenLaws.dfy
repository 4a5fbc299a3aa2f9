/** Conservation of the coins over every run of transfers, votes and releases. */
module TokenLaws {
  import opened Basics
  import opened Tokens

  predicate Congruent(a: int, b: int) {
    (a - b) % TWO_64 == 0
  }

  lemma WrapCongruent(x: int)
    ensures Congruent(Wrap(x), x)
  {
  }

  lemma Chained(a: int, b: int, c: int)
    requires Congruent(a, b) && Congruent(b, c)
    ensures Congruent(a, c)
  {
  }

  lemma OffByWraps(a: int, x: int, y: int)
    ensures Congruent(a + (Wrap(x) - x), a) && Congruent(a + (Wrap(x) - x) + (Wrap(y) - y), a) && Congruent(a, a)
  {
    WrapCongruent(x);
    WrapCongruent(y);
  }

  // ---------- The three operations, whatever the amounts ----------

  lemma PlainReceiver(s: State, c: Chain, a: Address)
    requires WellFormed(s)
    ensures Incoming(s, c, a) == Balance(s, c, a)
  {
    assert Acct(c, a) in s ==> Typed(Acct(c, a), s[Acct(c, a)]);
  }

  /** Exactly the transfers that are accepted, and what each of them does. */
  lemma TransferAccepted(s: State, c: Chain, from: Address, to: Address, amount: int64)
    requires WellFormed(s)
    ensures Transfer(s, c, from, to, amount).Some? <==>
      from != to && (c == HGS ==> Acct(c, from) in s) && amount <= Balance(s, c, from)
    ensures Transfer(s, c, from, to, amount).Some? ==>
      Moved(s, Transfer(s, c, from, to, amount).value, c, from, to, amount)
  {
    hide Wrap;
    PlainReceiver(s, c, from);
    PlainReceiver(s, c, to);
    assert Acct(c, from) in s ==> Typed(Acct(c, from), s[Acct(c, from)]);
    assert Acct(c, to) in s ==> Typed(Acct(c, to), s[Acct(c, to)]);
  }

  /** In particular the whole balance can be sent. */
  lemma WholeBalanceMoves(s: State, c: Chain, from: Address, to: Address)
    requires WellFormed(s) && from != to && Acct(c, from) in s
    ensures
      var r := Transfer(s, c, from, to, Balance(s, c, from));
      r.Some? && Balance(r.value, c, from) == 0 &&
      Balance(r.value, c, to) == Wrap(Balance(s, c, to) + Balance(s, c, from))
  {
    TransferAccepted(s, c, from, to, Balance(s, c, from));
  }

  /** Exactly the votes that are accepted, and what each of them does. */
  lemma VoteAccepted(s: State, from: Option<Address>, c: Option<Candidate>, power: int64, e: nat)
    requires WellFormed(s)
    ensures CastVote(s, from, c, power, e).Some? <==>
      && c.Some? && from.Some? && power != 0 && e != 0
      && Acct(HNB, from.value) in s && power <= Balance(s, HNB, from.value)
    ensures Counted(s, from, c, power, e).Some? <==> CastVote(s, from, c, power, e).Some?
    ensures CastVote(s, from, c, power, e).Some? ==>
      Pledged(s, CastVote(s, from, c, power, e).value, from.value, c.value, power, e)
  {
    hide Wrap;
    EpochReadable(s, e);
    if from.Some? && Acct(HNB, from.value) in s {
      assert Typed(Acct(HNB, from.value), s[Acct(HNB, from.value)]);
    }
  }

  lemma EpochReadable(s: State, e: nat)
    requires WellFormed(s)
    ensures TallyReadable(s, e) && RecordsReadable(s, e)
  {
    var t, r := StateKey(HNB, Tally(e)), StateKey(HNB, Records(e));
    assert t in s ==> Typed(t, s[t]);
    assert r in s ==> Typed(r, s[r]);
  }

  /** In particular the whole balance can be pledged. */
  lemma WholeBalanceVotes(s: State, from: Address, c: Candidate, e: nat)
    requires WellFormed(s) && Balance(s, HNB, from) != 0 && e != 0
    ensures
      var r := CastVote(s, Some(from), Some(c), Balance(s, HNB, from), e);
      r.Some? && Balance(r.value, HNB, from) == 0 &&
      Voted(TallyOf(r.value, e), c) == Wrap(Voted(TallyOf(s, e), c) + Balance(s, HNB, from))
  {
    VoteAccepted(s, Some(from), Some(c), Balance(s, HNB, from), e);
  }

  /** How far a transfer can be off: only by wrap-around of the two balances it writes. */
  lemma TransferTotal(s: State, c: Chain, from: Address, to: Address, amount: int64, d: Chain)
    requires WellFormed(s) && Transfer(s, c, from, to, amount).Some?
    ensures
      var x, y := Balance(s, c, from) - amount, Balance(s, c, to) + amount;
      Total(Transfer(s, c, from, to, amount).value, d) ==
        if c == d then Total(s, d) + (Wrap(x) - x) + (Wrap(y) - y) else Total(s, d)
  {
    var x := Balance(s, c, from) - amount;
    PlainReceiver(s, c, to);
    TotalCredit(s, c, from, x, d);
    var t := Credit(s, c, from, x);
    TotalCredit(t, c, to, Balance(s, c, to) + amount, d);
  }

  /** A vote with its three writes: the tally, the record and the balance. */
  function VoteWritten(s: State, from: Address, c: Candidate, power: int64, e: nat): State {
    var tally := TallyOf(s, e);
    s[StateKey(HNB, Tally(e)) := Votes(tally[c := Wrap(Voted(tally, c) + power)])]
     [StateKey(HNB, Records(e)) := Frozen(RecordsOf(s, e) + [VoteRecord(from, power)])]
  }

  lemma CastVoteIs(s: State, from: Address, c: Candidate, power: int64, e: nat)
    requires CastVote(s, Some(from), Some(c), power, e).Some?
    ensures CastVote(s, Some(from), Some(c), power, e).value ==
            Credit(VoteWritten(s, from, c, power, e), HNB, from, Balance(s, HNB, from) - power)
    ensures power <= Balance(s, HNB, from) && e > 0
  {
    hide Wrap;
    var t := Counted(s, Some(from), Some(c), power, e).value;
    assert RecordsOf(t, e) == RecordsOf(s, e);
  }

  lemma CastVoteTotal(s: State, from: Address, c: Candidate, power: int64, e: nat, d: Chain)
    requires WellFormed(s) && CastVote(s, Some(from), Some(c), power, e).Some?
    ensures
      var x := Balance(s, HNB, from) - power;
      Total(CastVote(s, Some(from), Some(c), power, e).value, d) ==
        if d == HNB then Total(s, d) + (Wrap(x) - x) else Total(s, d)
  {
    hide Wrap, Total, CastVote;
    var tk, rk := StateKey(HNB, Tally(e)), StateKey(HNB, Records(e));
    var tally, records := TallyOf(s, e), RecordsOf(s, e);
    var v1 := Votes(tally[c := Wrap(Voted(tally, c) + power)]);
    var s1 := s[tk := v1];
    TotalPut(s, tk, v1, d);
    var v2 := Frozen(records + [VoteRecord(from, power)]);
    var s2 := s1[rk := v2];
    CastVoteIs(s, from, c, power, e);
    TotalPut(s1, rk, v2, d);
    PowersSnoc(records, VoteRecord(from, power));
    TotalCredit(s2, HNB, from, Balance(s, HNB, from) - power, d);
  }

  lemma {:induction false} ReleaseCongruent(s: State, records: seq<VoteRecord>, d: Chain)
    requires WellFormed(s)
    ensures Congruent(Total(Release(s, records), d), Total(s, d) + if d == HNB then Powers(records) else 0)
    decreases |records|
  {
    hide Congruent, Wrap, Total;
    if records == [] {
      OffByWraps(Total(s, d), 0, 0);
    } else {
      var r := records[0];
      var x := Balance(s, HNB, r.from) + r.power;
      var t := Credit(s, HNB, r.from, x);
      TotalCredit(s, HNB, r.from, x, d);
      ReleaseCongruent(t, records[1..], d);
      if d == HNB {
        var p := Total(s, d) + Powers(records);
        OffByWraps(p, x, 0);
        assert Total(t, d) + Powers(records[1..]) == p + (Wrap(x) - x);
        Chained(Total(Release(s, records), d), p + (Wrap(x) - x), p);
      }
    }
  }

  /** Dropping the epoch's entries before or after the release is the same. */
  lemma {:induction false} ReleaseElsewhere(s: State, records: seq<VoteRecord>, ks: set<StateKey>)
    requires forall k :: k in ks ==> !k.key.Account?
    ensures Release(s, records) - ks == Release(s - ks, records)
    decreases |records|
  {
    if records != [] {
      var r := records[0];
      var x := Balance(s, HNB, r.from) + r.power;
      assert Acct(HNB, r.from) !in ks;
      assert Credit(s, HNB, r.from, x) - ks == Credit(s - ks, HNB, r.from, x);
      ReleaseElsewhere(Credit(s, HNB, r.from, x), records[1..], ks);
    }
  }

  function EpochKeys(e: nat): set<StateKey> {
    {StateKey(HNB, Records(e)), StateKey(HNB, Tally(e))}
  }

  lemma ForgetEpoch(s: State, e: nat, d: Chain)
    requires WellFormed(s)
    ensures WellFormed(s - EpochKeys(e))
    ensures Total(s - EpochKeys(e), d) == Total(s, d) - if d == HNB then Powers(RecordsOf(s, e)) else 0
    ensures Thaw(s, e) == Some(Release(s - EpochKeys(e), RecordsOf(s, e)))
  {
    var records := RecordsOf(s, e);
    assert forall i :: 0 <= i < |records| ==> AccountReadable(s, HNB, records[i].from);
    var rk, tk := StateKey(HNB, Records(e)), StateKey(HNB, Tally(e));
    TotalDrop(s, rk, d);
    TotalDrop(s - {rk}, tk, d);
    assert s - EpochKeys(e) == s - {rk} - {tk};
    ReleaseElsewhere(s, RecordsOf(s, e), EpochKeys(e));
  }

  lemma VoterIsNamed(s: State, from: Option<Address>, c: Option<Candidate>, power: int64, e: nat)
    requires CastVote(s, from, c, power, e).Some?
    ensures from.Some? && c.Some?
  {
  }

  /** Whatever the amounts, a step changes no coin's total except by multiples of 2^64. */
  lemma StepConservesModulo(s: State, tx: Tx, d: Chain)
    requires WellFormed(s)
    ensures Congruent(Total(Step(s, tx), d), Total(s, d))
  {
    hide Congruent, Wrap, Transfer, CastVote, Thaw, Total;
    var t := Total(s, d);
    OffByWraps(t, 0, 0);
    if tx.contract.Some? {
      var c := tx.contract.value;
      match tx.op
      case Same(to, amount) =>
        if Transfer(s, c, tx.sender, to, amount).Some? {
          TransferTotal(s, c, tx.sender, to, amount, d);
          OffByWraps(t, Balance(s, c, tx.sender) - amount, Balance(s, c, to) + amount);
        }
      case Vote(from, cand, power, e) =>
        if c == HNB && CastVote(s, from, cand, power, e).Some? {
          VoterIsNamed(s, from, cand, power, e);
          CastVoteTotal(s, from.value, cand.value, power, e, d);
          OffByWraps(t, Balance(s, HNB, from.value) - power, 0);
        }
      case Unfreeze(e) =>
        if c == HNB {
          ForgetEpoch(s, e, d);
          ReleaseCongruent(s - EpochKeys(e), RecordsOf(s, e), d);
        }
      case _ =>
    }
  }

  lemma {:induction false} RunConservesModulo(s: State, txs: seq<Tx>, d: Chain)
    requires WellFormed(s)
    ensures Congruent(Total(Run(s, txs), d), Total(s, d))
    decreases |txs|
  {
    if txs != [] {
      var k := |txs| - 1;
      RunConservesModulo(s, txs[..k], d);
      RunKeeps(s, txs[..k]);
      StepConservesModulo(Run(s, txs[..k]), txs[k], d);
      Chained(Total(Run(s, txs), d), Total(Run(s, txs[..k]), d), Total(s, d));
    }
  }

  // ---------- With non-negative amounts nothing ever wraps ----------

  ghost predicate NonNegative(v: Value) {
    match v
    case Amount(n) => n >= 0
    case Votes(tally) => forall c :: c in tally ==> tally[c] >= 0
    case Frozen(records) => forall i :: 0 <= i < |records| ==> records[i].power >= 0
    case OutOfRange(_) => false
  }

  /** The candidates' tally of an epoch adds up to its recorded votes. */
  ghost predicate Matched(s: State, e: nat) {
    Sum(TallyOf(s, e)) == Powers(RecordsOf(s, e))
  }

  ghost predicate Solvent(s: State) {
    && WellFormed(s)
    && (forall k :: k in s ==> NonNegative(s[k]))
    && (forall e: nat :: Matched(s, e))
    && (forall c: Chain :: Total(s, c) < TWO_63)
  }

  lemma {:induction false} PowersNonNegative(records: seq<VoteRecord>)
    requires NonNegative(Frozen(records))
    ensures Powers(records) >= 0
  {
    if records != [] {
      PowersNonNegative(records[1..]);
    }
  }

  lemma WeightsNonNegative(s: State, c: Chain)
    requires forall k :: k in s ==> NonNegative(s[k])
    ensures forall k :: k in Weights(s, c) ==> Weights(s, c)[k] >= 0
  {
    forall k | k in s
      ensures Weight(k, s[k], c) >= 0
    {
      if s[k].Frozen? {
        PowersNonNegative(s[k].records);
      }
    }
  }

  /** Every balance lies between zero and the coin's total. */
  lemma BalanceWithinTotal(s: State, c: Chain, a: Address, b: Address)
    requires Solvent(s)
    ensures 0 <= Balance(s, c, a) <= Total(s, c)
    ensures a != b ==> Balance(s, c, a) + Balance(s, c, b) <= Total(s, c)
  {
    hide Sum;
    WeightsNonNegative(s, c);
    SumNonNegative(Weights(s, c));
    SumBounds(Weights(s, c), Acct(c, a), Acct(c, b));
    SumBounds(Weights(s, c), Acct(c, b), Acct(c, a));
  }

  lemma BalanceAndVotesWithinTotal(s: State, a: Address, e: nat)
    requires Solvent(s)
    ensures Balance(s, HNB, a) + Powers(RecordsOf(s, e)) <= Total(s, HNB)
  {
    hide Sum, Matched;
    var rk := StateKey(HNB, Records(e));
    BalanceWithinTotal(s, HNB, a, a);
    WeightsNonNegative(s, HNB);
    SumBounds(Weights(s, HNB), Acct(HNB, a), rk);
    SumBounds(Weights(s, HNB), rk, rk);
    if rk !in s {
      assert Powers(RecordsOf(s, e)) == 0;
    }
  }

  lemma WrapExact(x: int)
    requires -TWO_63 <= x < TWO_63
    ensures Wrap(x) == x
  {
  }

  lemma CreditElsewhere(s: State, c: Chain, a: Address, n: int, e: nat)
    ensures TallyOf(Credit(s, c, a, n), e) == TallyOf(s, e) && RecordsOf(Credit(s, c, a, n), e) == RecordsOf(s, e)
  {
  }

  /** A credit that keeps the amount and the totals in range keeps the state solvent. */
  lemma CreditKeeps(s: State, c: Chain, a: Address, n: int)
    requires WellFormed(s) && (forall k :: k in s ==> NonNegative(s[k])) && (forall e: nat :: Matched(s, e))
    requires 0 <= n < TWO_63
    ensures
      var t := Credit(s, c, a, n);
      && WellFormed(t) && (forall k :: k in t ==> NonNegative(t[k])) && (forall e: nat :: Matched(t, e))
      && forall d: Chain :: Total(t, d) == Total(s, d) + if c == d then n - Balance(s, c, a) else 0
  {
    hide Sum, Total, Wrap;
    WrapExact(n);
    var t := Credit(s, c, a, n);
    forall e: nat
      ensures Matched(t, e)
    {
      CreditElsewhere(s, c, a, n, e);
      assert Matched(s, e);
    }
    forall d: Chain
      ensures Total(t, d) == Total(s, d) + if c == d then n - Balance(s, c, a) else 0
    {
      TotalCredit(s, c, a, n, d);
    }
  }

  /** The same totals in both coins. */
  ghost predicate SameTotals(s: State, t: State) {
    forall d: Chain :: Total(t, d) == Total(s, d)
  }

  /** An accepted transfer keeps the state solvent exactly when it leaves the receiver with no debt. */
  lemma TransferKeeps(s: State, c: Chain, from: Address, to: Address, amount: int64)
    requires Solvent(s) && Transfer(s, c, from, to, amount).Some?
    ensures Solvent(Transfer(s, c, from, to, amount).value) <==> Balance(s, c, to) + amount >= 0
    ensures Balance(s, c, to) + amount >= 0 ==> SameTotals(s, Transfer(s, c, from, to, amount).value)
  {
    hide Total, NonNegative, Matched, Wrap, WellFormed, AccountReadable, Incoming;
    PlainReceiver(s, c, to);
    BalanceWithinTotal(s, c, from, to);
    BalanceWithinTotal(s, c, to, from);
    var x, y := Balance(s, c, from) - amount, Balance(s, c, to) + amount;
    if y >= 0 {
      CreditKeeps(s, c, from, x);
      CreditKeeps(Credit(s, c, from, x), c, to, y);
    } else {
      DebtShows(Credit(s, c, from, x), c, to, y);
    }
  }

  lemma DebtShows(s: State, c: Chain, a: Address, n: int)
    requires -TWO_63 <= n < 0
    ensures !Solvent(Credit(s, c, a, n))
  {
    WrapExact(n);
    var t := Credit(s, c, a, n);
    assert !NonNegative(t[Acct(c, a)]);
  }

  lemma VoteNoted(s: State, from: Address, c: Candidate, power: int64, e: nat)
    requires Solvent(s) && power >= 0 && e > 0
    requires Voted(TallyOf(s, e), c) + power < TWO_63
    ensures
      var t := VoteWritten(s, from, c, power, e);
      && WellFormed(t) && (forall k :: k in t ==> NonNegative(t[k])) && (forall e: nat :: Matched(t, e))
  {
    hide Sum, Wrap, Total;
    var tally, records := TallyOf(s, e), RecordsOf(s, e);
    var n := Voted(tally, c) + power;
    VotedNonNegative(s, e, c);
    WrapExact(n);
    var t := s[StateKey(HNB, Tally(e)) := Votes(tally[c := Wrap(n)])]
              [StateKey(HNB, Records(e)) := Frozen(records + [VoteRecord(from, power)])];
    SumPut(tally, c, n);
    PowersSnoc(records, VoteRecord(from, power));
    assert Matched(s, e);
    assert tally[c := Wrap(n)] == tally[c := n];
    forall f: nat
      ensures Matched(t, f)
    {
      assert f != e ==> Matched(s, f);
    }
  }

  lemma VotedNonNegative(s: State, e: nat, c: Candidate)
    requires Solvent(s)
    ensures 0 <= Voted(TallyOf(s, e), c) <= Powers(RecordsOf(s, e))
  {
    var tally := TallyOf(s, e);
    assert Matched(s, e);
    assert NonNegative(Votes(tally));
    SumBounds(tally, c, c);
    SumNonNegative(tally);
  }

  /** An accepted vote keeps the state solvent exactly when its power is not negative. */
  lemma CastVoteKeeps(s: State, from: Address, c: Candidate, power: int64, e: nat)
    requires Solvent(s) && CastVote(s, Some(from), Some(c), power, e).Some?
    ensures Solvent(CastVote(s, Some(from), Some(c), power, e).value) <==> power >= 0
    ensures power >= 0 ==> SameTotals(s, CastVote(s, Some(from), Some(c), power, e).value)
  {
    hide Total, NonNegative, Matched, Wrap, WellFormed, Sum, CastVote, VoteWritten;
    CastVoteIs(s, from, c, power, e);
    BalanceWithinTotal(s, HNB, from, from);
    var t := VoteWritten(s, from, c, power, e);
    var x := Balance(s, HNB, from) - power;
    if power < 0 {
      NegativeVoteShows(s, from, c, power, e, x);
    } else {
      BalanceAndVotesWithinTotal(s, from, e);
      VotedNonNegative(s, e, c);
      VoteNoted(s, from, c, power, e);
      VoteElsewhere(s, from, c, power, e);
      CreditKeeps(t, HNB, from, x);
      WrapExact(x);
      forall d: Chain
        ensures Total(Credit(t, HNB, from, x), d) == Total(s, d)
      {
        CastVoteTotal(s, from, c, power, e, d);
      }
    }
  }

  lemma VoteElsewhere(s: State, from: Address, c: Candidate, power: int64, e: nat)
    ensures Balance(VoteWritten(s, from, c, power, e), HNB, from) == Balance(s, HNB, from)
  {
  }

  lemma NegativeVoteShows(s: State, from: Address, c: Candidate, power: int64, e: nat, x: int)
    requires power < 0
    ensures !Solvent(Credit(VoteWritten(s, from, c, power, e), HNB, from, x))
  {
    hide Wrap;
    var t := Credit(VoteWritten(s, from, c, power, e), HNB, from, x);
    var records := RecordsOf(s, e) + [VoteRecord(from, power)];
    assert t[StateKey(HNB, Records(e))] == Frozen(records);
    assert records[|records| - 1].power < 0;
    assert !NonNegative(Frozen(records));
  }

  lemma {:induction false} ReleaseSolvent(s: State, records: seq<VoteRecord>)
    requires Solvent(s) && NonNegative(Frozen(records))
    requires Total(s, HNB) + Powers(records) < TWO_63
    ensures Solvent(Release(s, records))
    ensures forall d: Chain :: Total(Release(s, records), d) == Total(s, d) + if d == HNB then Powers(records) else 0
    decreases |records|
  {
    hide Total, Matched, Wrap, WellFormed, Sum;
    if records != [] {
      var r := records[0];
      PowersNonNegative(records[1..]);
      BalanceWithinTotal(s, HNB, r.from, r.from);
      var x := Balance(s, HNB, r.from) + r.power;
      CreditKeeps(s, HNB, r.from, x);
      ReleaseSolvent(Credit(s, HNB, r.from, x), records[1..]);
    }
  }

  lemma ForgetSolvent(s: State, e: nat)
    requires Solvent(s)
    ensures Solvent(s - EpochKeys(e)) && NonNegative(Frozen(RecordsOf(s, e)))
    ensures forall d: Chain ::
      Total(s - EpochKeys(e), d) == Total(s, d) - if d == HNB then Powers(RecordsOf(s, e)) else 0
  {
    hide Total, Sum;
    var t := s - EpochKeys(e);
    PowersNonNegative(RecordsOf(s, e));
    forall d: Chain
      ensures Total(t, d) == Total(s, d) - if d == HNB then Powers(RecordsOf(s, e)) else 0
    {
      ForgetEpoch(s, e, d);
    }
    NothingVoted();
    forall f: nat
      ensures Matched(t, f)
    {
      assert Matched(s, f);
    }
  }

  lemma NothingVoted()
    ensures Sum<Candidate>(map[]) == 0
  {
  }

  /** Refused, or: a transfer leaves the receiver with no debt, a vote has no negative power. */
  predicate Keeps(s: State, tx: Tx) {
    Accepted(s, tx) ==>
      match tx.op
      case Same(to, amount) => Balance(s, tx.contract.value, to) + amount >= 0
      case Vote(_, _, power, _) => tx.contract == Some(HGS) || power >= 0
      case _ => true
  }

  /** From a solvent state a step leads to a solvent state exactly when it `Keeps`, and then the totals stay. */
  lemma StepConserves(s: State, tx: Tx)
    requires Solvent(s)
    ensures Solvent(Step(s, tx)) <==> Keeps(s, tx)
    ensures Keeps(s, tx) ==> SameTotals(s, Step(s, tx))
  {
    hide Total, Matched, NonNegative, Wrap, WellFormed, Sum, Transfer, CastVote, Thaw;
    if tx.contract.Some? {
      var c := tx.contract.value;
      match tx.op
      case Same(to, amount) =>
        if Transfer(s, c, tx.sender, to, amount).Some? {
          TransferKeeps(s, c, tx.sender, to, amount);
        }
      case Vote(from, cand, power, e) =>
        if c == HNB && CastVote(s, from, cand, power, e).Some? {
          VoterIsNamed(s, from, cand, power, e);
          CastVoteKeeps(s, from.value, cand.value, power, e);
        }
      case Unfreeze(e) =>
        if c == HNB {
          ForgetSolvent(s, e);
          ForgetEpoch(s, e, HNB);
          ReleaseSolvent(s - EpochKeys(e), RecordsOf(s, e));
        }
      case _ =>
    }
  }

  /** Amounts that are not negative always keep. */
  lemma FairKeeps(s: State, tx: Tx)
    requires Solvent(s)
    requires tx.op.Same? ==> tx.op.amount >= 0
    requires tx.op.Vote? ==> tx.op.power >= 0
    ensures Keeps(s, tx)
  {
    hide Solvent;
    if tx.op.Same? && tx.contract.Some? {
      BalanceWithinTotal(s, tx.contract.value, tx.op.to, tx.op.to);
    }
  }

  ghost predicate AllKeep(s: State, txs: seq<Tx>) {
    forall i :: 0 <= i < |txs| ==> Keeps(Run(s, txs[..i]), txs[i])
  }

  /** Over every run that keeps, the totals stay exactly what they were, and no balance leaves its range. */
  lemma {:induction false} RunConserves(s: State, txs: seq<Tx>)
    requires Solvent(s) && AllKeep(s, txs)
    ensures Solvent(Run(s, txs)) && SameTotals(s, Run(s, txs))
    ensures forall c: Chain, a: Address :: 0 <= Balance(Run(s, txs), c, a) <= Total(s, c)
    decreases |txs|
  {
    hide Solvent, Total, Keeps;
    if txs != [] {
      var k := |txs| - 1;
      assert forall i :: 0 <= i < k ==> txs[..k][..i] == txs[..i];
      RunConserves(s, txs[..k]);
      StepConserves(Run(s, txs[..k]), txs[k]);
    }
    forall c: Chain, a: Address
      ensures 0 <= Balance(Run(s, txs), c, a) <= Total(s, c)
    {
      BalanceWithinTotal(Run(s, txs), c, a, a);
    }
  }

  /** The runs that stay solvent throughout are exactly those that keep at every step. */
  lemma SolventRuns(s: State, txs: seq<Tx>)
    requires Solvent(s)
    ensures (forall i :: 0 <= i <= |txs| ==> Solvent(Run(s, txs[..i]))) <==> AllKeep(s, txs)
  {
    hide Solvent, Total, Keeps, Run, Step;
    if AllKeep(s, txs) {
      forall i | 0 <= i <= |txs|
        ensures Solvent(Run(s, txs[..i]))
      {
        assert forall j :: 0 <= j < i ==> txs[..i][..j] == txs[..j];
        RunConserves(s, txs[..i]);
      }
    }
    if forall i :: 0 <= i <= |txs| ==> Solvent(Run(s, txs[..i])) {
      forall i | 0 <= i < |txs|
        ensures Keeps(Run(s, txs[..i]), txs[i])
      {
        assert Solvent(Run(s, txs[..i + 1]));
        RunSnoc(s, txs, i);
        StepConserves(Run(s, txs[..i]), txs[i]);
      }
    }
  }

  // ---------- From installation on ----------

  const SUPPLY: int64 := 10000000

  /** Installing a contract gives its whole supply to one account. */
  function Install(s: State, c: Chain, user: Address): State {
    Credit(s, c, user, SUPPLY)
  }

  lemma InstalledState(user: Address)
    ensures
      var s := Install(Install(map[], HGS, user), HNB, user);
      Solvent(s) && Total(s, HGS) == SUPPLY && Total(s, HNB) == SUPPLY
  {
    hide Total, Wrap, Sum;
    NothingVoted();
    EmptyTotal();
    CreditKeeps(map[], HGS, user, SUPPLY);
    CreditKeeps(Install(map[], HGS, user), HNB, user, SUPPLY);
    BothCoins(Install(Install(map[], HGS, user), HNB, user));
  }

  lemma BothCoins(s: State)
    ensures (forall c: Chain :: Total(s, c) < TWO_63) <==> Total(s, HGS) < TWO_63 && Total(s, HNB) < TWO_63
  {
  }

  lemma EmptyTotal()
    ensures forall c: Chain :: Total(map[], c) == 0
  {
    forall c: Chain
      ensures Total(map[], c) == 0
    {
      assert Weights(map[], c) == map[];
    }
  }

  /** Supply is conserved in every state that can be reached by steps that keep. */
  lemma SupplyIsConserved(user: Address, txs: seq<Tx>, c: Chain, a: Address, e: nat)
    requires AllKeep(Install(Install(map[], HGS, user), HNB, user), txs)
    ensures
      var s := Run(Install(Install(map[], HGS, user), HNB, user), txs);
      && Total(s, c) == SUPPLY && 0 <= Balance(s, c, a) <= SUPPLY
      && Sum(TallyOf(s, e)) == Powers(RecordsOf(s, e))
  {
    hide Total, Sum, Powers, Run, Install, AllKeep;
    var s := Install(Install(map[], HGS, user), HNB, user);
    InstalledState(user);
    RunConserves(s, txs);
    assert Matched(Run(s, txs), e);
  }

  lemma InstalledEntries(user: Address, c: Chain)
    ensures
      var s := Install(Install(map[], HGS, user), HNB, user);
      && Acct(c, user) in s && AccountReadable(s, c, user) && Balance(s, c, user) == SUPPLY
      && (forall a: Address :: a != user ==> Acct(c, a) !in s)
      && (forall k: StateKey :: !k.key.Account? ==> k !in s)
  {
  }

  /** The amount of a transfer may be negative: sending -1 puts the receiver in debt and the sender above the supply. */
  lemma NegativeTransfer(user: Address, to: Address, c: Chain)
    requires user != to
    ensures
      var s := Install(Install(map[], HGS, user), HNB, user);
      var tx := Tx(Some(c), user, 0, Same(to, -1));
      && Accepted(s, tx) && !Keeps(s, tx) && !Solvent(Step(s, tx))
      && Balance(Step(s, tx), c, to) == -1 && Balance(Step(s, tx), c, user) == SUPPLY + 1
  {
    hide Solvent, Install, Wrap;
    var s := Install(Install(map[], HGS, user), HNB, user);
    InstalledState(user);
    InstalledEntries(user, c);
    WrapExact(-1);
    WrapExact(SUPPLY + 1);
    StepConserves(s, Tx(Some(c), user, 0, Same(to, -1)));
  }

  /** A vote of power -1 gives its sender a coin and leaves a debt to be released. */
  lemma NegativeVote(user: Address, cand: Candidate)
    ensures
      var s := Install(Install(map[], HGS, user), HNB, user);
      var tx := Tx(Some(HNB), user, 0, Vote(Some(user), Some(cand), -1, 1));
      Accepted(s, tx) && !Solvent(Step(s, tx)) && Balance(Step(s, tx), HNB, user) == SUPPLY + 1
  {
    hide Solvent, Install, Wrap;
    var s := Install(Install(map[], HGS, user), HNB, user);
    InstalledState(user);
    InstalledEntries(user, HNB);
    WrapExact(SUPPLY + 1);
    StepConserves(s, Tx(Some(HNB), user, 0, Vote(Some(user), Some(cand), -1, 1)));
  }
}
