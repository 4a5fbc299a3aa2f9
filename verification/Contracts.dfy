/** The two token contracts over their overlay. */
module Contracts {
  import opened Basics
  import opened Tokens
  import opened Overlay
  import opened Refusals
  import opened Faults

  // ---------- Balances ----------

  /** None when the stored value cannot be fetched or is not a number; a missing account has balance zero. */
  method GetBalance(api: ContractApi, a: Address) returns (n: Option<int64>)
    requires api.Valid()
    ensures n == if Fetched(api.View(), api.Failing(), api.chain,
                            a) then Some(Balance(api.View(), api.chain, a)) else None
  {
    var v := api.GetState(Account(a));
    n := match v
      case Failed => None
      case Got(None) => Some(0)
      case Got(Some(Amount(x))) => Some(x)
      case Got(Some(_)) => None;
  }

  method SetBalance(api: ContractApi, a: Address, n: int)
    requires api.Valid()
    modifies api.memory
    ensures api.Valid() && api.View() == Credit(old(api.View()), api.chain, a, n)
    ensures api.Failing() == old(api.Failing()) - {Acct(api.chain, a)}
  {
    api.PutState(Account(a), Amount(Wrap(n)));
  }

  // ---------- Transfers ----------

  /** Refused without effect, or carried out in full. */
  ghost predicate Outcome(was: State, now: State, ok: bool, result: Option<State>) {
    ok == result.Some? && now == Or(result, was)
  }

  method HnbSame(api: ContractApi, to: Address, amount: int64) returns (ok: bool)
    requires api.Valid() && api.chain == HNB
    modifies api.memory
    ensures api.Valid()
    ensures Outcome(old(api.View()), api.View(), ok,
                    FaultyTransfer(old(api.View()), old(api.Failing()), HNB, api.from, to, amount))
    ensures
      var s, f := old(api.View()), old(api.Failing());
      ok <==>
        && api.from != to && Fetched(s, f, HNB, api.from) && Fetched(s, f, HNB, to)
        && amount <= Balance(s, HNB, api.from)
    ensures ok ==> Moved(old(api.View()), api.View(), HNB, api.from, to, amount)
  {
    hide Overlaid, Wrap;
    if api.from == to {
      return false;
    }
    var input := GetBalance(api, api.from);
    if input == None {
      return false;
    }
    if input.value < amount {
      return false;
    }
    var output := GetBalance(api, to);
    if output == None {
      return false;
    }
    SetBalance(api, api.from, input.value - amount);
    SetBalance(api, to, output.value + amount);
    ok := true;
  }

  /** HGS differs in demanding an existing sender, and in dropping the error when the receiver cannot be parsed. */
  method HgsSame(api: ContractApi, to: Address, amount: int64) returns (ok: bool)
    requires api.Valid() && api.chain == HGS
    modifies api.memory
    ensures api.Valid()
    ensures Outcome(old(api.View()), api.View(), ok,
                    FaultyTransfer(old(api.View()), old(api.Failing()), HGS, api.from, to, amount))
    ensures
      var s, f := old(api.View()), old(api.Failing());
      ok <==>
        && api.from != to && Acct(HGS, api.from) in s && Fetched(s, f, HGS, api.from) && Acct(HGS, to) !in f
        && amount <= Balance(s, HGS, api.from)
    ensures ok && AccountReadable(old(api.View()), HGS, to) ==>
      Moved(old(api.View()), api.View(), HGS, api.from, to, amount)
  {
    hide Overlaid, Wrap;
    if api.from == to {
      return false;
    }
    var input := api.GetState(Account(api.from));
    if input.Failed? || input.value == None || !input.value.value.Amount? {
      return false;
    }
    var inputAmount := input.value.value.n;
    if inputAmount < amount {
      return false;
    }
    var output := api.GetState(Account(to));
    if output.Failed? {
      return false;
    }
    var received: int64 := if output.value == None then 0 else Parsed(output.value.value);
    SetBalance(api, api.from, inputAmount - amount);
    SetBalance(api, to, received + amount);
    ok := true;
  }

  // ---------- Votes ----------

  /** A tally that cannot be fetched counts as success. */
  method SaveTokenTotal(api: ContractApi, from: Option<Address>, c: Option<Candidate>, power: int64, e: nat)
    returns (ok: bool)
    requires api.Valid() && api.chain == HNB
    modifies api.memory
    ensures api.Valid()
    ensures Outcome(old(api.View()), api.View(), ok,
                    FaultyCounted(old(api.View()), old(api.Failing()), from, c, power, e))
    ensures ok ==> from.Some?
    ensures RecordsKey(e) in api.Failing() <==> RecordsKey(e) in old(api.Failing())
  {
    hide Overlaid, Wrap;
    if c == None || from == None || power == 0 || e == 0 {
      return false;
    }
    var input := api.GetState(Account(from.value));
    if input.Failed? || input.value == None || !input.value.value.Amount? {
      return false;
    }
    var inputAmount := input.value.value.n;
    if inputAmount < power {
      return false;
    }
    var stored := api.GetState(Tally(e));
    if stored.Failed? {
      return true;
    }
    var tally: map<Candidate, int64> := map[];
    if stored.value.Some? {
      if !stored.value.value.Votes? {
        return false;
      }
      tally := stored.value.value.tally;
    }
    api.PutState(Tally(e), Votes(tally[c.value := Wrap(Voted(tally, c.value) + power)]));
    SetBalance(api, from.value, inputAmount - power);
    ok := true;
  }

  /** Records that cannot be fetched count as success. */
  method SaveTokenFromInfo(api: ContractApi, from: Address, power: int64, e: nat) returns (ok: bool)
    requires api.Valid() && api.chain == HNB
    modifies api.memory
    ensures api.Valid() && ok == (RecordsKey(e) in old(api.Failing()) || RecordsReadable(old(api.View()), e))
    ensures api.View() ==
      if ok && RecordsKey(e) !in old(api.Failing()) then Recorded(old(api.View()), from, power, e) else old(api.View())
  {
    var stored := api.GetState(Records(e));
    if stored.Failed? {
      return true;
    }
    var records: seq<VoteRecord> := [];
    if stored.value.Some? {
      if !stored.value.value.Frozen? {
        return false;
      }
      records := stored.value.value.records;
    }
    api.PutState(Records(e), Frozen(records + [VoteRecord(from, power)]));
    ok := true;
  }

  /** Counting does not touch the records. */
  lemma CountedElsewhere(s: State, f: Faulty, from: Option<Address>, c: Option<Candidate>, power: int64, e: nat)
    requires FaultyCounted(s, f, from, c, power, e).Some?
    ensures RecordsReadable(FaultyCounted(s, f, from, c, power, e).value, e) == RecordsReadable(s, e)
  {
  }

  lemma VoteOutcome(s: State, f: Faulty, from: Option<Address>, c: Option<Candidate>, power: int64, e: nat)
    ensures FaultyVote(s, f, from, c, power, e).0 <==>
      && c.Some? && from.Some? && power != 0 && e != 0
      && Acct(HNB, from.value) in s && Fetched(s, f, HNB, from.value) && power <= Balance(s, HNB, from.value)
      && (TallyKey(e) in f || TallyReadable(s, e)) && (RecordsKey(e) in f || RecordsReadable(s, e))
    ensures FaultyVote(s, f, from, c, power, e).0 && TallyKey(e) !in f && RecordsKey(e) !in f ==>
      Pledged(s, FaultyVote(s, f, from, c, power, e).1, from.value, c.value, power, e)
  {
    hide Wrap;
  }

  /** A vote that cannot be recorded is refused after it has been counted. */
  method VotePro(api: ContractApi, from: Option<Address>, c: Option<Candidate>, power: int64, e: nat)
    returns (ok: bool)
    requires api.Valid() && api.chain == HNB
    modifies api.memory
    ensures api.Valid()
    ensures (ok, api.View()) == FaultyVote(old(api.View()), old(api.Failing()), from, c, power, e)
    ensures
      var s, f := old(api.View()), old(api.Failing());
      ok <==>
        && c.Some? && from.Some? && power != 0 && e != 0
        && Acct(HNB, from.value) in s && Fetched(s, f, HNB, from.value) && power <= Balance(s, HNB, from.value)
        && (TallyKey(e) in f || TallyReadable(s, e)) && (RecordsKey(e) in f || RecordsReadable(s, e))
    ensures ok && TallyKey(e) !in old(api.Failing()) && RecordsKey(e) !in old(api.Failing()) ==>
      Pledged(old(api.View()), api.View(), from.value, c.value, power, e)
  {
    hide FaultyCounted, Overlaid, Recorded, RecordsReadable, Pledged, Fetched, TallyReadable, Balance;
    VoteOutcome(api.View(), api.Failing(), from, c, power, e);
    ghost var s, f := api.View(), api.Failing();
    ok := SaveTokenTotal(api, from, c, power, e);
    if !ok {
      return false;
    }
    CountedElsewhere(s, f, from, c, power, e);
    ok := SaveTokenFromInfo(api, from.value, power, e);
  }

  /** Releasing the readable front of the records makes no other account readable. */
  lemma FrontReadable(s: State, f: Faulty, front: seq<VoteRecord>, a: Address)
    requires forall i :: 0 <= i < |front| ==> Fetched(s, f, HNB, front[i].from)
    ensures Fetched(Release(s, front), f, HNB, a) <==> Fetched(s, f, HNB, a)
  {
    ReleaseReturns(s, front);
    assert AccountReturned(s, Release(s, front), front, a);
  }

  /** Returns the votes in order, up to the first account that cannot be fetched or read. */
  method ReturnVotes(api: ContractApi, records: seq<VoteRecord>) returns (ok: bool)
    requires api.Valid() && api.chain == HNB
    modifies api.memory
    ensures api.Valid() && ok == (FaultyReleasable(old(api.View()), old(api.Failing()), records) == |records|)
    ensures api.View() == Release(old(api.View()),
                     records[..FaultyReleasable(old(api.View()), old(api.Failing()), records)])
  {
    hide Overlaid, Release, AccountReadable, Credit, Balance, Wrap;
    ghost var s, f := api.View(), api.Failing();
    NothingReleased(s);
    assert records[..0] == [];
    for i := 0 to |records|
      invariant api.Valid() && api.View() == Release(s, records[..i]) && api.Failing() == f
      invariant forall j :: 0 <= j < i ==> Fetched(s, f, HNB, records[j].from)
    {
      FrontReadable(s, f, records[..i], records[i].from);
      var amount := GetBalance(api, records[i].from);
      if amount == None {
        assert FaultyReleasable(s, f, records) == i;
        return false;
      }
      ReleaseSnoc(s, records[..i], records[i]);
      assert records[..i] + [records[i]] == records[..i + 1];
      SetBalance(api, records[i].from, amount.value + records[i].power);
    }
    ok := true;
  }

  /** A release stops, and is refused, at the first account that cannot be fetched or read. */
  method UnFreezePro(api: ContractApi, e: nat) returns (ok: bool)
    requires api.Valid() && api.chain == HNB
    modifies api.memory
    ensures api.Valid() && (ok, api.View()) == FaultyThaw(old(api.View()), old(api.Failing()), e)
  {
    ghost var s := api.View();
    var stored := api.GetState(Records(e));
    if stored.Failed? {
      return true;
    }
    var records: seq<VoteRecord> := [];
    if stored.value.Some? {
      if !stored.value.value.Frozen? {
        return false;
      }
      records := stored.value.value.records;
    }
    assert records == RecordsOf(s, e) && RecordsReadable(s, e);
    hide Overlaid, Release, FaultyReleasable, RecordsOf, RecordsReadable;
    ok := ReturnVotes(api, records);
    if !ok {
      return false;
    }
    assert records[..|records|] == records;
    api.DelState(Records(e));
    api.DelState(Tally(e));
    DropBoth(Release(s, records), e);
  }

  lemma DropBoth(s: State, e: nat)
    ensures s - {StateKey(HNB, Records(e))} - {StateKey(HNB, Tally(e))} ==
            s - {StateKey(HNB, Records(e)), StateKey(HNB, Tally(e))}
  {
  }

  // ---------- One transaction ----------

  /** On every state, whatever cannot be fetched: accepted and with the effect that the flat semantics says. */
  method Invoke(api: ContractApi, tx: Tx) returns (ok: bool)
    requires api.Valid() && tx.contract == Some(api.chain) && api.from == tx.sender
    modifies api.memory
    ensures api.Valid() && (ok, api.View()) == FaultyEffect(old(api.View()), old(api.Failing()), tx)
  {
    hide Overlaid, FaultyTransfer, FaultyVote, FaultyThaw;
    match tx.op {
      case Unreadable => ok := false;
      case Unknown => ok := true;
      case Same(to, amount) =>
        if api.chain == HNB {
          ok := HnbSame(api, to, amount);
        } else {
          ok := HgsSame(api, to, amount);
        }
      case Vote(from, c, power, e) =>
        if api.chain == HNB {
          ok := VotePro(api, from, c, power, e);
        } else {
          ok := true;
        }
      case Unfreeze(e) =>
        if api.chain == HNB {
          ok := UnFreezePro(api, e);
        } else {
          ok := true;
        }
    }
  }

  // ---------- A step stays within its contract ----------

  /** The same entries of contract `c`. */
  ghost predicate Agree(s: State, t: State, c: Chain) {
    forall k: StateKey :: k.chain == c ==> Lookup(s, k) == Lookup(t, k)
  }

  lemma AgreeOnAccounts(s: State, t: State, c: Chain, a: Address, n: int)
    requires Agree(s, t, c)
    ensures Balance(s, c, a) == Balance(t, c, a) && (Acct(c, a) in s <==> Acct(c, a) in t)
    ensures AccountReadable(s, c, a) == AccountReadable(t, c, a) && Incoming(s, c, a) == Incoming(t, c, a)
    ensures Agree(Credit(s, c, a, n), Credit(t, c, a, n), c)
  {
    assert Lookup(s, Acct(c, a)) == Lookup(t, Acct(c, a));
  }

  lemma AgreeOnEpochs(s: State, t: State, e: nat)
    requires Agree(s, t, HNB)
    ensures TallyOf(s, e) == TallyOf(t, e) && RecordsOf(s, e) == RecordsOf(t, e)
    ensures TallyReadable(s, e) == TallyReadable(t, e) && RecordsReadable(s, e) == RecordsReadable(t, e)
  {
    assert Lookup(s, StateKey(HNB, Tally(e))) == Lookup(t, StateKey(HNB, Tally(e)));
    assert Lookup(s, StateKey(HNB, Records(e))) == Lookup(t, StateKey(HNB, Records(e)));
  }

  lemma {:induction false} ReleaseLocal(s: State, t: State, records: seq<VoteRecord>)
    requires Agree(s, t, HNB)
    ensures Agree(Release(s, records), Release(t, records), HNB)
    decreases |records|
  {
    hide Agree, Credit, Balance, AccountReadable;
    if records != [] {
      var r := records[0];
      var n := Balance(s, HNB, r.from) + r.power;
      AgreeOnAccounts(s, t, HNB, r.from, n);
      ReleaseLocal(Credit(s, HNB, r.from, n), Credit(t, HNB, r.from, n), records[1..]);
    }
  }

  lemma {:induction false} ReleasableLocal(s: State, t: State, f: Faulty, records: seq<VoteRecord>)
    requires Agree(s, t, HNB)
    ensures FaultyReleasable(s, f, records) == FaultyReleasable(t, f, records)
    decreases |records|
  {
    hide Agree, AccountReadable;
    if records != [] {
      AgreeOnAccounts(s, t, HNB, records[0].from, 0);
      ReleasableLocal(s, t, f, records[1..]);
    }
  }

  /** Both refused, or both carried out and in agreement again. */
  ghost predicate AgreeOption(s: Option<State>, t: Option<State>, c: Chain) {
    s.Some? == t.Some? && (s.Some? ==> Agree(s.value, t.value, c))
  }

  /** The same answer, and in agreement afterwards. */
  ghost predicate AgreeOutcome(s: (bool, State), t: (bool, State), c: Chain) {
    s.0 == t.0 && Agree(s.1, t.1, c)
  }

  lemma TransferLocal(s: State, t: State, c: Chain, from: Address, to: Address, amount: int64)
    requires Agree(s, t, c)
    ensures AgreeOption(Transfer(s, c, from, to, amount), Transfer(t, c, from, to, amount), c)
  {
    hide Wrap, Agree, Credit, Balance, AccountReadable, Incoming;
    var x := Balance(s, c, from) - amount;
    AgreeOnAccounts(s, t, c, from, x);
    AgreeOnAccounts(s, t, c, to, 0);
    AgreeOnAccounts(Credit(s, c, from, x), Credit(t, c, from, x), c, to, Incoming(s, c, to) + amount);
  }

  lemma PutLocal(s: State, t: State, c: Chain, k: StateKey, v: Value)
    requires Agree(s, t, c)
    ensures Agree(s[k := v], t[k := v], c)
  {
  }

  lemma CountedLocal(s: State, t: State, from: Option<Address>, c: Option<Candidate>, power: int64, e: nat)
    requires Agree(s, t, HNB)
    ensures AgreeOption(Counted(s, from, c, power, e), Counted(t, from, c, power, e), HNB)
    ensures Admitted(s, from, c, power, e) == Admitted(t, from, c, power, e)
  {
    hide Wrap, Agree, Credit, Balance, AccountReadable, TallyReadable, RecordsReadable, TallyOf, RecordsOf;
    AgreeOnEpochs(s, t, e);
    if from.Some? {
      AgreeOnAccounts(s, t, HNB, from.value, 0);
    }
    if Counted(s, from, c, power, e).Some? {
      var tally := TallyOf(s, e);
      var k, v := StateKey(HNB, Tally(e)), Votes(tally[c.value := Wrap(Voted(tally, c.value) + power)]);
      PutLocal(s, t, HNB, k, v);
      AgreeOnAccounts(s[k := v], t[k := v], HNB, from.value, Balance(s, HNB, from.value) - power);
    }
  }

  lemma RecordedLocal(s: State, t: State, from: Address, power: int64, e: nat)
    requires Agree(s, t, HNB)
    ensures Agree(Recorded(s, from, power, e), Recorded(t, from, power, e), HNB)
  {
    hide Agree, RecordsOf;
    AgreeOnEpochs(s, t, e);
    PutLocal(s, t, HNB, StateKey(HNB, Records(e)), Frozen(RecordsOf(s, e) + [VoteRecord(from, power)]));
  }

  lemma VoteLocal(s: State, t: State, f: Faulty, from: Option<Address>, c: Option<Candidate>, power: int64, e: nat)
    requires Agree(s, t, HNB)
    ensures AgreeOutcome(FaultyVote(s, f, from, c, power, e), FaultyVote(t, f, from, c, power, e), HNB)
  {
    hide Agree, Counted, Recorded, RecordsReadable, Admitted;
    AgreeOnEpochs(s, t, e);
    CountedLocal(s, t, from, c, power, e);
    var s', t' := FaultyCounted(s, f, from, c, power, e), FaultyCounted(t, f, from, c, power, e);
    if s'.Some? {
      assert from.Some? by {
        AdmittedNamed(s, from, c, power, e);
      }
      RecordedLocal(s'.value, t'.value, from.value, power, e);
    }
  }

  lemma AdmittedNamed(s: State, from: Option<Address>, c: Option<Candidate>, power: int64, e: nat)
    requires Admitted(s, from, c, power, e)
    ensures from.Some?
  {
  }

  lemma DropLocal(s: State, t: State, ks: set<StateKey>)
    requires Agree(s, t, HNB)
    ensures Agree(s - ks, t - ks, HNB)
  {
    forall k: StateKey | k.chain == HNB
      ensures Lookup(s - ks, k) == Lookup(t - ks, k)
    {
      assert Lookup(s, k) == Lookup(t, k);
    }
  }

  lemma ThawLocal(s: State, t: State, f: Faulty, e: nat)
    requires Agree(s, t, HNB)
    ensures AgreeOutcome(FaultyThaw(s, f, e), FaultyThaw(t, f, e), HNB)
  {
    hide Agree, Release, RecordsOf, RecordsReadable, FaultyReleasable;
    AgreeOnEpochs(s, t, e);
    var records := RecordsOf(s, e);
    ReleaseLocal(s, t, records);
    ReleasableLocal(s, t, f, records);
    ReleaseLocal(s, t, records[..FaultyReleasable(s, f, records)]);
    DropLocal(Release(s, records), Release(t, records), {StateKey(HNB, Records(e)), StateKey(HNB, Tally(e))});
  }

  /** What a transaction does to its contract depends only on the entries of that contract. */
  lemma EffectLocal(s: State, t: State, f: Faulty, tx: Tx, c: Chain)
    requires tx.contract == Some(c) && Agree(s, t, c)
    ensures AgreeOutcome(FaultyEffect(s, f, tx), FaultyEffect(t, f, tx), c)
  {
    hide Agree, Transfer, FaultyVote, FaultyThaw;
    match tx.op
    case Same(to, amount) => TransferLocal(s, t, c, tx.sender, to, amount);
    case Vote(from, cand, power, e) =>
      if c == HNB {
        VoteLocal(s, t, f, from, cand, power, e);
      }
    case Unfreeze(e) =>
      if c == HNB {
        ThawLocal(s, t, f, e);
      }
    case _ =>
  }

  /** And it leaves the other contract alone. */
  lemma EffectOther(s: State, f: Faulty, tx: Tx, c: Chain)
    requires tx.contract != Some(c)
    ensures Agree(FaultyEffect(s, f, tx).1, s, c)
  {
    hide Wrap;
    if tx.op.Unfreeze? {
      var records := RecordsOf(s, tx.op.thawed);
      ReleaseReturns(s, records);
      ReleaseReturns(s, records[..FaultyReleasable(s, f, records)]);
    }
  }

  lemma AgreeOnAll(s: State, t: State)
    requires Agree(s, t, HGS) && Agree(s, t, HNB)
    ensures s == t
  {
    forall k: StateKey
      ensures Lookup(t, k) == Lookup(s, k)
    {
      match k.chain
      case HGS =>
      case HNB =>
    }
    SameLookups(s, t);
  }
}
