/** When a refused transaction leaves something behind. */
module Refusals {
  import opened Basics
  import opened Tokens

  /** The votes of one account among the records. */
  function PowersOf(records: seq<VoteRecord>, a: Address): int {
    if records == [] then 0
    else
      var last := records[|records| - 1];
      PowersOf(records[..|records| - 1], a) + (if last.from == a then last.power else 0)
  }

  predicate Credited(records: seq<VoteRecord>, a: Address) {
    exists i :: 0 <= i < |records| && records[i].from == a
  }

  lemma {:induction false} ReleaseSnoc(s: State, records: seq<VoteRecord>, r: VoteRecord)
    ensures
      var t := Release(s, records);
      Release(s, records + [r]) == Credit(t, HNB, r.from, Balance(t, HNB, r.from) + r.power)
    decreases |records|
  {
    hide Wrap;
    if records == [] {
      assert records + [r] == [r];
      assert Release(Credit(s, HNB, r.from, Balance(s, HNB, r.from) + r.power), []) ==
             Credit(s, HNB, r.from, Balance(s, HNB, r.from) + r.power);
    } else {
      var f := records[0];
      assert (records + [r])[1..] == records[1..] + [r];
      ReleaseSnoc(Credit(s, HNB, f.from, Balance(s, HNB, f.from) + f.power), records[1..], r);
    }
  }

  lemma WrapOfWrap(x: int, n: int)
    ensures Wrap(Wrap(x) + n) == Wrap(x + n)
  {
  }

  /** Wrapping gives the number back exactly when a multiple of 2^64 was added. */
  lemma WrapStays(x: int64, n: int)
    ensures Wrap(x + n) == x <==> n % TWO_64 == 0
  {
  }

  /** An account that is credited with its own votes, or left as it was. */
  ghost predicate AccountReturned(s: State, t: State, records: seq<VoteRecord>, a: Address) {
    if Credited(records, a) then
      Lookup(t, Acct(HNB, a)) == Some(Amount(Wrap(Balance(s, HNB, a) + PowersOf(records, a))))
    else
      Lookup(t, Acct(HNB, a)) == Lookup(s, Acct(HNB, a)) && PowersOf(records, a) == 0
  }

  /** What a release leaves: each account credited with its own votes, everything else as it was. */
  ghost predicate Returned(s: State, t: State, records: seq<VoteRecord>) {
    && (forall a: Address :: AccountReturned(s, t, records, a))
    && (forall k: StateKey :: k.chain != HNB || !k.key.Account? ==> Lookup(t, k) == Lookup(s, k))
  }

  lemma AccountStep(s: State, t: State, records: seq<VoteRecord>, r: VoteRecord, a: Address)
    requires AccountReturned(s, t, records, a)
    ensures AccountReturned(s, Credit(t, HNB, r.from, Balance(t, HNB, r.from) + r.power), records + [r], a)
  {
    hide Wrap, Credited;
    CreditedSnoc(records, r, a);
    assert (records + [r])[..|records|] == records;
    if a == r.from && Credited(records, a) {
      WrapOfWrap(Balance(s, HNB, a) + PowersOf(records, a), r.power);
    }
  }

  lemma ReturnedStep(s: State, t: State, records: seq<VoteRecord>, r: VoteRecord)
    requires Returned(s, t, records)
    ensures Returned(s, Credit(t, HNB, r.from, Balance(t, HNB, r.from) + r.power), records + [r])
  {
    hide Wrap, AccountReturned;
    var u, all := Credit(t, HNB, r.from, Balance(t, HNB, r.from) + r.power), records + [r];
    forall a: Address
      ensures AccountReturned(s, u, all, a)
    {
      AccountStep(s, t, records, r, a);
    }
  }

  lemma CreditedSnoc(records: seq<VoteRecord>, r: VoteRecord, a: Address)
    ensures Credited(records + [r], a) <==> Credited(records, a) || a == r.from
  {
    var all := records + [r];
    if Credited(records, a) {
      var i :| 0 <= i < |records| && records[i].from == a;
      assert all[i].from == a;
    }
    assert all[|records|].from == r.from;
  }

  lemma NothingReturned(s: State)
    ensures Returned(s, Release(s, []), [])
  {
  }

  lemma {:induction false} ReleaseReturns(s: State, records: seq<VoteRecord>)
    ensures Returned(s, Release(s, records), records)
    decreases |records|
  {
    hide Returned, Credit, Release;
    if records == [] {
      NothingReturned(s);
    } else {
      var k := |records| - 1;
      ReleaseReturns(s, records[..k]);
      ReleaseSnoc(s, records[..k], records[k]);
      ReturnedStep(s, Release(s, records[..k]), records[..k], records[k]);
      assert records[..k] + [records[k]] == records;
    }
  }

  /** Some account among the records is new, or its votes do not cancel out. */
  predicate Moves(s: State, records: seq<VoteRecord>) {
    exists i :: 0 <= i < |records| &&
      (Acct(HNB, records[i].from) !in s || PowersOf(records, records[i].from) % TWO_64 != 0)
  }

  lemma ReleaseMoves(s: State, records: seq<VoteRecord>)
    requires forall i :: 0 <= i < |records| ==> AccountReadable(s, HNB, records[i].from)
    ensures Release(s, records) != s <==> Moves(s, records)
  {
    hide Wrap;
    var t := Release(s, records);
    ReleaseReturns(s, records);
    forall a: Address
      ensures AccountReturned(s, t, records, a)
      ensures (Wrap(Balance(s, HNB, a) + PowersOf(records, a)) == Balance(s, HNB, a)
        <==> PowersOf(records, a) % TWO_64 == 0)
    {
      WrapStays(Balance(s, HNB, a), PowersOf(records, a));
    }
    hide PowersOf;
    if Moves(s, records) {
      var i :| 0 <= i < |records| &&
        (Acct(HNB, records[i].from) !in s || PowersOf(records, records[i].from) % TWO_64 != 0);
      assert Credited(records, records[i].from);
    } else {
      forall k: StateKey
        ensures Lookup(t, k) == Lookup(s, k)
      {
        if k.chain == HNB && k.key.Account? {
          assert AccountReturned(s, t, records, k.key.address);
        }
      }
      SameLookups(s, t);
    }
  }

  lemma CountedMoves(s: State, from: Option<Address>, c: Option<Candidate>, power: int64, e: nat)
    requires Counted(s, from, c, power, e).Some?
    ensures Counted(s, from, c, power, e).value != s
  {
    hide Wrap;
    var gone: int := 0 - power as int;
    WrapStays(Balance(s, HNB, from.value), gone);
    assert Balance(Counted(s, from, c, power, e).value, HNB, from.value) != Balance(s, HNB, from.value);
  }

  /**
   * The transactions that are refused and yet change the state: a vote whose balance and tally are in order but
   * whose epoch's records cannot be read, and a release that meets an account it cannot read after it has
   * returned votes that do not cancel out.
   */
  predicate Spoils(s: State, tx: Tx) {
    && tx.contract == Some(HNB)
    && match tx.op
       case Vote(from, c, power, e) => Counted(s, from, c, power, e).Some? && !RecordsReadable(s, e)
       case Unfreeze(e) =>
         var records := RecordsOf(s, e);
         var k := Releasable(s, records);
         k < |records| && Moves(s, records[..k])
       case _ => false
  }

  /** For every state and transaction: exactly those refusals have an effect, and acceptance has the full one. */
  lemma RefusedEffect(s: State, tx: Tx)
    ensures Accepted(s, tx) ==> Effect(s, tx) == Step(s, tx)
    ensures !Accepted(s, tx) ==> Step(s, tx) == s && (Effect(s, tx) != s <==> Spoils(s, tx))
    ensures Spoils(s, tx) ==> !Accepted(s, tx)
    ensures Effect(s, tx) == Step(s, tx) <==> !Spoils(s, tx)
  {
    hide Wrap, Transfer, Counted, Release;
    if tx.contract == Some(HNB) {
      match tx.op
      case Vote(from, c, power, e) =>
        if Counted(s, from, c, power, e).Some? {
          CountedMoves(s, from, c, power, e);
        }
      case Unfreeze(e) =>
        var records := RecordsOf(s, e);
        ReleaseMoves(s, records[..Releasable(s, records)]);
      case _ =>
    }
  }

  /** Where every entry can be read a refusal has no effect. */
  lemma WellFormedIsSafe(s: State, tx: Tx)
    requires WellFormed(s)
    ensures !Spoils(s, tx) && Effect(s, tx) == Step(s, tx)
  {
    RefusedEffect(s, tx);
    if tx.contract == Some(HNB) && tx.op.Unfreeze? {
      var records := RecordsOf(s, tx.op.thawed);
      assert forall i :: 0 <= i < |records| ==> AccountReadable(s, HNB, records[i].from);
    } else if tx.contract == Some(HNB) && tx.op.Vote? {
      var key := StateKey(HNB, Records(tx.op.epoch));
      assert key in s ==> Typed(key, s[key]);
    }
  }

  lemma {:induction false} WellFormedRuns(s: State, txs: seq<Tx>)
    requires WellFormed(s)
    ensures RunEffects(s, txs) == Run(s, txs) && WellFormed(Run(s, txs))
    decreases |txs|
  {
    if txs != [] {
      var k := |txs| - 1;
      WellFormedRuns(s, txs[..k]);
      WellFormedIsSafe(Run(s, txs[..k]), txs[k]);
      StepKeeps(Run(s, txs[..k]), txs[k]);
    }
  }

  lemma EffectsSnoc(s: State, txs: seq<Tx>, i: nat)
    requires i < |txs|
    ensures RunEffects(s, txs[..i + 1]) == Effect(RunEffects(s, txs[..i]), txs[i])
    ensures Run(s, txs[..i + 1]) == Step(Run(s, txs[..i]), txs[i])
  {
    assert txs[..i + 1][..i] == txs[..i];
  }

  /** A run does at every point what its transactions are meant to do, exactly when no step of it spoils. */
  lemma UnspoiledRuns(s: State, txs: seq<Tx>)
    ensures (forall i :: 0 <= i <= |txs| ==> RunEffects(s, txs[..i]) == Run(s, txs[..i])) <==>
            (forall i :: 0 <= i < |txs| ==> !Spoils(Run(s, txs[..i]), txs[i]))
  {
    hide Spoils, Effect, Step, Run, RunEffects, Accepted;
    if forall i :: 0 <= i <= |txs| ==> RunEffects(s, txs[..i]) == Run(s, txs[..i]) {
      forall i | 0 <= i < |txs|
        ensures !Spoils(Run(s, txs[..i]), txs[i])
      {
        EffectsSnoc(s, txs, i);
        RefusedEffect(Run(s, txs[..i]), txs[i]);
        assert RunEffects(s, txs[..i + 1]) == Run(s, txs[..i + 1]);
      }
    }
    if forall i :: 0 <= i < |txs| ==> !Spoils(Run(s, txs[..i]), txs[i]) {
      forall i | 0 <= i <= |txs|
        ensures RunEffects(s, txs[..i]) == Run(s, txs[..i])
      {
        UnspoiledPrefix(s, txs, i);
      }
    }
  }

  lemma {:induction false} UnspoiledPrefix(s: State, txs: seq<Tx>, i: nat)
    requires i <= |txs| && forall j :: 0 <= j < |txs| ==> !Spoils(Run(s, txs[..j]), txs[j])
    ensures RunEffects(s, txs[..i]) == Run(s, txs[..i])
  {
    hide Spoils, Effect, Step, Accepted;
    if i > 0 {
      UnspoiledPrefix(s, txs, i - 1);
      EffectsSnoc(s, txs, i - 1);
      RefusedEffect(Run(s, txs[..i - 1]), txs[i - 1]);
    }
  }

  /** A voter with five coins votes with one in an epoch whose records cannot be read: refused, and one coin is gone. */
  lemma SpoiledVote(a: Address, c: Candidate)
    ensures
      var s: State := map[Acct(HNB, a) := Amount(5), StateKey(HNB, Records(1)) := Amount(0)];
      var tx := Tx(Some(HNB), a, 0, Vote(Some(a), Some(c), 1, 1));
      !Accepted(s, tx) && Spoils(s, tx) && Balance(Effect(s, tx), HNB, a) == 4
  {
  }

  /** A release of two votes whose second account cannot be read: refused, and the first has been returned. */
  lemma SpoiledRelease(a: Address, b: Address)
    requires a != b
    ensures
      var records := [VoteRecord(a, 7), VoteRecord(b, 1)];
      var s: State := map[Acct(HNB, b) := Votes(map[]), StateKey(HNB, Records(1)) := Frozen(records)];
      var tx := Tx(Some(HNB), a, 0, Unfreeze(1));
      !Accepted(s, tx) && Spoils(s, tx) && Balance(Effect(s, tx), HNB, a) == 7 && RecordsOf(Effect(s, tx), 1) == records
  {
    var records := [VoteRecord(a, 7), VoteRecord(b, 1)];
    var s: State := map[Acct(HNB, b) := Votes(map[]), StateKey(HNB, Records(1)) := Frozen(records)];
    var front := records[..1];
    assert front == [VoteRecord(a, 7)];
    assert Releasable(s, records) == 1 by {
      assert !AccountReadable(s, HNB, records[1].from);
      assert AccountReadable(s, HNB, records[0].from);
    }
    assert front[0].from == a && Acct(HNB, a) !in s;
    assert Moves(s, front);
    assert Release(s, front) == Credit(s, HNB, a, 7) by {
      assert front[1..] == [];
    }
  }
}
