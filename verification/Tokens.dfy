/** The token contracts as functions on one flat state: transfers, votes that freeze balances, and their release. */
module Tokens {
  import opened Basics

  type Address(==, !new)
  type Candidate(==, !new)

  datatype Chain = HGS | HNB

  /** State keys of a contract: an account, an epoch's tally by candidate, an epoch's record of frozen votes. */
  datatype Key = Account(address: Address) | Tally(epoch: nat) | Records(epoch: nat)

  datatype VoteRecord = VoteRecord(from: Address, power: int64)

  /** What an entry decodes to; `OutOfRange` is a decimal number that does not fit 64 bits. */
  datatype Value =
    | Amount(n: int64)
    | Votes(tally: map<Candidate, int64>)
    | Frozen(records: seq<VoteRecord>)
    | OutOfRange(below: bool)

  datatype StateKey = StateKey(chain: Chain, key: Key)

  type State = map<StateKey, Value>

  datatype Op =
    | Same(to: Address, amount: int64)
    | Vote(from: Option<Address>, candidate: Option<Candidate>, power: int64, epoch: nat)
    | Unfreeze(thawed: nat)
    | Unknown
    | Unreadable

  datatype Tx = Tx(contract: Option<Chain>, sender: Address, nonce: nat, op: Op)

  /** Two's complement. */
  function Wrap(x: int): int64 {
    (x + TWO_63) % TWO_64 - TWO_63
  }

  // ---------- One transaction on the flat state ----------

  predicate Typed(k: StateKey, v: Value) {
    match k.key
    case Account(_) => v.Amount?
    case Tally(_) => v.Votes?
    case Records(_) => v.Frozen?
  }

  ghost predicate WellFormed(s: State) {
    forall k :: k in s ==> Typed(k, s[k])
  }

  function Lookup(s: State, k: StateKey): Option<Value> {
    if k in s then Some(s[k]) else None
  }

  lemma SameLookups(s: State, t: State)
    requires forall k: StateKey :: Lookup(t, k) == Lookup(s, k)
    ensures s == t
  {
    assert forall k: StateKey :: k in s <==> Lookup(s, k).Some?;
    assert forall k: StateKey :: k in t <==> Lookup(t, k).Some?;
  }

  function Acct(c: Chain, a: Address): StateKey {
    StateKey(c, Account(a))
  }

  function Balance(s: State, c: Chain, a: Address): int64 {
    if Acct(c, a) in s && s[Acct(c, a)].Amount? then s[Acct(c, a)].n else 0
  }

  function TallyOf(s: State, e: nat): map<Candidate, int64> {
    var k := StateKey(HNB, Tally(e));
    if k in s && s[k].Votes? then s[k].tally else map[]
  }

  function RecordsOf(s: State, e: nat): seq<VoteRecord> {
    var k := StateKey(HNB, Records(e));
    if k in s && s[k].Frozen? then s[k].records else []
  }

  function Credit(s: State, c: Chain, a: Address, n: int): State {
    s[Acct(c, a) := Amount(Wrap(n))]
  }

  // An entry may hold bytes that do not decode; such an entry cannot be read.

  predicate AccountReadable(s: State, c: Chain, a: Address) {
    Acct(c, a) in s ==> s[Acct(c, a)].Amount?
  }

  predicate TallyReadable(s: State, e: nat) {
    StateKey(HNB, Tally(e)) in s ==> s[StateKey(HNB, Tally(e))].Votes?
  }

  predicate RecordsReadable(s: State, e: nat) {
    StateKey(HNB, Records(e)) in s ==> s[StateKey(HNB, Records(e))].Frozen?
  }

  /** The number an entry is parsed to when the error is dropped: one out of range becomes the limit it exceeds. */
  function Parsed(v: Value): int64 {
    match v
    case Amount(n) => n
    case OutOfRange(below) => if below then -TWO_63 else TWO_63 - 1
    case _ => 0
  }

  /** What the receiver of a transfer is taken to have; HGS drops the error of an entry it cannot read. */
  function Incoming(s: State, c: Chain, a: Address): int64 {
    if c == HGS && Acct(c, a) in s then Parsed(s[Acct(c, a)]) else Balance(s, c, a)
  }

  /**
   * None when the transfer is refused: to oneself, from a missing HGS account, from one that cannot be read,
   * beyond the balance, or to an HNB account that cannot be read.
   */
  function Transfer(s: State, c: Chain, from: Address, to: Address, amount: int64): Option<State> {
    if from == to || (c == HGS && Acct(c, from) !in s) || !AccountReadable(s, c, from) then None
    else if Balance(s, c, from) < amount || (c == HNB && !AccountReadable(s, c, to)) then None
    else Some(Credit(Credit(s, c, from, Balance(s, c, from) - amount), c, to, Incoming(s, c, to) + amount))
  }

  /** `amount` has gone from one account to the other, and nothing else has changed. */
  ghost predicate Moved(was: State, now: State, c: Chain, from: Address, to: Address, amount: int64) {
    && Lookup(now, Acct(c, from)) == Some(Amount(Wrap(Balance(was, c, from) - amount)))
    && Lookup(now, Acct(c, to)) == Some(Amount(Wrap(Balance(was, c, to) + amount)))
    && forall k: StateKey :: k != Acct(c, from) && k != Acct(c, to) ==> Lookup(now, k) == Lookup(was, k)
  }

  function Voted(tally: map<Candidate, int64>, c: Candidate): int64 {
    if c in tally then tally[c] else 0
  }

  /** The first half of a vote: its power goes from the voter's balance to the candidate. */
  function Counted(s: State, from: Option<Address>, c: Option<Candidate>, power: int64, e: nat): Option<State> {
    if c.None? || from.None? || power == 0 || e == 0 || Acct(HNB, from.value) !in s then None
    else if !AccountReadable(s, HNB, from.value) || Balance(s, HNB, from.value) < power then None
    else if !TallyReadable(s, e) then None
    else
      var tally := TallyOf(s, e);
      Some(Credit(s[StateKey(HNB, Tally(e)) := Votes(tally[c.value := Wrap(Voted(tally, c.value) + power)])],
                  HNB, from.value, Balance(s, HNB, from.value) - power))
  }

  /** The second half: the record from which the vote will be released. */
  function Recorded(s: State, from: Address, power: int64, e: nat): State {
    s[StateKey(HNB, Records(e)) := Frozen(RecordsOf(s, e) + [VoteRecord(from, power)])]
  }

  /** A vote takes its power from the voter's balance and notes it twice: by candidate, and for release. */
  function CastVote(s: State, from: Option<Address>, c: Option<Candidate>, power: int64, e: nat): Option<State> {
    if Counted(s, from, c, power, e).None? || !RecordsReadable(s, e) then None
    else Some(Recorded(Counted(s, from, c, power, e).value, from.value, power, e))
  }

  /**
   * `power` has gone from the voter's balance to the candidate of epoch `e` and has been noted for release; no other
   * candidate, epoch or account has changed.
   */
  ghost predicate Pledged(was: State, now: State, from: Address, c: Candidate, power: int64, e: nat) {
    var account, tally, records := Acct(HNB, from), StateKey(HNB, Tally(e)), StateKey(HNB, Records(e));
    && Lookup(now, account) == Some(Amount(Wrap(Balance(was, HNB, from) - power)))
    && Lookup(now, tally).Some? && Lookup(now, records).Some?
    && Voted(TallyOf(now, e), c) == Wrap(Voted(TallyOf(was, e), c) + power)
    && (forall d :: d != c ==> (d in TallyOf(now, e) <==> d in TallyOf(was, e)))
    && (forall d :: d != c ==> Voted(TallyOf(now, e), d) == Voted(TallyOf(was, e), d))
    && RecordsOf(now, e) == RecordsOf(was, e) + [VoteRecord(from, power)]
    && forall k: StateKey :: k != account && k != tally && k != records ==> Lookup(now, k) == Lookup(was, k)
  }

  function Release(s: State, records: seq<VoteRecord>): State
    decreases |records|
  {
    if records == [] then s
    else Release(Credit(s, HNB, records[0].from, Balance(s, HNB, records[0].from) + records[0].power), records[1..])
  }

  /** How many records can be released before one whose account cannot be read. */
  function Releasable(s: State, records: seq<VoteRecord>): (k: nat)
    ensures k <= |records|
    ensures forall i :: 0 <= i < k ==> AccountReadable(s, HNB, records[i].from)
    ensures k < |records| ==> !AccountReadable(s, HNB, records[k].from)
    decreases |records|
  {
    if records == [] || !AccountReadable(s, HNB, records[0].from) then 0 else 1 + Releasable(s, records[1..])
  }

  /** The votes of an epoch are returned and the epoch is forgotten. */
  function Thaw(s: State, e: nat): Option<State> {
    var records := RecordsOf(s, e);
    if !RecordsReadable(s, e) || Releasable(s, records) < |records| then None
    else Some(Release(s, records) - {StateKey(HNB, Records(e)), StateKey(HNB, Tally(e))})
  }

  /** The state after a transaction that is not between coins, if a refused one had no effect. */
  function Step(s: State, tx: Tx): State {
    if tx.contract.None? then s
    else
      match tx.op
      case Same(to, amount) => Or(Transfer(s, tx.contract.value, tx.sender, to, amount), s)
      case Vote(from, c, power, e) => if tx.contract.value == HNB then Or(CastVote(s, from, c, power, e), s) else s
      case Unfreeze(e) => if tx.contract.value == HNB then Or(Thaw(s, e), s) else s
      case _ => s
  }

  /** Whether a transaction is answered without an error. */
  predicate Accepted(s: State, tx: Tx) {
    && tx.contract.Some?
    && match tx.op
       case Same(to, amount) => Transfer(s, tx.contract.value, tx.sender, to, amount).Some?
       case Vote(from, c, power, e) => tx.contract.value == HGS || CastVote(s, from, c, power, e).Some?
       case Unfreeze(e) => tx.contract.value == HGS || Thaw(s, e).Some?
       case Unreadable => false
       case Unknown => true
  }

  function Or(r: Option<State>, s: State): State {
    if r.Some? then r.value else s
  }

  function Run(s: State, txs: seq<Tx>): State
    decreases |txs|
  {
    if txs == [] then s else Step(Run(s, txs[..|txs| - 1]), txs[|txs| - 1])
  }

  lemma RunSnoc(s: State, txs: seq<Tx>, i: nat)
    requires i < |txs|
    ensures Run(s, txs[..i + 1]) == Step(Run(s, txs[..i]), txs[i])
  {
    assert txs[..i + 1][..i] == txs[..i];
  }

  // ---------- What a transaction leaves behind, refused or not ----------

  /** A vote that is refused for its record has been counted all the same. */
  function VoteEffect(s: State, from: Option<Address>, c: Option<Candidate>, power: int64, e: nat): State {
    Or(CastVote(s, from, c, power, e), Or(Counted(s, from, c, power, e), s))
  }

  /** A release that is refused at some record has returned the votes before it. */
  function ThawEffect(s: State, e: nat): State {
    Or(Thaw(s, e), Release(s, RecordsOf(s, e)[..Releasable(s, RecordsOf(s, e))]))
  }

  function Effect(s: State, tx: Tx): State {
    if tx.contract == Some(HNB) then
      match tx.op
      case Vote(from, c, power, e) => VoteEffect(s, from, c, power, e)
      case Unfreeze(e) => ThawEffect(s, e)
      case _ => Step(s, tx)
    else Step(s, tx)
  }

  function RunEffects(s: State, txs: seq<Tx>): State
    decreases |txs|
  {
    if txs == [] then s else Effect(RunEffects(s, txs[..|txs| - 1]), txs[|txs| - 1])
  }

  // ---------- Well-formedness is kept ----------

  lemma {:induction false} ReleaseKeeps(s: State, records: seq<VoteRecord>)
    requires WellFormed(s)
    ensures WellFormed(Release(s, records))
    ensures forall k: StateKey :: !k.key.Account? ==>
      (k in Release(s, records) <==> k in s) && (k in s ==> Release(s, records)[k] == s[k])
    decreases |records|
  {
    if records != [] {
      var r := records[0];
      ReleaseKeeps(Credit(s, HNB, r.from, Balance(s, HNB, r.from) + r.power), records[1..]);
    }
  }

  lemma StepKeeps(s: State, tx: Tx)
    requires WellFormed(s)
    ensures WellFormed(Step(s, tx))
  {
    hide Wrap;
    if tx.op.Unfreeze? {
      ReleaseKeeps(s, RecordsOf(s, tx.op.thawed));
    }
  }

  lemma {:induction false} RunKeeps(s: State, txs: seq<Tx>)
    requires WellFormed(s)
    ensures WellFormed(Run(s, txs))
    decreases |txs|
  {
    if txs != [] {
      RunKeeps(s, txs[..|txs| - 1]);
      StepKeeps(Run(s, txs[..|txs| - 1]), txs[|txs| - 1]);
    }
  }

  // ---------- How much there is of a coin ----------

  function Powers(records: seq<VoteRecord>): int {
    if records == [] then 0 else records[0].power + Powers(records[1..])
  }

  lemma {:induction false} PowersSnoc(records: seq<VoteRecord>, r: VoteRecord)
    ensures Powers(records + [r]) == Powers(records) + r.power
  {
    if records != [] {
      assert (records + [r])[1..] == records[1..] + [r];
      PowersSnoc(records[1..], r);
    } else {
      assert records + [r] == [r];
    }
  }

  /** What an entry holds of coin `c`: a balance, or frozen votes. */
  function Weight(k: StateKey, v: Value, c: Chain): int {
    if k.chain != c then 0
    else if k.key.Account? && v.Amount? then v.n
    else if k.key.Records? && v.Frozen? then Powers(v.records)
    else 0
  }

  ghost function Sum<K(!new)>(m: map<K, int>): int
    decreases |m|
  {
    if m == map[] then 0
    else
      var k :| k in m;
      m[k] + Sum(m - {k})
  }

  lemma {:induction false} SumPick<K(!new)>(m: map<K, int>, k: K)
    requires k in m
    ensures Sum(m) == m[k] + Sum(m - {k})
    decreases |m|
  {
    var j :| j in m && Sum(m) == m[j] + Sum(m - {j});
    if j != k {
      SumPick(m - {j}, k);
      SumPick(m - {k}, j);
      assert m - {j} - {k} == m - {k} - {j};
    }
  }

  lemma SumPut<K(!new)>(m: map<K, int>, k: K, v: int)
    ensures Sum(m[k := v]) == Sum(m) - (if k in m then m[k] else 0) + v
  {
    SumPick(m[k := v], k);
    assert m[k := v] - {k} == m - {k};
    SumDrop(m, k);
  }

  lemma SumDrop<K(!new)>(m: map<K, int>, k: K)
    ensures Sum(m - {k}) == Sum(m) - if k in m then m[k] else 0
  {
    if k in m {
      SumPick(m, k);
    } else {
      assert m - {k} == m;
    }
  }

  lemma {:induction false} SumNonNegative<K(!new)>(m: map<K, int>)
    requires forall k :: k in m ==> m[k] >= 0
    ensures Sum(m) >= 0
    decreases |m|
  {
    if m != map[] {
      var k :| k in m;
      SumPick(m, k);
      SumNonNegative(m - {k});
    }
  }

  /** Any two entries together are within the sum. */
  lemma SumBounds<K(!new)>(m: map<K, int>, j: K, k: K)
    requires forall k :: k in m ==> m[k] >= 0
    ensures j in m ==> m[j] <= Sum(m)
    ensures j in m && k in m && j != k ==> m[j] + m[k] <= Sum(m)
  {
    if j in m {
      SumPick(m, j);
      SumNonNegative(m - {j});
      if k in m && j != k {
        SumPick(m - {j}, k);
        SumNonNegative(m - {j} - {k});
      }
    }
  }

  ghost function Weights(s: State, c: Chain): map<StateKey, int> {
    map k | k in s :: Weight(k, s[k], c)
  }

  /** All balances and all frozen votes of a coin. */
  ghost function Total(s: State, c: Chain): int {
    Sum(Weights(s, c))
  }

  function Held(s: State, k: StateKey, c: Chain): int {
    if k in s then Weight(k, s[k], c) else 0
  }

  lemma TotalPut(s: State, k: StateKey, v: Value, c: Chain)
    ensures Total(s[k := v], c) == Total(s, c) - Held(s, k, c) + Weight(k, v, c)
  {
    SumPut(Weights(s, c), k, Weight(k, v, c));
    assert Weights(s[k := v], c) == Weights(s, c)[k := Weight(k, v, c)];
  }

  lemma TotalDrop(s: State, k: StateKey, c: Chain)
    ensures Total(s - {k}, c) == Total(s, c) - Held(s, k, c)
  {
    SumDrop(Weights(s, c), k);
    assert Weights(s - {k}, c) == Weights(s, c) - {k};
  }

  lemma TotalCredit(s: State, c: Chain, a: Address, n: int, d: Chain)
    requires WellFormed(s)
    ensures Total(Credit(s, c, a, n), d) == if c == d then Total(s, d) - Balance(s, c, a) + Wrap(n) else Total(s, d)
  {
    TotalPut(s, Acct(c, a), Amount(Wrap(n)), d);
  }
}
