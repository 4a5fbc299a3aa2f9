/** Transactions as the pool sees them, and nonce-ordered listings of them. */
module Transactions {
  import opened Basics

  type Address(==, !new)
  type Hash(==, !new)
  type Payload(==, !new)

  /** A uint64 account nonce. */
  type Nonce = n: int | 0 <= n < TWO_64

  /** The uint64 successor, which wraps. */
  function Succ(n: Nonce): (s: Nonce) {
    if n == TWO_64 - 1 then 0 else n + 1
  }

  datatype Tx = Tx(hash: Hash, from: Address, nonce: Nonce, payload: Payload)

  function NonceRank(n: Nonce): int { n }
  function TxRank(t: Tx): int { t.nonce }

  type TxMap = map<Nonce, Tx>

  ghost predicate Keyed(m: TxMap) {
    forall n :: n in m ==> m[n].nonce == n
  }

  ghost predicate Ascending(s: seq<Tx>) {
    forall i, j :: 0 <= i < j < |s| ==> s[i].nonce < s[j].nonce
  }

  ghost predicate Descending(s: seq<Tx>) {
    forall i, j :: 0 <= i < j < |s| ==> s[i].nonce > s[j].nonce
  }

  /** The nonces of `s` are s[0].nonce, s[0].nonce + 1, ... */
  ghost predicate Consecutive(s: seq<Tx>) {
    forall i :: 0 <= i < |s| ==> s[i].nonce == s[0].nonce + i
  }

  ghost predicate Distinct(s: seq<Tx>) {
    forall i, j :: 0 <= i < j < |s| ==> s[i] != s[j]
  }

  /** `s` is the nonce-ordered list of all transactions of `m`. */
  ghost predicate Listing(s: seq<Tx>, m: TxMap) {
    && Ascending(s)
    && (forall t :: t in s ==> t.nonce in m && m[t.nonce] == t)
    && (forall n :: n in m ==> m[n] in s)
  }

  /** Taking the transactions `gone` out of `before` leaves `after`. */
  ghost predicate Detached(before: TxMap, gone: seq<Tx>, after: TxMap) {
    && (forall n :: n in after ==> n in before && after[n] == before[n])
    && (forall t :: t in gone ==> t.nonce in before && before[t.nonce] == t && t.nonce !in after)
    && (forall n :: n in before ==> n in after || before[n] in gone)
    && |gone| + |after| == |before|
  }

  ghost predicate Below(gone: seq<Tx>, after: TxMap) {
    forall t, n :: t in gone && n in after ==> t.nonce < n
  }

  ghost predicate Above(gone: seq<Tx>, after: TxMap) {
    forall t, n :: t in gone && n in after ==> n < t.nonce
  }

  /** `gone` is a low end of `before`, taken off in order. */
  ghost predicate Peeled(before: TxMap, gone: seq<Tx>, after: TxMap) {
    && Keyed(before)
    && Detached(before, gone, after)
    && Ascending(gone)
    && Below(gone, after)
  }

  /** `gone` is a high end of `before`, taken off in order. */
  ghost predicate Capped(before: TxMap, gone: seq<Tx>, after: TxMap) {
    && Keyed(before)
    && Detached(before, gone, after)
    && Descending(gone)
    && Above(gone, after)
  }

  lemma {:induction false} ListingUnique(s: seq<Tx>, r: seq<Tx>, m: TxMap)
    requires Listing(s, m) && Listing(r, m) && Keyed(m)
    ensures s == r
  {
    hide Listing, Keyed;
    ListingSize(s, m);
    ListingSize(r, m);
    if s != [] {
      ListingHead(s, r, m);
      ListingTail(s, m);
      ListingTail(r, m);
      ListingUnique(s[1..], r[1..], m - {s[0].nonce});
      assert s == [s[0]] + s[1..] && r == [r[0]] + r[1..];
    }
  }

  lemma ListingHead(s: seq<Tx>, r: seq<Tx>, m: TxMap)
    requires Listing(s, m) && Listing(r, m) && Keyed(m) && s != [] && r != []
    ensures s[0] == r[0]
  {
    assert s[0] in s;
    assert m[s[0].nonce] in r;
    assert r[0] in r;
    assert m[r[0].nonce] in s;
  }

  lemma ListingTail(s: seq<Tx>, m: TxMap)
    requires Listing(s, m) && Keyed(m) && s != []
    ensures Listing(s[1..], m - {s[0].nonce}) && Keyed(m - {s[0].nonce})
  {
    forall n | n in m - {s[0].nonce} ensures m[n] in s[1..] {
      assert m[n] in s && m[n] != s[0];
    }
  }

  lemma {:induction false} ListingSize(s: seq<Tx>, m: TxMap)
    requires Listing(s, m) && Keyed(m)
    ensures |s| == |m|
  {
    if s == [] {
      assert m.Keys == {};
    } else {
      ListingTail(s, m);
      ListingSize(s[1..], m - {s[0].nonce});
      assert s[0] in s;
      assert (m - {s[0].nonce}).Keys == m.Keys - {s[0].nonce};
    }
  }

  /** Every map of transactions has a listing. */
  lemma {:induction false} ListingExists(m: TxMap) returns (s: seq<Tx>)
    requires Keyed(m)
    ensures Listing(s, m)
    decreases |m|
  {
    if m == map[] {
      s := [];
    } else {
      var lo := LeastKey(m.Keys);
      assert (m - {lo}).Keys == m.Keys - {lo};
      var rest := ListingExists(m - {lo});
      s := [m[lo]] + rest;
      ListingJoin([m[lo]], rest, m, m - {lo});
    }
  }

  lemma {:induction false} LeastKey(keys: set<Nonce>) returns (lo: Nonce)
    requires keys != {}
    ensures lo in keys && forall n :: n in keys ==> lo <= n
    decreases keys
  {
    var first :| first in keys;
    lo := first;
    if keys != {first} {
      assert keys - {first} != {};
      var other := LeastKey(keys - {first});
      if other < first { lo := other; }
      assert forall n :: n in keys ==> n == first || n in keys - {first};
    }
  }

  lemma ListingJoin(low: seq<Tx>, high: seq<Tx>, m: TxMap, h: TxMap)
    requires Keyed(m) && Listing(high, h) && Ascending(low)
    requires Detached(m, low, h)
    requires forall t, n :: t in low && n in h ==> t.nonce < n
    ensures Listing(low + high, m)
  {
    var s := low + high;
    forall i, j | 0 <= i < j < |s| ensures s[i].nonce < s[j].nonce {
      if i < |low| <= j {
        assert low[i] in low && high[j - |low|] in high;
      }
    }
    forall n | n in m ensures m[n] in s {
      if n in h { assert h[n] in high; }
    }
  }

  /** Dropping the `gone` low end of a map drops the same prefix of its listing. */
  lemma ListingWithoutLow(s: seq<Tx>, m: TxMap, gone: seq<Tx>, h: TxMap)
    requires Listing(s, m) && Peeled(m, gone, h)
    ensures |gone| <= |s| && s[..|gone|] == gone && Listing(s[|gone|..], h)
  {
    var rest := ListingExists(h);
    ListingJoin(gone, rest, m, h);
    ListingUnique(s, gone + rest, m);
    assert (gone + rest)[|gone|..] == rest;
    assert (gone + rest)[..|gone|] == gone;
  }

  /** Dropping the high end, listed downwards, drops the same suffix. */
  lemma ListingWithoutHigh(s: seq<Tx>, m: TxMap, gone: seq<Tx>, l: TxMap)
    requires Listing(s, m) && Capped(m, gone, l)
    ensures |gone| <= |s| && s[|s| - |gone|..] == Reversed(gone) && Listing(s[..|s| - |gone|], l)
  {
    var up := Reversed(gone);
    var rest := ListingExists(l);
    ReversedAscends(gone);
    JoinHigh(rest, up, m, l);
    ListingUnique(s, rest + up, m);
    assert (rest + up)[..|rest|] == rest;
    assert (rest + up)[|rest|..] == up;
  }

  lemma ReversedAscends(s: seq<Tx>)
    requires Descending(s)
    ensures Ascending(Reversed(s))
  {
    var r := Reversed(s);
    forall i, j | 0 <= i < j < |r| ensures r[i].nonce < r[j].nonce {
      assert s[|s| - 1 - j].nonce > s[|s| - 1 - i].nonce;
    }
  }

  ghost function Reversed(s: seq<Tx>): (r: seq<Tx>)
    ensures |r| == |s|
    ensures forall i :: 0 <= i < |s| ==> r[i] == s[|s| - 1 - i]
    ensures forall t :: t in s <==> t in r
  {
    var r := seq(|s|, i requires 0 <= i < |s| => s[|s| - 1 - i]);
    assert forall i :: 0 <= i < |s| ==> s[i] == r[|s| - 1 - i];
    r
  }

  lemma JoinHigh(low: seq<Tx>, high: seq<Tx>, m: TxMap, l: TxMap)
    requires Keyed(m) && Listing(low, l) && Ascending(high)
    requires forall n :: n in l ==> n in m && l[n] == m[n]
    requires forall t :: t in high ==> t.nonce in m && m[t.nonce] == t
    requires forall n :: n in m ==> n in l || m[n] in high
    requires forall t, n :: t in high && n in l ==> n < t.nonce
    ensures Listing(low + high, m)
  {
    var s := low + high;
    forall i, j | 0 <= i < j < |s| ensures s[i].nonce < s[j].nonce {
      if i < |low| <= j {
        assert low[i] in low && high[j - |low|] in high;
      }
    }
    forall n | n in m ensures m[n] in s {
      if n in l { assert l[n] in low; }
    }
  }

  /** Rank order without repeated nonces is a listing. */
  lemma SortedIsListing(s: seq<Tx>, m: TxMap)
    requires Keyed(m) && |s| == |m|
    requires forall i, j :: 0 <= i < j < |s| ==> s[i].nonce <= s[j].nonce
    requires forall t :: t in s ==> t.nonce in m && m[t.nonce] == t
    requires forall n :: n in m ==> m[n] in s
    ensures Listing(s, m)
  {
    forall i, j | 0 <= i < j < |s| ensures s[i].nonce < s[j].nonce {
      if s[i].nonce == s[j].nonce {
        assert s[i] in s && s[j] in s;
        var t := s[..j] + s[j + 1..];
        forall n | n in m ensures exists k :: 0 <= k < |t| && t[k].nonce == n {
          var k :| 0 <= k < |s| && s[k] == m[n];
          if k < j { assert t[k] == s[k]; } else if k == j { assert t[i] == s[i]; } else { assert t[k - 1] == s[k]; }
        }
        TooFew(t, m.Keys);
        assert false;
      }
    }
  }

  lemma {:induction false} TooFew(t: seq<Tx>, keys: set<Nonce>)
    requires forall n :: n in keys ==> exists k :: 0 <= k < |t| && t[k].nonce == n
    ensures |keys| <= |t|
  {
    if t != [] {
      var last := t[|t| - 1].nonce;
      var rest := t[..|t| - 1];
      forall n | n in keys - {last} ensures exists k :: 0 <= k < |rest| && rest[k].nonce == n {
        var k :| 0 <= k < |t| && t[k].nonce == n;
        assert rest[k].nonce == n;
      }
      TooFew(rest, keys - {last});
    }
  }
}
