/** Fork search: 513 samples of a range, narrowed between the last sample that agrees and the next one. */
module ForkSearch {
  import opened Basics

  const BASE_COUNT: nat := 512
  const TOLERANCE: nat := 50

  type Hash(==, !new)

  /** The hashes of one node's chain by block number, none where it has no block. */
  type Chain = nat -> Option<Hash>

  /** Both nodes have the block, and it is the same. */
  predicate Agreed(local: Chain, remote: Chain, n: nat) {
    local(n).Some? && remote(n).Some? && local(n) == remote(n)
  }

  /** The chains share a non-empty prefix and nothing after it. */
  ghost predicate CommonPrefix(local: Chain, remote: Chain) {
    && Agreed(local, remote, 1)
    && forall m: nat, n: nat :: 1 <= m <= n && Agreed(local, remote, n) ==> Agreed(local, remote, m)
  }

  // ---------- Sample points ----------

  /** The `i`-th of the samples of a wide range. */
  function Sample(start: nat, end: nat, i: nat): nat
    requires start <= end
  {
    start + i * (end - start) / BASE_COUNT
  }

  lemma {:induction false} CastProduct(i: nat, d: nat)
    ensures (i * d) as real == i as real * d as real
  {
    if i > 0 {
      CastProduct(i - 1, d);
      assert i * d == (i - 1) * d + d;
    }
  }

  function Point(start: nat, i: nat, interval: real): real {
    start as real + i as real * interval
  }

  /** The floating-point formula, over the reals, is integer division. */
  lemma FloorOfSample(start: nat, end: nat, i: nat)
    requires start <= end
    ensures Point(start, i, (end - start) as real / BASE_COUNT as real).Floor == Sample(start, end, i)
  {
    GridTimes(i, end - start);
    GridPlus(start, i * (end - start));
    assert (end - start) as real / BASE_COUNT as real == Grid(end - start);
    FloorOfGrid(start, end, i);
  }

  lemma FloorIs(x: real, n: int)
    requires n as real <= x < n as real + 1.0
    ensures x.Floor == n
  {
  }

  const TWO_53: nat := 0x20_0000_0000_0000

  /** `m` steps of 1/512. */
  function Grid(m: nat): real {
    m as real / 512.0
  }

  /** Rounding to 53 significant bits keeps the grid up to 2^44. */
  ghost predicate KeepsGrid(round: real -> real) {
    forall m: nat :: m <= TWO_53 ==> round(Grid(m)) == Grid(m)
  }

  /** The sample as the code computes it, each operation rounded. */
  ghost function RoundedPoint(round: real -> real, start: nat, end: nat, i: nat): real
    requires start <= end
  {
    RoundedSum(round, start, RoundedTimes(round, i, end - start))
  }

  ghost function RoundedTimes(round: real -> real, i: nat, d: nat): real {
    round(i as real) * round(round(d as real) / BASE_COUNT as real)
  }

  ghost function RoundedSum(round: real -> real, start: nat, x: real): real {
    round(round(start as real) + round(x))
  }

  /** Up to block 2^44 no rounding takes place, so the floating-point sample is the exact one. */
  lemma RoundedIsExact(round: real -> real, start: nat, end: nat, i: nat)
    requires KeepsGrid(round) && start <= end && i <= BASE_COUNT && BASE_COUNT * end <= TWO_53
    ensures RoundedPoint(round, start, end, i).Floor == Sample(start, end, i)
  {
    hide RoundedSum, RoundedTimes, KeepsGrid, Grid, Sample;
    var d := end - start;
    Below(i, d);
    ExactTimes(round, i, d);
    ExactSum(round, start, i * d);
    FloorOfGrid(start, end, i);
  }

  lemma ExactTimes(round: real -> real, i: nat, d: nat)
    requires KeepsGrid(round) && i <= BASE_COUNT && BASE_COUNT * d <= TWO_53
    ensures RoundedTimes(round, i, d) == Grid(i * d)
  {
    hide KeepsGrid, Grid;
    ExactWhole(round, i);
    ExactWhole(round, d);
    ExactInterval(round, d);
    GridTimes(i, d);
  }

  lemma ExactWhole(round: real -> real, n: nat)
    requires KeepsGrid(round) && BASE_COUNT * n <= TWO_53
    ensures round(n as real) == n as real
  {
    GridWhole(n);
  }

  lemma ExactInterval(round: real -> real, d: nat)
    requires KeepsGrid(round) && d <= TWO_53
    ensures round(d as real / BASE_COUNT as real) == Grid(d)
  {
  }

  lemma ExactSum(round: real -> real, start: nat, p: nat)
    requires KeepsGrid(round) && BASE_COUNT * start + p <= TWO_53
    ensures RoundedSum(round, start, Grid(p)) == Grid(BASE_COUNT * start + p)
  {
    ExactWhole(round, start);
    GridPlus(start, p);
  }

  lemma Below(i: nat, d: nat)
    requires i <= BASE_COUNT
    ensures i * d <= BASE_COUNT * d
  {
  }

  lemma GridWhole(n: nat)
    ensures n as real == Grid(BASE_COUNT * n)
  {
  }

  lemma GridTimes(i: nat, d: nat)
    ensures i as real * Grid(d) == Grid(i * d)
  {
    CastProduct(i, d);
    assert i as real * (d as real / 512.0) == (i as real * d as real) / 512.0;
  }

  lemma GridPlus(start: nat, p: nat)
    ensures start as real + Grid(p) == Grid(BASE_COUNT * start + p)
  {
  }

  lemma FloorOfGrid(start: nat, end: nat, i: nat)
    requires start <= end
    ensures Grid(BASE_COUNT * start + i * (end - start)).Floor == Sample(start, end, i)
  {
    var p := i * (end - start);
    var q, r := p / BASE_COUNT, p % BASE_COUNT;
    FloorIs(Grid(BASE_COUNT * start + p), start + q);
  }

  /** Samples go from the start to the end of the range, never back, and with steps of bounded size. */
  lemma SamplesSpread(start: nat, end: nat, i: nat)
    requires start <= end && i < BASE_COUNT
    ensures Sample(start, end, 0) == start && Sample(start, end, BASE_COUNT) == end
    ensures Sample(start, end, i) <= Sample(start, end, i + 1)
    ensures Sample(start, end, i + 1) - Sample(start, end, i) <= (end - start + BASE_COUNT - 1) / BASE_COUNT
  {
    var d := end - start;
    assert (i + 1) * d == i * d + d;
  }

  /** Ascending from the first to the last block of the range. */
  ghost predicate Covers(s: seq<nat>, start: nat, end: nat) {
    && |s| > 0 && s[0] == start && s[|s| - 1] == end
    && forall i :: 0 <= i < |s| - 1 ==> s[i] <= s[i + 1]
  }

  /** Neighbouring samples are at most `gap` apart. */
  ghost predicate Dense(s: seq<nat>, gap: nat) {
    forall i :: 0 <= i < |s| - 1 ==> s[i + 1] <= s[i] + gap
  }

  function Gap(start: nat, end: nat): nat
    requires start <= end
  {
    if end - start + 1 < BASE_COUNT then 1 else (end - start + BASE_COUNT - 1) / BASE_COUNT
  }

  /** Every block of a narrow range, 513 samples of a wide one. */
  function Samples(start: nat, end: nat): (s: seq<nat>)
    requires start <= end
    ensures |s| > 0
  {
    if end - start + 1 < BASE_COUNT then seq(end - start + 1, i requires 0 <= i <= end - start => start + i)
    else seq(BASE_COUNT + 1, i requires 0 <= i <= BASE_COUNT => Sample(start, end, i))
  }

  lemma SamplesCover(start: nat, end: nat)
    requires start <= end
    ensures Covers(Samples(start, end), start, end) && Dense(Samples(start, end), Gap(start, end))
  {
    hide Sample;
    var s := Samples(start, end);
    if end - start + 1 >= BASE_COUNT {
      forall i | 0 <= i < BASE_COUNT
        ensures s[i] <= s[i + 1] <= s[i] + Gap(start, end)
      {
        SamplesSpread(start, end, i);
      }
      SamplesSpread(start, end, 0);
    }
  }

  method GenSamples(start: nat, end: nat) returns (s: seq<nat>)
    ensures start > end ==> s == []
    ensures start <= end ==> s == Samples(start, end) && Covers(s, start, end) && Dense(s, Gap(start, end))
  {
    s := [];
    if start > end {
      return;
    }
    SamplesCover(start, end);
    hide Covers, Dense;
    var counts := end - start + 1;
    if counts < BASE_COUNT {
      for i := 0 to counts
        invariant |s| == i && forall j :: 0 <= j < i ==> s[j] == start + j
      {
        s := s + [start + i];
      }
      assert s == Samples(start, end);
    } else {
      s := Spread(start, end);
    }
  }

  /** 513 samples at equal distances, rounded down. */
  method Spread(start: nat, end: nat) returns (s: seq<nat>)
    requires start <= end && end - start + 1 >= BASE_COUNT
    ensures s == Samples(start, end)
  {
    hide Sample, Point;
    s := [];
    var interval := (end - start) as real / BASE_COUNT as real;
    for i := 0 to BASE_COUNT + 1
      invariant |s| == i && forall j :: 0 <= j < i ==> s[j] == Sample(start, end, j)
    {
      FloorOfSample(start, end, i);
      s := s + [Point(start, i, interval).Floor];
    }
  }

  // ---------- One round ----------

  /** The peer's answer: its hash for each block asked for. */
  method Respond(remote: Chain, s: seq<nat>) returns (hashes: seq<Option<Hash>>)
    ensures |hashes| == |s| && forall i :: 0 <= i < |s| ==> hashes[i] == remote(s[i])
  {
    hashes := [];
    for i := 0 to |s|
      invariant |hashes| == i && forall j :: 0 <= j < i ==> hashes[j] == remote(s[j])
    {
      hashes := hashes + [remote(s[i])];
    }
  }

  /** The index of the last sample that agrees, -1 when none does. */
  ghost function LastAgreed(local: Chain, remote: Chain, s: seq<nat>): (k: int)
    ensures -1 <= k < |s|
    ensures k >= 0 ==> Agreed(local, remote, s[k])
    ensures forall i :: k < i < |s| ==> !Agreed(local, remote, s[i])
  {
    if s == [] then -1
    else if Agreed(local, remote, s[|s| - 1]) then |s| - 1
    else LastAgreed(local, remote, s[..|s| - 1])
  }

  /** The sample at `k` and the one after it; (1, 1) for none. */
  function Around(s: seq<nat>, k: int): (nat, nat)
    requires -1 <= k < |s|
  {
    if k == -1 then (1, 1) else (s[k], if k == |s| - 1 then s[k] else s[k + 1])
  }

  lemma LastIs(local: Chain, remote: Chain, s: seq<nat>, k: int)
    requires -1 <= k < |s| && (k >= 0 ==> Agreed(local, remote, s[k]))
    requires forall i :: k < i < |s| ==> !Agreed(local, remote, s[i])
    ensures LastAgreed(local, remote, s) == k
  {
  }

  /** The local block `n` has the hash that was sent. */
  predicate Matches(local: Chain, n: nat, h: Option<Hash>) {
    local(n).Some? && h.Some? && local(n) == h
  }

  /**
   * The last sample whose local hash is the one sent at its place, and the sample after it; (1, 1) when there is
   * none.  It crashes on a reply that is too short for the samples with a local block.
   */
  method GetForkPointInterval(local: Chain, s: seq<nat>, hashes: seq<Option<Hash>>)
    returns (left: nat, right: nat, crashed: bool, ghost k: int)
    ensures crashed <==> exists i :: |hashes| <= i < |s| && local(s[i]).Some?
    ensures !crashed ==>
      && -1 <= k < |s| && (left, right) == Around(s, k)
      && (k >= 0 ==> k < |hashes| && Matches(local, s[k], hashes[k]))
      && (forall i :: k < i < |s| && i < |hashes| ==> !Matches(local, s[i], hashes[i]))
  {
    left, right, crashed, k := 1, 1, false, -1;
    var i := |s| - 1;
    while i >= 0
      invariant -1 <= i < |s| && left == 1 && right == 1
      invariant forall j :: i < j < |s| && j < |hashes| ==> !Matches(local, s[j], hashes[j])
      invariant forall j :: i < j < |s| && local(s[j]).Some? ==> j < |hashes|
    {
      if local(s[i]).Some? {
        if i >= |hashes| {
          return left, right, true, k;
        }
        if hashes[i].Some? {
          if local(s[i]) == hashes[i] {
            left := s[i];
            right := if i == |s| - 1 then left else s[i + 1];
            return left, right, false, i;
          }
        }
      }
      i := i - 1;
    }
  }

  /** A peer's own hashes for the samples: the last match is the last sample that agrees. */
  lemma OwnHashes(local: Chain, remote: Chain, s: seq<nat>, hashes: seq<Option<Hash>>, k: int)
    requires |hashes| == |s| && (forall i :: 0 <= i < |s| ==> hashes[i] == remote(s[i])) && -1 <= k < |s|
    requires k >= 0 ==> Matches(local, s[k], hashes[k])
    requires forall i :: k < i < |s| ==> !Matches(local, s[i], hashes[i])
    ensures LastAgreed(local, remote, s) == k
  {
    LastIs(local, remote, s, k);
  }

  // ---------- The search ----------

  /** Nothing is shared as far up as `r + TOLERANCE`. */
  ghost predicate Near(local: Chain, remote: Chain, r: nat) {
    forall n: nat :: n >= r + TOLERANCE ==> !Agreed(local, remote, n)
  }

  lemma NotBeyond(local: Chain, remote: Chain, r: nat, bound: nat)
    requires CommonPrefix(local, remote) && 1 <= bound <= r + TOLERANCE && !Agreed(local, remote, bound)
    ensures Near(local, remote, r)
  {
  }

  lemma {:induction false} CoversOrder(s: seq<nat>, start: nat, end: nat, i: nat)
    requires Covers(s, start, end) && i < |s|
    ensures start <= s[i] <= end && s[|s| - 1] == end
  {
    AscendsTo(s, i);
    AscendsFrom(s, i);
  }

  lemma {:induction false} AscendsTo(s: seq<nat>, i: nat)
    requires i < |s| && forall j :: 0 <= j < |s| - 1 ==> s[j] <= s[j + 1]
    ensures s[0] <= s[i]
  {
    if i > 0 {
      AscendsTo(s, i - 1);
      assert s[i - 1] <= s[i - 1 + 1];
    }
  }

  lemma {:induction false} AscendsFrom(s: seq<nat>, i: nat)
    requires i < |s| && forall j :: 0 <= j < |s| - 1 ==> s[j] <= s[j + 1]
    ensures s[i] <= s[|s| - 1]
    decreases |s| - i
  {
    if i < |s| - 1 {
      AscendsFrom(s, i + 1);
    }
  }

  /** The highest local block for which one round always suffices. */
  const ONE_ROUND: nat := 1 + (TOLERANCE - 1) * BASE_COUNT

  /** What the rounds from the range `lo` to `hi` on come to. */
  ghost function Found(local: Chain, remote: Chain, lo: nat, hi: nat): nat
    requires 1 <= lo <= hi
    decreases hi - lo
  {
    var s := Samples(lo, hi);
    var k := LastAgreed(local, remote, s);
    var (left, right) := Around(s, k);
    InRange(s, lo, hi, k);
    if right - left < TOLERANCE then left else Found(local, remote, left + 1, right - 1)
  }

  lemma FoundStep(local: Chain, remote: Chain, lo: nat, hi: nat)
    requires 1 <= lo <= hi
    ensures
      var s := Samples(lo, hi);
      var (left, right) := Around(s, LastAgreed(local, remote, s));
      1 <= left <= right &&
      Found(local, remote, lo, hi) ==
        if right - left < TOLERANCE then left else Found(local, remote, left + 1, right - 1)
  {
    InRange(Samples(lo, hi), lo, hi, LastAgreed(local, remote, Samples(lo, hi)));
  }

  lemma InRange(s: seq<nat>, lo: nat, hi: nat, k: int)
    requires 1 <= lo <= hi && s == Samples(lo, hi) && -1 <= k < |s|
    ensures
      var (left, right) := Around(s, k);
      1 <= left <= right && (k >= 0 ==> lo <= left && right <= hi)
  {
    SamplesCover(lo, hi);
    if k >= 0 {
      CoversOrder(s, lo, hi, k);
      if k < |s| - 1 {
        CoversOrder(s, lo, hi, k + 1);
      }
    }
  }

  /**
   * What the search can be woken by: the peer's reply to the latest request, a second reply to an earlier request
   * of the same job, a reply to some other job, or the timer.
   */
  datatype Arrival = Reply | Repeat(round: nat) | Foreign | Expired

  datatype Fork = At(number: nat) | TimedOut | Waiting

  // ---------- How many rounds it takes ----------

  /** The rounds from the range `lo` to `hi` on, one reply for each. */
  ghost function Rounds(local: Chain, remote: Chain, lo: nat, hi: nat): (n: nat)
    requires 1 <= lo <= hi
    ensures n > 0
    decreases hi - lo
  {
    var s := Samples(lo, hi);
    var k := LastAgreed(local, remote, s);
    var (left, right) := Around(s, k);
    InRange(s, lo, hi, k);
    if right - left < TOLERANCE then 1 else 1 + Rounds(local, remote, left + 1, right - 1)
  }

  lemma RoundsStep(local: Chain, remote: Chain, lo: nat, hi: nat)
    requires 1 <= lo <= hi
    ensures
      var s := Samples(lo, hi);
      var (left, right) := Around(s, LastAgreed(local, remote, s));
      1 <= left <= right &&
      Rounds(local, remote, lo, hi) ==
        if right - left < TOLERANCE then 1 else 1 + Rounds(local, remote, left + 1, right - 1)
  {
    InRange(Samples(lo, hi), lo, hi, LastAgreed(local, remote, Samples(lo, hi)));
  }

  /** How often a range of width `w` can be narrowed: what lies between two samples is 512 times narrower. */
  function Levels(w: nat): nat {
    if w < ONE_ROUND then 0 else 1 + Levels((w + BASE_COUNT - 1) / BASE_COUNT - 2)
  }

  lemma {:induction false} LevelsGrow(v: nat, w: nat)
    requires v <= w
    ensures Levels(v) <= Levels(w)
    decreases w
  {
    if v >= ONE_ROUND {
      LevelsGrow((v + BASE_COUNT - 1) / BASE_COUNT - 2, (w + BASE_COUNT - 1) / BASE_COUNT - 2);
    }
  }

  function Power(k: nat): (p: nat)
    ensures p > 0
  {
    if k == 0 then 1 else BASE_COUNT * Power(k - 1)
  }

  /** The number of narrowings is logarithmic in the width. */
  lemma {:induction false} LevelsLogarithmic(w: nat, k: nat)
    requires w < Power(k + 1)
    ensures Levels(w) <= k
    decreases k
  {
    if w >= ONE_ROUND && k > 0 {
      LevelsLogarithmic((w + BASE_COUNT - 1) / BASE_COUNT - 2, k - 1);
    }
  }

  /** A round that does not end the search leaves less than a 512th of its range. */
  lemma Narrowed(local: Chain, remote: Chain, lo: nat, hi: nat)
    requires 1 <= lo <= hi
    ensures
      var s := Samples(lo, hi);
      var (left, right) := Around(s, LastAgreed(local, remote, s));
      right - left >= TOLERANCE ==>
        hi - lo >= ONE_ROUND && right - left <= (hi - lo + BASE_COUNT - 1) / BASE_COUNT
  {
    var s := Samples(lo, hi);
    var k := LastAgreed(local, remote, s);
    SamplesCover(lo, hi);
    var (left, right) := Around(s, k);
    if right - left >= TOLERANCE {
      assert 0 <= k < |s| - 1;
      WideGap(s, lo, hi, k);
    }
  }

  /** Whatever the chains, the rounds are bounded by the width of the range alone; one up to 25089 blocks. */
  lemma {:induction false} RoundsBounded(local: Chain, remote: Chain, lo: nat, hi: nat)
    requires 1 <= lo <= hi
    ensures Rounds(local, remote, lo, hi) <= 1 + Levels(hi - lo)
    ensures hi - lo < ONE_ROUND ==> Rounds(local, remote, lo, hi) == 1
    decreases hi - lo
  {
    hide Samples, LastAgreed, Rounds;
    RoundsStep(local, remote, lo, hi);
    Narrowed(local, remote, lo, hi);
    var s := Samples(lo, hi);
    var k := LastAgreed(local, remote, s);
    var (left, right) := Around(s, k);
    InRange(s, lo, hi, k);
    if right - left >= TOLERANCE {
      RoundsBounded(local, remote, left + 1, right - 1);
      LevelsGrow(right - left - 2, (hi - lo + BASE_COUNT - 1) / BASE_COUNT - 2);
    }
  }

  function Replies(arrivals: seq<Arrival>): nat {
    if arrivals == [] then 0
    else Replies(arrivals[..|arrivals| - 1]) + if arrivals[|arrivals| - 1].Reply? then 1 else 0
  }

  lemma RepliesNext(arrivals: seq<Arrival>, n: nat)
    requires n < |arrivals|
    ensures Replies(arrivals[..n + 1]) == Replies(arrivals[..n]) + if arrivals[n].Reply? then 1 else 0
  {
    assert arrivals[..n + 1][..n] == arrivals[..n];
  }

  /**
   * Arrival `i` ends a search of the given number of rounds: the timer, a second reply to a round that has been
   * answered, or the reply to the last round.
   */
  predicate Ends(arrivals: seq<Arrival>, i: nat, rounds: nat)
    requires i < |arrivals|
  {
    match arrivals[i]
    case Expired => true
    case Repeat(round) => round < Replies(arrivals[..i])
    case Reply => Replies(arrivals[..i]) + 1 >= rounds
    case Foreign => false
  }

  /** Enough replies contain one that ends the search. */
  lemma {:induction false} EnoughReplies(arrivals: seq<Arrival>, n: nat, rounds: nat) returns (i: nat)
    requires n <= |arrivals| && 0 < rounds <= Replies(arrivals[..n])
    ensures i < n && Ends(arrivals, i, rounds)
  {
    RepliesNext(arrivals, n - 1);
    if rounds <= Replies(arrivals[..n - 1]) {
      i := EnoughReplies(arrivals, n - 1, rounds);
    } else {
      i := n - 1;
    }
  }

  /** Fewer than `rounds` replies come before the timer. */
  ghost predicate TooFew(arrivals: seq<Arrival>, rounds: nat) {
    forall n: nat :: n <= |arrivals| && Expired !in arrivals[..n] ==> Replies(arrivals[..n]) < rounds
  }

  /** `used` arrivals have been handled, none before the last of them ended the search. */
  ghost predicate Handled(arrivals: seq<Arrival>, used: nat, waiting: bool, rounds: nat) {
    && used <= |arrivals|
    && (if waiting then used == |arrivals| else used > 0 && Ends(arrivals, used - 1, rounds))
    && forall i :: 0 <= i < used && (waiting || i < used - 1) ==> !Ends(arrivals, i, rounds)
  }

  lemma NoAnswerYet(arrivals: seq<Arrival>, used: nat, waiting: bool, rounds: nat, more: nat)
    requires 0 < rounds <= more && Handled(arrivals, used, waiting, rounds)
    requires !waiting ==> arrivals[used - 1].Expired?
    ensures TooFew(arrivals, rounds) && TooFew(arrivals, more)
  {
    hide Ends;
    forall n: nat | n <= |arrivals| && Expired !in arrivals[..n]
      ensures Replies(arrivals[..n]) < rounds
    {
      if Replies(arrivals[..n]) >= rounds {
        var i := EnoughReplies(arrivals, n, rounds);
        assert false;
      }
    }
  }

  /** None of the first `n` arrivals ends the search. */
  ghost predicate Unended(arrivals: seq<Arrival>, n: nat, rounds: nat) {
    n <= |arrivals| && forall i :: 0 <= i < n ==> !Ends(arrivals, i, rounds)
  }

  lemma NothingEnded(arrivals: seq<Arrival>, rounds: nat)
    ensures Unended(arrivals, 0, rounds) && Replies(arrivals[..0]) == 0
  {
  }

  /** The next arrival ends the search or leaves it going on. */
  lemma OneMore(arrivals: seq<Arrival>, n: nat, rounds: nat)
    requires n < |arrivals| && Unended(arrivals, n, rounds)
    ensures Ends(arrivals, n, rounds) ==> Handled(arrivals, n + 1, false, rounds)
    ensures !Ends(arrivals, n, rounds) ==> Unended(arrivals, n + 1, rounds)
    ensures Replies(arrivals[..n + 1]) == Replies(arrivals[..n]) + if arrivals[n].Reply? then 1 else 0
    ensures Ends(arrivals, n, rounds) <==>
      || arrivals[n].Expired?
      || (arrivals[n].Repeat? && arrivals[n].round < Replies(arrivals[..n]))
      || (arrivals[n].Reply? && Replies(arrivals[..n]) + 1 >= rounds)
  {
    RepliesNext(arrivals, n);
  }

  lemma AllHandled(arrivals: seq<Arrival>, rounds: nat)
    requires Unended(arrivals, |arrivals|, rounds)
    ensures Handled(arrivals, |arrivals|, true, rounds) && Expired !in arrivals
  {
    forall i | 0 <= i < |arrivals|
      ensures !arrivals[i].Expired?
    {
      assert !Ends(arrivals, i, rounds);
    }
  }

  /** A hash tells the number of its block. */
  ghost predicate NumbersTold(local: Chain, remote: Chain) {
    forall m: nat, n: nat :: local(m).Some? && local(m) == remote(n) ==> m == n
  }

  /** Samples of an earlier round, all outside the range that is left. */
  ghost predicate Past(samples: seq<nat>, lo: nat, hi: nat) {
    |samples| == BASE_COUNT + 1 && forall i :: 0 <= i < |samples| ==> samples[i] < lo || hi < samples[i]
  }

  lemma {:induction false} Ascends(s: seq<nat>, i: nat, j: nat)
    requires i <= j < |s| && forall n :: 0 <= n < |s| - 1 ==> s[n] <= s[n + 1]
    ensures s[i] <= s[j]
  {
    if i < j {
      Ascends(s, i, j - 1);
      assert s[j - 1] <= s[j - 1 + 1];
    }
  }

  /** The samples of a round lie outside what is left between two of them. */
  lemma BecomesPast(s: seq<nat>, lo: nat, hi: nat, k: nat)
    requires 1 <= lo <= hi && s == Samples(lo, hi) && Covers(s, lo, hi) && Dense(s, Gap(lo, hi))
    requires k < |s| - 1 && s[k + 1] - s[k] >= TOLERANCE
    ensures Past(s, s[k] + 1, s[k + 1] - 1)
  {
    WideGap(s, lo, hi, k);
    hide Sample, Dense;
    forall i | 0 <= i < |s|
      ensures s[i] < s[k] + 1 || s[k + 1] - 1 < s[i]
    {
      if i <= k {
        Ascends(s, i, k);
      } else {
        Ascends(s, k + 1, i);
      }
    }
  }

  /** None of the hashes for earlier samples matches. */
  lemma NothingMatches(local: Chain, remote: Chain, s: seq<nat>, lo: nat, hi: nat, past: seq<nat>,
                       hashes: seq<Option<Hash>>, i: nat)
    requires NumbersTold(local, remote) && Covers(s, lo, hi) && Past(past, lo, hi) && |hashes| == |past|
    requires (forall j :: 0 <= j < |past| ==> hashes[j] == remote(past[j])) && i < |s| && i < |hashes|
    ensures !Matches(local, s[i], hashes[i])
  {
    CoversOrder(s, lo, hi, i);
  }

  lemma SamplesFit(lo: nat, hi: nat)
    requires lo <= hi
    ensures |Samples(lo, hi)| <= BASE_COUNT + 1
  {
  }

  /** A second reply to an earlier round matches nowhere, so the search answers block 1. */
  method HandleRepeat(local: Chain, remote: Chain, s: seq<nat>, past: seq<nat>, ghost lo: nat, ghost hi: nat)
    returns (left: nat, right: nat)
    requires NumbersTold(local, remote) && 1 <= lo <= hi && s == Samples(lo, hi) && Covers(s, lo, hi)
    requires Past(past, lo, hi)
    ensures left == 1 && right == 1
  {
    hide Agreed, Samples, Matches;
    SamplesFit(lo, hi);
    var hashes := Respond(remote, past);
    ghost var k;
    var crashed;
    left, right, crashed, k := GetForkPointInterval(local, s, hashes);
    if k >= 0 {
      NothingMatches(local, remote, s, lo, hi, past, hashes, k);
    }
  }

  /** A reply to the latest request gives the last sample that agrees. */
  method HandleReply(local: Chain, remote: Chain, s: seq<nat>, ghost lo: nat, ghost hi: nat)
    returns (left: nat, right: nat, ghost k: int)
    requires 1 <= lo <= hi && s == Samples(lo, hi)
    ensures -1 <= k < |s| && k == LastAgreed(local, remote, s) && (left, right) == Around(s, k)
    ensures 1 <= left <= right && (k >= 0 ==> lo <= left && right <= hi)
  {
    hide Agreed, Samples, LastAgreed, Matches;
    var hashes := Respond(remote, s);
    var crashed;
    left, right, crashed, k := GetForkPointInterval(local, s, hashes);
    OwnHashes(local, remote, s, hashes, k);
    InRange(s, lo, hi, k);
  }

  /**
   * Against a peer that answers for its own chain the search ends with a block both have.  It is the
   * first block, or less than the tolerance below the last common one; up to 25089 local blocks the latter.
   * Replies to other jobs change nothing, and only the timer makes it fail.  A second reply to an earlier request
   * ends it with block 1.  `used` counts the arrivals it has handled.
   */
  method SearchFork(local: Chain, remote: Chain, height: nat, arrivals: seq<Arrival>) returns (r: Fork, ghost used: nat)
    requires height >= 1 && (height > 1 ==> CommonPrefix(local, remote))
    requires forall n: nat :: local(n).Some? ==> n < height
    requires NumbersTold(local, remote) || forall i :: 0 <= i < |arrivals| ==> !arrivals[i].Repeat?
    ensures used <= |arrivals| && (r.At? && height > 1 ==> used > 0)
    ensures r.At? && height == 1 ==> r.number == 1
    ensures r.At? && height > 1 ==> arrivals[used - 1].Reply? || arrivals[used - 1].Repeat?
    ensures r.At? && height > 1 && arrivals[used - 1].Reply? ==> r.number == Found(local, remote, 1, height - 1)
    ensures r.At? && height > 1 && arrivals[used - 1].Repeat? ==> r.number == 1
    ensures r.At? && height > 1 ==> Agreed(local, remote, r.number)
    ensures r.At? ==> r.number == 1 || Near(local, remote, r.number)
    ensures r.At? && height - 1 <= ONE_ROUND ==> Near(local, remote, r.number)
    ensures r.TimedOut? ==> used > 0 && arrivals[used - 1].Expired?
    ensures r.Waiting? ==> Expired !in arrivals
    ensures height == 1 ==> r.At?
    ensures height > 1 ==> Handled(arrivals, used, r.Waiting?, Rounds(local, remote, 1, height - 1))
    ensures height > 1 && !r.At? ==> TooFew(arrivals, Rounds(local, remote, 1, height - 1))
    ensures height > 1 && !r.At? ==> TooFew(arrivals, 1 + Levels(height - 2))
    ensures 1 < height <= ONE_ROUND + 1 && !r.At? ==> TooFew(arrivals, 1)
  {
    hide Agreed, Samples, LastAgreed, Found, Dense, Past, Matches, NumbersTold, Near, CommonPrefix;
    hide Rounds, Handled, TooFew, Levels, Ends, Replies, Unended, Gap, Covers;
    var cur := height - 1;
    LocalOnly(local, remote, height);
    var s := GenSamples(1, cur);
    used := 0;
    if |s| == 0 {
      NothingLocal(local, remote, height);
      return At(1), used;
    }
    FirstAgreed(local, remote);
    ghost var lo: nat, hi: nat := 1, cur;
    ghost var rounds := Rounds(local, remote, 1, cur);
    RoundsBounded(local, remote, 1, cur);
    NothingEnded(arrivals, rounds);
    var asked: seq<seq<nat>> := [];
    for n := 0 to |arrivals|
      invariant used == n
      invariant 1 <= lo <= hi && s == Samples(lo, hi) && Covers(s, lo, hi) && Dense(s, Gap(lo, hi))
      invariant Found(local, remote, 1, cur) == Found(local, remote, lo, hi)
      invariant !Agreed(local, remote, hi + 1)
      invariant (lo == 1 && asked == []) || cur > ONE_ROUND
      invariant lo == 1 ==> hi == cur
      invariant forall j :: 0 <= j < |asked| ==> Past(asked[j], lo, hi)
      invariant |asked| == Replies(arrivals[..n]) && rounds == |asked| + Rounds(local, remote, lo, hi)
      invariant Unended(arrivals, n, rounds)
    {
      used := n + 1;
      OneMore(arrivals, n, rounds);
      var arrival := arrivals[n];
      if arrival.Expired? {
        NoAnswerYet(arrivals, used, false, rounds, 1 + Levels(cur - 1));
        return TimedOut, used;
      }
      if arrival.Foreign? || (arrival.Repeat? && arrival.round >= |asked|) {
        continue;
      }
      if arrival.Repeat? {
        var left, right := HandleRepeat(local, remote, s, asked[arrival.round], lo, hi);
        return At(left), used;
      }
      ghost var k;
      var left, right;
      left, right, k := HandleReply(local, remote, s, lo, hi);
      FoundStep(local, remote, lo, hi);
      RoundsStep(local, remote, lo, hi);
      if left == 0 {
        left := left + 1;
      }
      if left == 1 && right == 1 {
        FirstBlockOnly(local, remote, s, lo, hi, k);
        return At(1), used;
      }
      if right - left < TOLERANCE {
        CoversOrder(s, lo, hi, |s| - 1);
        NotBeyond(local, remote, left, if k == |s| - 1 then hi + 1 else right);
        return At(left), used;
      }
      WideGap(s, lo, hi, k);
      BecomesPast(s, lo, hi, k);
      StillPast(asked, lo, hi, left + 1, right - 1);
      asked := asked + [s];
      s := GenSamples(left + 1, right - 1);
      lo, hi := left + 1, right - 1;
    }
    r := Waiting;
    AllHandled(arrivals, rounds);
    NoAnswerYet(arrivals, used, true, rounds, 1 + Levels(cur - 1));
  }

  lemma StillPast(asked: seq<seq<nat>>, lo: nat, hi: nat, lo': nat, hi': nat)
    requires (forall j :: 0 <= j < |asked| ==> Past(asked[j], lo, hi)) && lo <= lo' && hi' <= hi
    ensures forall j :: 0 <= j < |asked| ==> Past(asked[j], lo', hi')
  {
  }

  // ---------- The bound is exact ----------

  /** The chain of a peer that has the same blocks, but only those up to `c`. */
  function Truncated(local: Chain, c: nat): Chain {
    (n: nat) => if n <= c then local(n) else None
  }

  /** A chain with blocks exactly up to `cur`; the block numbered 0 may be there or not. */
  ghost predicate HasUpTo(local: Chain, cur: nat) {
    forall n: nat :: n > 0 ==> (local(n).Some? <==> n <= cur)
  }

  lemma TruncatedAgrees(local: Chain, c: nat, cur: nat, n: nat)
    requires HasUpTo(local, cur) && c <= cur && n > 0
    ensures Agreed(local, Truncated(local, c), n) <==> n <= c
  {
  }

  lemma NoneAgrees(local: Chain, c: nat, cur: nat, lo: nat, hi: nat)
    requires HasUpTo(local, cur) && c <= cur && c < lo <= hi
    ensures Found(local, Truncated(local, c), lo, hi) == 1
  {
    hide Truncated, HasUpTo, Agreed, Samples;
    var s := Samples(lo, hi);
    SamplesCover(lo, hi);
    forall i | 0 <= i < |s|
      ensures !Agreed(local, Truncated(local, c), s[i])
    {
      CoversOrder(s, lo, hi, i);
      TruncatedAgrees(local, c, cur, s[i]);
    }
    LastIs(local, Truncated(local, c), s, -1);
  }

  lemma LastStepIsWide(cur: nat)
    requires cur > ONE_ROUND
    ensures cur - Sample(1, cur, BASE_COUNT - 1) >= TOLERANCE && Sample(1, cur, BASE_COUNT - 1) > TOLERANCE
    ensures Samples(1, cur)[BASE_COUNT - 1] == Sample(1, cur, BASE_COUNT - 1) && Samples(1, cur)[BASE_COUNT] == cur
    ensures |Samples(1, cur)| == BASE_COUNT + 1
  {
    SamplesSpread(1, cur, BASE_COUNT - 1);
  }

  /**
   * Above the bound the search can fall short by more than the tolerance, whatever the local chain is: when
   * the peer's chain ends at the last sample but one, a second round finds nothing and block 1 is the answer.
   */
  lemma BoundIsExact(local: Chain, cur: nat)
    requires cur > ONE_ROUND && HasUpTo(local, cur)
    ensures
      var c := Sample(1, cur, BASE_COUNT - 1);
      var remote := Truncated(local, c);
      && c <= cur && CommonPrefix(local, remote)
      && Found(local, remote, 1, cur) == 1 && !Near(local, remote, 1)
  {
    hide Samples, Sample;
    LastStepIsWide(cur);
    var c, s := Sample(1, cur, BASE_COUNT - 1), Samples(1, cur);
    var remote := Truncated(local, c);
    forall n: nat | n > 0
      ensures Agreed(local, remote, n) <==> n <= c
    {
      TruncatedAgrees(local, c, cur, n);
    }
    hide Truncated, HasUpTo, Agreed;
    LastIs(local, remote, s, BASE_COUNT - 1);
    NoneAgrees(local, c, cur, c + 1, cur - 1);
    assert Agreed(local, remote, 1 + TOLERANCE);
  }

  lemma FirstAgreed(local: Chain, remote: Chain)
    requires CommonPrefix(local, remote)
    ensures Agreed(local, remote, 1)
  {
  }

  lemma LocalOnly(local: Chain, remote: Chain, height: nat)
    requires forall n: nat :: local(n).Some? ==> n < height
    ensures !Agreed(local, remote, height)
  {
  }

  lemma NothingLocal(local: Chain, remote: Chain, height: nat)
    requires height == 1 && forall n: nat :: local(n).Some? ==> n < height
    ensures Near(local, remote, 1)
  {
  }

  lemma FirstBlockOnly(local: Chain, remote: Chain, s: seq<nat>, lo: nat, hi: nat, k: int)
    requires CommonPrefix(local, remote) && 1 <= lo <= hi && Covers(s, lo, hi) && -1 <= k < |s|
    requires !Agreed(local, remote, hi + 1)
    requires forall i :: k < i < |s| ==> !Agreed(local, remote, s[i])
    requires k >= 0 ==> s[k] == 1 && (k < |s| - 1 ==> s[k + 1] == 1)
    ensures lo == 1 ==> Near(local, remote, 1)
  {
    if lo == 1 {
      assert Agreed(local, remote, s[0]);
      assert k == |s| - 1;
      NotBeyond(local, remote, 1, hi + 1);
    }
  }

  lemma WideGap(s: seq<nat>, lo: nat, hi: nat, k: int)
    requires 1 <= lo <= hi && Dense(s, Gap(lo, hi)) && 0 <= k < |s| - 1 && s[k + 1] - s[k] >= TOLERANCE
    ensures hi - lo > ONE_ROUND - 1
  {
  }
}
