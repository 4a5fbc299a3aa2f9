/** The sponge construction over byte slices: piecewise writes and reads equal the one-shot function. */
module Sponge {
  import opened Basics
  import opened Keccak
  import opened LaneBits

  const MAX_RATE: nat := 168

  // ---------- Bytes and lanes ----------

  /** Eight bytes as a lane, least significant first. */
  function ToLane(b: seq<bv8>): Lane
    requires |b| == 8
  {
    (b[0] as bv64) | ((b[1] as bv64) << 8) | ((b[2] as bv64) << 16) | ((b[3] as bv64) << 24) |
    ((b[4] as bv64) << 32) | ((b[5] as bv64) << 40) | ((b[6] as bv64) << 48) | ((b[7] as bv64) << 56)
  }

  function FromLane(v: Lane): (b: seq<bv8>)
    ensures |b| == 8
  {
    [(v & 0xFF) as bv8, ((v >> 8) & 0xFF) as bv8, ((v >> 16) & 0xFF) as bv8, ((v >> 24) & 0xFF) as bv8,
     ((v >> 32) & 0xFF) as bv8, ((v >> 40) & 0xFF) as bv8, ((v >> 48) & 0xFF) as bv8, ((v >> 56) & 0xFF) as bv8]
  }

  /** The bits of a byte, least significant first. */
  function BitsOf(b: bv8): (s: seq<bool>)
    ensures |s| == 8
  {
    [b & 0x01 != 0, b & 0x02 != 0, b & 0x04 != 0, b & 0x08 != 0,
     b & 0x10 != 0, b & 0x20 != 0, b & 0x40 != 0, b & 0x80 != 0]
  }

  /** One byte of a lane, bit by bit. */
  lemma LowByteBits(w: Lane, i: nat)
    requires i < 8
    ensures BitsOf((w & 0xFF) as bv8)[i] <==> LowBit(w, i)
  {
    LowByteBits1(w);
    LowByteBits2(w);
    hide BitsOf, LowBit;
  }

  lemma LowByteBits1(w: Lane)
    ensures BitsOf((w & 0xFF) as bv8)[0] == LowBit(w, 0) && BitsOf((w & 0xFF) as bv8)[1] == LowBit(w, 1)
    ensures BitsOf((w & 0xFF) as bv8)[2] == LowBit(w, 2) && BitsOf((w & 0xFF) as bv8)[3] == LowBit(w, 3)
  {
  }

  lemma LowByteBits2(w: Lane)
    ensures BitsOf((w & 0xFF) as bv8)[4] == LowBit(w, 4) && BitsOf((w & 0xFF) as bv8)[5] == LowBit(w, 5)
    ensures BitsOf((w & 0xFF) as bv8)[6] == LowBit(w, 6) && BitsOf((w & 0xFF) as bv8)[7] == LowBit(w, 7)
  {
  }

  function ByteOf(v: Lane, k: nat): bv8 {
    (DownBytes(v, k) & 0xFF) as bv8
  }

  lemma FromLane0(v: Lane)
    ensures FromLane(v)[0] == (v & 0xFF) as bv8
  {
  }

  lemma FromLane1(v: Lane)
    ensures FromLane(v)[1] == ((v >> 8) & 0xFF) as bv8
  {
  }

  lemma FromLane2(v: Lane)
    ensures FromLane(v)[2] == ((v >> 16) & 0xFF) as bv8
  {
  }

  lemma FromLane3(v: Lane)
    ensures FromLane(v)[3] == ((v >> 24) & 0xFF) as bv8
  {
  }

  lemma FromLane4(v: Lane)
    ensures FromLane(v)[4] == ((v >> 32) & 0xFF) as bv8
  {
  }

  lemma FromLane5(v: Lane)
    ensures FromLane(v)[5] == ((v >> 40) & 0xFF) as bv8
  {
  }

  lemma FromLane6(v: Lane)
    ensures FromLane(v)[6] == ((v >> 48) & 0xFF) as bv8
  {
  }

  lemma FromLane7(v: Lane)
    ensures FromLane(v)[7] == ((v >> 56) & 0xFF) as bv8
  {
  }

  lemma FromLaneIs(v: Lane, k: nat)
    requires k < 8
    ensures FromLane(v)[k] == ByteOf(v, k)
  {
    hide DownBytes, FromLane;
    match k
    case 0 => NoneDown(v); FromLane0(v);
    case 1 => Down1Is(v); FromLane1(v);
    case 2 => Down2Is(v); FromLane2(v);
    case 3 => Down3Is(v); FromLane3(v);
    case 4 => Down4Is(v); FromLane4(v);
    case 5 => Down5Is(v); FromLane5(v);
    case 6 => Down6Is(v); FromLane6(v);
    case 7 => Down7Is(v); FromLane7(v);
  }

  /** Bit `i` of byte `k` of a lane is its bit `8k + i`. */
  lemma FromLaneBits(v: Lane, k: nat, i: nat)
    requires k < 8 && i < 8
    ensures BitsOf(FromLane(v)[k])[i] <==> BitAt(v, 8 * k + i)
  {
    hide BitsOf, LowBit, BitAt, DownBytes, FromLane;
    FromLaneIs(v, k);
    LowByteBits(DownBytes(v, k), i);
    ByteBits(v, k, i);
  }

  lemma BytesBack(b: seq<bv8>)
    requires |b| == 8
    ensures FromLane(ToLane(b)) == b
  {
  }

  lemma LaneBack(v: Lane)
    ensures ToLane(FromLane(v)) == v
  {
  }

  /** And the same for the lane made of eight bytes. */
  lemma ToLaneBits(b: seq<bv8>, k: nat, i: nat)
    requires |b| == 8 && k < 8 && i < 8
    ensures BitAt(ToLane(b), 8 * k + i) <==> BitsOf(b[k])[i]
  {
    hide BitsOf, BitAt, ToLane, FromLane;
    BytesBack(b);
    FromLaneBits(ToLane(b), k, i);
  }

  /** A block of bytes added to the first lanes. */
  function AddBlock(s: Lanes, block: seq<bv8>): Lanes
    requires |block| <= 200
  {
    seq(25, i requires 0 <= i < 25 => if 8 * i + 8 <= |block| then Xor(s[i], ToLane(block[8 * i..8 * i + 8])) else s[i])
  }

  /** The first `n` lanes as bytes. */
  function LaneBytes(s: Lanes, n: nat): (b: seq<bv8>)
    requires n <= 25
    ensures |b| == 8 * n
  {
    if n == 0 then [] else LaneBytes(s, n - 1) + FromLane(s[n - 1])
  }

  /** Absorbing a block flips the bits of the state that the block's bits fall on, in the order of FIPS 202. */
  lemma AddBlockBits(s: Lanes, block: seq<bv8>, j: nat, k: nat, i: nat)
    requires |block| <= 200 && j < 25 && k < 8 && i < 8
    ensures BitAt(AddBlock(s, block)[j], 8 * k + i) <==>
      BitAt(s[j], 8 * k + i) != (8 * j + 8 <= |block| && BitsOf(block[8 * j + k])[i])
  {
    hide BitsOf, BitAt, ToLane, Xor;
    if 8 * j + 8 <= |block| {
      var b := block[8 * j..8 * j + 8];
      XorBits(s[j], ToLane(b), 8 * k + i);
      ToLaneBits(b, k, i);
    }
  }

  /** Squeezing writes the state's bits out in the same order. */
  lemma {:induction false} LaneBytesBits(s: Lanes, n: nat, j: nat, k: nat, i: nat)
    requires j < n <= 25 && k < 8 && i < 8
    ensures BitsOf(LaneBytes(s, n)[8 * j + k])[i] <==> BitAt(s[j], 8 * k + i)
  {
    hide BitsOf, BitAt, FromLane;
    if j == n - 1 {
      FromLaneBits(s[j], k, i);
    } else {
      LaneBytesBits(s, n - 1, j, k, i);
    }
  }

  method XorIn(a: array<Lane>, block: seq<bv8>)
    requires a.Length == 25 && |block| <= 200
    modifies a
    ensures a[..] == AddBlock(old(a[..]), block)
  {
    hide ToLane, Xor;
    var n := |block| / 8;
    var buf := block;
    for i := 0 to n
      invariant buf == block[8 * i..]
      invariant forall j :: 0 <= j < 25 ==> a[j] == if j < i then AddBlock(old(a[..]), block)[j] else old(a[j])
    {
      assert buf[..8] == block[8 * i..8 * i + 8];
      a[i] := Xor(a[i], ToLane(buf[..8]));
      buf := buf[8..];
    }
  }

  method CopyOut(a: array<Lane>, b: array<bv8>, n: nat)
    requires a.Length == 25 && n <= 25 && 8 * n <= b.Length
    modifies b
    ensures b[..8 * n] == LaneBytes(a[..], n)
  {
    hide FromLane;
    ghost var s := a[..];
    for i := 0 to n
      invariant a[..] == s && b[..8 * i] == LaneBytes(s, i)
    {
      ghost var done := b[..8 * i];
      var w := FromLane(a[i]);
      Put(b, 8 * i, w);
      assert b[..8 * i] == done;
      assert b[..8 * i + 8] == b[..8 * i] + b[8 * i..8 * i + 8];
      assert 8 * (i + 1) == 8 * i + 8;
    }
  }

  method Put(b: array<bv8>, off: nat, w: seq<bv8>)
    requires off + |w| <= b.Length
    modifies b
    ensures b[off..off + |w|] == w
    ensures forall j :: 0 <= j < b.Length && !(off <= j < off + |w|) ==> b[j] == old(b[j])
  {
    forall j | 0 <= j < |w| {
      b[off + j] := w[j];
    }
  }

  // ---------- The one-shot sponge (section 4 of FIPS 202, on bytes) ----------

  function Zero(): Lanes {
    seq(25, i requires 0 <= i < 25 => 0 as Lane)
  }

  /** Absorbs the whole blocks of `m`. */
  function Absorb(s: Lanes, m: seq<bv8>, rate: nat): Lanes
    requires 0 < rate <= 200
    decreases |m|
  {
    if |m| < rate then s else Absorb(Permute(AddBlock(s, m[..rate])), m[rate..], rate)
  }

  /** What is left over after the whole blocks. */
  function Tail(m: seq<bv8>, rate: nat): (t: seq<bv8>)
    requires 0 < rate
    ensures |t| < rate
    decreases |m|
  {
    if |m| < rate then m else Tail(m[rate..], rate)
  }

  function Zeros(n: nat): (z: seq<bv8>)
    ensures |z| == n && forall i :: 0 <= i < n ==> z[i] == 0
  {
    if n == 0 then [] else Zeros(n - 1) + [0]
  }

  /** The domain bits with the first padding bit, zeros, and the last padding bit: `k` bytes. */
  function Pad(k: nat, ds: bv8): (p: seq<bv8>)
    requires k > 0
    ensures |p| == k
  {
    if k == 1 then [ds ^ 0x80] else [ds] + Zeros(k - 2) + [0x80]
  }

  // ---------- The padding in bits (sections 5.1 and 6 of FIPS 202) ----------

  function Bits(p: seq<bv8>): (s: seq<bool>)
    ensures |s| == 8 * |p|
  {
    if p == [] then [] else BitsOf(p[0]) + Bits(p[1..])
  }

  function ZeroBits(n: nat): (s: seq<bool>)
    ensures |s| == n
  {
    seq(n, _ => false)
  }

  /** The bits that tell the functions apart: SHA-3 appends 01, SHAKE 1111, the original Keccak nothing. */
  function DomainBits(ds: bv8): Option<seq<bool>> {
    if ds == 0x06 then Some([false, true])
    else if ds == 0x1F then Some([true, true, true, true])
    else if ds == 0x01 then Some([])
    else None
  }

  lemma {:induction false} BitsJoin(p: seq<bv8>, q: seq<bv8>)
    ensures Bits(p + q) == Bits(p) + Bits(q)
  {
    hide BitsOf;
    if p == [] {
      assert p + q == q;
    } else {
      assert (p + q)[1..] == p[1..] + q;
      BitsJoin(p[1..], q);
    }
  }

  lemma BitsOne(b: bv8)
    ensures Bits([b]) == BitsOf(b)
  {
    hide BitsOf;
  }

  lemma ZeroByte()
    ensures BitsOf(0) == ZeroBits(8) && BitsOf(0x80) == ZeroBits(7) + [true]
  {
  }

  lemma ZeroBitsJoin(m: nat, n: nat)
    ensures ZeroBits(m) + ZeroBits(n) == ZeroBits(m + n)
  {
  }

  lemma {:induction false} BitsOfZeros(n: nat)
    ensures Bits(Zeros(n)) == ZeroBits(8 * n)
  {
    hide BitsOf, ZeroBits;
    if n == 0 {
      NoBits();
    } else {
      BitsOfZeros(n - 1);
      BitsJoin(Zeros(n - 1), [0]);
      BitsOne(0);
      ZeroByte();
      ZeroBitsJoin(8 * (n - 1), 8);
    }
  }

  lemma NoBits()
    ensures Bits([]) == [] == ZeroBits(0)
  {
  }

  /** A domain byte is the domain bits, the first padding bit and zeros. */
  lemma DomainByte(ds: bv8)
    requires DomainBits(ds).Some?
    ensures
      var d := DomainBits(ds).value;
      && BitsOf(ds) == d + [true] + ZeroBits(7 - |d|)
      && BitsOf(ds ^ 0x80) == d + [true] + ZeroBits(6 - |d|) + [true]
  {
    if ds == 0x06 {
      assert ZeroBits(5) == [false, false, false, false, false];
      assert ZeroBits(4) == [false, false, false, false];
    } else if ds == 0x1F {
      assert ZeroBits(3) == [false, false, false];
      assert ZeroBits(2) == [false, false];
    } else {
      assert ZeroBits(7) == [false, false, false, false, false, false, false];
      assert ZeroBits(6) == [false, false, false, false, false, false];
    }
  }

  /** The padding is the domain bits followed by 1 0* 1, in whole bytes. */
  lemma PadBits(k: nat, ds: bv8)
    requires k > 0 && DomainBits(ds).Some?
    ensures
      var d := DomainBits(ds).value;
      |d| + 2 <= 8 * k && Bits(Pad(k, ds)) == d + [true] + ZeroBits(8 * k - |d| - 2) + [true]
  {
    hide BitsOf, ZeroBits;
    var d := DomainBits(ds).value;
    DomainByte(ds);
    if k == 1 {
      BitsOne(ds ^ 0x80);
    } else {
      hide Bits;
      BitsJoin([ds] + Zeros(k - 2), [0x80]);
      BitsJoin([ds], Zeros(k - 2));
      BitsOne(ds);
      BitsOne(0x80);
      BitsOfZeros(k - 2);
      ZeroByte();
      PaddedBits(d, 7 - |d|, 8 * (k - 2));
    }
  }

  lemma PaddedBits(d: seq<bool>, m: nat, n: nat)
    ensures d + [true] + ZeroBits(m) + ZeroBits(n) + (ZeroBits(7) + [true]) == d + [true] + ZeroBits(m + n + 7) + [true]
  {
    ZeroBitsJoin(m, n);
    ZeroBitsJoin(m + n, 7);
    hide ZeroBits;
    assert d + [true] + ZeroBits(m) + ZeroBits(n) + (ZeroBits(7) + [true]) ==
           d + [true] + (ZeroBits(m) + ZeroBits(n) + ZeroBits(7)) + [true];
  }

  /** The state once all of `m` and its padding have been absorbed. */
  function Final(m: seq<bv8>, ds: bv8, rate: nat): Lanes
    requires 0 < rate <= 200
  {
    Absorb(Zero(), m + Pad(rate - |Tail(m, rate)|, ds), rate)
  }

  function Block(s: Lanes, rate: nat): (b: seq<bv8>)
    requires rate <= 200 && rate % 8 == 0
    ensures |b| == rate
  {
    LaneBytes(s, rate / 8)
  }

  /** The first `n` bytes squeezed out of `s`. */
  function Squeeze(s: Lanes, n: nat, rate: nat): (z: seq<bv8>)
    requires 0 < rate <= 200 && rate % 8 == 0
    ensures |z| == n
    decreases n
  {
    if n <= rate then Block(s, rate)[..n] else Block(s, rate) + Squeeze(Permute(s), n - rate, rate)
  }

  /** The hash of `m`, or any number of bytes of extendable output. */
  function Digest(m: seq<bv8>, ds: bv8, rate: nat, n: nat): (z: seq<bv8>)
    requires 0 < rate <= 200 && rate % 8 == 0
  {
    Squeeze(Final(m, ds, rate), n, rate)
  }

  // ---------- Absorbing piece by piece ----------

  lemma {:induction false} TailLonger(m: seq<bv8>, t: seq<bv8>, s: Lanes, rate: nat)
    requires 0 < rate <= 200 && |Tail(m, rate)| + |t| < rate
    ensures Tail(m + t, rate) == Tail(m, rate) + t
    ensures Absorb(s, m + t, rate) == Absorb(s, m, rate)
    decreases |m|
  {
    hide AddBlock, Permute;
    if |m| >= rate {
      assert (m + t)[..rate] == m[..rate] && (m + t)[rate..] == m[rate..] + t;
      TailLonger(m[rate..], t, Permute(AddBlock(s, m[..rate])), rate);
    }
  }

  lemma {:induction false} TailFilled(m: seq<bv8>, t: seq<bv8>, s: Lanes, rate: nat)
    requires 0 < rate <= 200 && |Tail(m, rate)| + |t| == rate
    ensures Tail(m + t, rate) == []
    ensures Absorb(s, m + t, rate) == Permute(AddBlock(Absorb(s, m, rate), Tail(m, rate) + t))
    decreases |m|
  {
    hide AddBlock, Permute;
    if |m| >= rate {
      assert (m + t)[..rate] == m[..rate] && (m + t)[rate..] == m[rate..] + t;
      TailFilled(m[rate..], t, Permute(AddBlock(s, m[..rate])), rate);
    } else {
      assert (m + t)[..rate] == m + t && (m + t)[rate..] == [];
    }
  }

  // ---------- Squeezing piece by piece ----------

  /** What can still be squeezed when `buf` is left of the current block. */
  function Future(s: Lanes, buf: seq<bv8>, n: nat, rate: nat): (z: seq<bv8>)
    requires 0 < rate <= 200 && rate % 8 == 0
    ensures |z| == n
  {
    if n <= |buf| then buf[..n] else buf + Squeeze(Permute(s), n - |buf|, rate)
  }

  lemma FutureOfBlock(s: Lanes, n: nat, rate: nat)
    requires 0 < rate <= 200 && rate % 8 == 0
    ensures Future(s, Block(s, rate), n, rate) == Squeeze(s, n, rate)
  {
    hide Block, Permute;
  }

  lemma FutureAfter(s: Lanes, buf: seq<bv8>, k: nat, n: nat, rate: nat)
    requires 0 < rate <= 200 && rate % 8 == 0 && k <= |buf|
    ensures Future(s, buf, k + n, rate) == buf[..k] + Future(s, buf[k..], n, rate)
  {
    hide Squeeze, Permute;
  }

  lemma FutureOfDry(s: Lanes, n: nat, rate: nat)
    requires 0 < rate <= 200 && rate % 8 == 0
    ensures Future(s, [], n, rate) == Future(Permute(s), Block(Permute(s), rate), n, rate)
  {
    hide Block, Permute;
    FutureOfBlock(Permute(s), n, rate);
  }

  /** The output still to come continues what has been given. */
  ghost predicate Promised(final: Lanes, given: seq<bv8>, s: Lanes, buf: seq<bv8>, rate: nat)
    requires 0 < rate <= 200 && rate % 8 == 0
  {
    forall n: nat :: Squeeze(final, |given| + n, rate) == given + Future(s, buf, n, rate)
  }

  lemma PromiseMoves(final: Lanes, given: seq<bv8>, s: Lanes, buf: seq<bv8>, k: nat, rate: nat)
    requires 0 < rate <= 200 && rate % 8 == 0 && k <= |buf| && Promised(final, given, s, buf, rate)
    ensures Promised(final, given + buf[..k], s, buf[k..], rate)
  {
    hide Squeeze, Future;
    forall n: nat
      ensures Squeeze(final, |given + buf[..k]| + n, rate) == given + buf[..k] + Future(s, buf[k..], n, rate)
    {
      FutureAfter(s, buf, k, n, rate);
      assert |given| + (k + n) == |given + buf[..k]| + n;
      assert Squeeze(final, |given| + (k + n), rate) == given + Future(s, buf, k + n, rate);
    }
  }

  lemma PromiseRefilled(final: Lanes, given: seq<bv8>, s: Lanes, rate: nat)
    requires 0 < rate <= 200 && rate % 8 == 0 && Promised(final, given, s, [], rate)
    ensures Promised(final, given, Permute(s), Block(Permute(s), rate), rate)
  {
    hide Squeeze, Future, Block, Permute;
    forall n: nat
      ensures Squeeze(final, |given| + n, rate) == given + Future(Permute(s), Block(Permute(s), rate), n, rate)
    {
      FutureOfDry(s, n, rate);
      assert Squeeze(final, |given| + n, rate) == given + Future(s, [], n, rate);
    }
  }

  lemma PromiseStarts(s: Lanes, rate: nat)
    requires 0 < rate <= 200 && rate % 8 == 0
    ensures Promised(s, [], s, Block(s, rate), rate)
  {
    hide Squeeze, Future, Block;
    forall n: nat
      ensures Squeeze(s, n, rate) == [] + Future(s, Block(s, rate), n, rate)
    {
      FutureOfBlock(s, n, rate);
    }
  }

  lemma PromiseKept(final: Lanes, given: seq<bv8>, s: Lanes, buf: seq<bv8>, rate: nat)
    requires 0 < rate <= 200 && rate % 8 == 0 && Promised(final, given, s, buf, rate)
    ensures given == Squeeze(final, |given|, rate)
  {
    hide Squeeze;
    assert Squeeze(final, |given| + 0, rate) == given + Future(s, buf, 0, rate);
    assert Future(s, buf, 0, rate) == [];
  }

  /** The output is whole blocks and the first `lo` bytes of this one; before the block it was as promised. */
  ghost predicate BlockGiven(final: Lanes, given: seq<bv8>, s: Lanes, block: seq<bv8>, lo: nat, rate: nat)
    requires 0 < rate <= 200 && rate % 8 == 0
  {
    && lo <= |block| == rate && lo <= |given| && given[|given| - lo..] == block[..lo]
    && (|given| - lo) % rate == 0
    && Promised(final, given[..|given| - lo], s, block, rate)
  }

  lemma BlockStarts(s: Lanes, block: seq<bv8>, rate: nat)
    requires 0 < rate <= 200 && rate % 8 == 0 && block == Block(s, rate)
    ensures BlockGiven(s, [], s, block, 0, rate)
  {
    hide Promised, Block;
    PromiseStarts(s, rate);
  }

  lemma BlockMore(final: Lanes, given: seq<bv8>, s: Lanes, block: seq<bv8>, lo: nat, n: nat, rate: nat)
    requires 0 < rate <= 200 && rate % 8 == 0 && BlockGiven(final, given, s, block, lo, rate) && lo + n <= rate
    ensures |block| == rate && BlockGiven(final, given + block[lo..lo + n], s, block, lo + n, rate)
  {
    hide Promised;
    GivenMore(given, block, lo, n);
  }

  /** Going back within the block. */
  lemma BlockLess(final: Lanes, given: seq<bv8>, s: Lanes, block: seq<bv8>, lo: nat, n: nat, rate: nat)
    requires 0 < rate <= 200 && rate % 8 == 0 && BlockGiven(final, given, s, block, lo, rate) && n <= lo
    ensures n <= |given| && BlockGiven(final, given[..|given| - n], s, block, lo - n, rate)
  {
    hide Promised;
    GivenLess(given, block, lo, n);
  }

  /** The next block is as promised once this one has been given in full. */
  lemma BlockNext(final: Lanes, given: seq<bv8>, s: Lanes, block: seq<bv8>, rate: nat)
    requires 0 < rate <= 200 && rate % 8 == 0 && BlockGiven(final, given, s, block, rate, rate)
    ensures BlockGiven(final, given, Permute(s), Block(Permute(s), rate), 0, rate)
  {
    hide Promised, Block, Permute;
    var base := given[..|given| - rate];
    PromiseMoves(final, base, s, block, rate, rate);
    assert block[rate..] == [] && base + block[..rate] == given && given[..|given| - 0] == given;
    OneBlockMore(|given| - rate, rate);
    PromiseRefilled(final, given, s, rate);
  }

  lemma OneBlockMore(n: nat, rate: nat)
    requires rate > 0 && n % rate == 0
    ensures (n + rate) % rate == 0
  {
    assert n == rate * (n / rate);
    WholeBlocks(n / rate + 1, rate, 0);
  }

  /** Whole blocks and `lo` bytes leave `lo` bytes of a block. */
  lemma WholeBlocks(q: nat, rate: nat, lo: nat)
    requires lo < rate
    ensures (q * rate + lo) % rate == lo
  {
    var n := q * rate + lo;
    SameQuotient(q, lo, n / rate, n % rate, rate);
  }

  lemma SameQuotient(q: int, r: nat, k: int, m: nat, rate: nat)
    requires q * rate + r == k * rate + m && r < rate && m < rate
    ensures r == m
  {
    ApartByOne(q, k, rate);
    ApartByOne(k, q, rate);
  }

  lemma {:induction false} ApartByOne(a: int, b: int, c: nat)
    ensures a < b ==> a * c + c <= b * c
    decreases b - a
  {
    if a < b {
      assert b * c == (b - 1) * c + c;
      ApartByOne(a, b - 1, c);
    }
  }

  /** The place in the block is given by the number of bytes of output alone. */
  lemma PlaceInBlock(given: nat, lo: nat, rate: nat)
    requires lo < rate && lo <= given && (given - lo) % rate == 0
    ensures given % rate == lo
  {
    var n := given - lo;
    assert n == rate * (n / rate);
    WholeBlocks(n / rate, rate, lo);
  }

  lemma BlockKept(final: Lanes, given: seq<bv8>, s: Lanes, block: seq<bv8>, lo: nat, rate: nat)
    requires 0 < rate <= 200 && rate % 8 == 0 && BlockGiven(final, given, s, block, lo, rate)
    ensures given == Squeeze(final, |given|, rate)
  {
    hide Promised, Squeeze;
    var base := given[..|given| - lo];
    PromiseMoves(final, base, s, block, lo, rate);
    assert base + block[..lo] == given;
    PromiseKept(final, given, s, block[lo..], rate);
  }

  // ---------- The hash object ----------

  ghost predicate RateOk(rate: nat) {
    0 < rate <= MAX_RATE && rate % 8 == 0
  }

  class State {
    const a: array<Lane>
    const storage: array<bv8>
    const rate: nat
    const dsbyte: bv8
    const outputLen: nat
    /** The buffer is this part of the storage. */
    var lo: nat
    var hi: nat
    var squeezing: bool
    /** The input so far, and the output so far. */
    ghost var message: seq<bv8>
    ghost var given: seq<bv8>

    ghost predicate Shaped()
      reads this
    {
      a.Length == 25 && storage.Length == MAX_RATE && RateOk(rate) && lo <= hi <= MAX_RATE
    }

    ghost function Buffer(): seq<bv8>
      requires Shaped()
      reads this, storage
    {
      storage[lo..hi]
    }

    ghost predicate Absorbing()
      reads this, a, storage
    {
      && Shaped() && !squeezing && lo == 0 && given == []
      && Buffer() == Tail(message, rate) && a[..] == Absorb(Zero(), message, rate)
    }

    ghost predicate Squeezing()
      reads this, a, storage
    {
      && Shaped() && squeezing && lo < hi == rate
      && BlockGiven(Final(message, dsbyte, rate), given, a[..], storage[..rate], lo, rate)
    }

    ghost predicate Valid()
      reads this, a, storage
    {
      Absorbing() || Squeezing()
    }

    constructor (r: nat, outLen: nat, ds: bv8)
      requires RateOk(r)
      ensures Absorbing() && rate == r && outputLen == outLen && dsbyte == ds && message == []
      ensures fresh(a) && fresh(storage)
    {
      rate, outputLen, dsbyte := r, outLen, ds;
      lo, hi, squeezing := 0, 0, false;
      message, given := [], [];
      a := new Lane[25](i => 0);
      storage := new bv8[MAX_RATE](i => 0);
      new;
      assert a[..] == Zero();
    }

    /** Absorbs the full buffer. */
    method PermuteAbsorbing()
      requires Shaped() && !squeezing && lo == 0 && hi == rate
      modifies a, `hi
      ensures hi == 0 && a[..] == Permute(AddBlock(old(a[..]), old(Buffer())))
    {
      hide AddBlock, Permute;
      XorIn(a, storage[..rate]);
      hi := 0;
      KeccakF1600(a);
    }

    /** Adds bytes to the buffer. */
    method Append(p: seq<bv8>)
      requires Shaped() && lo == 0 && hi + |p| <= rate
      modifies storage, `hi
      ensures hi == old(hi) + |p| && storage[..hi] == old(storage[..hi]) + p
    {
      forall j | 0 <= j < |p| {
        storage[hi + j] := p[j];
      }
      hi := hi + |p|;
    }

    method Write(data: seq<bv8>)
      requires Absorbing()
      modifies a, storage, `hi, `message
      ensures Absorbing() && message == old(message) + data
    {
      hide AddBlock, Permute, Absorb, Tail;
      var p := data;
      assert message == old(message) + data[..0];
      while |p| > 0
        invariant Absorbing() && |p| <= |data| && p == data[|data| - |p|..]
        invariant message == old(message) + data[..|data| - |p|]
        decreases |p|
      {
        var n := WriteSome(p);
        ghost var k := |data| - |p|;
        assert data[..k + n] == data[..k] + data[k..k + n];
        assert p[..n] == data[k..k + n] && p[n..] == data[k + n..];
        p := p[n..];
      }
      assert data[..|data|] == data;
    }

    /** One turn of the loop: a whole block at once, or as much as the buffer takes. */
    method WriteSome(p: seq<bv8>) returns (n: nat)
      requires Absorbing() && |p| > 0
      modifies a, storage, `hi, `message
      ensures Absorbing() && 0 < n <= |p| && message == old(message) + p[..n]
    {
      hide AddBlock, Permute, Absorb, Tail;
      if hi == 0 && |p| >= rate {
        n := rate;
        TailFilled(message, p[..n], Zero(), rate);
        assert Tail(message, rate) + p[..n] == p[..n];
        XorIn(a, p[..n]);
        KeccakF1600(a);
      } else {
        n := rate - hi;
        if n > |p| {
          n := |p|;
        }
        if hi + n == rate {
          TailFilled(message, p[..n], Zero(), rate);
        } else {
          TailLonger(message, p[..n], Zero(), rate);
        }
        Append(p[..n]);
        if hi == rate {
          PermuteAbsorbing();
        }
      }
      message := message + p[..n];
    }

    /** Appends the domain byte and zeros, and sets the last bit of the block. */
    method PadBuffer()
      requires Shaped() && lo == 0 && hi < rate
      modifies storage, `hi
      ensures hi == rate && storage[..hi] == old(storage[..hi]) + Pad(rate - old(hi), dsbyte)
    {
      var zerosStart := hi + 1;
      storage[hi] := dsbyte;
      ghost var t := storage[..hi];
      assert t == old(storage[..hi]);
      for i := zerosStart to rate
        invariant storage[..zerosStart - 1] == t && storage[zerosStart - 1] == dsbyte
        invariant forall j :: zerosStart <= j < i ==> storage[j] == 0
        modifies storage
      {
        storage[i] := 0;
      }
      ghost var was := storage[..];
      storage[rate - 1] := storage[rate - 1] ^ 0x80;
      assert storage[..zerosStart - 1] == t;
      PaddedIs(storage[..rate], t, rate - zerosStart + 1, dsbyte, was);
      hi := rate;
    }

    /** Pads, permutes and turns to squeezing. */
    method PadAndPermute()
      requires Absorbing()
      modifies a, storage, `hi, `squeezing
      ensures Squeezing()
    {
      hide AddBlock, Permute, Absorb, Tail, Pad, BlockGiven, Block;
      ghost var pad := Pad(rate - hi, dsbyte);
      TailFilled(message, pad, Zero(), rate);
      PadBuffer();
      PermuteAbsorbing();
      squeezing := true;
      hi := rate;
      CopyBlock();
      assert storage[..rate] == Buffer();
      BlockStarts(a[..], storage[..rate], rate);
    }

    method CopyBlock()
      requires Shaped() && lo == 0 && hi == rate
      modifies storage
      ensures Buffer() == Block(a[..], rate)
    {
      hide LaneBytes;
      CopyOut(a, storage, rate / 8);
      assert storage[..8 * (rate / 8)] == storage[..rate];
    }

    /** Hands over as much of the buffer as fits; a dry buffer is refilled at once. */
    method SqueezeSome(out: array<bv8>, k: nat) returns (n: nat)
      requires Squeezing() && k < out.Length && out != storage
      modifies a, storage, out, `lo, `hi, `given
      ensures Squeezing() && 0 < n <= out.Length - k
      ensures given == old(given) + out[k..k + n]
      ensures forall j :: 0 <= j < out.Length && !(k <= j < k + n) ==> out[j] == old(out[j])
    {
      hide Permute, BlockGiven, Block, Final;
      ghost var was, block := a[..], storage[..rate];
      n := if hi - lo < out.Length - k then hi - lo else out.Length - k;
      var piece := storage[lo..lo + n];
      BlockMore(Final(message, dsbyte, rate), given, was, block, lo, n, rate);
      SliceOfFront(storage, rate, lo, lo + n);
      Put(out, k, piece);
      assert a[..] == was && storage[..rate] == block;
      lo := lo + n;
      given := given + piece;
      if lo == hi {
        Refill();
      }
    }

    /** The block has been given in full. */
    method Refill()
      requires Shaped() && squeezing && lo == hi == rate
      requires BlockGiven(Final(message, dsbyte, rate), given, a[..], storage[..rate], rate, rate)
      modifies a, storage, `lo, `hi
      ensures Squeezing()
    {
      hide Permute, BlockGiven, Block, Final;
      BlockNext(Final(message, dsbyte, rate), given, a[..], storage[..rate], rate);
      KeccakF1600(a);
      lo, hi := 0, rate;
      CopyBlock();
      assert storage[..rate] == Buffer();
    }

    /** Fills `out` with the next bytes of the output of the message. */
    method Read(out: array<bv8>)
      requires Valid() && out != storage
      modifies this, a, storage, out
      ensures Squeezing() && message == old(message) && given == old(given) + out[..]
      ensures given == Digest(message, dsbyte, rate, |given|)
    {
      hide Permute, Block, Final, Absorbing, Squeezing;
      if !squeezing {
        Direction();
        PadAndPermute();
      } else {
        Direction();
      }
      var k := 0;
      while k < out.Length
        invariant k <= out.Length && Squeezing()
        invariant message == old(message) && given == old(given) + out[..k]
      {
        ghost var done := out[..k];
        var n := SqueezeSome(out, k);
        assert out[..k] == done;
        assert out[..k + n] == out[..k] + out[k..k + n];
        k := k + n;
      }
      assert out[..k] == out[..];
      GivenSoFar();
    }

    lemma Direction()
      requires Valid()
      ensures if squeezing then Squeezing() else Absorbing()
    {
    }

    lemma GivenSoFar()
      requires Squeezing()
      ensures RateOk(rate) && given == Digest(message, dsbyte, rate, |given|)
    {
      hide Squeeze, Final, BlockGiven;
      BlockKept(Final(message, dsbyte, rate), given, a[..], storage[..rate], lo, rate);
    }

    /** A copy of the arrays, with its own place in the storage. */
    constructor Copy(src: State, from: nat, ghost out: seq<bv8>)
      requires src.Shaped() && from <= src.hi
      ensures Shaped() && fresh(a) && fresh(storage) && a[..] == src.a[..] && storage[..] == src.storage[..]
      ensures rate == src.rate && outputLen == src.outputLen && dsbyte == src.dsbyte
      ensures lo == from && hi == src.hi && squeezing == src.squeezing && message == src.message && given == out
    {
      rate, outputLen, dsbyte := src.rate, src.outputLen, src.dsbyte;
      lo, hi, squeezing := from, src.hi, src.squeezing;
      message, given := src.message, out;
      var lanes := new Lane[25](i requires 0 <= i < 25 && src.a.Length == 25 reads src.a => src.a[i]);
      var bytes := new bv8[MAX_RATE](
        i requires 0 <= i < MAX_RATE && src.storage.Length == MAX_RATE reads src.storage => src.storage[i]);
      a, storage := lanes, bytes;
      new;
      assert a[..] == src.a[..] && storage[..] == src.storage[..];
    }

    /** How many bytes of output a copy made now counts as given. */
    ghost function Remembered(): int
      reads this
    {
      if squeezing then |given| - (MAX_RATE - rate) else 0
    }

    /**
     * A copy can be made: its buffer, cut from the capacity of this one's, starts inside the storage.  That is so
     * before any output, and when at least `MAX_RATE - rate` bytes of the current block have been given.
     */
    ghost predicate CanClone()
      requires RateOk(rate)
      reads `squeezing, `given
    {
      !squeezing || |given| % rate >= MAX_RATE - rate
    }

    lemma Place()
      requires Squeezing()
      ensures squeezing && RateOk(rate) && lo == |given| % rate
    {
      hide Promised;
      PlaceInBlock(|given|, lo, rate);
    }

    /**
     * A copy with its own lanes and storage; null where the slice bounds are out of range.  The copy of an object
     * that has given output starts its buffer `MAX_RATE - rate` bytes too early: it is in the state this one had
     * that many bytes before, which is the current state exactly for the largest rate.
     */
    method Clone() returns (dup: State?)
      requires Valid()
      ensures RateOk(rate) && (dup != null <==> CanClone())
      ensures dup != null ==>
        && fresh(dup) && fresh(dup.a) && fresh(dup.storage) && dup.Valid() && dup.squeezing == squeezing
        && dup.message == message && dup.rate == rate && dup.dsbyte == dsbyte && dup.outputLen == outputLen
        && 0 <= Remembered() <= |given| && dup.given == given[..Remembered()]
      ensures dup != null ==> (dup.given == given <==> !squeezing || rate == MAX_RATE)
    {
      hide Absorb, Tail, Final, BlockGiven;
      if squeezing {
        Place();
      }
      if squeezing && lo + rate < MAX_RATE {
        return null;
      }
      if squeezing {
        BlockLess(Final(message, dsbyte, rate), given, a[..], storage[..rate], lo, MAX_RATE - rate, rate);
        dup := new State.Copy(this, lo - (MAX_RATE - rate), given[..Remembered()]);
        assert dup.storage[..rate] == dup.storage[..][..rate] == storage[..][..rate] == storage[..rate];
      } else {
        dup := new State.Copy(this, 0, []);
        assert dup.Buffer() == dup.storage[..][..hi] == storage[..][..hi] == Buffer();
      }
    }

    /**
     * The digest of everything written so far; writing may go on afterwards.  After output has been read it is the
     * next `outputLen` bytes from where a copy starts.
     */
    method Sum(prefix: seq<bv8>) returns (r: Option<seq<bv8>>)
      requires Valid()
      ensures RateOk(rate) && (r.Some? <==> CanClone())
      ensures r.Some? ==> Remembered() >= 0
      ensures r.Some? ==> r.value == prefix + Digest(message, dsbyte, rate, Remembered() + outputLen)[Remembered()..]
      ensures Absorbing() ==> r == Some(prefix + Digest(message, dsbyte, rate, outputLen))
    {
      hide Digest, Absorbing, Squeezing, RateOk;
      Direction();
      var dup := Clone();
      NotDry();
      if dup == null {
        return None;
      }
      var hash := new bv8[outputLen];
      ghost var n := |dup.given|;
      dup.Read(hash);
      assert dup.given[n..] == hash[..];
      r := Some(prefix + hash[..]);
    }

    lemma NotDry()
      requires Valid()
      ensures 0 < rate <= 200 && rate % 8 == 0
      ensures Absorbing() ==> CanClone() && Remembered() == 0
    {
    }
  }

  // ---------- Copies of SHAKE256 after output ----------

  const SHAKE256_RATE: nat := 136

  /** After 32 bytes of output a copy is made, but as if nothing had been given: it will give those bytes again. */
  method CopyForgets(data: seq<bv8>) returns (d: State, dup: State?, out: array<bv8>)
    ensures dup != null && d.message == dup.message == data && d.rate == dup.rate == SHAKE256_RATE
    ensures d.given == out[..] && |d.given| == 32 && dup.Valid() && dup.squeezing && dup.given == []
  {
    hide State.Absorbing, State.Squeezing, Digest;
    d := new State(SHAKE256_RATE, 0, 0x1F);
    d.Write(data);
    out := new bv8[32];
    d.Read(out);
    dup := d.Clone();
  }

  /** After fewer bytes no copy can be made at all. */
  method CopyFails(data: seq<bv8>, n: nat) returns (d: State, dup: State?)
    requires n < MAX_RATE - SHAKE256_RATE
    ensures d.Valid() && d.message == data && d.rate == SHAKE256_RATE && |d.given| == n && dup == null
  {
    hide State.Absorbing, State.Squeezing, Digest;
    d := new State(SHAKE256_RATE, 0, 0x1F);
    d.Write(data);
    var out := new bv8[n];
    d.Read(out);
    d.Place();
    dup := d.Clone();
  }

  lemma SliceOfFront(b: array<bv8>, r: nat, lo: nat, hi: nat)
    requires lo <= hi <= r <= b.Length
    ensures b[..r][lo..hi] == b[lo..hi]
  {
    var x, y := b[..r][lo..hi], b[lo..hi];
    assert |x| == |y|;
    forall i | 0 <= i < hi - lo
      ensures x[i] == y[i]
    {
      assert x[i] == b[..r][lo + i] == b[lo + i];
    }
  }

  /** Bytes of the block have been given from its start on: some more, or fewer. */
  lemma GivenMore(given: seq<bv8>, block: seq<bv8>, lo: nat, n: nat)
    requires lo + n <= |block| && lo <= |given| && given[|given| - lo..] == block[..lo]
    ensures
      var g := given + block[lo..lo + n];
      g[|g| - (lo + n)..] == block[..lo + n] && g[..|g| - (lo + n)] == given[..|given| - lo]
  {
    assert given == given[..|given| - lo] + block[..lo];
    assert block[..lo + n] == block[..lo] + block[lo..lo + n];
  }

  lemma GivenLess(given: seq<bv8>, block: seq<bv8>, lo: nat, n: nat)
    requires n <= lo <= |block| && lo <= |given| && given[|given| - lo..] == block[..lo]
    ensures
      var g := given[..|given| - n];
      g[|g| - (lo - n)..] == block[..lo - n] && g[..|g| - (lo - n)] == given[..|given| - lo]
  {
    assert given == given[..|given| - lo] + block[..lo];
  }

  lemma PaddedIs(now: seq<bv8>, t: seq<bv8>, k: nat, ds: bv8, was: seq<bv8>)
    requires k > 0 && |now| == |t| + k && |now| <= |was| && now[..|t|] == t
    requires was[|t|] == ds && forall j :: |t| < j < |now| ==> was[j] == 0
    requires now == was[..|now| - 1] + [was[|now| - 1] ^ 0x80]
    ensures now == t + Pad(k, ds)
  {
  }
}
