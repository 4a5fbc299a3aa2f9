/** The Keccak-f[1600] permutation: the steps of FIPS 202, and the in-place form with four rounds unrolled. */
module Keccak {

  type Lane = bv64

  // ---------- The step mappings (sections 3.2 and 3.3 of FIPS 202) ----------

  type Lanes = s: seq<Lane> | |s| == 25 witness seq(25, _ => 0)

  /** Rotation to the left by whole bytes, and by less than a byte. */
  function TurnBytes(t: Lane, k: nat): Lane
    requires k < 8
  {
    match k
    case 0 => t
    case 1 => (t << 8) | (t >> 56)
    case 2 => (t << 16) | (t >> 48)
    case 3 => (t << 24) | (t >> 40)
    case 4 => (t << 32) | (t >> 32)
    case 5 => (t << 40) | (t >> 24)
    case 6 => (t << 48) | (t >> 16)
    case 7 => (t << 56) | (t >> 8)
  }

  function TurnBits(t: Lane, k: nat): Lane
    requires k < 8
  {
    match k
    case 0 => t
    case 1 => (t << 1) | (t >> 63)
    case 2 => (t << 2) | (t >> 62)
    case 3 => (t << 3) | (t >> 61)
    case 4 => (t << 4) | (t >> 60)
    case 5 => (t << 5) | (t >> 59)
    case 6 => (t << 6) | (t >> 58)
    case 7 => (t << 7) | (t >> 57)
  }

  /** Rotation to the left by `k` places: every bit moves up by `k`, modulo 64 (`LaneBits.RotlBits`). */
  function Rotl(t: Lane, k: nat): Lane
    requires k < 64
  {
    TurnBits(TurnBytes(t, k / 8), k % 8)
  }

  function Xor(a: Lane, b: Lane): Lane {
    a ^ b
  }

  function Choose(a: Lane, b: Lane, c: Lane): Lane {
    a ^ (c & !b)
  }

  /** Coordinates are taken modulo 5. */
  type Five = x: int | 0 <= x < 5

  function Add(x: Five, n: nat): Five
    requires n < 15
  {
    var m := x + n;
    if m < 5 then m else if m < 10 then m - 5 else if m < 15 then m - 10 else m - 15
  }

  function Mod5(n: nat): Five {
    n % 5
  }

  lemma AddIsModulo(x: Five, n: nat)
    requires n < 15
    ensures Add(x, n) == Mod5(x + n)
  {
  }

  function X(i: nat): Five
    requires i < 25
  {
    i % 5
  }

  function Y(i: nat): Five
    requires i < 25
  {
    i / 5
  }

  lemma Coordinates(x: Five, y: Five)
    ensures X(x + 5 * y) == x && Y(x + 5 * y) == y
  {
  }

  lemma CoordinatesBack(i: nat)
    requires i < 25
    ensures i == X(i) + 5 * Y(i)
  {
  }

  /** Lane (x, y). */
  function At(s: Lanes, x: Five, y: Five): Lane {
    s[x + 5 * y]
  }

  function Xor5(a: Lane, b: Lane, c: Lane, d: Lane, e: Lane): Lane {
    Xor(Xor(Xor(Xor(a, b), c), d), e)
  }

  function Column(s: Lanes, x: Five): Lane {
    Xor5(At(s, x, 0), At(s, x, 1), At(s, x, 2), At(s, x, 3), At(s, x, 4))
  }

  function Parity(s: Lanes, x: Five): Lane {
    Xor(Column(s, Add(x, 4)), Rotl(Column(s, Add(x, 1)), 1))
  }

  const OFFSETS: seq<nat> := [
    0, 1, 62, 28, 27,
    36, 44, 6, 55, 20,
    3, 10, 43, 25, 39,
    41, 45, 15, 21, 8,
    18, 2, 61, 56, 14]

  function Offset(x: Five, y: Five): (k: nat)
    ensures k < 64
  {
    OFFSETS[x + 5 * y]
  }

  function Theta(s: Lanes): Lanes {
    seq(25, i requires 0 <= i < 25 => Xor(s[i], Parity(s, X(i))))
  }

  function Rho(s: Lanes): Lanes {
    seq(25, i requires 0 <= i < 25 => Rotl(s[i], Offset(X(i), Y(i))))
  }

  function Pi(s: Lanes): Lanes {
    seq(25, i requires 0 <= i < 25 => At(s, Add(X(i), Y(i) + Y(i) + Y(i)), X(i)))
  }

  function Chi(s: Lanes): Lanes {
    seq(25, i requires 0 <= i < 25 => Choose(s[i], At(s, Add(X(i), 1), Y(i)), At(s, Add(X(i), 2), Y(i))))
  }

  function Iota(s: Lanes, rc: Lane): Lanes {
    s[0 := Xor(s[0], rc)]
  }

  function Round(s: Lanes, rc: Lane): Lanes {
    Iota(Chi(Pi(Rho(Theta(s)))), rc)
  }

  const RC: seq<Lane> := [
    0x0000000000000001, 0x0000000000008082, 0x800000000000808A, 0x8000000080008000,
    0x000000000000808B, 0x0000000080000001, 0x8000000080008081, 0x8000000000008009,
    0x000000000000008A, 0x0000000000000088, 0x0000000080008009, 0x000000008000000A,
    0x000000008000808B, 0x800000000000008B, 0x8000000000008089, 0x8000000000008003,
    0x8000000000008002, 0x8000000000000080, 0x000000000000800A, 0x800000008000000A,
    0x8000000080008081, 0x8000000000008080, 0x0000000080000001, 0x8000000080008008]

  function RoundConstant(i: nat): Lane
    requires i < 24
  {
    RC[i]
  }

  function Rounds(s: Lanes, n: nat): Lanes
    requires n <= 24
  {
    if n == 0 then s else Round(Rounds(s, n - 1), RoundConstant(n - 1))
  }

  function Permute(s: Lanes): Lanes {
    Rounds(s, 24)
  }

  // ---------- The round constants ----------

  /** The shift register of section 3.2.5 of FIPS 202; bit 0 is the one put out. */
  function Shift(r: bv8): bv8 {
    (r << 1) ^ (if r & 0x80 != 0 then 0x71 else 0)
  }

  function Register(t: nat): bv8 {
    if t == 0 then 1 else Shift(Register(t - 1))
  }

  function OutAt(r: bv8, bit: Lane): Lane {
    if r & 1 != 0 then bit else 0
  }

  function Shift7(r: bv8): bv8 {
    Shift(Shift(Shift(Shift(Shift(Shift(Shift(r)))))))
  }

  /** Seven bits put out from `r` on, at the places 2^j - 1 of the lane. */
  function Constant(r: bv8): Lane {
    var r1 := Shift(r);
    var r2 := Shift(r1);
    var r3 := Shift(r2);
    var r4 := Shift(r3);
    var r5 := Shift(r4);
    var r6 := Shift(r5);
    OutAt(r, 0x1) | OutAt(r1, 0x2) | OutAt(r2, 0x8) | OutAt(r3, 0x80) | OutAt(r4, 0x8000) |
    OutAt(r5, 0x8000_0000) | OutAt(r6, 0x8000_0000_0000_0000)
  }

  lemma RegisterStep(i: nat, r: bv8, r': bv8)
    requires Register(7 * i) == r && Shift7(r) == r'
    ensures Register(7 * (i + 1)) == r'
  {
    var t := 7 * i;
    assert 7 * (i + 1) == t + 7;
    RegisterSeven(t);
  }

  lemma RegisterSeven(t: nat)
    ensures Register(t + 7) == Shift7(Register(t))
  {
    hide Shift;
    assert Register(t + 2) == Shift(Register(t + 1));
    assert Register(t + 4) == Shift(Register(t + 3));
    assert Register(t + 6) == Shift(Register(t + 5));
  }

  /** The table is what the register of FIPS 202 puts out, seven bits a round. */
  lemma RoundConstantsFollowRegister(i: nat)
    requires i < 24
    ensures RoundConstant(i) == Constant(Register(7 * i))
  {
    RegisterAt(i);
    TableIsConstants(i);
  }

  const STARTS: seq<bv8> := [
    0x01, 0x80, 0xD8, 0x1A, 0xDF, 0x09, 0x35, 0x4F,
    0xCA, 0x70, 0x41, 0xEC, 0xD5, 0xCD, 0x63, 0xAB,
    0xAA, 0x2A, 0xF2, 0xE8, 0x37, 0x3E, 0x0B, 0x44]

  lemma {:induction false} RegisterAt(i: nat)
    requires i < 24
    ensures Register(7 * i) == STARTS[i]
  {
    hide Register, Shift7;
    if i == 0 {
      RegisterStarts();
    } else {
      RegisterAt(i - 1);
      StartsShift(i - 1);
      RegisterStep(i - 1, STARTS[i - 1], STARTS[i]);
    }
  }

  lemma RegisterStarts()
    ensures Register(0) == 1
  {
  }

  lemma StartsShift(i: nat)
    requires i < 23
    ensures Shift7(STARTS[i]) == STARTS[i + 1]
  {
    hide Shift7;
    Shifts1();
    Shifts2();
    Shifts3();
  }

  lemma Shifts1()
    ensures Shift7(0x01) == 0x80 && Shift7(0x80) == 0xD8
    ensures Shift7(0xD8) == 0x1A && Shift7(0x1A) == 0xDF
    ensures Shift7(0xDF) == 0x09 && Shift7(0x09) == 0x35
    ensures Shift7(0x35) == 0x4F && Shift7(0x4F) == 0xCA
  {
  }

  lemma Shifts2()
    ensures Shift7(0xCA) == 0x70 && Shift7(0x70) == 0x41
    ensures Shift7(0x41) == 0xEC && Shift7(0xEC) == 0xD5
    ensures Shift7(0xD5) == 0xCD && Shift7(0xCD) == 0x63
    ensures Shift7(0x63) == 0xAB && Shift7(0xAB) == 0xAA
  {
  }

  lemma Shifts3()
    ensures Shift7(0xAA) == 0x2A && Shift7(0x2A) == 0xF2
    ensures Shift7(0xF2) == 0xE8 && Shift7(0xE8) == 0x37
    ensures Shift7(0x37) == 0x3E && Shift7(0x3E) == 0x0B
    ensures Shift7(0x0B) == 0x44
  {
  }

  lemma TableIsConstants(i: nat)
    requires i < 24
    ensures RoundConstant(i) == Constant(STARTS[i])
  {
    hide Constant;
    Constants1();
    Constants2();
    Constants3();
    Constants4();
  }

  lemma Constants1()
    ensures Constant(0x01) == 0x0000000000000001
    ensures Constant(0x80) == 0x0000000000008082
    ensures Constant(0xD8) == 0x800000000000808A
    ensures Constant(0x1A) == 0x8000000080008000
    ensures Constant(0xDF) == 0x000000000000808B
    ensures Constant(0x09) == 0x0000000080000001
  {
  }

  lemma Constants2()
    ensures Constant(0x35) == 0x8000000080008081
    ensures Constant(0x4F) == 0x8000000000008009
    ensures Constant(0xCA) == 0x000000000000008A
    ensures Constant(0x70) == 0x0000000000000088
    ensures Constant(0x41) == 0x0000000080008009
    ensures Constant(0xEC) == 0x000000008000000A
  {
  }

  lemma Constants3()
    ensures Constant(0xD5) == 0x000000008000808B
    ensures Constant(0xCD) == 0x800000000000008B
    ensures Constant(0x63) == 0x8000000000008089
    ensures Constant(0xAB) == 0x8000000000008003
    ensures Constant(0xAA) == 0x8000000000008002
    ensures Constant(0x2A) == 0x8000000000000080
  {
  }

  lemma Constants4()
    ensures Constant(0xF2) == 0x000000000000800A
    ensures Constant(0xE8) == 0x800000008000000A
    ensures Constant(0x37) == 0x8000000080008081
    ensures Constant(0x3E) == 0x8000000000008080
    ensures Constant(0x0B) == 0x0000000080000001
    ensures Constant(0x44) == 0x8000000080008008
  {
  }

  // ---------- The rotation offsets ----------

  /** The lanes in the order in which FIPS 202 assigns offsets to them. */
  function Walk(t: nat): (Five, Five) {
    if t == 0 then (1, 0)
    else
      var (x, y) := Walk(t - 1);
      (y, Add(Add(x, x), y + y + y))
  }

  lemma WalkStep(t: nat, x: Five, y: Five, z: Five)
    requires t > 0 && Walk(t - 1) == (x, y) && Add(Add(x, x), y + y + y) == z
    ensures Walk(t) == (y, z)
  {
  }

  /** The table is the triangular numbers along the walk, as section 3.2.2 of FIPS 202 defines them. */
  lemma OffsetsFollowWalk(t: nat)
    requires t < 24
    ensures Offset(Walk(t).0, Walk(t).1) == ((t + 1) * (t + 2) / 2) % 64
  {
    if t < 6 {
      OffsetsFollowWalk1(t);
    } else if t < 12 {
      OffsetsFollowWalk2(t);
    } else if t < 18 {
      OffsetsFollowWalk3(t);
    } else {
      OffsetsFollowWalk4(t);
    }
  }

  lemma OffsetsFollowWalk1(t: nat)
    requires 0 <= t < 6
    ensures Offset(Walk(t).0, Walk(t).1) == ((t + 1) * (t + 2) / 2) % 64
  {
    hide Walk;
    WalkStart();
    WalkStep(1, 1, 0, 2);
    WalkStep(2, 0, 2, 1);
    WalkStep(3, 2, 1, 2);
    WalkStep(4, 1, 2, 3);
    WalkStep(5, 2, 3, 3);
  }

  lemma WalkTo6()
    ensures Walk(6) == (3, 0)
  {
    hide Walk;
    WalkStart();
    WalkStep(1, 1, 0, 2);
    WalkStep(2, 0, 2, 1);
    WalkStep(3, 2, 1, 2);
    WalkStep(4, 1, 2, 3);
    WalkStep(5, 2, 3, 3);
    WalkStep(6, 3, 3, 0);
  }

  lemma OffsetsFollowWalk2(t: nat)
    requires 6 <= t < 12
    ensures Offset(Walk(t).0, Walk(t).1) == ((t + 1) * (t + 2) / 2) % 64
  {
    hide Walk;
    WalkTo6();
    WalkStep(7, 3, 0, 1);
    WalkStep(8, 0, 1, 3);
    WalkStep(9, 1, 3, 1);
    WalkStep(10, 3, 1, 4);
    WalkStep(11, 1, 4, 4);
  }

  lemma WalkTo12()
    ensures Walk(12) == (4, 0)
  {
    hide Walk;
    WalkTo6();
    WalkStep(7, 3, 0, 1);
    WalkStep(8, 0, 1, 3);
    WalkStep(9, 1, 3, 1);
    WalkStep(10, 3, 1, 4);
    WalkStep(11, 1, 4, 4);
    WalkStep(12, 4, 4, 0);
  }

  lemma OffsetsFollowWalk3(t: nat)
    requires 12 <= t < 18
    ensures Offset(Walk(t).0, Walk(t).1) == ((t + 1) * (t + 2) / 2) % 64
  {
    hide Walk;
    WalkTo12();
    WalkStep(13, 4, 0, 3);
    WalkStep(14, 0, 3, 4);
    WalkStep(15, 3, 4, 3);
    WalkStep(16, 4, 3, 2);
    WalkStep(17, 3, 2, 2);
  }

  lemma WalkTo18()
    ensures Walk(18) == (2, 0)
  {
    hide Walk;
    WalkTo12();
    WalkStep(13, 4, 0, 3);
    WalkStep(14, 0, 3, 4);
    WalkStep(15, 3, 4, 3);
    WalkStep(16, 4, 3, 2);
    WalkStep(17, 3, 2, 2);
    WalkStep(18, 2, 2, 0);
  }

  lemma OffsetsFollowWalk4(t: nat)
    requires 18 <= t < 24
    ensures Offset(Walk(t).0, Walk(t).1) == ((t + 1) * (t + 2) / 2) % 64
  {
    hide Walk;
    WalkTo18();
    WalkStep(19, 2, 0, 4);
    WalkStep(20, 0, 4, 2);
    WalkStep(21, 4, 2, 4);
    WalkStep(22, 2, 4, 1);
    WalkStep(23, 4, 1, 1);
  }

  lemma WalkStart()
    ensures Walk(0) == (1, 0)
  {
  }

  // ---------- Where the lanes are ----------

  /** The row (mod 5) that a round takes for lane (x, y) of its result. */
  function Row(x: Five, y: Five): Five {
    var n := x + y + y;
    if n < 5 then n else if n < 10 then n - 5 else n - 10
  }

  lemma RowInjective(x: Five, y: Five, v: Five)
    requires Row(x, y) == Row(x, v)
    ensures y == v
  {
  }

  /**
   * Position of lane (x, y) after `k` of the unrolled rounds: a round writes lane (x, y) of its
   * result where lane (x, x + 2y) of its input was.
   */
  function Place(k: nat, x: Five, y: Five): (p: nat)
    requires k <= 4
    ensures p < 25 && p % 5 == x
  {
    if k == 0 then x + 5 * y else Place(k - 1, x, Row(x, y))
  }

  lemma RowIs(x: Five, y: Five, z: Five)
    requires z == x + y + y || z + 5 == x + y + y || z + 10 == x + y + y
    ensures Row(x, y) == z
  {
  }

  lemma AddIs(x: Five, n: nat, z: Five)
    requires n < 15 && (z == x + n || z + 5 == x + n || z + 10 == x + n || z + 15 == x + n)
    ensures Add(x, n) == z
  {
  }

  /** Each column's rows, in the order in which a round takes them. */
  lemma RowOrder(x: Five)
    ensures Row(x, 0) == x
    ensures Row(x, 1) == if x < 3 then x + 2 else x - 3
    ensures Row(x, 2) == if x < 1 then x + 4 else x - 1
    ensures Row(x, 3) == if x < 4 then x + 1 else x - 4
    ensures Row(x, 4) == if x < 2 then x + 3 else x - 2
  {
    hide Row;
    RowIs(x, 0, x);
    RowIs(x, 1, if x < 3 then x + 2 else x - 3);
    RowIs(x, 2, if x < 1 then x + 4 else x - 1);
    RowIs(x, 3, if x < 4 then x + 1 else x - 4);
    RowIs(x, 4, if x < 2 then x + 3 else x - 2);
  }

  lemma FourRowsReturn(x: Five, y: Five)
    ensures Row(x, Row(x, Row(x, Row(x, y)))) == y
  {
    hide Row;
    RowOrder(x);
    if y == 0 {
    } else if y == 1 {
    } else if y == 2 {
    } else if y == 3 {
    }
  }

  lemma {:induction false} PlacesDiffer(k: nat, x: Five, y: Five, v: Five)
    requires k <= 4 && y != v
    ensures Place(k, x, y) != Place(k, x, v)
  {
    if k > 0 {
      if Row(x, y) == Row(x, v) {
        RowInjective(x, y, v);
      }
      PlacesDiffer(k - 1, x, Row(x, y), Row(x, v));
    }
  }

  function View(a: Lanes, k: nat): Lanes
    requires k <= 4
  {
    seq(25, i requires 0 <= i < 25 => a[Place(k, X(i), Y(i))])
  }

  lemma ViewPlain(a: Lanes)
    ensures View(a, 0) == a && View(a, 4) == a
  {
    hide X, Y, Row;
    forall i | 0 <= i < 25
      ensures View(a, 0)[i] == a[i] && View(a, 4)[i] == a[i]
    {
      var x, y := X(i), Y(i);
      CoordinatesBack(i);
      FourRowsReturn(x, y);
      FourPlaces(x, y);
    }
  }

  lemma FourPlaces(x: Five, y: Five)
    ensures Place(4, x, y) == Place(0, x, Row(x, Row(x, Row(x, Row(x, y)))))
  {
    hide Row;
    PlaceNext(0, x, Row(x, Row(x, Row(x, y))));
    PlaceNext(1, x, Row(x, Row(x, y)));
    PlaceNext(2, x, Row(x, y));
    PlaceNext(3, x, y);
  }

  lemma PlaceNext(k: nat, x: Five, y: Five)
    requires k < 4
    ensures Place(k + 1, x, y) == Place(k, x, Row(x, y))
  {
  }

  // ---------- One group of five lanes ----------

  /** The lane that goes into place `i` of row `y`: taken from where the earlier rounds put it. */
  ghost function Turned(was: Lanes, k: nat, y: Five, d: seq<Lane>, i: Five): Lane
    requires k < 4 && |d| == 5
  {
    var j := Add(i, y + y + y);
    Rotl(Xor(was[Place(k, j, Row(j, y))], d[j]), Offset(j, Row(j, y)))
  }

  ghost function Mixed(was: Lanes, k: nat, y: Five, d: seq<Lane>, rc: Lane, x: Five): Lane
    requires k < 4 && |d| == 5
  {
    var c := Choose(Turned(was, k, y, d, x), Turned(was, k, y, d, Add(x, 1)), Turned(was, k, y, d, Add(x, 2)));
    if x == 0 && y == 0 then Xor(c, rc) else c
  }

  /** The rows before `n` have been written, the others not been touched. */
  ghost predicate Progress(now: Lanes, was: Lanes, k: nat, n: nat, d: seq<Lane>, rc: Lane)
    requires k < 4 && |d| == 5
  {
    forall x: Five, y: Five ::
      now[Place(k, x, Row(x, y))] == if y < n then Mixed(was, k, y, d, rc, x) else was[Place(k, x, Row(x, y))]
  }

  /** The places and rotations written out in the code are those of row `y` in round `k`. */
  ghost predicate Listed(k: nat, y: Five, p: seq<nat>, s: Five, r: seq<nat>)
    requires k < 4
  {
    && |p| == 5 && |r| == 5 && s == Add(0, y + y)
    && forall x: Five :: p[x] == Place(k, x, Row(x, y)) && r[x] == Offset(x, Row(x, y))
  }

  /** The places in `p` hold `vals`, all others are as they were. */
  ghost predicate Written(now: Lanes, was: Lanes, p: seq<nat>, vals: seq<Lane>)
    requires |p| == 5 && |vals| == 5 && forall x: Five :: p[x] < 25
  {
    && (forall x: Five :: now[p[x]] == vals[x])
    && (forall i :: 0 <= i < 25 && i != p[i % 5] ==> now[i] == was[i])
  }

  method Write(a: array<Lane>, p: seq<nat>, vals: seq<Lane>)
    requires a.Length == 25 && |p| == 5 && |vals| == 5 && forall x: Five :: p[x] < 25 && p[x] % 5 == x
    modifies a
    ensures Written(a[..], old(a[..]), p, vals)
  {
    hide Written;
    ghost var was := a[..];
    a[p[0]] := vals[0];
    a[p[1]] := vals[1];
    a[p[2]] := vals[2];
    a[p[3]] := vals[3];
    a[p[4]] := vals[4];
    FiveWrites(was, p, vals);
    assert a[..] == was[p[0] := vals[0]][p[1] := vals[1]][p[2] := vals[2]][p[3] := vals[3]][p[4] := vals[4]];
  }

  lemma FiveWrites(was: Lanes, p: seq<nat>, vals: seq<Lane>)
    requires |p| == 5 && |vals| == 5 && forall x: Five :: p[x] < 25 && p[x] % 5 == x
    ensures Written(was[p[0] := vals[0]][p[1] := vals[1]][p[2] := vals[2]][p[3] := vals[3]][p[4] := vals[4]],
                    was, p, vals)
  {
    var now := was[p[0] := vals[0]][p[1] := vals[1]][p[2] := vals[2]][p[3] := vals[3]][p[4] := vals[4]];
    TargetsDiffer(p);
    forall i | 0 <= i < 25 && i != p[i % 5]
      ensures now[i] == was[i]
    {
      NoTarget(p, i);
    }
  }

  lemma TargetsDiffer(p: seq<nat>)
    requires |p| == 5 && forall x: Five :: p[x] % 5 == x
    ensures forall x: Five, y: Five :: x != y ==> p[x] != p[y]
  {
  }

  lemma NoTarget(p: seq<nat>, i: nat)
    requires |p| == 5 && (forall x: Five :: p[x] % 5 == x) && i != p[i % 5]
    ensures forall x: Five :: i != p[x]
  {
  }

  /** The five lanes with the column parities added and rotated. */
  function Turn(cur: Lanes, p: seq<nat>, r: seq<nat>, d: seq<Lane>): (t: seq<Lane>)
    requires |p| == 5 && |r| == 5 && |d| == 5 && forall x: Five :: p[x] < 25 && r[x] < 64
    ensures |t| == 5
  {
    seq(5, j requires 0 <= j < 5 => Rotl(Xor(cur[p[j]], d[j]), r[j]))
  }

  lemma Renumbered(i: Five, y: Five)
    ensures Add(i, 5 - Add(0, y + y)) == Add(i, y + y + y)
  {
  }

  lemma ListedBounds(k: nat, y: Five, p: seq<nat>, s: Five, r: seq<nat>)
    requires k < 4 && Listed(k, y, p, s, r)
    ensures |p| == 5 && |r| == 5 && forall x: Five :: p[x] < 25 && p[x] % 5 == x && r[x] < 64
  {
    hide Place, Offset, Row, Add;
  }

  lemma TurnIs(cur: Lanes, was: Lanes, k: nat, y: Five, p: seq<nat>, s: Five, r: seq<nat>, d: seq<Lane>, rc: Lane,
               i: Five)
    requires k < 4 && |d| == 5 && |p| == 5 && |r| == 5 && forall x: Five :: p[x] < 25 && r[x] < 64
    requires Listed(k, y, p, s, r) && Progress(cur, was, k, y, d, rc)
    ensures Turn(cur, p, r, d)[Add(i, 5 - s)] == Turned(was, k, y, d, i)
  {
    hide *;
    Renumbered(i, y);
    var j := Add(i, y + y + y);
    Untouched(cur, was, k, y, d, rc, j);
    ListedAt(k, y, p, s, r, j);
    TurnAt(cur, p, r, d, j);
    TurnedAt(was, k, y, d, i);
  }

  lemma Untouched(cur: Lanes, was: Lanes, k: nat, y: Five, d: seq<Lane>, rc: Lane, j: Five)
    requires k < 4 && |d| == 5 && Progress(cur, was, k, y, d, rc)
    ensures cur[Place(k, j, Row(j, y))] == was[Place(k, j, Row(j, y))]
  {
    hide Place, Row, Mixed;
  }

  lemma ListedAt(k: nat, y: Five, p: seq<nat>, s: Five, r: seq<nat>, j: Five)
    requires k < 4 && Listed(k, y, p, s, r)
    ensures |p| == 5 && |r| == 5 && s == Add(0, y + y)
    ensures p[j] == Place(k, j, Row(j, y)) && r[j] == Offset(j, Row(j, y))
  {
    hide Place, Row, Offset, Add;
  }

  lemma TurnAt(cur: Lanes, p: seq<nat>, r: seq<nat>, d: seq<Lane>, j: Five)
    requires |p| == 5 && |r| == 5 && |d| == 5 && forall x: Five :: p[x] < 25 && r[x] < 64
    ensures Turn(cur, p, r, d)[j] == Rotl(Xor(cur[p[j]], d[j]), r[j])
  {
    hide Xor, Rotl;
  }

  lemma TurnedAt(was: Lanes, k: nat, y: Five, d: seq<Lane>, i: Five)
    requires k < 4 && |d| == 5
    ensures
      var j := Add(i, y + y + y);
      Turned(was, k, y, d, i) == Rotl(Xor(was[Place(k, j, Row(j, y))], d[j]), Offset(j, Row(j, y)))
  {
    hide Xor, Rotl, Place, Row, Offset, Add;
  }

  /** The five results, each from three neighbouring lanes. */
  function Chosen(bc: seq<Lane>, y: Five, rc: Lane): (vals: seq<Lane>)
    requires |bc| == 5
    ensures |vals| == 5
  {
    var first := Choose(bc[0], bc[1], bc[2]);
    [if y == 0 then Xor(first, rc) else first, Choose(bc[1], bc[2], bc[3]), Choose(bc[2], bc[3], bc[4]),
     Choose(bc[3], bc[4], bc[0]), Choose(bc[4], bc[0], bc[1])]
  }

  lemma ChosenIsMixed(bc: seq<Lane>, was: Lanes, k: nat, y: Five, d: seq<Lane>, rc: Lane)
    requires k < 4 && |d| == 5 && |bc| == 5 && forall i: Five :: bc[i] == Turned(was, k, y, d, i)
    ensures forall x: Five :: Chosen(bc, y, rc)[x] == Mixed(was, k, y, d, rc, x)
  {
    hide Turned, Choose, Xor;
    var vals := Chosen(bc, y, rc);
    assert vals[0] == Mixed(was, k, y, d, rc, 0);
    assert vals[1] == Mixed(was, k, y, d, rc, 1);
    assert vals[2] == Mixed(was, k, y, d, rc, 2);
    assert vals[3] == Mixed(was, k, y, d, rc, 3);
    assert vals[4] == Mixed(was, k, y, d, rc, 4);
  }

  lemma GroupDone(cur: Lanes, now: Lanes, was: Lanes, k: nat, y: Five, p: seq<nat>, s: Five, r: seq<nat>, d: seq<Lane>,
                  rc: Lane, vals: seq<Lane>)
    requires k < 4 && |d| == 5 && |vals| == 5 && Listed(k, y, p, s, r) && Progress(cur, was, k, y, d, rc)
    requires Written(now, cur, p, vals) && forall x: Five :: vals[x] == Mixed(was, k, y, d, rc, x)
    ensures Progress(now, was, k, y + 1, d, rc)
  {
    hide Mixed;
    forall x: Five, v: Five
      ensures now[Place(k, x, Row(x, v))] ==
        if v < y + 1 then Mixed(was, k, v, d, rc, x) else was[Place(k, x, Row(x, v))]
    {
      if v != y {
        OtherRows(k, x, y, v);
      }
    }
  }

  lemma OtherRows(k: nat, x: Five, y: Five, v: Five)
    requires k < 4 && v != y
    ensures Place(k, x, Row(x, v)) != Place(k, x, Row(x, y))
  {
    PlacesDiffer(k + 1, x, v, y);
  }

  method Group(a: array<Lane>, y: Five, p: seq<nat>, s: Five, r: seq<nat>, d: seq<Lane>, rc: Lane,
               ghost k: nat, ghost was: Lanes)
    requires a.Length == 25 && k < 4 && |d| == 5 && Listed(k, y, p, s, r)
    requires Progress(a[..], was, k, y, d, rc)
    modifies a
    ensures Progress(a[..], was, k, y + 1, d, rc)
  {
    hide *;
    ghost var cur := a[..];
    ListedBounds(k, y, p, s, r);
    forall i: Five
      ensures Turn(cur, p, r, d)[Add(i, 5 - s)] == Turned(was, k, y, d, i)
    {
      TurnIs(cur, was, k, y, p, s, r, d, rc, i);
    }
    var t := Turn(a[..], p, r, d);
    var bc := seq(5, i requires 0 <= i < 5 => t[Add(i, 5 - s)]);
    ChosenIsMixed(bc, was, k, y, d, rc);
    var vals := Chosen(bc, y, rc);
    Write(a, p, vals);
    GroupDone(cur, a[..], was, k, y, p, s, r, d, rc, vals);
  }

  // ---------- Column parities ----------

  /** The column as the code adds it up, by position. */
  function RawColumn(a: Lanes, x: Five): Lane {
    Xor5(a[x], a[x + 5], a[x + 10], a[x + 15], a[x + 20])
  }

  function PlacedColumn(a: Lanes, k: nat, x: Five): Lane
    requires k <= 4
  {
    Xor5(a[Place(k, x, 0)], a[Place(k, x, 1)], a[Place(k, x, 2)], a[Place(k, x, 3)], a[Place(k, x, 4)])
  }

  lemma XorFlip(a: Lane, b: Lane)
    ensures Xor(a, b) == Xor(b, a)
  {
  }

  lemma XorIs(a: Lane, b: Lane)
    ensures Xor(a, b) == a ^ b
  {
  }

  lemma Xor3Is(p: Lane, a: Lane, b: Lane)
    ensures Xor(Xor(p, a), b) == p ^ a ^ b
  {
    hide *;
    XorIs(p, a);
    XorIs(p ^ a, b);
  }

  lemma XorSwap(p: Lane, a: Lane, b: Lane)
    ensures Xor(Xor(p, a), b) == Xor(Xor(p, b), a)
  {
    hide *;
    Xor3Is(p, a, b);
    Xor3Is(p, b, a);
  }

  lemma XorSkip(a: Lane, b: Lane, c: Lane, d: Lane, e: Lane)
    ensures Xor5(a, b, c, d, e) == Xor5(a, c, e, b, d)
  {
    hide Xor, X, Y, Rotl;
    XorSwap(a, b, c);
    XorSwap(Xor(Xor(a, c), b), d, e);
    XorSwap(Xor(a, c), b, e);
  }

  lemma XorTurn(a: Lane, b: Lane, c: Lane, d: Lane, e: Lane)
    ensures Xor5(a, b, c, d, e) == Xor5(b, c, d, e, a)
  {
    hide Xor, X, Y, Rotl;
    XorFlip(a, b);
    XorSwap(b, a, c);
    XorSwap(Xor(b, c), a, d);
    XorSwap(Xor(Xor(b, c), d), a, e);
  }

  lemma XorReorder(a: Lane, b: Lane, c: Lane, d: Lane, e: Lane)
    ensures Xor5(a, b, c, d, e) == Xor5(a, c, e, b, d)
    ensures Xor5(a, b, c, d, e) == Xor5(b, d, a, c, e)
    ensures Xor5(a, b, c, d, e) == Xor5(c, e, b, d, a)
    ensures Xor5(a, b, c, d, e) == Xor5(d, a, c, e, b)
    ensures Xor5(a, b, c, d, e) == Xor5(e, b, d, a, c)
  {
    hide Xor5;
    XorSkip(a, b, c, d, e);
    XorTurn(a, c, e, b, d);
    XorTurn(c, e, b, d, a);
    XorTurn(e, b, d, a, c);
    XorTurn(b, d, a, c, e);
  }

  lemma ColumnNext(a: Lanes, k: nat, x: Five)
    requires k < 4
    ensures PlacedColumn(a, k + 1, x) == PlacedColumn(a, k, x)
  {
    hide Place, Row, Xor5;
    RowOrder(x);
    ColumnPlaces(k, x);
    XorReorder(a[Place(k, x, 0)], a[Place(k, x, 1)], a[Place(k, x, 2)], a[Place(k, x, 3)], a[Place(k, x, 4)]);
  }

  lemma ColumnPlaces(k: nat, x: Five)
    requires k < 4
    ensures Place(k + 1, x, 0) == Place(k, x, Row(x, 0)) && Place(k + 1, x, 1) == Place(k, x, Row(x, 1))
    ensures Place(k + 1, x, 2) == Place(k, x, Row(x, 2)) && Place(k + 1, x, 3) == Place(k, x, Row(x, 3))
    ensures Place(k + 1, x, 4) == Place(k, x, Row(x, 4))
  {
    hide Place, Row;
    PlaceNext(k, x, 0);
    PlaceNext(k, x, 1);
    PlaceNext(k, x, 2);
    PlaceNext(k, x, 3);
    PlaceNext(k, x, 4);
  }

  lemma FirstPlaces(x: Five)
    ensures Place(0, x, 0) == x && Place(0, x, 1) == x + 5 && Place(0, x, 2) == x + 10
    ensures Place(0, x, 3) == x + 15 && Place(0, x, 4) == x + 20
  {
  }

  lemma {:induction false} ColumnByPosition(a: Lanes, k: nat, x: Five)
    requires k <= 4
    ensures PlacedColumn(a, k, x) == RawColumn(a, x)
  {
    hide Place, Xor5;
    if k > 0 {
      ColumnByPosition(a, k - 1, x);
      ColumnNext(a, k - 1, x);
    } else {
      FirstPlaces(x);
    }
  }

  lemma ViewAt(a: Lanes, k: nat, x: Five, y: Five)
    requires k <= 4
    ensures At(View(a, k), x, y) == a[Place(k, x, y)]
  {
    hide Place, X, Y;
    Coordinates(x, y);
  }

  /** Whatever the layout, adding up by position gives the parities of the state it stands for. */
  lemma ParityByPosition(a: Lanes, k: nat, x: Five)
    requires k <= 4
    ensures Parity(View(a, k), x) == Xor(RawColumn(a, Add(x, 4)), Rotl(RawColumn(a, Add(x, 1)), 1))
  {
    hide Xor, Rotl, Place, View, RawColumn, PlacedColumn, Add, Column;
    ColumnOfView(a, k, Add(x, 4));
    ColumnOfView(a, k, Add(x, 1));
  }

  lemma ColumnOfView(a: Lanes, k: nat, x: Five)
    requires k <= 4
    ensures Column(View(a, k), x) == RawColumn(a, x)
  {
    hide Place, View, RawColumn, At, Xor5;
    ColumnByPosition(a, k, x);
    ViewAt(a, k, x, 0);
    ViewAt(a, k, x, 1);
    ViewAt(a, k, x, 2);
    ViewAt(a, k, x, 3);
    ViewAt(a, k, x, 4);
  }

  // ---------- The step mappings in the terms of FIPS 202 ----------

  /** The mappings lane by lane, with coordinates modulo 5 (sections 3.2.1 to 3.2.5). */
  lemma StepMappings(s: Lanes, rc: Lane, x: Five, y: Five)
    ensures At(Theta(s), x, y) == Xor(At(s, x, y), Xor(Column(s, Mod5(x + 4)), Rotl(Column(s, Mod5(x + 1)), 1)))
    ensures At(Rho(s), x, y) == Rotl(At(s, x, y), Offset(x, y))
    ensures At(Pi(s), x, y) == At(s, Mod5(x + 3 * y), x)
    ensures At(Chi(s), x, y) == Choose(At(s, x, y), At(s, Mod5(x + 1), y), At(s, Mod5(x + 2), y))
    ensures At(Iota(s, rc), x, y) == if x == 0 && y == 0 then Xor(At(s, x, y), rc) else At(s, x, y)
  {
    hide *;
    AddIsModulo(x, 4);
    AddIsModulo(x, 1);
    AddIsModulo(x, 2);
    AddIsModulo(x, y + y + y);
    ThetaLane(s, x, y);
    RotatedLane(s, x, y);
    MovedLane(s, x, y);
    ChiLane(s, x, y);
    IotaLane(s, rc, x, y);
  }

  lemma ThetaLane(s: Lanes, x: Five, y: Five)
    ensures At(Theta(s), x, y) == Xor(At(s, x, y), Xor(Column(s, Add(x, 4)), Rotl(Column(s, Add(x, 1)), 1)))
  {
    hide Xor, Rotl, Column, X, Y, Add;
    Coordinates(x, y);
  }

  lemma RotatedLane(s: Lanes, x: Five, y: Five)
    ensures At(Rho(s), x, y) == Rotl(At(s, x, y), Offset(x, y))
  {
    hide Rotl, Offset, X, Y;
    Coordinates(x, y);
  }

  lemma MovedLane(s: Lanes, x: Five, y: Five)
    ensures At(Pi(s), x, y) == At(s, Add(x, y + y + y), x)
  {
    hide Add, X, Y;
    Coordinates(x, y);
  }

  // ---------- A whole round ----------

  lemma RowBack(x: Five, y: Five)
    ensures Row(Add(x, y + y + y), y) == x
  {
  }

  lemma PiLane(s: Lanes, x: Five, y: Five)
    ensures
      var j := Add(x, y + y + y);
      At(Pi(Rho(Theta(s))), x, y) == Rotl(Xor(At(s, j, x), Parity(s, j)), Offset(j, x))
  {
    hide Xor, Rotl, Parity, Offset, Theta, Rho, X, Y, Add;
    Coordinates(x, y);
    RhoLane(s, Add(x, y + y + y), x);
  }

  lemma RhoLane(s: Lanes, x: Five, y: Five)
    ensures At(Rho(Theta(s)), x, y) == Rotl(Xor(At(s, x, y), Parity(s, x)), Offset(x, y))
  {
    hide Xor, Rotl, Parity, Offset, X, Y;
    Coordinates(x, y);
  }

  lemma ChiLane(s: Lanes, x: Five, y: Five)
    ensures At(Chi(s), x, y) == Choose(At(s, x, y), At(s, Add(x, 1), y), At(s, Add(x, 2), y))
  {
    hide Choose, X, Y, Add, Chi;
    Coordinates(x, y);
    ChiAt(s, x + 5 * y);
  }

  lemma ChiAt(s: Lanes, i: nat)
    requires i < 25
    ensures Chi(s)[i] == Choose(s[i], At(s, Add(X(i), 1), Y(i)), At(s, Add(X(i), 2), Y(i)))
  {
    hide Choose, X, Y, Add, At;
  }

  lemma IotaLane(s: Lanes, rc: Lane, x: Five, y: Five)
    ensures At(Iota(s, rc), x, y) == if x == 0 && y == 0 then Xor(At(s, x, y), rc) else At(s, x, y)
  {
    hide Xor;
  }

  lemma RoundLane(s: Lanes, rc: Lane, x: Five, y: Five)
    ensures
      var b := Pi(Rho(Theta(s)));
      var c := Choose(At(b, x, y), At(b, Add(x, 1), y), At(b, Add(x, 2), y));
      At(Round(s, rc), x, y) == if x == 0 && y == 0 then Xor(c, rc) else c
  {
    hide Pi, Rho, Theta, Chi, Iota, Xor, Choose, X, Y, Add, At;
    ChiLane(Pi(Rho(Theta(s))), x, y);
    IotaLane(Chi(Pi(Rho(Theta(s)))), rc, x, y);
  }

  lemma TurnedIsPi(was: Lanes, k: nat, y: Five, d: seq<Lane>, i: Five)
    requires k < 4 && |d| == 5 && forall x: Five :: d[x] == Parity(View(was, k), x)
    ensures Turned(was, k, y, d, i) == At(Pi(Rho(Theta(View(was, k)))), i, y)
  {
    hide *;
    var j := Add(i, y + y + y);
    TurnedAt(was, k, y, d, i);
    RowBack(i, y);
    PiLane(View(was, k), i, y);
    ViewAt(was, k, j, i);
  }

  /** All five rows written: the array stands for the next round's state. */
  lemma RoundDone(now: Lanes, was: Lanes, k: nat, d: seq<Lane>, rc: Lane)
    requires k < 4 && |d| == 5 && forall x: Five :: d[x] == Parity(View(was, k), x)
    requires Progress(now, was, k, 5, d, rc)
    ensures View(now, k + 1) == Round(View(was, k), rc)
  {
    hide View, Round, Place, Row, Turned, Mixed, Choose, Xor, Parity, X, Y;
    forall i | 0 <= i < 25
      ensures View(now, k + 1)[i] == Round(View(was, k), rc)[i]
    {
      var x, y := X(i), Y(i);
      CoordinatesBack(i);
      ViewAt(now, k + 1, x, y);
      PlaceNext(k, x, y);
      LaneDone(was, k, y, d, rc, x);
    }
  }

  lemma LaneDone(was: Lanes, k: nat, y: Five, d: seq<Lane>, rc: Lane, x: Five)
    requires k < 4 && |d| == 5 && forall x: Five :: d[x] == Parity(View(was, k), x)
    ensures Mixed(was, k, y, d, rc, x) == At(Round(View(was, k), rc), x, y)
  {
    hide View, Round, Place, Row, Turned, Choose, Xor, Parity, Add, At;
    RoundLane(View(was, k), rc, x, y);
    TurnedIsPi(was, k, y, d, x);
    TurnedIsPi(was, k, y, d, Add(x, 1));
    TurnedIsPi(was, k, y, d, Add(x, 2));
  }

  lemma ProgressStarts(a: Lanes, k: nat, d: seq<Lane>, rc: Lane)
    requires k < 4 && |d| == 5
    ensures Progress(a, a, k, 0, d, rc)
  {
    hide Place, Row, Mixed;
  }

  /** The parities to add to each column, from the lanes as they lie. */
  function ColumnParities(a: Lanes): (d: seq<Lane>)
    ensures |d| == 5
  {
    var bc0, bc1, bc2 := RawColumn(a, 0), RawColumn(a, 1), RawColumn(a, 2);
    var bc3, bc4 := RawColumn(a, 3), RawColumn(a, 4);
    [Xor(bc4, Rotl(bc1, 1)), Xor(bc0, Rotl(bc2, 1)), Xor(bc1, Rotl(bc3, 1)), Xor(bc2, Rotl(bc4, 1)),
     Xor(bc3, Rotl(bc0, 1))]
  }

  lemma ColumnParitiesAre(a: Lanes, k: nat)
    requires k < 4
    ensures forall x: Five :: ColumnParities(a)[x] == Parity(View(a, k), x)
  {
    hide View, Parity, Xor, Rotl, RawColumn;
    var d := ColumnParities(a);
    ParityByPosition(a, k, 0);
    assert d[0] == Parity(View(a, k), 0);
    ParityByPosition(a, k, 1);
    assert d[1] == Parity(View(a, k), 1);
    ParityByPosition(a, k, 2);
    assert d[2] == Parity(View(a, k), 2);
    ParityByPosition(a, k, 3);
    assert d[3] == Parity(View(a, k), 3);
    ParityByPosition(a, k, 4);
    assert d[4] == Parity(View(a, k), 4);
  }

  /** The positions and rotations of a row, lane by lane. */
  function PlacesOf(k: nat, y: Five): seq<nat>
    requires k < 4
  {
    [Place(k, 0, Row(0, y)), Place(k, 1, Row(1, y)), Place(k, 2, Row(2, y)), Place(k, 3, Row(3, y)),
     Place(k, 4, Row(4, y))]
  }

  function OffsetsOf(y: Five): seq<nat> {
    [Offset(0, Row(0, y)), Offset(1, Row(1, y)), Offset(2, Row(2, y)), Offset(3, Row(3, y)), Offset(4, Row(4, y))]
  }

  lemma RowListed(k: nat, y: Five)
    requires k < 4
    ensures Listed(k, y, PlacesOf(k, y), Add(0, y + y), OffsetsOf(y))
  {
    hide Place, Row, Offset, Add;
  }

  lemma OffsetsListed0()
    ensures OffsetsOf(0) == [0, 44, 43, 21, 14]
  {
  }

  lemma OffsetsListed1()
    ensures OffsetsOf(1) == [3, 45, 61, 28, 20]
  {
  }

  lemma OffsetsListed2()
    ensures OffsetsOf(2) == [18, 1, 6, 25, 8]
  {
  }

  lemma OffsetsListed3()
    ensures OffsetsOf(3) == [36, 10, 15, 56, 27]
  {
  }

  lemma OffsetsListed4()
    ensures OffsetsOf(4) == [41, 2, 62, 55, 39]
  {
  }

  lemma ShiftsListed()
    ensures Add(0, 0) == 0 && Add(0, 2) == 2 && Add(0, 4) == 4 && Add(0, 6) == 1 && Add(0, 8) == 3
  {
    hide Add;
    AddIs(0, 0, 0); AddIs(0, 2, 2); AddIs(0, 4, 4); AddIs(0, 6, 1); AddIs(0, 8, 3);
  }

  lemma PlacesListed1()
    ensures PlacesOf(0, 0) == [0, 6, 12, 18, 24]
    ensures PlacesOf(0, 1) == [10, 16, 22, 3, 9]
    ensures PlacesOf(0, 2) == [20, 1, 7, 13, 19]
    ensures PlacesOf(0, 3) == [5, 11, 17, 23, 4]
    ensures PlacesOf(0, 4) == [15, 21, 2, 8, 14]
  {
    hide Place, Row;
    RowOrder(0); RowOrder(1); RowOrder(2); RowOrder(3); RowOrder(4);
    FirstPlaces(0);
    FirstPlaces(1);
    FirstPlaces(2);
    FirstPlaces(3);
    FirstPlaces(4);
  }

  method Round1(a: array<Lane>, rc: Lane)
    requires a.Length == 25
    modifies a
    ensures View(a[..], 1) == Round(View(old(a[..]), 0), rc)
  {
    hide *;
    ghost var was := a[..];
    var d := ColumnParities(a[..]);
    ColumnParitiesAre(was, 0);
    ProgressStarts(was, 0, d, rc);
    OffsetsListed0(); OffsetsListed1(); OffsetsListed2(); OffsetsListed3(); OffsetsListed4();
    ShiftsListed();
    PlacesListed1();
    RowListed(0, 0);
    Group(a, 0, [0, 6, 12, 18, 24], 0, [0, 44, 43, 21, 14], d, rc, 0, was);
    RowListed(0, 1);
    Group(a, 1, [10, 16, 22, 3, 9], 2, [3, 45, 61, 28, 20], d, rc, 0, was);
    RowListed(0, 2);
    Group(a, 2, [20, 1, 7, 13, 19], 4, [18, 1, 6, 25, 8], d, rc, 0, was);
    RowListed(0, 3);
    Group(a, 3, [5, 11, 17, 23, 4], 1, [36, 10, 15, 56, 27], d, rc, 0, was);
    RowListed(0, 4);
    Group(a, 4, [15, 21, 2, 8, 14], 3, [41, 2, 62, 55, 39], d, rc, 0, was);
    RoundDone(a[..], was, 0, d, rc);
  }

  lemma PlacesListed2()
    ensures PlacesOf(1, 0) == [0, 16, 7, 23, 14]
    ensures PlacesOf(1, 1) == [20, 11, 2, 18, 9]
    ensures PlacesOf(1, 2) == [15, 6, 22, 13, 4]
    ensures PlacesOf(1, 3) == [10, 1, 17, 8, 24]
    ensures PlacesOf(1, 4) == [5, 21, 12, 3, 19]
  {
    hide Place, Row;
    RowOrder(0); RowOrder(1); RowOrder(2); RowOrder(3); RowOrder(4);
    FirstPlaces(0); ColumnPlaces(0, 0);
    FirstPlaces(1); ColumnPlaces(0, 1);
    FirstPlaces(2); ColumnPlaces(0, 2);
    FirstPlaces(3); ColumnPlaces(0, 3);
    FirstPlaces(4); ColumnPlaces(0, 4);
  }

  method Round2(a: array<Lane>, rc: Lane)
    requires a.Length == 25
    modifies a
    ensures View(a[..], 2) == Round(View(old(a[..]), 1), rc)
  {
    hide *;
    ghost var was := a[..];
    var d := ColumnParities(a[..]);
    ColumnParitiesAre(was, 1);
    ProgressStarts(was, 1, d, rc);
    OffsetsListed0(); OffsetsListed1(); OffsetsListed2(); OffsetsListed3(); OffsetsListed4();
    ShiftsListed();
    PlacesListed2();
    RowListed(1, 0);
    Group(a, 0, [0, 16, 7, 23, 14], 0, [0, 44, 43, 21, 14], d, rc, 1, was);
    RowListed(1, 1);
    Group(a, 1, [20, 11, 2, 18, 9], 2, [3, 45, 61, 28, 20], d, rc, 1, was);
    RowListed(1, 2);
    Group(a, 2, [15, 6, 22, 13, 4], 4, [18, 1, 6, 25, 8], d, rc, 1, was);
    RowListed(1, 3);
    Group(a, 3, [10, 1, 17, 8, 24], 1, [36, 10, 15, 56, 27], d, rc, 1, was);
    RowListed(1, 4);
    Group(a, 4, [5, 21, 12, 3, 19], 3, [41, 2, 62, 55, 39], d, rc, 1, was);
    RoundDone(a[..], was, 1, d, rc);
  }

  lemma PlacesListed3()
    ensures PlacesOf(2, 0) == [0, 11, 22, 8, 19]
    ensures PlacesOf(2, 1) == [15, 1, 12, 23, 9]
    ensures PlacesOf(2, 2) == [5, 16, 2, 13, 24]
    ensures PlacesOf(2, 3) == [20, 6, 17, 3, 14]
    ensures PlacesOf(2, 4) == [10, 21, 7, 18, 4]
  {
    hide Place, Row;
    RowOrder(0); RowOrder(1); RowOrder(2); RowOrder(3); RowOrder(4);
    FirstPlaces(0); ColumnPlaces(0, 0); ColumnPlaces(1, 0);
    FirstPlaces(1); ColumnPlaces(0, 1); ColumnPlaces(1, 1);
    FirstPlaces(2); ColumnPlaces(0, 2); ColumnPlaces(1, 2);
    FirstPlaces(3); ColumnPlaces(0, 3); ColumnPlaces(1, 3);
    FirstPlaces(4); ColumnPlaces(0, 4); ColumnPlaces(1, 4);
  }

  method Round3(a: array<Lane>, rc: Lane)
    requires a.Length == 25
    modifies a
    ensures View(a[..], 3) == Round(View(old(a[..]), 2), rc)
  {
    hide *;
    ghost var was := a[..];
    var d := ColumnParities(a[..]);
    ColumnParitiesAre(was, 2);
    ProgressStarts(was, 2, d, rc);
    OffsetsListed0(); OffsetsListed1(); OffsetsListed2(); OffsetsListed3(); OffsetsListed4();
    ShiftsListed();
    PlacesListed3();
    RowListed(2, 0);
    Group(a, 0, [0, 11, 22, 8, 19], 0, [0, 44, 43, 21, 14], d, rc, 2, was);
    RowListed(2, 1);
    Group(a, 1, [15, 1, 12, 23, 9], 2, [3, 45, 61, 28, 20], d, rc, 2, was);
    RowListed(2, 2);
    Group(a, 2, [5, 16, 2, 13, 24], 4, [18, 1, 6, 25, 8], d, rc, 2, was);
    RowListed(2, 3);
    Group(a, 3, [20, 6, 17, 3, 14], 1, [36, 10, 15, 56, 27], d, rc, 2, was);
    RowListed(2, 4);
    Group(a, 4, [10, 21, 7, 18, 4], 3, [41, 2, 62, 55, 39], d, rc, 2, was);
    RoundDone(a[..], was, 2, d, rc);
  }

  lemma PlacesListed4()
    ensures PlacesOf(3, 0) == [0, 1, 2, 3, 4]
    ensures PlacesOf(3, 1) == [5, 6, 7, 8, 9]
    ensures PlacesOf(3, 2) == [10, 11, 12, 13, 14]
    ensures PlacesOf(3, 3) == [15, 16, 17, 18, 19]
    ensures PlacesOf(3, 4) == [20, 21, 22, 23, 24]
  {
    hide Place, Row;
    RowOrder(0); RowOrder(1); RowOrder(2); RowOrder(3); RowOrder(4);
    FirstPlaces(0); ColumnPlaces(0, 0); ColumnPlaces(1, 0); ColumnPlaces(2, 0);
    FirstPlaces(1); ColumnPlaces(0, 1); ColumnPlaces(1, 1); ColumnPlaces(2, 1);
    FirstPlaces(2); ColumnPlaces(0, 2); ColumnPlaces(1, 2); ColumnPlaces(2, 2);
    FirstPlaces(3); ColumnPlaces(0, 3); ColumnPlaces(1, 3); ColumnPlaces(2, 3);
    FirstPlaces(4); ColumnPlaces(0, 4); ColumnPlaces(1, 4); ColumnPlaces(2, 4);
  }

  method Round4(a: array<Lane>, rc: Lane)
    requires a.Length == 25
    modifies a
    ensures View(a[..], 4) == Round(View(old(a[..]), 3), rc)
  {
    hide *;
    ghost var was := a[..];
    var d := ColumnParities(a[..]);
    ColumnParitiesAre(was, 3);
    ProgressStarts(was, 3, d, rc);
    OffsetsListed0(); OffsetsListed1(); OffsetsListed2(); OffsetsListed3(); OffsetsListed4();
    ShiftsListed();
    PlacesListed4();
    RowListed(3, 0);
    Group(a, 0, [0, 1, 2, 3, 4], 0, [0, 44, 43, 21, 14], d, rc, 3, was);
    RowListed(3, 1);
    Group(a, 1, [5, 6, 7, 8, 9], 2, [3, 45, 61, 28, 20], d, rc, 3, was);
    RowListed(3, 2);
    Group(a, 2, [10, 11, 12, 13, 14], 4, [18, 1, 6, 25, 8], d, rc, 3, was);
    RowListed(3, 3);
    Group(a, 3, [15, 16, 17, 18, 19], 1, [36, 10, 15, 56, 27], d, rc, 3, was);
    RowListed(3, 4);
    Group(a, 4, [20, 21, 22, 23, 24], 3, [41, 2, 62, 55, 39], d, rc, 3, was);
    RoundDone(a[..], was, 3, d, rc);
  }

  /** Four rounds per iteration bring every lane back to its own place. */
  method KeccakF1600(a: array<Lane>)
    requires a.Length == 25
    modifies a
    ensures a[..] == Permute(old(a[..]))
  {
    hide View, Round, RoundConstant;
    var i := 0;
    while i < 24
      invariant 0 <= i <= 24 && i % 4 == 0
      invariant a[..] == Rounds(old(a[..]), i)
    {
      ghost var s := a[..];
      ViewPlain(s);
      Round1(a, RoundConstant(i));
      Round2(a, RoundConstant(i + 1));
      Round3(a, RoundConstant(i + 2));
      Round4(a, RoundConstant(i + 3));
      ViewPlain(a[..]);
      FourRounds(old(a[..]), i);
      i := i + 4;
    }
  }

  lemma FourRounds(s: Lanes, i: nat)
    requires i + 4 <= 24
    ensures Rounds(s, i + 4) ==
      Round(Round(Round(Round(Rounds(s, i), RoundConstant(i)), RoundConstant(i + 1)), RoundConstant(i + 2)),
            RoundConstant(i + 3))
  {
    hide Round, RoundConstant;
    assert Rounds(s, i + 1) == Round(Rounds(s, i), RoundConstant(i));
    assert Rounds(s, i + 2) == Round(Rounds(s, i + 1), RoundConstant(i + 1));
    assert Rounds(s, i + 3) == Round(Rounds(s, i + 2), RoundConstant(i + 2));
  }
}
