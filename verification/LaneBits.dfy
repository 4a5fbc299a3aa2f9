/** The bits of a lane, and what the operations on lanes and the step mappings do to them (section 3 of FIPS 202). */
module LaneBits {
  import opened Keccak

  predicate Odd(v: Lane) {
    v & 1 != 0
  }

  function Halve(v: Lane): Lane {
    v >> 1
  }

  /** Bit `z` of a lane, bit 0 being the least significant one. */
  predicate BitAt(v: Lane, z: nat) {
    if z == 0 then Odd(v) else BitAt(Halve(v), z - 1)
  }

  lemma XorStep(a: Lane, b: Lane)
    ensures Halve(Xor(a, b)) == Xor(Halve(a), Halve(b)) && (Odd(Xor(a, b)) <==> Odd(a) != Odd(b))
  {
  }

  lemma {:induction false} XorBits(a: Lane, b: Lane, z: nat)
    ensures BitAt(Xor(a, b), z) <==> BitAt(a, z) != BitAt(b, z)
    decreases z
  {
    hide Xor, Halve, Odd;
    XorStep(a, b);
    if z > 0 {
      XorBits(Halve(a), Halve(b), z - 1);
    }
  }

  lemma ChooseStep(a: Lane, b: Lane, c: Lane)
    ensures Halve(Choose(a, b, c)) == Choose(Halve(a), Halve(b), Halve(c))
    ensures Odd(Choose(a, b, c)) <==> Odd(a) != (!Odd(b) && Odd(c))
  {
  }

  lemma {:induction false} ChooseBits(a: Lane, b: Lane, c: Lane, z: nat)
    ensures BitAt(Choose(a, b, c), z) <==> BitAt(a, z) != (!BitAt(b, z) && BitAt(c, z))
    decreases z
  {
    hide Choose, Halve, Odd;
    ChooseStep(a, b, c);
    if z > 0 {
      ChooseBits(Halve(a), Halve(b), Halve(c), z - 1);
    }
  }

  function And(a: Lane, b: Lane): Lane {
    a & b
  }

  lemma AndStep(a: Lane, b: Lane)
    ensures Halve(And(a, b)) == And(Halve(a), Halve(b)) && (Odd(And(a, b)) <==> Odd(a) && Odd(b))
  {
  }

  lemma {:induction false} AndBits(a: Lane, b: Lane, z: nat)
    ensures BitAt(And(a, b), z) <==> BitAt(a, z) && BitAt(b, z)
    decreases z
  {
    hide And, Halve, Odd;
    AndStep(a, b);
    if z > 0 {
      AndBits(Halve(a), Halve(b), z - 1);
    }
  }

  function Down8(v: Lane): Lane {
    v >> 8
  }

  lemma HalveEight(v: Lane)
    ensures Halve(Halve(Halve(Halve(Halve(Halve(Halve(Halve(v)))))))) == Down8(v)
  {
  }

  lemma ByteDown(v: Lane, z: nat)
    ensures BitAt(v, z + 8) <==> BitAt(Down8(v), z)
  {
    hide Halve, Odd, Down8;
    HalveEight(v);
    var v1 := Halve(v);
    var v2 := Halve(v1);
    var v3 := Halve(v2);
    var v4 := Halve(v3);
    var v5 := Halve(v4);
    var v6 := Halve(v5);
    assert BitAt(v, z + 8) == BitAt(v1, z + 7);
    assert BitAt(v1, z + 7) == BitAt(v2, z + 6);
    assert BitAt(v2, z + 6) == BitAt(v3, z + 5);
    assert BitAt(v3, z + 5) == BitAt(v4, z + 4);
    assert BitAt(v4, z + 4) == BitAt(v5, z + 3);
    assert BitAt(v5, z + 3) == BitAt(v6, z + 2);
    assert BitAt(v6, z + 2) == BitAt(Halve(v6), z + 1);
  }

  /** The low byte of a lane, bit by bit. */
  predicate LowBit(v: Lane, i: nat)
    requires i < 8
  {
    match i
    case 0 => v & 0x01 != 0
    case 1 => v & 0x02 != 0
    case 2 => v & 0x04 != 0
    case 3 => v & 0x08 != 0
    case 4 => v & 0x10 != 0
    case 5 => v & 0x20 != 0
    case 6 => v & 0x40 != 0
    case 7 => v & 0x80 != 0
  }

  lemma LowBitStep(v: Lane)
    ensures Odd(v) <==> LowBit(v, 0)
    ensures LowBit(Halve(v), 0) == LowBit(v, 1) && LowBit(Halve(v), 1) == LowBit(v, 2)
    ensures LowBit(Halve(v), 2) == LowBit(v, 3) && LowBit(Halve(v), 3) == LowBit(v, 4)
    ensures LowBit(Halve(v), 4) == LowBit(v, 5) && LowBit(Halve(v), 5) == LowBit(v, 6)
    ensures LowBit(Halve(v), 6) == LowBit(v, 7)
  {
  }

  lemma {:induction false} LowBits(v: Lane, i: nat)
    requires i < 8
    ensures BitAt(v, i) <==> LowBit(v, i)
    decreases i
  {
    hide Halve, Odd, LowBit;
    LowBitStep(v);
    if i > 0 {
      LowBits(Halve(v), i - 1);
    }
  }

  /** The lane moved down by `k` bytes. */
  function DownBytes(v: Lane, k: nat): Lane {
    if k == 0 then v else DownBytes(Down8(v), k - 1)
  }

  /** Bit `i` of byte `k`. */
  lemma {:induction false} ByteBits(v: Lane, k: nat, i: nat)
    requires i < 8
    ensures BitAt(v, 8 * k + i) <==> LowBit(DownBytes(v, k), i)
    decreases k
  {
    hide Down8, LowBit, BitAt;
    if k == 0 {
      LowBits(v, i);
    } else {
      ByteDown(v, 8 * (k - 1) + i);
      ByteBits(Down8(v), k - 1, i);
    }
  }

  function RotateOne(v: Lane): Lane {
    (v << 1) | (v >> 63)
  }

  const LOW63: Lane := 0x7FFF_FFFF_FFFF_FFFF

  lemma RotateOneStep(v: Lane)
    ensures Halve(RotateOne(v)) == And(v, LOW63)
    ensures Odd(RotateOne(v)) <==> LowBit(v >> 56, 7)
  {
  }

  lemma Down1Is(v: Lane)
    ensures DownBytes(v, 1) == v >> 8
  {
  }

  lemma Down2Is(v: Lane)
    ensures DownBytes(v, 2) == v >> 16
  {
    Down1Is(v >> 8);
  }

  lemma Down3Is(v: Lane)
    ensures DownBytes(v, 3) == v >> 24
  {
    Down2Is(v >> 8);
  }

  lemma Down4Is(v: Lane)
    ensures DownBytes(v, 4) == v >> 32
  {
    Down3Is(v >> 8);
  }

  lemma Down5Is(v: Lane)
    ensures DownBytes(v, 5) == v >> 40
  {
    Down4Is(v >> 8);
  }

  lemma Down6Is(v: Lane)
    ensures DownBytes(v, 6) == v >> 48
  {
    Down5Is(v >> 8);
  }

  lemma Down7Is(v: Lane)
    ensures DownBytes(v, 7) == v >> 56
  {
    Down6Is(v >> 8);
  }

  lemma LowOnes(z: nat)
    requires z < 63
    ensures BitAt(LOW63, z)
  {
    hide BitAt, DownBytes, LowBit;
    var k, i := z / 8, z % 8;
    ByteBits(LOW63, k, i);
    if k < 7 {
      OnesDown(k, i);
    } else {
      Down7Is(LOW63);
      LastOnes(i);
    }
  }

  lemma OnesDown(k: nat, i: nat)
    requires k < 7 && i < 8
    ensures LowBit(DownBytes(LOW63, k), i)
  {
    hide DownBytes;
    match k
    case 0 => NoneDown(LOW63);
    case 1 => Down1Is(LOW63);
    case 2 => Down2Is(LOW63);
    case 3 => Down3Is(LOW63);
    case 4 => Down4Is(LOW63);
    case 5 => Down5Is(LOW63);
    case 6 => Down6Is(LOW63);
  }

  lemma NoneDown(v: Lane)
    ensures DownBytes(v, 0) == v
  {
  }

  lemma LastOnes(i: nat)
    requires i < 7
    ensures LowBit(LOW63 >> 56, i)
  {
  }

  lemma RotateOneBits(v: Lane, z: nat)
    requires z < 64
    ensures BitAt(RotateOne(v), z) <==> BitAt(v, if z == 0 then 63 else z - 1)
  {
    hide RotateOne, Halve, Odd, And, DownBytes, LowBit;
    RotateOneStep(v);
    if z == 0 {
      Down7Is(v);
      ByteBits(v, 7, 7);
    } else {
      AndBits(v, LOW63, z - 1);
      LowOnes(z - 1);
    }
  }

  // ---------- Rotation ----------

  function RotateByte(v: Lane): Lane {
    (v << 8) | (v >> 56)
  }

  lemma TurnBits1(v: Lane)
    ensures TurnBits(v, 1) == RotateOne(TurnBits(v, 0))
  {
  }

  lemma TurnBits2(v: Lane)
    ensures TurnBits(v, 2) == RotateOne(TurnBits(v, 1))
  {
  }

  lemma TurnBits3(v: Lane)
    ensures TurnBits(v, 3) == RotateOne(TurnBits(v, 2))
  {
  }

  lemma TurnBits4(v: Lane)
    ensures TurnBits(v, 4) == RotateOne(TurnBits(v, 3))
  {
  }

  lemma TurnBits5(v: Lane)
    ensures TurnBits(v, 5) == RotateOne(TurnBits(v, 4))
  {
  }

  lemma TurnBits6(v: Lane)
    ensures TurnBits(v, 6) == RotateOne(TurnBits(v, 5))
  {
  }

  lemma TurnBits7(v: Lane)
    ensures TurnBits(v, 7) == RotateOne(TurnBits(v, 6))
  {
  }

  lemma TurnBits8(v: Lane)
    ensures RotateByte(v) == RotateOne(TurnBits(v, 7))
  {
  }

  lemma TurnBytes1(v: Lane)
    ensures TurnBytes(v, 1) == RotateByte(TurnBytes(v, 0))
  {
  }

  lemma TurnBytes2(v: Lane)
    ensures TurnBytes(v, 2) == RotateByte(TurnBytes(v, 1))
  {
  }

  lemma TurnBytes3(v: Lane)
    ensures TurnBytes(v, 3) == RotateByte(TurnBytes(v, 2))
  {
  }

  lemma TurnBytes4(v: Lane)
    ensures TurnBytes(v, 4) == RotateByte(TurnBytes(v, 3))
  {
  }

  lemma TurnBytes5(v: Lane)
    ensures TurnBytes(v, 5) == RotateByte(TurnBytes(v, 4))
  {
  }

  lemma TurnBytes6(v: Lane)
    ensures TurnBytes(v, 6) == RotateByte(TurnBytes(v, 5))
  {
  }

  lemma TurnBytes7(v: Lane)
    ensures TurnBytes(v, 7) == RotateByte(TurnBytes(v, 6))
  {
  }

  lemma NoTurn(v: Lane)
    ensures TurnBits(v, 0) == v && TurnBytes(v, 0) == v
  {
  }

  lemma TurnBitsNext(v: Lane, k: nat)
    requires 0 < k < 8
    ensures TurnBits(v, k) == RotateOne(TurnBits(v, k - 1))
  {
    hide *;
    match k
    case 1 => TurnBits1(v);
    case 2 => TurnBits2(v);
    case 3 => TurnBits3(v);
    case 4 => TurnBits4(v);
    case 5 => TurnBits5(v);
    case 6 => TurnBits6(v);
    case 7 => TurnBits7(v);
  }

  lemma TurnBytesNext(v: Lane, k: nat)
    requires 0 < k < 8
    ensures TurnBytes(v, k) == RotateByte(TurnBytes(v, k - 1))
  {
    hide *;
    match k
    case 1 => TurnBytes1(v);
    case 2 => TurnBytes2(v);
    case 3 => TurnBytes3(v);
    case 4 => TurnBytes4(v);
    case 5 => TurnBytes5(v);
    case 6 => TurnBytes6(v);
    case 7 => TurnBytes7(v);
  }

  /** The place a bit comes from when it has moved up by `k`, modulo 64. */
  function From(z: nat, k: nat): (y: nat)
    requires z < 64 && k < 64
    ensures y < 64
  {
    if z >= k then z - k else z - k + 64
  }

  lemma {:induction false} TurnBitsMoves(v: Lane, k: nat, z: nat)
    requires k < 8 && z < 64
    ensures BitAt(TurnBits(v, k), z) <==> BitAt(v, From(z, k))
  {
    hide TurnBits, RotateOne, BitAt;
    if k == 0 {
      NoTurn(v);
    } else {
      TurnBitsNext(v, k);
      RotateOneBits(TurnBits(v, k - 1), z);
      TurnBitsMoves(v, k - 1, From(z, 1));
    }
  }

  lemma RotateByteMoves(v: Lane, z: nat)
    requires z < 64
    ensures BitAt(RotateByte(v), z) <==> BitAt(v, From(z, 8))
  {
    hide TurnBits, RotateOne, RotateByte, BitAt;
    TurnBits8(v);
    RotateOneBits(TurnBits(v, 7), z);
    TurnBitsMoves(v, 7, From(z, 1));
  }

  lemma {:induction false} TurnBytesMoves(v: Lane, k: nat, z: nat)
    requires k < 8 && z < 64
    ensures BitAt(TurnBytes(v, k), z) <==> BitAt(v, From(z, 8 * k))
  {
    hide TurnBytes, RotateByte, BitAt;
    if k == 0 {
      NoTurn(v);
    } else {
      TurnBytesNext(v, k);
      RotateByteMoves(TurnBytes(v, k - 1), z);
      TurnBytesMoves(v, k - 1, From(z, 8));
    }
  }

  /** Rotation moves every bit up by `k` places, modulo 64. */
  lemma RotlBits(v: Lane, k: nat, z: nat)
    requires k < 64 && z < 64
    ensures BitAt(Rotl(v, k), z) <==> BitAt(v, From(z, k))
  {
    hide TurnBits, TurnBytes, BitAt;
    TurnBitsMoves(TurnBytes(v, k / 8), k % 8, z);
    TurnBytesMoves(v, k / 8, From(z, k % 8));
  }

  // ---------- The step mappings, bit by bit ----------

  /** The parity of five bits. */
  predicate Odd5(a: bool, b: bool, c: bool, d: bool, e: bool) {
    (((a != b) != c) != d) != e
  }

  lemma Xor3Bits(a: Lane, b: Lane, c: Lane, z: nat)
    ensures BitAt(Xor(Xor(a, b), c), z) <==> (BitAt(a, z) != BitAt(b, z)) != BitAt(c, z)
  {
    hide *;
    XorBits(Xor(a, b), c, z);
    XorBits(a, b, z);
  }

  lemma Xor5Nested(a: Lane, b: Lane, c: Lane, d: Lane, e: Lane)
    ensures Xor5(a, b, c, d, e) == Xor(Xor(Xor(Xor(a, b), c), d), e)
  {
    hide Xor;
  }

  lemma Xor5Bits(a: Lane, b: Lane, c: Lane, d: Lane, e: Lane, z: nat)
    ensures BitAt(Xor5(a, b, c, d, e), z) <==>
      Odd5(BitAt(a, z), BitAt(b, z), BitAt(c, z), BitAt(d, z), BitAt(e, z))
  {
    hide *;
    Xor5Nested(a, b, c, d, e);
    var p := Xor(Xor(a, b), c);
    Xor3Bits(a, b, c, z);
    Xor3Bits(p, d, e, z);
    Odd5Is(BitAt(a, z), BitAt(b, z), BitAt(c, z), BitAt(d, z), BitAt(e, z));
  }

  lemma Odd5Is(a: bool, b: bool, c: bool, d: bool, e: bool)
    ensures Odd5(a, b, c, d, e) == ((((a != b) != c) != d) != e)
  {
  }

  /** The parity of column (x, z). */
  ghost predicate ColumnBit(s: Lanes, x: Five, z: nat) {
    Odd5(BitAt(At(s, x, 0), z), BitAt(At(s, x, 1), z), BitAt(At(s, x, 2), z), BitAt(At(s, x, 3), z),
         BitAt(At(s, x, 4), z))
  }

  lemma ColumnBits(s: Lanes, x: Five, z: nat)
    ensures BitAt(Column(s, x), z) <==> ColumnBit(s, x, z)
  {
    hide BitAt, At, Xor5;
    Xor5Bits(At(s, x, 0), At(s, x, 1), At(s, x, 2), At(s, x, 3), At(s, x, 4), z);
  }

  function Mod64(n: int): nat {
    n % 64
  }

  lemma RotatedFrom(k: nat, z: nat)
    requires k < 64 && z < 64
    ensures Mod64(z - k) == From(z, k)
  {
  }

  lemma ThetaBits(s: Lanes, x: Five, y: Five, z: nat)
    requires z < 64
    ensures BitAt(At(Theta(s), x, y), z) <==>
      BitAt(At(s, x, y), z) != (ColumnBit(s, Mod5(x + 4), z) != ColumnBit(s, Mod5(x + 1), Mod64(z - 1)))
  {
    hide *;
    StepMappings(s, 0, x, y);
    var c, d := Column(s, Mod5(x + 4)), Column(s, Mod5(x + 1));
    XorBits(At(s, x, y), Xor(c, Rotl(d, 1)), z);
    XorBits(c, Rotl(d, 1), z);
    RotlBits(d, 1, z);
    RotatedFrom(1, z);
    ColumnBits(s, Mod5(x + 4), z);
    ColumnBits(s, Mod5(x + 1), Mod64(z - 1));
  }

  lemma RhoBits(s: Lanes, x: Five, y: Five, z: nat)
    requires z < 64
    ensures BitAt(At(Rho(s), x, y), z) <==> BitAt(At(s, x, y), Mod64(z - Offset(x, y)))
  {
    hide *;
    StepMappings(s, 0, x, y);
    RotlBits(At(s, x, y), Offset(x, y), z);
    RotatedFrom(Offset(x, y), z);
  }

  lemma PiBits(s: Lanes, x: Five, y: Five, z: nat)
    ensures BitAt(At(Pi(s), x, y), z) <==> BitAt(At(s, Mod5(x + 3 * y), x), z)
  {
    hide *;
    StepMappings(s, 0, x, y);
  }

  lemma ChiBits(s: Lanes, x: Five, y: Five, z: nat)
    ensures BitAt(At(Chi(s), x, y), z) <==>
      BitAt(At(s, x, y), z) != (!BitAt(At(s, Mod5(x + 1), y), z) && BitAt(At(s, Mod5(x + 2), y), z))
  {
    hide *;
    StepMappings(s, 0, x, y);
    ChooseBits(At(s, x, y), At(s, Mod5(x + 1), y), At(s, Mod5(x + 2), y), z);
  }

  lemma IotaBits(s: Lanes, rc: Lane, x: Five, y: Five, z: nat)
    ensures BitAt(At(Iota(s, rc), x, y), z) <==> BitAt(At(s, x, y), z) != (x == 0 && y == 0 && BitAt(rc, z))
  {
    hide *;
    StepMappings(s, rc, x, y);
    XorBits(At(s, x, y), rc, z);
  }
}
