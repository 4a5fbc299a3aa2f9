/** Simple Merkle trees over a hash function `H`: roots, pointer-built proofs and their verification. */
module Merkle {
  import opened Basics

  type Hash = seq<byte>

  // ---------- Framing ----------

  /** Base-128 digits, least significant first, with a continuation bit. */
  function Uvarint(n: nat): (s: seq<byte>)
    ensures |s| > 0
  {
    if n < 128 then [n] else [n % 128 + 128] + Uvarint(n / 128)
  }

  /** The number that seven-bit digits spell, the least significant first. */
  function Spelled(w: seq<byte>): nat {
    if w == [] then 0 else w[0] % 128 + 128 * Spelled(w[1..])
  }

  /** The digits spell the number, and the top bit of each tells whether another follows. */
  lemma {:induction false} UvarintSpells(n: nat)
    ensures Spelled(Uvarint(n)) == n
    ensures forall i :: 0 <= i < |Uvarint(n)| ==> (Uvarint(n)[i] >= 128 <==> i + 1 < |Uvarint(n)|)
  {
    if n < 128 {
      assert [n][1..] == [];
    } else {
      UvarintSpells(n / 128);
      assert Uvarint(n)[1..] == Uvarint(n / 128);
    }
  }

  function Frame(s: seq<byte>): seq<byte> {
    Uvarint(|s|) + s
  }

  lemma {:induction false} UvarintPrefixFree(m: nat, n: nat, x: seq<byte>, y: seq<byte>)
    requires Uvarint(m) + x == Uvarint(n) + y
    ensures m == n && x == y
  {
    UvarintStep(m, x);
    UvarintStep(n, y);
    if m >= 128 {
      hide Uvarint;
      UvarintPrefixFree(m / 128, n / 128, x, y);
    }
  }

  /** The first digit tells whether more follow. */
  lemma UvarintStep(n: nat, x: seq<byte>)
    ensures
      var w := Uvarint(n) + x;
      if n < 128 then w[0] == n && w[1..] == x
      else w[0] == n % 128 + 128 && w[1..] == Uvarint(n / 128) + x
  {
    if n < 128 {
      AfterFirst(n, [], x);
      assert [n] + [] == [n] && [] + x == x;
    } else {
      AfterFirst(n % 128 + 128, Uvarint(n / 128), x);
    }
  }

  lemma AfterFirst(d: byte, rest: seq<byte>, x: seq<byte>)
    ensures ([d] + rest + x)[0] == d && ([d] + rest + x)[1..] == rest + x
  {
  }

  lemma FrameInjective(s: seq<byte>, t: seq<byte>, x: seq<byte>, y: seq<byte>)
    requires Frame(s) + x == Frame(t) + y
    ensures s == t && x == y
  {
    assert Frame(s) + x == Uvarint(|s|) + (s + x);
    assert Frame(t) + y == Uvarint(|t|) + (t + y);
    UvarintPrefixFree(|s|, |t|, s + x, t + y);
    assert (s + x)[..|s|] == s && (t + y)[..|t|] == t;
    assert (s + x)[|s|..] == x && (t + y)[|t|..] == y;
  }

  /** What is hashed for an inner node; it determines both children. */
  function Pair(left: Hash, right: Hash): seq<byte> {
    Frame(left) + Frame(right)
  }

  lemma PairInjective(a: Hash, b: Hash, c: Hash, d: Hash)
    requires Pair(a, b) == Pair(c, d)
    ensures a == c && b == d
  {
    FrameInjective(a, c, Frame(b), Frame(d));
    assert Frame(b) + [] == Frame(b) && Frame(d) + [] == Frame(d);
    FrameInjective(b, d, [], []);
  }

  /** Writes the digits through a ten-byte buffer, which is always large enough. */
  method EncodeUvarint(written: seq<byte>, i: nat) returns (out: seq<byte>)
    requires i < TWO_64
    ensures out == written + Uvarint(i)
  {
    var buf := new byte[10];
    var x, n := i, 0;
    TenDigits(i);
    while x >= 128
      invariant 0 <= n < 10 && Room(x, 9 - n)
      invariant buf[..n] + Uvarint(x) == Uvarint(i)
      decreases x
    {
      RoomShrinks(x, 9 - n);
      ghost var done := buf[..n];
      buf[n] := x % 128 + 128;
      DigitOut(done, x);
      assert buf[..n + 1] == done + [buf[n]];
      x, n := x / 128, n + 1;
    }
    assert buf[..n] + Uvarint(x) == buf[..n] + [x];
    buf[n] := x;
    n := n + 1;
    out := written + buf[..n];
  }

  /** `x` has at most `k` more digits after the first. */
  predicate Room(x: nat, k: nat) {
    if k == 0 then x < 128 else x < 128 || Room(x / 128, k - 1)
  }

  lemma RoomShrinks(x: nat, k: nat)
    requires Room(x, k) && x >= 128
    ensures k > 0 && Room(x / 128, k - 1)
  {
  }

  function Pow128(k: nat): nat {
    if k == 0 then 1 else 128 * Pow128(k - 1)
  }

  lemma {:induction false} RoomBound(x: nat, k: nat)
    requires x < Pow128(k + 1)
    ensures Room(x, k)
  {
    if k > 0 {
      assert x / 128 < Pow128(k);
      RoomBound(x / 128, k - 1);
    } else {
      assert Pow128(1) == 128 * Pow128(0);
    }
  }

  lemma TenDigits(x: nat)
    requires x < TWO_64
    ensures Room(x, 9)
  {
    assert Pow128(4) == 0x1000_0000;
    assert Pow128(8) == 0x100_0000_0000_0000;
    assert Pow128(10) >= TWO_64;
    RoomBound(x, 9);
  }

  lemma DigitOut(done: seq<byte>, x: nat)
    requires x >= 128
    ensures done + Uvarint(x) == (done + [x % 128 + 128]) + Uvarint(x / 128)
  {
  }

  method EncodeByteSlice(written: seq<byte>, s: seq<byte>) returns (out: seq<byte>)
    requires |s| < TWO_64
    ensures out == written + Frame(s)
  {
    out := EncodeUvarint(written, |s|);
    out := out + s;
  }

  // ---------- Roots ----------

  function HashTwo(H: seq<byte> -> Hash, left: Hash, right: Hash): Hash {
    H(Pair(left, right))
  }

  method SimpleHashFromTwoHashes(H: seq<byte> -> Hash, left: Hash, right: Hash) returns (h: Hash)
    requires |left| < TWO_64 && |right| < TWO_64
    ensures h == HashTwo(H, left, right)
    ensures h == H(Uvarint(|left|) + left + Uvarint(|right|) + right)
  {
    var written := EncodeByteSlice([], left);
    written := EncodeByteSlice(written, right);
    assert written == Pair(left, right);
    assert written == Uvarint(|left|) + left + Uvarint(|right|) + right;
    h := H(written);
  }

  function Half(n: nat): (k: nat)
    requires n > 1
    ensures 0 < k < n
  {
    (n + 1) / 2
  }

  /** The root over the given leaf hashes. */
  function Root(H: seq<byte> -> Hash, hs: seq<Hash>): Hash
    requires hs != []
    decreases |hs|
  {
    if |hs| == 1 then hs[0]
    else HashTwo(H, Root(H, hs[..Half(|hs|)]), Root(H, hs[Half(|hs|)..]))
  }

  // ---------- Verification ----------

  function ComputeHashFromAunts(
    H: seq<byte> -> Hash, index: int, total: int, leaf: Option<Hash>, aunts: seq<Hash>): Option<Hash>
    decreases total
  {
    if index >= total || index < 0 || total <= 0 then None
    else if total == 1 then if |aunts| != 0 then None else leaf
    else if |aunts| == 0 then None
    else
      var last, inner := aunts[|aunts| - 1], aunts[..|aunts| - 1];
      var numLeft := (total + 1) / 2;
      if index < numLeft then
        match ComputeHashFromAunts(H, index, numLeft, leaf, inner)
        case None => None
        case Some(h) => Some(HashTwo(H, h, last))
      else
        match ComputeHashFromAunts(H, index - numLeft, total - numLeft, leaf, inner)
        case None => None
        case Some(h) => Some(HashTwo(H, last, h))
  }

  predicate Verify(
    H: seq<byte> -> Hash, aunts: seq<Hash>, index: int, total: int, leaf: Option<Hash>, root: Hash) {
    ComputeHashFromAunts(H, index, total, leaf, aunts) == Some(root)
  }

  /** The sibling hashes on the way from leaf `i` to the root. */
  function Aunts(H: seq<byte> -> Hash, hs: seq<Hash>, i: nat): seq<Hash>
    requires i < |hs|
    decreases |hs|
  {
    if |hs| == 1 then []
    else
      var k := Half(|hs|);
      if i < k then Aunts(H, hs[..k], i) + [Root(H, hs[k..])]
      else Aunts(H, hs[k..], i - k) + [Root(H, hs[..k])]
  }

  /** The inputs hashed for the inner nodes of the tree. */
  ghost function TreeInputs(H: seq<byte> -> Hash, hs: seq<Hash>): set<seq<byte>>
    requires hs != []
    decreases |hs|
  {
    if |hs| == 1 then {}
    else
      var l, r := hs[..Half(|hs|)], hs[Half(|hs|)..];
      {Pair(Root(H, l), Root(H, r))} + TreeInputs(H, l) + TreeInputs(H, r)
  }

  /** The inputs hashed while a proof is checked. */
  ghost function ProofInputs(H: seq<byte> -> Hash, index: int, total: int, leaf: Hash, aunts: seq<Hash>)
    : set<seq<byte>>
    requires ComputeHashFromAunts(H, index, total, Some(leaf), aunts).Some?
    decreases total
  {
    if total == 1 then {}
    else
      var last, inner := aunts[|aunts| - 1], aunts[..|aunts| - 1];
      var numLeft := (total + 1) / 2;
      if index < numLeft then
        {Pair(ComputeHashFromAunts(H, index, numLeft, Some(leaf), inner).value, last)} +
        ProofInputs(H, index, numLeft, leaf, inner)
      else
        {Pair(last, ComputeHashFromAunts(H, index - numLeft, total - numLeft, Some(leaf), inner).value)} +
        ProofInputs(H, index - numLeft, total - numLeft, leaf, inner)
  }

  /** Two different inputs, one from each set, with the same hash. */
  ghost predicate Collide(H: seq<byte> -> Hash, xs: set<seq<byte>>, ys: set<seq<byte>>) {
    exists x, y :: x in xs && y in ys && x != y && H(x) == H(y)
  }

  lemma ProofStep(H: seq<byte> -> Hash, index: int, total: int, leaf: Hash, aunts: seq<Hash>)
    requires total > 1 && ComputeHashFromAunts(H, index, total, Some(leaf), aunts).Some?
    ensures 0 <= index < total && aunts != []
    ensures
      var last, inner := aunts[|aunts| - 1], aunts[..|aunts| - 1];
      var numLeft := (total + 1) / 2;
      var left := index < numLeft;
      var i, n := if left then index else index - numLeft, if left then numLeft else total - numLeft;
      var below := ComputeHashFromAunts(H, i, n, Some(leaf), inner);
      && below.Some?
      && var x := if left then Pair(below.value, last) else Pair(last, below.value);
         && ComputeHashFromAunts(H, index, total, Some(leaf), aunts) == Some(H(x))
         && ProofInputs(H, index, total, leaf, aunts) == {x} + ProofInputs(H, i, n, leaf, inner)
  {
    hide Pair;
  }

  lemma TreeStep(H: seq<byte> -> Hash, hs: seq<Hash>)
    requires |hs| > 1
    ensures
      var l, r := hs[..Half(|hs|)], hs[Half(|hs|)..];
      var y := Pair(Root(H, l), Root(H, r));
      && Root(H, hs) == H(y)
      && TreeInputs(H, hs) == {y} + TreeInputs(H, l) + TreeInputs(H, r)
  {
    hide Pair;
  }

  lemma AuntsStep(H: seq<byte> -> Hash, hs: seq<Hash>, i: nat, inner: seq<Hash>, last: Hash)
    requires |hs| > 1 && i < |hs|
    requires
      var k := Half(|hs|);
      if i < k then inner == Aunts(H, hs[..k], i) && last == Root(H, hs[k..])
      else inner == Aunts(H, hs[k..], i - k) && last == Root(H, hs[..k])
    ensures inner + [last] == Aunts(H, hs, i)
  {
  }

  // A proof names the number of leaves itself, so the check may go down a tree of another shape.

  /** Which half the check goes into; the four functions after it give that half of the tree, index and total. */
  function GoesLeft(index: nat, total: nat): bool
    requires index < total && total > 1
  {
    index < Half(total)
  }

  function PartOf(hs: seq<Hash>, index: nat, total: nat): (part: seq<Hash>)
    requires |hs| > 1 && index < total && total > 1
    ensures 0 < |part| < |hs|
  {
    if GoesLeft(index, total) then hs[..Half(|hs|)] else hs[Half(|hs|)..]
  }

  function OtherPart(hs: seq<Hash>, index: nat, total: nat): (part: seq<Hash>)
    requires |hs| > 1 && index < total && total > 1
    ensures 0 < |part| < |hs|
  {
    if GoesLeft(index, total) then hs[Half(|hs|)..] else hs[..Half(|hs|)]
  }

  function IndexIn(index: nat, total: nat): (i: nat)
    requires index < total && total > 1
    ensures i < TotalIn(index, total)
  {
    if GoesLeft(index, total) then index else index - Half(total)
  }

  function TotalIn(index: nat, total: nat): (n: nat)
    requires index < total && total > 1
    ensures 0 < n < total
  {
    if GoesLeft(index, total) then Half(total) else total - Half(total)
  }

  /** The subtree at which the check arrives: when its total is used up, or at a leaf. */
  function Reached(hs: seq<Hash>, index: nat, total: nat): (part: seq<Hash>)
    requires hs != [] && index < total
    ensures part != []
    decreases total
  {
    if total == 1 || |hs| == 1 then hs
    else Reached(PartOf(hs, index, total), IndexIn(index, total), TotalIn(index, total))
  }

  /** The check goes on below a leaf. */
  predicate Deeper(hs: seq<Hash>, index: nat, total: nat)
    requires hs != [] && index < total
    decreases total
  {
    total > 1 && (|hs| == 1 || Deeper(PartOf(hs, index, total), IndexIn(index, total), TotalIn(index, total)))
  }

  /** The sibling hashes from the subtree reached up to the root. */
  function SideHashes(H: seq<byte> -> Hash, hs: seq<Hash>, index: nat, total: nat): seq<Hash>
    requires hs != [] && index < total
    decreases total
  {
    if total == 1 || |hs| == 1 then []
    else SideHashes(H, PartOf(hs, index, total), IndexIn(index, total), TotalIn(index, total)) +
         [Root(H, OtherPart(hs, index, total))]
  }

  /** What an accepted proof shows, whatever total it names. */
  ghost predicate Shows(H: seq<byte> -> Hash, hs: seq<Hash>, index: nat, total: nat, leaf: Hash, aunts: seq<Hash>,
                        xs: set<seq<byte>>)
    requires hs != [] && index < total
  {
    if Deeper(hs, index, total) then exists x :: x in xs && H(x) == Root(H, Reached(hs, index, total))
    else leaf == Root(H, Reached(hs, index, total)) && aunts == SideHashes(H, hs, index, total)
  }

  lemma ShowsStep(H: seq<byte> -> Hash, hs: seq<Hash>, index: nat, total: nat, leaf: Hash, inner: seq<Hash>, last: Hash,
                  xs: set<seq<byte>>, xs': set<seq<byte>>)
    requires |hs| > 1 && index < total && total > 1 && last == Root(H, OtherPart(hs, index, total)) && xs <= xs'
    requires Shows(H, PartOf(hs, index, total), IndexIn(index, total), TotalIn(index, total), leaf, inner, xs)
    ensures Shows(H, hs, index, total, leaf, inner + [last], xs')
  {
    hide Root, PartOf, OtherPart, IndexIn, TotalIn;
  }

  lemma ShowsEnd(H: seq<byte> -> Hash, hs: seq<Hash>, index: nat, total: nat, leaf: Hash, aunts: seq<Hash>)
    requires hs != [] && index < total && (total == 1 || |hs| == 1)
    requires Verify(H, aunts, index, total, Some(leaf), Root(H, hs))
    ensures Shows(H, hs, index, total, leaf, aunts, ProofInputs(H, index, total, leaf, aunts))
  {
    if total > 1 {
      ProofStep(H, index, total, leaf, aunts);
    }
  }

  /**
   * An accepted proof against the root of a tree, unless an input hashed by the check collides with one hashed
   * for the tree: its leaf is the root of the subtree reached and its hashes are the siblings above; or it goes
   * on below a leaf of the tree, and that leaf is the hash of an input of the check.
   */
  lemma {:induction false} AcceptedShows(
    H: seq<byte> -> Hash, hs: seq<Hash>, index: nat, total: nat, leaf: Hash, aunts: seq<Hash>)
    requires hs != [] && index < total && Verify(H, aunts, index, total, Some(leaf), Root(H, hs))
    ensures Shows(H, hs, index, total, leaf, aunts, ProofInputs(H, index, total, leaf, aunts)) ||
            Collide(H, ProofInputs(H, index, total, leaf, aunts), TreeInputs(H, hs))
    decreases total
  {
    if total == 1 || |hs| == 1 {
      ShowsEnd(H, hs, index, total, leaf, aunts);
    } else {
      hide Pair, Collide, ProofInputs, TreeInputs, Root, Shows, ComputeHashFromAunts;
      var last, inner := aunts[|aunts| - 1], aunts[..|aunts| - 1];
      var part, i, n := PartOf(hs, index, total), IndexIn(index, total), TotalIn(index, total);
      var xs, ys := ProofInputs(H, index, total, leaf, aunts), TreeInputs(H, hs);
      ProofGoesDown(H, hs, index, total, leaf, aunts);
      assert aunts == inner + [last];
      if !Collide(H, xs, ys) {
        AcceptedShows(H, part, i, n, leaf, inner);
        CollideMore(H, ProofInputs(H, i, n, leaf, inner), TreeInputs(H, part), xs, ys);
        ShowsStep(H, hs, index, total, leaf, inner, last, ProofInputs(H, i, n, leaf, inner), xs);
      }
    }
  }

  /** Without a collision the step of the check is the step of the tree. */
  lemma ProofGoesDown(H: seq<byte> -> Hash, hs: seq<Hash>, index: nat, total: nat, leaf: Hash, aunts: seq<Hash>)
    requires |hs| > 1 && index < total && total > 1 && Verify(H, aunts, index, total, Some(leaf), Root(H, hs))
    ensures aunts != []
    ensures
      var last, inner := aunts[|aunts| - 1], aunts[..|aunts| - 1];
      var part, i, n := PartOf(hs, index, total), IndexIn(index, total), TotalIn(index, total);
      var xs, ys := ProofInputs(H, index, total, leaf, aunts), TreeInputs(H, hs);
      && ComputeHashFromAunts(H, i, n, Some(leaf), inner).Some?
      && ProofInputs(H, i, n, leaf, inner) <= xs && TreeInputs(H, part) <= ys
      && (Collide(H, xs, ys) ||
          (Verify(H, inner, i, n, Some(leaf), Root(H, part)) && last == Root(H, OtherPart(hs, index, total))))
  {
    hide Pair, Collide, ComputeHashFromAunts, ProofInputs, TreeInputs, Root;
    ProofStep(H, index, total, leaf, aunts);
    TreeStep(H, hs);
    var last, inner := aunts[|aunts| - 1], aunts[..|aunts| - 1];
    var l, r := Root(H, hs[..Half(|hs|)]), Root(H, hs[Half(|hs|)..]);
    var h := ComputeHashFromAunts(H, IndexIn(index, total), TotalIn(index, total), Some(leaf), inner).value;
    var x, y := if GoesLeft(index, total) then Pair(h, last) else Pair(last, h), Pair(l, r);
    if x != y {
      Collision(H, x, y, ProofInputs(H, index, total, leaf, aunts), TreeInputs(H, hs));
    } else if GoesLeft(index, total) {
      PairInjective(h, last, l, r);
    } else {
      PairInjective(last, h, l, r);
    }
  }

  /** Conversely the root of the subtree reached can always be passed off as the leaf of such a proof. */
  lemma {:induction false} SubtreeVerifies(H: seq<byte> -> Hash, hs: seq<Hash>, index: nat, total: nat)
    requires hs != [] && index < total && !Deeper(hs, index, total)
    ensures Verify(H, SideHashes(H, hs, index, total), index, total, Some(Root(H, Reached(hs, index, total))),
                   Root(H, hs))
    decreases total
  {
    if total > 1 {
      hide Root, Reached, ComputeHashFromAunts, Deeper, HashTwo;
      StillAbove(H, hs, index, total);
      var part, i, n := PartOf(hs, index, total), IndexIn(index, total), TotalIn(index, total);
      SubtreeVerifies(H, part, i, n);
      var inner, last := SideHashes(H, part, i, n), Root(H, OtherPart(hs, index, total));
      var aunts := inner + [last];
      assert aunts[..|aunts| - 1] == inner;
      ClimbsTo(H, index, total, Root(H, Reached(hs, index, total)), aunts, Root(H, part));
      RootOfParts(H, hs, index, total);
    }
  }

  lemma StillAbove(H: seq<byte> -> Hash, hs: seq<Hash>, index: nat, total: nat)
    requires hs != [] && index < total && !Deeper(hs, index, total) && total > 1
    ensures |hs| > 1 && !Deeper(PartOf(hs, index, total), IndexIn(index, total), TotalIn(index, total))
    ensures Reached(hs, index, total) == Reached(PartOf(hs, index, total), IndexIn(index, total), TotalIn(index, total))
    ensures SideHashes(H, hs, index, total) ==
            SideHashes(H, PartOf(hs, index, total), IndexIn(index, total), TotalIn(index, total)) +
            [Root(H, OtherPart(hs, index, total))]
  {
    hide PartOf, OtherPart, IndexIn, TotalIn, Root;
  }

  lemma ClimbsTo(H: seq<byte> -> Hash, index: nat, total: nat, leaf: Hash, aunts: seq<Hash>, h: Hash)
    requires index < total && total > 1 && aunts != []
    requires Verify(H, aunts[..|aunts| - 1], IndexIn(index, total), TotalIn(index, total), Some(leaf), h)
    ensures
      var last := aunts[|aunts| - 1];
      Verify(H, aunts, index, total, Some(leaf),
             if GoesLeft(index, total) then HashTwo(H, h, last) else HashTwo(H, last, h))
  {
    hide HashTwo;
  }

  lemma RootOfParts(H: seq<byte> -> Hash, hs: seq<Hash>, index: nat, total: nat)
    requires |hs| > 1 && index < total && total > 1
    ensures
      var p, q := Root(H, PartOf(hs, index, total)), Root(H, OtherPart(hs, index, total));
      Root(H, hs) == if GoesLeft(index, total) then HashTwo(H, p, q) else HashTwo(H, q, p)
  {
    hide HashTwo;
  }

  /** With the tree's own number of leaves exactly the leaf is reached. */
  lemma {:induction false} OwnTotal(H: seq<byte> -> Hash, hs: seq<Hash>, i: nat)
    requires i < |hs|
    ensures !Deeper(hs, i, |hs|) && Reached(hs, i, |hs|) == [hs[i]] && SideHashes(H, hs, i, |hs|) == Aunts(H, hs, i)
    decreases |hs|
  {
    hide Root;
    if |hs| > 1 {
      OwnTotal(H, PartOf(hs, i, |hs|), IndexIn(i, |hs|));
    }
  }

  /** Every leaf's own proof verifies. */
  lemma OwnProofVerifies(H: seq<byte> -> Hash, hs: seq<Hash>, i: nat)
    requires i < |hs|
    ensures Verify(H, Aunts(H, hs, i), i, |hs|, Some(hs[i]), Root(H, hs))
  {
    hide Verify, Deeper, Reached, SideHashes, Aunts;
    OwnTotal(H, hs, i);
    SubtreeVerifies(H, hs, i, |hs|);
  }

  /**
   * An accepted proof that names the tree's own number of leaves is the leaf's own: anything else that verifies
   * against the root makes an input hashed by the check collide with an input hashed for the tree.
   */
  lemma AcceptedOrCollision(H: seq<byte> -> Hash, hs: seq<Hash>, i: nat, leaf: Hash, aunts: seq<Hash>)
    requires i < |hs| && Verify(H, aunts, i, |hs|, Some(leaf), Root(H, hs))
    ensures (leaf == hs[i] && aunts == Aunts(H, hs, i)) ||
            Collide(H, ProofInputs(H, i, |hs|, leaf, aunts), TreeInputs(H, hs))
  {
    hide ComputeHashFromAunts, Deeper, Reached, SideHashes, Aunts, Collide, ProofInputs, TreeInputs;
    OwnTotal(H, hs, i);
    AcceptedShows(H, hs, i, |hs|, leaf, aunts);
  }

  lemma Collision(
    H: seq<byte> -> Hash, x: seq<byte>, y: seq<byte>, xs: set<seq<byte>>, ys: set<seq<byte>>)
    requires x in xs && y in ys && x != y && H(x) == H(y)
    ensures Collide(H, xs, ys)
  {
  }

  lemma CollideMore(
    H: seq<byte> -> Hash, xs: set<seq<byte>>, ys: set<seq<byte>>, xs': set<seq<byte>>, ys': set<seq<byte>>)
    requires xs <= xs' && ys <= ys'
    ensures Collide(H, xs, ys) ==> Collide(H, xs', ys')
  {
    if Collide(H, xs, ys) {
      var x, y :| x in xs && y in ys && x != y && H(x) == H(y);
      Collision(H, x, y, xs', ys');
    }
  }

  /** Nothing is accepted at an index outside the leaves, or with a missing leaf. */
  lemma {:induction false} RejectsNonsense(
    H: seq<byte> -> Hash, index: int, total: int, leaf: Option<Hash>, aunts: seq<Hash>, root: Hash)
    requires Verify(H, aunts, index, total, leaf, root)
    ensures 0 <= index < total && leaf.Some?
    decreases total
  {
    if total > 1 {
      var numLeft := (total + 1) / 2;
      var inner := aunts[..|aunts| - 1];
      if index < numLeft {
        var h := ComputeHashFromAunts(H, index, numLeft, leaf, inner).value;
        RejectsNonsense(H, index, numLeft, leaf, inner, h);
      } else {
        var h := ComputeHashFromAunts(H, index - numLeft, total - numLeft, leaf, inner).value;
        RejectsNonsense(H, index - numLeft, total - numLeft, leaf, inner, h);
      }
    }
  }

  // ---------- Proof trails ----------

  class ProofNode {
    const hash: Hash
    var parent: ProofNode?
    var left: ProofNode?
    var right: ProofNode?

    constructor (h: Hash)
      ensures hash == h && parent == null && left == null && right == null
    {
      hash, parent, left, right := h, null, null, null;
    }
  }

  ghost predicate IsRoot(n: ProofNode)
    reads n
  {
    n.parent == null && n.left == null && n.right == null
  }

  /** `p` is the parent of `n`, whose sibling has hash `h`. */
  ghost predicate Link(n: ProofNode, p: ProofNode, h: Hash)
    reads n
  {
    && n.parent == p
    && if n.left != null then n.left.hash == h else n.right != null && n.right.hash == h
  }

  /** `path` climbs to the root, past siblings with the given hashes. */
  ghost predicate Leads(path: seq<ProofNode>, aunts: seq<Hash>)
    reads path
  {
    && |path| == |aunts| + 1
    && (forall j :: 0 <= j < |aunts| ==> Link(path[j], path[j + 1], aunts[j]))
    && IsRoot(path[|aunts|])
  }

  method FlattenAunts(node: ProofNode, ghost path: seq<ProofNode>, ghost aunts: seq<Hash>)
    returns (inner: seq<Hash>)
    requires Leads(path, aunts) && path[0] == node
    ensures inner == aunts
  {
    inner := [];
    var n: ProofNode? := node;
    while n != null
      invariant |inner| <= |aunts| && inner == aunts[..|inner|] && n == path[|inner|]
      decreases |aunts| - |inner|
    {
      ghost var m := |inner|;
      assert m < |aunts| ==> Link(path[m], path[m + 1], aunts[m]) && aunts[..m + 1] == aunts[..m] + [aunts[m]];
      if n.left != null {
        inner := inner + [n.left.hash];
      } else if n.right != null {
        inner := inner + [n.right.hash];
      } else {
        break;
      }
      n := n.parent;
    }
  }

  /** Every leaf's path climbs to `root`, through nodes of `nodes`. */
  ghost predicate Trails(H: seq<byte> -> Hash, hs: seq<Hash>, root: ProofNode, paths: seq<seq<ProofNode>>,
                         nodes: set<ProofNode>)
    reads nodes
  {
    && |hs| == |paths| > 0 && root.hash == Root(H, hs) && root in nodes
    && forall i :: 0 <= i < |hs| ==> Trail(paths[i], Aunts(H, hs, i), root, nodes)
  }

  ghost predicate Trail(path: seq<ProofNode>, aunts: seq<Hash>, root: ProofNode, nodes: set<ProofNode>)
    reads nodes
  {
    && (forall n :: n in path ==> n in nodes)
    && Leads(path, aunts) && path[|aunts|] == root
  }

  /** Hashes are far shorter than the lengths the framing can express. */
  ghost predicate Short(H: seq<byte> -> Hash, hs: seq<Hash>) {
    (forall x :: |H(x)| < TWO_64) && forall h :: h in hs ==> |h| < TWO_64
  }

  lemma SizesKept(H: seq<byte> -> Hash, hs: seq<Hash>)
    requires hs != [] && Short(H, hs)
    ensures |Root(H, hs)| < TWO_64
  {
  }

  ghost predicate Starts(paths: seq<seq<ProofNode>>, trails: seq<ProofNode>) {
    |paths| == |trails| && forall i :: 0 <= i < |paths| ==> |paths[i]| > 0 && paths[i][0] == trails[i]
  }

  /** The trails up to, but not including, the links of `root` itself. */
  ghost predicate Hanging(H: seq<byte> -> Hash, hs: seq<Hash>, root: ProofNode, paths: seq<seq<ProofNode>>,
                          nodes: set<ProofNode>)
    reads nodes - {root}
  {
    && |hs| == |paths| > 0 && root in nodes
    && forall i :: 0 <= i < |hs| ==> HangsAt(paths[i], Aunts(H, hs, i), root, nodes)
  }

  ghost predicate HangsAt(path: seq<ProofNode>, aunts: seq<Hash>, root: ProofNode, nodes: set<ProofNode>)
    reads nodes - {root}
  {
    && |path| == |aunts| + 1 && path[|aunts|] == root
    && forall j :: 0 <= j < |aunts| ==> path[j] in nodes - {root} && Link(path[j], path[j + 1], aunts[j])
  }

  lemma TrailsHang(H: seq<byte> -> Hash, hs: seq<Hash>, root: ProofNode, paths: seq<seq<ProofNode>>,
                   nodes: set<ProofNode>)
    requires Trails(H, hs, root, paths, nodes)
    ensures IsRoot(root) && Hanging(H, hs, root, paths, nodes)
  {
    forall i | 0 <= i < |hs|
      ensures HangsAt(paths[i], Aunts(H, hs, i), root, nodes)
    {
      assert Trail(paths[i], Aunts(H, hs, i), root, nodes);
      RootAtEnd(paths[i], Aunts(H, hs, i));
    }
    assert Trail(paths[0], Aunts(H, hs, 0), root, nodes);
  }

  /** A root is met only at the end of a path. */
  lemma RootAtEnd(path: seq<ProofNode>, aunts: seq<Hash>)
    requires Leads(path, aunts)
    ensures forall j :: 0 <= j < |aunts| ==> path[j] != path[|aunts|]
  {
    forall j | 0 <= j < |aunts|
      ensures path[j] != path[|aunts|]
    {
      assert Link(path[j], path[j + 1], aunts[j]);
    }
  }

  /** The path goes on to the parent that its end has been given. */
  lemma HangingClimbs(path: seq<ProofNode>, aunts: seq<Hash>, top: ProofNode, nodes: set<ProofNode>,
                      root: ProofNode, h: Hash, all: set<ProofNode>)
    requires HangsAt(path, aunts, top, nodes) && top in nodes && Link(top, root, h) && IsRoot(root)
    requires nodes <= all && root in all
    ensures Trail(path + [root], aunts + [h], root, all)
  {
    var k := |aunts|;
    forall j | 0 <= j < k + 1
      ensures Link((path + [root])[j], (path + [root])[j + 1], (aunts + [h])[j])
    {
      if j < k {
        assert Link(path[j], path[j + 1], aunts[j]);
      }
    }
  }

  ghost function JoinPaths(lp: seq<seq<ProofNode>>, rp: seq<seq<ProofNode>>, root: ProofNode): seq<seq<ProofNode>> {
    seq(|lp| + |rp|, i requires 0 <= i < |lp| + |rp| => (if i < |lp| then lp[i] else rp[i - |lp|]) + [root])
  }

  /** Once both halves hang below the new root, all trails lead there. */
  lemma TrailsJoined(H: seq<byte> -> Hash, hs: seq<Hash>, l: ProofNode, r: ProofNode, root: ProofNode,
                     lp: seq<seq<ProofNode>>, rp: seq<seq<ProofNode>>, ln: set<ProofNode>, rn: set<ProofNode>)
    requires |hs| > 1 && root.hash == Root(H, hs) && IsRoot(root)
    requires Hanging(H, hs[..Half(|hs|)], l, lp, ln) && Hanging(H, hs[Half(|hs|)..], r, rp, rn)
    requires l.hash == Root(H, hs[..Half(|hs|)]) && r.hash == Root(H, hs[Half(|hs|)..])
    requires Link(l, root, r.hash) && Link(r, root, l.hash)
    ensures Trails(H, hs, root, JoinPaths(lp, rp, root), ln + rn + {root})
  {
    hide Root, Aunts;
    var k, nodes, paths := Half(|hs|), ln + rn + {root}, JoinPaths(lp, rp, root);
    forall i | 0 <= i < |hs|
      ensures Trail(paths[i], Aunts(H, hs, i), root, nodes)
    {
      if i < k {
        HangingClimbs(lp[i], Aunts(H, hs[..k], i), l, ln, root, r.hash, nodes);
        AuntsStep(H, hs, i, Aunts(H, hs[..k], i), r.hash);
      } else {
        HangingClimbs(rp[i - k], Aunts(H, hs[k..], i - k), r, rn, root, l.hash, nodes);
        AuntsStep(H, hs, i, Aunts(H, hs[k..], i - k), l.hash);
      }
    }
  }

  /** Links the roots of the two halves below a new root. */
  method JoinRoots(H: seq<byte> -> Hash, hs: seq<Hash>, leftRoot: ProofNode, rightRoot: ProofNode,
                   ghost lp: seq<seq<ProofNode>>, ghost rp: seq<seq<ProofNode>>,
                   ghost ln: set<ProofNode>, ghost rn: set<ProofNode>)
    returns (root: ProofNode, ghost paths: seq<seq<ProofNode>>)
    requires |hs| > 1 && Short(H, hs) && ln !! rn
    requires Trails(H, hs[..Half(|hs|)], leftRoot, lp, ln) && Trails(H, hs[Half(|hs|)..], rightRoot, rp, rn)
    modifies leftRoot, rightRoot
    ensures fresh(root) && paths == JoinPaths(lp, rp, root) && Trails(H, hs, root, paths, ln + rn + {root})
  {
    var k := Half(|hs|);
    SizesKept(H, hs[..k]);
    SizesKept(H, hs[k..]);
    var h := SimpleHashFromTwoHashes(H, leftRoot.hash, rightRoot.hash);
    root := new ProofNode(h);
    TrailsHang(H, hs[..k], leftRoot, lp, ln);
    TrailsHang(H, hs[k..], rightRoot, rp, rn);
    hide Hanging, Trails, Aunts, Leads;
    leftRoot.parent := root;
    leftRoot.right := rightRoot;
    rightRoot.parent := root;
    rightRoot.left := leftRoot;
    paths := JoinPaths(lp, rp, root);
    TrailsJoined(H, hs, leftRoot, rightRoot, root, lp, rp, ln, rn);
  }

  /** Builds the nodes of the tree bottom up; `trails[i]` is where the path of leaf `i` starts. */
  method TrailsFromHashers(H: seq<byte> -> Hash, hs: seq<Hash>)
    returns (trails: seq<ProofNode>, root: ProofNode?, ghost paths: seq<seq<ProofNode>>,
             ghost nodes: set<ProofNode>)
    requires Short(H, hs)
    ensures hs == [] ==> trails == [] && root == null
    ensures hs != [] ==> root != null && root in nodes && Trails(H, hs, root, paths, nodes) && Starts(paths, trails)
    ensures fresh(nodes)
    decreases |hs|
  {
    hide Hanging, Trails, Leads, Link, Starts, JoinPaths;
    if |hs| == 0 {
      trails, root, paths, nodes := [], null, [], {};
    } else if |hs| == 1 {
      root := new ProofNode(hs[0]);
      trails, paths, nodes := [root], [[root]], {root};
      LoneTrail(H, hs, root);
    } else {
      var k := Half(|hs|);
      var lefts, leftRoot, lp, ln := TrailsFromHashers(H, hs[..k]);
      var rights, rightRoot, rp, rn := TrailsFromHashers(H, hs[k..]);
      root, paths := JoinRoots(H, hs, leftRoot, rightRoot, lp, rp, ln, rn);
      trails, nodes := lefts + rights, ln + rn + {root};
      StartsJoined(lp, lefts, rp, rights, root);
    }
  }

  lemma StartsJoined(lp: seq<seq<ProofNode>>, lefts: seq<ProofNode>, rp: seq<seq<ProofNode>>,
                     rights: seq<ProofNode>, root: ProofNode)
    requires Starts(lp, lefts) && Starts(rp, rights)
    ensures Starts(JoinPaths(lp, rp, root), lefts + rights)
  {
  }

  lemma LoneTrail(H: seq<byte> -> Hash, hs: seq<Hash>, root: ProofNode)
    requires |hs| == 1 && root.hash == hs[0] && IsRoot(root)
    ensures Trails(H, hs, root, [[root]], {root}) && Starts([[root]], [root])
  {
    assert Trail([root], Aunts(H, hs, 0), root, {root});
  }

  /** The root, and for every leaf a proof that verifies against it. */
  method SimpleProofsFromHashers(H: seq<byte> -> Hash, hs: seq<Hash>)
    returns (root: Hash, proofs: seq<seq<Hash>>)
    requires hs != [] && Short(H, hs)
    ensures root == Root(H, hs) && |proofs| == |hs|
    ensures forall i :: 0 <= i < |hs| ==>
      proofs[i] == Aunts(H, hs, i) && Verify(H, proofs[i], i, |hs|, Some(hs[i]), root)
  {
    hide Root, Aunts, Verify, Leads;
    var trails, node, paths, nodes := TrailsFromHashers(H, hs);
    root, proofs := node.hash, [];
    for i := 0 to |trails|
      invariant |proofs| == i && Trails(H, hs, node, paths, nodes)
      invariant forall j :: 0 <= j < i ==>
        proofs[j] == Aunts(H, hs, j) && Verify(H, proofs[j], j, |hs|, Some(hs[j]), root)
    {
      assert Trail(paths[i], Aunts(H, hs, i), node, nodes);
      var inner := FlattenAunts(trails[i], paths[i], Aunts(H, hs, i));
      OwnProofVerifies(H, hs, i);
      proofs := proofs + [inner];
    }
  }

  /** The root over byte strings: each is hashed to a leaf. */
  method SimpleHashFromByteslices(H: seq<byte> -> Hash, items: seq<seq<byte>>) returns (root: Option<Hash>)
    requires forall x :: |H(x)| < TWO_64
    ensures items == [] ==> root == None
    ensures items != [] ==> root == Some(Root(H, seq(|items|, i requires 0 <= i < |items| => H(items[i]))))
  {
    var hashes: seq<Hash> := [];
    for i := 0 to |items|
      invariant |hashes| == i && forall j :: 0 <= j < i ==> hashes[j] == H(items[j])
    {
      hashes := hashes + [H(items[i])];
    }
    assert hashes == seq(|items|, i requires 0 <= i < |items| => H(items[i]));
    root := if hashes == [] then None else Some(Root(H, hashes));
  }
}
