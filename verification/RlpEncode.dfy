/** The encoder: string data and list headers are gathered apart and spliced at the end. */
module RlpEncode {
  import opened Basics
  import opened RlpFormat

  // ---------- Integers in a byte array ----------

  /** The byte of weight 256^k. */
  function Octet(i: nat, k: nat): byte {
    (i / Pow256(k)) % 256
  }

  lemma OctetShift(i: nat, k: nat)
    ensures Octet(i, k + 1) == Octet(i / 256, k)
  {
    var p := Pow256(k);
    var q, r := i / 256, i % 256;
    var x, y := q / p, q % p;
    assert i == 256 * p * x + (256 * y + r) by {
      assert 256 * q == 256 * (p * x) + 256 * y;
    }
    assert 0 <= 256 * y + r < 256 * p;
    Quotient(i, 256 * p, x, 256 * y + r);
  }

  lemma Quotient(i: nat, d: nat, x: nat, r: nat)
    requires d > 0 && i == d * x + r && r < d
    ensures i / d == x
  {
    var q := i / d;
    assert i == d * q + i % d;
    assert q < x ==> d * (q + 1) <= d * x;
    assert x < q ==> d * (x + 1) <= d * q;
  }

  lemma {:induction false} OctetsOfBigEndian(i: nat, j: nat)
    requires j < |BigEndian(i)|
    ensures BigEndian(i)[j] == Octet(i, |BigEndian(i)| - 1 - j)
  {
    if i >= 256 && j < |BigEndian(i)| - 1 {
      OctetsOfBigEndian(i / 256, j);
      OctetShift(i, |BigEndian(i / 256)| - 1 - j);
    }
  }

  lemma OctetsAre(i: nat, s: seq<byte>)
    requires |s| > 0 && i < Pow256(|s|)
    requires |s| > 1 ==> i >= Pow256(|s| - 1)
    requires forall j :: 0 <= j < |s| ==> s[j] == Octet(i, |s| - 1 - j)
    ensures s == BigEndian(i)
  {
    hide BigEndian, Octet, Pow256;
    BigEndianSize(i, |s|);
    if |s| > 1 {
      BigEndianSize(i, |s| - 1);
    }
    forall j | 0 <= j < |s|
      ensures s[j] == BigEndian(i)[j]
    {
      OctetsOfBigEndian(i, j);
    }
  }

  /** `s` stands at `off`, everything else in the array is as it was. */
  ghost predicate Stored(now: seq<byte>, was: seq<byte>, off: nat, s: seq<byte>) {
    off + |s| <= |was| && now == was[..off] + s + was[off + |s|..]
  }

  method Copy(b: array<byte>, off: nat, s: seq<byte>)
    requires off + |s| <= b.Length
    modifies b
    ensures Stored(b[..], old(b[..]), off, s)
  {
    forall j | 0 <= j < |s| {
      b[off + j] := s[j];
    }
  }

  lemma Powers()
    ensures Pow256(0) == 1 && Pow256(1) == 0x100 && Pow256(2) == 0x1_0000 && Pow256(3) == 0x100_0000
    ensures Pow256(4) == 0x1_0000_0000 && Pow256(5) == 0x100_0000_0000 && Pow256(6) == 0x1_0000_0000_0000
    ensures Pow256(7) == 0x100_0000_0000_0000 && Pow256(8) == TWO_64
  {
    assert Pow256(2) == 256 * Pow256(1);
    assert Pow256(4) == 256 * Pow256(3);
    assert Pow256(6) == 256 * Pow256(5);
  }

  /** The bytes putint writes, case by case. */
  function IntBytes(i: nat): (s: seq<byte>)
    requires i < TWO_64
  {
    if i < 0x100 then [Octet(i, 0)]
    else if i < 0x1_0000 then [Octet(i, 1), Octet(i, 0)]
    else if i < 0x100_0000 then [Octet(i, 2), Octet(i, 1), Octet(i, 0)]
    else if i < 0x1_0000_0000 then [Octet(i, 3), Octet(i, 2), Octet(i, 1), Octet(i, 0)]
    else if i < 0x100_0000_0000 then [Octet(i, 4), Octet(i, 3), Octet(i, 2), Octet(i, 1), Octet(i, 0)]
    else if i < 0x1_0000_0000_0000 then
      [Octet(i, 5), Octet(i, 4), Octet(i, 3), Octet(i, 2), Octet(i, 1), Octet(i, 0)]
    else if i < 0x100_0000_0000_0000 then
      [Octet(i, 6), Octet(i, 5), Octet(i, 4), Octet(i, 3), Octet(i, 2), Octet(i, 1), Octet(i, 0)]
    else
      [Octet(i, 7), Octet(i, 6), Octet(i, 5), Octet(i, 4), Octet(i, 3), Octet(i, 2), Octet(i, 1), Octet(i, 0)]
  }

  lemma IntBytesAreBigEndian(i: nat)
    requires i < TWO_64
    ensures IntBytes(i) == BigEndian(i)
  {
    hide Octet, Pow256, BigEndian;
    Powers();
    OctetsAre(i, IntBytes(i));
  }

  method PutInt(b: array<byte>, off: nat, i: nat) returns (size: nat)
    requires i < TWO_64 && off + |BigEndian(i)| <= b.Length
    modifies b
    ensures size == |BigEndian(i)| <= 8
    ensures Stored(b[..], old(b[..]), off, BigEndian(i))
  {
    IntBytesAreBigEndian(i);
    BigEndianFits(i);
    var s := IntBytes(i);
    Copy(b, off, s);
    size := |s|;
  }

  /** The size loop shifts a byte away at a time. */
  method IntSize(i: nat) returns (size: nat)
    ensures size == |BigEndian(i)|
  {
    size := 1;
    var rest: nat := i / 256;
    while rest != 0
      invariant rest == 0 ==> size == |BigEndian(i)|
      invariant rest != 0 ==> size + |BigEndian(rest)| == |BigEndian(i)|
      decreases rest
    {
      rest := rest / 256;
      size := size + 1;
    }
  }

  lemma StoredTwice(now: seq<byte>, mid: seq<byte>, was: seq<byte>, off: nat, x: byte, s: seq<byte>)
    requires Stored(mid, was, off + 1, s) && Stored(now, mid, off, [x])
    ensures Stored(now, was, off, [x] + s)
  {
  }

  method PutHead(b: array<byte>, off: nat, small: byte, large: byte, n: nat) returns (size: nat)
    requires n < TWO_64 && off + |Head(small, large, n)| <= b.Length
    modifies b
    ensures size == |Head(small, large, n)|
    ensures Stored(b[..], old(b[..]), off, Head(small, large, n))
  {
    hide BigEndian, Stored;
    if n < 56 {
      Copy(b, off, [(small + n) % 256]);
      return 1;
    }
    var k := PutInt(b, off + 1, n);
    ghost var mid := b[..];
    Copy(b, off, [(large + k) % 256]);
    StoredTwice(b[..], mid, old(b[..]), off, (large + k) % 256, BigEndian(n));
    size := k + 1;
  }

  // ---------- Splicing ----------

  /** A list header: where it belongs in the string data, and the size of the list's content. */
  datatype ListHead = ListHead(offset: nat, size: nat)

  function HeadOf(h: ListHead): (s: seq<byte>)
    ensures |s| > 0
  {
    Head(0xC0, 0xF7, h.size)
  }

  ghost predicate Ordered(heads: seq<ListHead>, from: nat, to: nat)
    decreases |heads|
  {
    if heads == [] then from <= to else from <= heads[0].offset <= to && Ordered(heads[1..], heads[0].offset, to)
  }

  /** The string data from `from` on, with the headers put in. */
  ghost function Splice(str: seq<byte>, heads: seq<ListHead>, from: nat): (s: seq<byte>)
    requires Ordered(heads, from, |str|)
    decreases |heads|
  {
    if heads == [] then str[from..]
    else str[from..heads[0].offset] + HeadOf(heads[0]) + Splice(str, heads[1..], heads[0].offset)
  }

  function Shift(heads: seq<ListHead>, d: nat): (s: seq<ListHead>)
    ensures |s| == |heads|
    ensures forall i :: 0 <= i < |s| ==> s[i] == ListHead(heads[i].offset + d, heads[i].size)
  {
    seq(|heads|, i requires 0 <= i < |heads| => ListHead(heads[i].offset + d, heads[i].size))
  }

  lemma ShiftTail(heads: seq<ListHead>, d: nat)
    requires heads != []
    ensures Shift(heads, d)[1..] == Shift(heads[1..], d)
  {
  }

  lemma OrderedNext(heads: seq<ListHead>, from: nat, to: nat)
    requires heads != [] && Ordered(heads, from, to)
    ensures from <= heads[0].offset <= to && Ordered(heads[1..], heads[0].offset, to)
  {
  }

  function Part(s: seq<byte>, lo: nat, hi: nat): seq<byte>
    requires lo <= hi <= |s|
  {
    s[lo..hi]
  }

  lemma SpliceNext(str: seq<byte>, heads: seq<ListHead>, from: nat)
    requires heads != [] && from <= heads[0].offset <= |str| && Ordered(heads[1..], heads[0].offset, |str|)
    ensures Ordered(heads, from, |str|)
    ensures Splice(str, heads, from) ==
            Part(str, from, heads[0].offset) + HeadOf(heads[0]) + Splice(str, heads[1..], heads[0].offset)
  {
  }

  /** `s` is `t` after `d` other bytes. */
  ghost predicate Later(s: seq<byte>, t: seq<byte>, d: nat) {
    |s| == |t| + d && forall i :: 0 <= i < |t| ==> t[i] == s[i + d]
  }

  lemma PartLater(s: seq<byte>, t: seq<byte>, d: nat, lo: nat, hi: nat)
    requires Later(s, t, d) && lo <= hi <= |t|
    ensures hi + d <= |s| && Part(s, lo + d, hi + d) == Part(t, lo, hi)
  {
    var x, y := s[lo + d..hi + d], t[lo..hi];
    assert forall i :: 0 <= i < |y| ==> y[i] == t[lo + i];
    assert x == y;
  }

  lemma SpliceShiftNone(s: seq<byte>, t: seq<byte>, d: nat, from: nat)
    requires Later(s, t, d) && from <= |t|
    ensures Shift([], d) == [] && from + d <= |s| && Splice(s, [], from + d) == Splice(t, [], from)
  {
    PartLater(s, t, d, from, |t|);
    assert t[from..] == t[from..|t|] == Part(t, from, |t|);
    assert s[from + d..] == s[from + d..|s|] == Part(s, from + d, |s|);
  }

  lemma HeadShifts(h: ListHead, d: nat)
    ensures HeadOf(ListHead(h.offset + d, h.size)) == HeadOf(h)
  {
    hide Head;
    HeadOfSize(h);
    HeadOfSize(ListHead(h.offset + d, h.size));
  }

  lemma {:induction false} SpliceLater(s: seq<byte>, t: seq<byte>, d: nat, heads: seq<ListHead>, from: nat)
    requires Later(s, t, d) && Ordered(heads, from, |t|)
    ensures Ordered(Shift(heads, d), from + d, |s|)
    ensures Splice(s, Shift(heads, d), from + d) == Splice(t, heads, from)
    decreases |heads|
  {
    if heads == [] {
      SpliceShiftNone(s, t, d, from);
    } else {
      OrderedNext(heads, from, |t|);
      hide *;
      SpliceLater(s, t, d, heads[1..], heads[0].offset);
      ShiftTail(heads, d);
      HeadShifts(heads[0], d);
      PartLater(s, t, d, from, heads[0].offset);
      SpliceNext(s, Shift(heads, d), from + d);
      SpliceNext(t, heads, from);
    }
  }

  /** Splicing from a later point, in data that starts later. */
  lemma SpliceShift(s1: seq<byte>, s2: seq<byte>, heads: seq<ListHead>, from: nat)
    requires Ordered(heads, from, |s2|)
    ensures Ordered(Shift(heads, |s1|), from + |s1|, |s1 + s2|)
    ensures Splice(s1 + s2, Shift(heads, |s1|), from + |s1|) == Splice(s2, heads, from)
  {
    hide Splice, Ordered;
    SpliceLater(s1 + s2, s2, |s1|, heads, from);
  }

  lemma PartOfFront(s1: seq<byte>, s2: seq<byte>, lo: nat, hi: nat)
    requires lo <= hi <= |s1|
    ensures Part(s1 + s2, lo, hi) == Part(s1, lo, hi)
  {
    assert (s1 + s2)[lo..hi] == s1[lo..hi];
  }

  lemma HeadsJoin(h1: seq<ListHead>, h2: seq<ListHead>)
    requires h1 != []
    ensures (h1 + h2)[1..] == h1[1..] + h2 && (h1 + h2)[0] == h1[0]
  {
  }

  /** Splicing two buffers one after the other. */
  lemma {:induction false} SpliceJoin(s1: seq<byte>, h1: seq<ListHead>, s2: seq<byte>, h2: seq<ListHead>, from: nat)
    requires Ordered(h1, from, |s1|) && Ordered(h2, 0, |s2|)
    ensures Ordered(h1 + Shift(h2, |s1|), from, |s1 + s2|)
    ensures Splice(s1 + s2, h1 + Shift(h2, |s1|), from) == Splice(s1, h1, from) + Splice(s2, h2, 0)
    decreases |h1|
  {
    var later, s := Shift(h2, |s1|), s1 + s2;
    if h1 == [] {
      hide Shift;
      assert h1 + later == later;
      SpliceFromEarlier(s1, s2, h2, from);
    } else {
      OrderedNext(h1, from, |s1|);
      hide *;
      var o := h1[0].offset;
      SpliceJoin(s1, h1[1..], s2, h2, o);
      HeadsJoin(h1, later);
      PartOfFront(s1, s2, from, o);
      SpliceNext(s, h1 + later, from);
      SpliceNext(s1, h1, from);
      JoinLast(Part(s1, from, o), HeadOf(h1[0]), Splice(s1, h1[1..], o), Splice(s2, h2, 0));
    }
  }

  lemma JoinLast<T>(a: seq<T>, b: seq<T>, c: seq<T>, d: seq<T>)
    ensures a + b + (c + d) == (a + b + c) + d
  {
  }

  lemma SpliceCut(s: seq<byte>, heads: seq<ListHead>, from: nat, mid: nat)
    requires from <= mid && Ordered(heads, mid, |s|)
    ensures Ordered(heads, from, |s|) && mid <= |s|
    ensures Splice(s, heads, from) == s[from..mid] + Splice(s, heads, mid)
  {
    hide HeadOf;
    if heads == [] {
      assert s[from..] == s[from..mid] + s[mid..];
    } else {
      var o := heads[0].offset;
      OrderedEnds(heads[1..], o, |s|);
      assert s[from..o] == s[from..mid] + s[mid..o];
      Regroup(s[from..mid], s[mid..o], HeadOf(heads[0]), Splice(s, heads[1..], o));
    }
  }

  lemma {:induction false} OrderedEnds(heads: seq<ListHead>, from: nat, to: nat)
    requires Ordered(heads, from, to)
    ensures from <= to
  {
  }

  lemma Regroup<T>(a: seq<T>, b: seq<T>, c: seq<T>, d: seq<T>)
    ensures (a + b) + c + d == a + (b + c + d)
  {
  }

  lemma SpliceFromEarlier(s1: seq<byte>, s2: seq<byte>, heads: seq<ListHead>, from: nat)
    requires Ordered(heads, 0, |s2|) && from <= |s1|
    ensures Ordered(Shift(heads, |s1|), from, |s1 + s2|)
    ensures Splice(s1 + s2, Shift(heads, |s1|), from) == s1[from..] + Splice(s2, heads, 0)
  {
    hide Splice, Ordered, Shift;
    SpliceShift(s1, s2, heads, 0);
    SpliceCut(s1 + s2, Shift(heads, |s1|), from, |s1|);
    assert (s1 + s2)[from..|s1|] == s1[from..];
  }

  /** `done` is what comes out before header `i` and the string data from `from` on. */
  ghost predicate Emitted(str: seq<byte>, heads: seq<ListHead>, i: nat, from: nat, done: seq<byte>)
    requires Ordered(heads, 0, |str|)
  {
    && i <= |heads| && from <= |str|
    && Ordered(heads[i..], from, |str|)
    && done + Splice(str, heads[i..], from) == Splice(str, heads, 0)
  }

  lemma EmitStart(str: seq<byte>, heads: seq<ListHead>)
    requires Ordered(heads, 0, |str|)
    ensures Emitted(str, heads, 0, 0, [])
  {
    assert heads[0..] == heads;
  }

  lemma SpliceStep(str: seq<byte>, heads: seq<ListHead>, i: nat, from: nat)
    requires i < |heads| && Ordered(heads[i..], from, |str|)
    ensures
      var o := heads[i].offset;
      && from <= o <= |str| && Ordered(heads[i + 1..], o, |str|)
      && Splice(str, heads[i..], from) == str[from..o] + HeadOf(heads[i]) + Splice(str, heads[i + 1..], o)
  {
    assert heads[i..][1..] == heads[i + 1..];
  }

  lemma EmitNext(str: seq<byte>, heads: seq<ListHead>, i: nat, from: nat, done: seq<byte>)
    requires Ordered(heads, 0, |str|) && Emitted(str, heads, i, from, done) && i < |heads|
    ensures from <= heads[i].offset <= |str|
    ensures Emitted(str, heads, i + 1, heads[i].offset, done + str[from..heads[i].offset] + HeadOf(heads[i]))
    ensures |done| + |str[from..heads[i].offset]| + |HeadOf(heads[i])| <= |Splice(str, heads, 0)|
  {
    hide HeadOf, Ordered, Splice;
    var o := heads[i].offset;
    SpliceStep(str, heads, i, from);
    Regroup(done, str[from..o], HeadOf(heads[i]), Splice(str, heads[i + 1..], o));
  }

  lemma EmitLast(str: seq<byte>, heads: seq<ListHead>, from: nat, done: seq<byte>)
    requires Ordered(heads, 0, |str|) && Emitted(str, heads, |heads|, from, done)
    ensures from <= |str| && done + str[from..] == Splice(str, heads, 0)
  {
  }

  /** What has come out, or a front part of it, starts the whole output. */
  lemma EmittedFront(str: seq<byte>, heads: seq<ListHead>, i: nat, from: nat, done: seq<byte>, front: seq<byte>)
    requires Ordered(heads, 0, |str|) && Emitted(str, heads, i, from, done) && front <= done
    ensures done <= Splice(str, heads, 0) && front <= Splice(str, heads, 0)
  {
  }

  // ---------- Writers ----------

  /** A writer that may fail at any write, for any reason, after it has taken any part of what it was given. */
  class Writer {
    var taken: seq<byte>
    var failed: bool

    constructor ()
      ensures taken == [] && !failed
    {
      taken, failed := [], false;
    }

    method Write(p: seq<byte>) returns (n: nat, ok: bool)
      modifies this
      ensures n <= |p| && taken == old(taken) + p[..n] && (ok ==> n == |p|)
      ensures failed == (old(failed) || !ok)
    {
      n, ok := *, *;
      if n >= |p| {
        n := |p|;
      } else {
        ok := false;
      }
      taken := taken + p[..n];
      failed := failed || !ok;
    }
  }

  /** A failed write ends within the whole output. */
  lemma CutShort(was: seq<byte>, done: seq<byte>, p: seq<byte>, n: nat, all: seq<byte>)
    requires done + p <= all && n <= |p|
    ensures was + done + p[..n] == was + all[..|done| + n]
  {
    assert (done + p)[..|done| + n] == done + p[..n];
    assert all[..|done| + n] == (done + p)[..|done| + n];
    assert was + done + p[..n] == was + (done + p[..n]);
  }

  lemma Rejoin<T>(a: seq<T>, b: seq<T>, c: seq<T>)
    ensures a + b + c == a + (b + c)
    ensures c == [] ==> b + c == b
  {
  }

  lemma StoredPrefix(now: seq<byte>, was: seq<byte>, off: nat, s: seq<byte>)
    requires Stored(now, was, off, s)
    ensures |now| == |was| && now[..off + |s|] == was[..off] + s
  {
  }

  // ---------- What encoding a value leaves in the buffer ----------

  /** The string data of a value: its encoding without list headers. */
  function Flat(v: Item): seq<byte>
    decreases v
  {
    match v
    case Str(b) => Encode(v)
    case List(items) => FlatAll(items)
  }

  function FlatAll(items: seq<Item>): seq<byte>
    decreases items
  {
    if items == [] then [] else FlatAll(items[..|items| - 1]) + Flat(items[|items| - 1])
  }

  /** The list headers of a value, in the order they were opened, relative to the start of its data. */
  function Heads(v: Item): seq<ListHead>
    decreases v
  {
    match v
    case Str(b) => []
    case List(items) => [ListHead(0, |EncodeAll(items)|)] + HeadsAll(items)
  }

  function HeadsAll(items: seq<Item>): seq<ListHead>
    decreases items
  {
    if items == [] then []
    else
      var k := |items| - 1;
      HeadsAll(items[..k]) + Shift(Heads(items[k]), |FlatAll(items[..k])|)
  }

  lemma EmptySplice()
    ensures Ordered([], 0, 0) && Splice([], [], 0) == []
  {
  }

  lemma OuterHead(str: seq<byte>, heads: seq<ListHead>, n: nat)
    requires Ordered(heads, 0, |str|)
    ensures Ordered([ListHead(0, n)] + heads, 0, |str|)
    ensures Splice(str, [ListHead(0, n)] + heads, 0) == Head(0xC0, 0xF7, n) + Splice(str, heads, 0)
  {
    hide Head;
    assert ([ListHead(0, n)] + heads)[1..] == heads;
    assert str[0..0] == [];
  }

  lemma {:induction false} SpliceIsEncode(v: Item)
    ensures Ordered(Heads(v), 0, |Flat(v)|) && Splice(Flat(v), Heads(v), 0) == Encode(v)
    decreases v, 0
  {
    hide Head;
    match v
    case Str(b) =>
    case List(items) =>
      SpliceIsEncodeAll(items);
      OuterHead(FlatAll(items), HeadsAll(items), |EncodeAll(items)|);
  }

  lemma {:induction false} SpliceIsEncodeAll(items: seq<Item>)
    ensures Ordered(HeadsAll(items), 0, |FlatAll(items)|)
    ensures Splice(FlatAll(items), HeadsAll(items), 0) == EncodeAll(items)
    decreases items, 0
  {
    hide Splice, Ordered;
    if items == [] {
      EmptySplice();
    } else {
      var k := |items| - 1;
      var init, last := items[..k], items[k];
      SpliceIsEncodeAll(init);
      SpliceIsEncode(last);
      SpliceJoin(FlatAll(init), HeadsAll(init), Flat(last), Heads(last), 0);
      EncodeAllSnoc(init, last);
      assert items == init + [last];
    }
  }

  lemma ElementFits(items: seq<Item>, i: nat)
    requires i < |items|
    ensures |Encode(items[i])| <= |EncodeAll(items)|
  {
    EncodeAllSnoc(items[..i], items[i]);
    EncodeAllJoin(items[..i] + [items[i]], items[i + 1..]);
    assert items == items[..i] + [items[i]] + items[i + 1..];
  }

  lemma ShiftJoin(h1: seq<ListHead>, h2: seq<ListHead>, d1: nat, d2: nat)
    ensures Shift(h1 + Shift(h2, d1), d2) == Shift(h1, d2) + Shift(h2, d2 + d1)
  {
  }

  lemma Joined<T>(a: seq<T>, b: seq<T>, c: seq<T>)
    ensures (a + b) + c == a + (b + c)
  {
  }

  lemma Nothing(d: nat)
    ensures FlatAll([]) == [] && Shift(HeadsAll([]), d) == [] && EncodeAll([]) == []
  {
  }

  /** What the loop over a list's elements adds with each element. */
  lemma OneMore(items: seq<Item>, i: nat, d: nat)
    requires i < |items|
    ensures FlatAll(items[..i + 1]) == FlatAll(items[..i]) + Flat(items[i])
    ensures Shift(HeadsAll(items[..i + 1]), d) ==
            Shift(HeadsAll(items[..i]), d) + Shift(Heads(items[i]), d + |FlatAll(items[..i])|)
    ensures EncodeAll(items[..i + 1]) == EncodeAll(items[..i]) + Encode(items[i])
  {
    hide Shift;
    var s := items[..i + 1];
    assert s[..i] == items[..i] && s[i] == items[i] && s == items[..i] + [items[i]];
    EncodeAllSnoc(items[..i], items[i]);
    ShiftJoin(HeadsAll(items[..i]), Heads(items[i]), |FlatAll(items[..i])|, d);
  }

  // ---------- The encode buffer ----------

  class EncBuf {
    var str: seq<byte>
    var lheads: seq<ListHead>
    var lhsize: nat
    const sizebuf: array<byte>

    ghost predicate Valid() {
      sizebuf.Length == 9
    }

    /** Every list is closed: the buffer holds the encodings of whole values. */
    ghost predicate Complete()
      reads this
    {
      && Valid() && Ordered(lheads, 0, |str|)
      && |Splice(str, lheads, 0)| == |str| + lhsize < TWO_64
      && (forall i :: 0 <= i < |lheads| ==> lheads[i].size < TWO_64)
    }

    ghost function Output(): seq<byte>
      requires Complete()
      reads this
    {
      Splice(str, lheads, 0)
    }

    constructor ()
      ensures Valid() && fresh(sizebuf)
      ensures str == [] && lheads == [] && lhsize == 0
    {
      str, lheads, lhsize := [], [], 0;
      sizebuf := new byte[9];
    }

    method Size() returns (n: nat)
      ensures n == |str| + lhsize
    {
      n := |str| + lhsize;
    }

    method EncodeStringHeader(n: nat)
      requires Valid() && n < TWO_64
      modifies `str, sizebuf
      ensures str == old(str) + Head(0x80, 0xB7, n)
    {
      if n < 56 {
        str := str + [(0x80 + n) % 256];
      } else {
        BigEndianFits(n);
        var k := PutInt(sizebuf, 1, n);
        sizebuf[0] := (0xB7 + k) % 256;
        assert sizebuf[..k + 1] == [sizebuf[0]] + sizebuf[1..k + 1];
        str := str + sizebuf[..k + 1];
      }
    }

    method EncodeString(b: seq<byte>)
      requires Valid() && |b| < TWO_64
      modifies `str, sizebuf
      ensures str == old(str) + Encode(Str(b))
    {
      if |b| == 1 && b[0] <= 0x7F {
        str := str + [b[0]];
      } else {
        EncodeStringHeader(|b|);
        str := str + b;
      }
    }

    /** An unsigned integer is the string of its shortest big-endian bytes, none at all for zero. */
    method WriteUint(i: nat)
      requires Valid() && i < TWO_64
      modifies `str, sizebuf
      ensures str == old(str) + Encode(Str(UintBytes(i)))
    {
      if i == 0 {
        str := str + [0x80];
      } else if i < 128 {
        str := str + [i];
      } else {
        BigEndianFits(i);
        UintNeedsHeader(i);
        var k := PutInt(sizebuf, 1, i);
        sizebuf[0] := 0x80 + k;
        assert sizebuf[..k + 1] == [sizebuf[0]] + sizebuf[1..k + 1];
        str := str + sizebuf[..k + 1];
      }
    }

    /** Opens a list; the handle is the header's place among the headers. */
    method ListStart() returns (h: nat)
      modifies `lheads
      ensures h == |old(lheads)| && lheads == old(lheads) + [ListHead(|str|, lhsize)]
    {
      h := |lheads|;
      lheads := lheads + [ListHead(|str|, lhsize)];
    }

    method ListEnd(h: nat)
      requires h < |lheads| && lheads[h].offset + lheads[h].size <= |str| + lhsize
      modifies `lheads, `lhsize
      ensures var n := |str| + old(lhsize) - old(lheads)[h].offset - old(lheads)[h].size;
        && lheads == old(lheads)[h := ListHead(old(lheads)[h].offset, n)]
        && lhsize == old(lhsize) + |Head(0xC0, 0xF7, n)|
    {
      var total := Size();
      var n := total - lheads[h].offset - lheads[h].size;
      lheads := lheads[h := ListHead(lheads[h].offset, n)];
      if n < 56 {
        lhsize := lhsize + 1;
      } else {
        var k := IntSize(n);
        lhsize := lhsize + 1 + k;
      }
    }

    /** Encoding a value adds exactly its string data, its headers and their size. */
    method EncodeItem(v: Item)
      requires Valid() && |Encode(v)| < TWO_64
      modifies this, sizebuf
      ensures str == old(str) + Flat(v)
      ensures lheads == old(lheads) + Shift(Heads(v), |old(str)|)
      ensures |str| + lhsize == |old(str)| + old(lhsize) + |Encode(v)|
      decreases v
    {
      match v {
        case Str(b) =>
          EncodeString(b);
        case List(items) =>
          var h := ListStart();
          EncodeElements(items);
          ListEnd(h);
      }
    }

    method EncodeElements(items: seq<Item>)
      requires Valid() && |EncodeAll(items)| < TWO_64
      modifies this, sizebuf
      ensures str == old(str) + FlatAll(items)
      ensures lheads == old(lheads) + Shift(HeadsAll(items), |old(str)|)
      ensures |str| + lhsize == |old(str)| + old(lhsize) + |EncodeAll(items)|
      decreases items
    {
      hide FlatAll, HeadsAll, EncodeAll, Shift, Flat, Heads, Encode;
      Nothing(|str|);
      for i := 0 to |items|
        invariant str == old(str) + FlatAll(items[..i])
        invariant lheads == old(lheads) + Shift(HeadsAll(items[..i]), |old(str)|)
        invariant |str| + lhsize == |old(str)| + old(lhsize) + |EncodeAll(items[..i])|
      {
        ElementFits(items, i);
        ghost var s := str;
        EncodeItem(items[i]);
        OneMore(items, i, |old(str)|);
        Joined(old(str), FlatAll(items[..i]), Flat(items[i]));
        Joined(old(lheads), Shift(HeadsAll(items[..i]), |old(str)|), Shift(Heads(items[i]), |s|));
      }
      assert items[..|items|] == items;
    }

    method ToBytes() returns (out: array<byte>)
      requires Complete()
      ensures fresh(out) && out[..] == Output()
    {
      hide Splice, Ordered, Emitted, Stored, HeadOf;
      out := new byte[|str| + lhsize];
      var strpos: nat, pos: nat := 0, 0;
      EmitStart(str, lheads);
      assert out[..0] == [];
      for i := 0 to |lheads|
        invariant pos <= out.Length
        invariant Emitted(str, lheads, i, strpos, out[..pos])
      {
        ghost var was := out[..];
        var head := lheads[i];
        EmitNext(str, lheads, i, strpos, out[..pos]);
        HeadOfSize(head);
        var piece := str[strpos..head.offset];
        Copy(out, pos, piece);
        StoredPrefix(out[..], was, pos, piece);
        pos := pos + |piece|;
        strpos := head.offset;
        ghost var mid := out[..];
        var n := PutHead(out, pos, 0xC0, 0xF7, head.size);
        StoredPrefix(out[..], mid, pos, HeadOf(head));
        pos := pos + n;
      }
      ghost var was := out[..];
      EmitLast(str, lheads, strpos, out[..pos]);
      Copy(out, pos, str[strpos..]);
      StoredPrefix(out[..], was, pos, str[strpos..]);
    }

    /** The writer is given the same bytes, piece by piece, until it fails; `k` of them are taken. */
    method ToWriter(w: Writer) returns (ok: bool, ghost k: nat)
      requires Complete() && !w.failed
      modifies sizebuf, w
      ensures k <= |Output()| && w.taken == old(w.taken) + Output()[..k]
      ensures ok == !w.failed && (ok ==> k == |Output()|)
    {
      hide Splice, Ordered, Emitted, HeadOf, Stored;
      var strpos: nat, n: nat := 0, 0;
      ghost var done, was, all := [], w.taken, Output();
      EmitStart(str, lheads);
      for i := 0 to |lheads|
        invariant Emitted(str, lheads, i, strpos, done)
        invariant !w.failed && w.taken == was + done
      {
        var head := lheads[i];
        EmitNext(str, lheads, i, strpos, done);
        ghost var piece := str[strpos..head.offset];
        EmittedFront(str, lheads, i + 1, head.offset, done + piece + HeadOf(head), done + piece);
        if head.offset - strpos > 0 {
          n, ok := w.Write(str[strpos..head.offset]);
          if !ok {
            CutShort(was, done, piece, n, all);
            return ok, |done| + n;
          }
          assert piece[..n] == piece;
          strpos := strpos + n;
        }
        Rejoin(was, done, piece);
        done := done + piece;
        var enc := EncodeHead(head);
        n, ok := w.Write(enc);
        if !ok {
          CutShort(was, done, enc, n, all);
          return ok, |done| + n;
        }
        assert enc[..n] == enc;
        Rejoin(was, done, enc);
        done := done + enc;
      }
      EmitLast(str, lheads, strpos, done);
      ok := true;
      ghost var rest := str[strpos..];
      Rejoin(was, done, rest);
      k := |all|;
      assert all[..k] == all;
      if strpos < |str| {
        n, ok := w.Write(str[strpos..]);
        CutShort(was, done, rest, n, all);
        k := |done| + n;
      }
    }

    method EncodeHead(h: ListHead) returns (enc: seq<byte>)
      requires Valid() && h.size < TWO_64
      modifies sizebuf
      ensures enc == HeadOf(h)
    {
      BigEndianFits(h.size);
      ghost var was := sizebuf[..];
      var n := PutHead(sizebuf, 0, 0xC0, 0xF7, h.size);
      StoredPrefix(sizebuf[..], was, 0, HeadOf(h));
      enc := sizebuf[..n];
    }
  }

  lemma HeadOfSize(h: ListHead)
    ensures HeadOf(h) == Head(0xC0, 0xF7, h.size)
  {
  }

  datatype Piece = NoPiece | Piece(bytes: seq<byte>)

  /** The reader over a filled buffer; it lets go of the buffer at the end. */
  class EncReader {
    var buf: EncBuf?
    var lhpos: nat
    var strpos: nat
    var piece: Piece

    ghost predicate Valid()
      reads this, buf
    {
      buf != null ==>
        && buf.Complete()
        && lhpos <= |buf.lheads| && Ordered(buf.lheads[lhpos..], strpos, |buf.str|)
        && (piece.Piece? ==> |piece.bytes| > 0)
    }

    /** The bytes still to be read. */
    ghost function Remaining(): seq<byte>
      requires Valid()
      reads this, buf
    {
      if buf == null then []
      else (if piece.Piece? then piece.bytes else []) + Splice(buf.str, buf.lheads[lhpos..], strpos)
    }

    constructor (b: EncBuf)
      requires b.Complete()
      ensures Valid() && Remaining() == b.Output() && buf == b
    {
      buf, lhpos, strpos, piece := b, 0, 0, NoPiece;
      new;
      assert b.lheads[0..] == b.lheads;
    }

    /** Takes the next piece; none is left exactly when nothing remains. */
    method Next() returns (p: Piece)
      requires Valid()
      modifies `lhpos, `strpos, `piece, if buf == null then {} else {buf.sizebuf}
      ensures Valid() && Remaining() == old(Remaining())
      ensures piece == p
      ensures p.NoPiece? <==> Remaining() == []
      ensures p.Piece? ==> buf != null && |p.bytes| > 0
    {
      hide HeadOf, Splice, Ordered;
      if buf == null {
        piece := NoPiece;
        return NoPiece;
      }
      if piece.Piece? {
        return piece;
      }
      if lhpos < |buf.lheads| {
        var head := buf.lheads[lhpos];
        SpliceStep(buf.str, buf.lheads, lhpos, strpos);
        if head.offset - strpos > 0 {
          SpliceCutHere(buf.str, buf.lheads, lhpos, strpos);
          p := Piece(buf.str[strpos..head.offset]);
          strpos := head.offset;
        } else {
          lhpos := lhpos + 1;
          var enc := buf.EncodeHead(head);
          p := Piece(enc);
        }
      } else {
        assert buf.lheads[lhpos..] == [];
        SpliceEnd(buf.str, strpos);
        if strpos < |buf.str| {
          p := Piece(buf.str[strpos..]);
          strpos := |buf.str|;
          SpliceEnd(buf.str, strpos);
        } else {
          p := NoPiece;
        }
      }
      piece := p;
    }

    /** The first `k` bytes of the current piece have been copied out. */
    method Take(k: nat)
      requires Valid() && buf != null && piece.Piece? && k <= |piece.bytes|
      modifies `piece
      ensures Valid()
      ensures old(Remaining()) == old(piece).bytes[..k] + Remaining()
      ensures |Remaining()| >= |old(piece).bytes| - k
    {
      hide HeadOf, Splice, Ordered;
      assert piece.bytes == piece.bytes[..k] + piece.bytes[k..];
      if k < |piece.bytes| {
        piece := Piece(piece.bytes[k..]);
      } else {
        piece := NoPiece;
      }
    }

    /**
     * Fills `b` as far as the remaining bytes go.  The end is reported with the last bytes,
     * exactly when they all fit, and from then on.
     */
    method Read(b: array<byte>) returns (n: nat, eof: bool)
      requires Valid() && (buf != null ==> b != buf.sizebuf)
      modifies this, b, if buf == null then {} else {buf.sizebuf}
      ensures Valid()
      ensures n <= b.Length && b[..n] + Remaining() == old(Remaining())
      ensures b[n..] == old(b[n..])
      ensures eof <==> |old(Remaining())| <= b.Length
      ensures eof ==> Remaining() == [] && buf == null
      ensures !eof ==> n == b.Length && buf == old(buf)
    {
      hide HeadOf, Splice, Ordered, Valid, Remaining, Stored;
      n := 0;
      assert b[..0] == [];
      while true
        invariant Valid() && buf == old(buf) && n <= b.Length
        invariant b[..n] + Remaining() == old(Remaining())
        invariant b[n..] == old(b[n..])
        decreases |Remaining()|
      {
        var p := Next();
        if p.NoPiece? {
          buf := null;
          ReleasedReader(this);
          return n, true;
        }
        var nn := if |p.bytes| < b.Length - n then |p.bytes| else b.Length - n;
        Give(b, n, nn);
        n := n + nn;
        if nn < |p.bytes| {
          return n, false;
        }
      }
    }

    /** Copies the first `k` bytes of the current piece to `b` and moves past them. */
    method Give(b: array<byte>, n: nat, k: nat)
      requires Valid() && buf != null && piece.Piece? && k <= |piece.bytes| && n + k <= b.Length
      modifies `piece, b
      ensures Valid()
      ensures |Remaining()| == |old(Remaining())| - k
      ensures |Remaining()| >= |old(piece).bytes| - k
      ensures b[..n + k] + Remaining() == old(b[..n] + Remaining())
      ensures b[n + k..] == old(b[n + k..])
    {
      hide HeadOf, Splice, Ordered, Valid, Remaining, Stored;
      var s := piece.bytes[..k];
      Copy(b, n, s);
      StoredPrefix(b[..], old(b[..]), n, s);
      StoredSuffix(b[..], old(b[..]), n, s);
      Take(k);
      Joined(old(b[..n]), s, Remaining());
    }
  }

  lemma ReleasedReader(r: EncReader)
    requires r.buf == null
    ensures r.Valid() && r.Remaining() == []
  {
  }

  lemma StoredSuffix(now: seq<byte>, was: seq<byte>, off: nat, s: seq<byte>)
    requires Stored(now, was, off, s)
    ensures |now| == |was| && now[off + |s|..] == was[off + |s|..]
  {
  }

  lemma SpliceCutHere(str: seq<byte>, heads: seq<ListHead>, i: nat, from: nat)
    requires i < |heads| && Ordered(heads[i..], from, |str|)
    ensures
      var o := heads[i].offset;
      && from <= o <= |str| && Ordered(heads[i..], o, |str|)
      && Splice(str, heads[i..], from) == str[from..o] + Splice(str, heads[i..], o)
  {
    SpliceCut(str, heads[i..], from, heads[i].offset);
  }

  lemma SpliceEnd(str: seq<byte>, from: nat)
    ensures Ordered([], from, |str|) <==> from <= |str|
    ensures from <= |str| ==> Splice(str, [], from) == str[from..]
  {
  }

  lemma {:induction false} HeadsFit(v: Item, i: nat)
    requires i < |Heads(v)|
    ensures Heads(v)[i].size < |Encode(v)|
    decreases v, 0
  {
    if i > 0 {
      HeadsFitAll(v.items, i - 1);
    }
  }

  lemma {:induction false} HeadsFitAll(items: seq<Item>, i: nat)
    requires i < |HeadsAll(items)|
    ensures HeadsAll(items)[i].size < |EncodeAll(items)|
    decreases items, 0
  {
    var k := |items| - 1;
    EncodeAllSnoc(items[..k], items[k]);
    assert items == items[..k] + [items[k]];
    if i < |HeadsAll(items[..k])| {
      HeadsFitAll(items[..k], i);
    } else {
      HeadsFit(items[k], i - |HeadsAll(items[..k])|);
    }
  }

  lemma FirstValueCompletes(v: Item)
    requires |Encode(v)| < TWO_64
    ensures [] + Flat(v) == Flat(v) && [] + Shift(Heads(v), 0) == Heads(v)
    ensures forall i :: 0 <= i < |Heads(v)| ==> Heads(v)[i].size < TWO_64
  {
    forall i | 0 <= i < |Heads(v)|
      ensures Heads(v)[i].size < TWO_64
    {
      HeadsFit(v, i);
    }
  }

  /** A fresh buffer that has taken in `v`. */
  method EncodeOne(v: Item) returns (b: EncBuf)
    requires |Encode(v)| < TWO_64
    ensures fresh(b) && fresh(b.sizebuf) && b.Complete() && b.Output() == Encode(v)
    ensures |b.str| + b.lhsize == |Encode(v)|
  {
    hide Splice, Ordered, Encode, Flat, Heads, Shift;
    b := new EncBuf();
    b.EncodeItem(v);
    FirstValueCompletes(v);
    SpliceIsEncode(v);
  }

  method EncodeToBytes(v: Item) returns (out: array<byte>)
    requires |Encode(v)| < TWO_64
    ensures fresh(out) && out[..] == Encode(v)
  {
    var b := EncodeOne(v);
    out := b.ToBytes();
  }

  method EncodeToReader(v: Item) returns (size: nat, r: EncReader)
    requires |Encode(v)| < TWO_64
    ensures size == |Encode(v)|
    ensures fresh(r) && r.Valid() && r.Remaining() == Encode(v)
    ensures r.buf != null && fresh(r.buf) && fresh(r.buf.sizebuf)
  {
    var b := EncodeOne(v);
    size := b.Size();
    r := new EncReader(b);
  }

  /** The writer gets the encoding, or a front part of it when it fails; the answer tells which. */
  method EncodeTo(v: Item, w: Writer) returns (ok: bool, ghost k: nat)
    requires |Encode(v)| < TWO_64 && !w.failed
    modifies w
    ensures k <= |Encode(v)| && w.taken == old(w.taken) + Encode(v)[..k]
    ensures ok == !w.failed && (ok ==> k == |Encode(v)|)
  {
    var b := EncodeOne(v);
    ok, k := b.ToWriter(w);
  }

  /** The bytes of an unsigned integer: shortest big-endian, empty for zero. */
  function UintBytes(i: nat): seq<byte> {
    if i == 0 then [] else BigEndian(i)
  }

  lemma UintNeedsHeader(i: nat)
    requires 128 <= i < TWO_64
    ensures Encode(Str(BigEndian(i))) == [0x80 + |BigEndian(i)|] + BigEndian(i)
  {
    BigEndianFits(i);
  }
}
