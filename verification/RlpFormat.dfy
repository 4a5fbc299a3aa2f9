/** Recursive length prefix encoding: the format, its plain encoder and its plain parser. */
module RlpFormat {
  import opened Basics

  /** A value is a byte string or a list of values. */
  datatype Item = Str(bytes: seq<byte>) | List(items: seq<Item>)

  datatype Kind = Byte | String | ListKind

  // ---------- Big-endian integers ----------

  /** The shortest big-endian representation, one zero byte for zero. */
  function BigEndian(n: nat): (s: seq<byte>)
    ensures |s| > 0
  {
    if n < 256 then [n] else BigEndian(n / 256) + [n % 256]
  }

  function Value(s: seq<byte>): nat {
    if s == [] then 0 else Value(s[..|s| - 1]) * 256 + s[|s| - 1]
  }

  lemma {:induction false} ValueOfBigEndian(n: nat)
    ensures Value(BigEndian(n)) == n
    ensures n > 0 ==> BigEndian(n)[0] > 0
  {
    if n >= 256 {
      ValueOfBigEndian(n / 256);
      assert BigEndian(n)[..|BigEndian(n)| - 1] == BigEndian(n / 256);
    }
  }

  lemma {:induction false} BigEndianOfValue(s: seq<byte>)
    requires s != [] && s[0] > 0
    ensures BigEndian(Value(s)) == s && Value(s) > 0
  {
    var k := |s| - 1;
    if k == 0 {
      assert s[..k] == [];
    } else {
      BigEndianOfValue(s[..k]);
      assert Value(s) / 256 == Value(s[..k]) && Value(s) % 256 == s[k];
      assert s == s[..k] + [s[k]];
    }
  }

  lemma {:induction false} ValueOfZeros(z: seq<byte>, s: seq<byte>)
    requires forall i :: 0 <= i < |z| ==> z[i] == 0
    ensures Value(z + s) == Value(s)
  {
    if s != [] {
      assert (z + s)[..|z + s| - 1] == z + s[..|s| - 1];
      ValueOfZeros(z, s[..|s| - 1]);
    } else if z != [] {
      assert z + s == z;
      ValueOfZeros(z[..|z| - 1], []);
      assert z[..|z| - 1] + [] == z[..|z| - 1];
    }
  }

  function Pow256(k: nat): (p: nat)
    ensures p >= 1
  {
    if k == 0 then 1 else 256 * Pow256(k - 1)
  }

  lemma {:induction false} BigEndianSize(n: nat, k: nat)
    requires k > 0
    ensures |BigEndian(n)| <= k <==> n < Pow256(k)
  {
    if n >= 256 {
      if k > 1 {
        BigEndianSize(n / 256, k - 1);
        assert n / 256 < Pow256(k - 1) <==> n < Pow256(k);
      } else {
        assert Pow256(1) == 256 * Pow256(0);
      }
    } else {
      assert Pow256(k) >= 256;
    }
  }

  lemma BigEndianFits(n: nat)
    requires n < TWO_64
    ensures |BigEndian(n)| <= 8
  {
    BigEndianSize(n, 8);
    assert Pow256(8) == TWO_64 by {
      assert Pow256(4) == 0x1_0000_0000;
      assert Pow256(6) == 0x1_0000_0000_0000;
    }
  }

  // ---------- The encoding ----------

  /** The header of a string or list with `n` bytes of content. */
  function Head(small: byte, large: byte, n: nat): (h: seq<byte>)
    ensures |h| > 0
  {
    if n < 56 then [(small + n) % 256] else [(large + |BigEndian(n)|) % 256] + BigEndian(n)
  }

  function Encode(v: Item): (e: seq<byte>)
    ensures |e| > 0
    decreases v
  {
    match v
    case Str(b) => if |b| == 1 && b[0] < 0x80 then b else Head(0x80, 0xB7, |b|) + b
    case List(items) => var content := EncodeAll(items); Head(0xC0, 0xF7, |content|) + content
  }

  function EncodeAll(items: seq<Item>): (e: seq<byte>)
    decreases items
  {
    if items == [] then [] else Encode(items[0]) + EncodeAll(items[1..])
  }

  lemma {:induction false} EncodeAllJoin(xs: seq<Item>, ys: seq<Item>)
    ensures EncodeAll(xs + ys) == EncodeAll(xs) + EncodeAll(ys)
  {
    if xs == [] {
      assert xs + ys == ys;
    } else {
      assert (xs + ys)[1..] == xs[1..] + ys;
      EncodeAllJoin(xs[1..], ys);
    }
  }

  lemma EncodeAllSnoc(xs: seq<Item>, x: Item)
    ensures EncodeAll(xs + [x]) == EncodeAll(xs) + Encode(x)
  {
    EncodeAllJoin(xs, [x]);
    assert EncodeAll([x]) == Encode(x) + [];
  }

  // ---------- The plain parser ----------

  datatype Header = Header(kind: Kind, size: nat, length: nat)

  /** A long header: `l` size bytes without leading zero, announcing at least 56 bytes. */
  function ParseLong(w: seq<byte>, kind: Kind, l: nat): Option<Header>
    requires 1 <= l
  {
    if |w| < 1 + l || w[1] == 0 || Value(w[1..1 + l]) < 56 then None
    else Some(Header(kind, Value(w[1..1 + l]), 1 + l))
  }

  /** The header at the front of `w`.  A single byte below 0x80 is its own header and has no content. */
  function ParseHeader(w: seq<byte>): Option<Header> {
    if w == [] then None
    else if w[0] < 0x80 then Some(Header(Byte, 0, 1))
    else if w[0] < 0xB8 then Some(Header(String, w[0] - 0x80, 1))
    else if w[0] < 0xC0 then ParseLong(w, String, w[0] - 0xB7)
    else if w[0] < 0xF8 then Some(Header(ListKind, w[0] - 0xC0, 1))
    else ParseLong(w, ListKind, w[0] - 0xF7)
  }

  lemma HeaderLength(w: seq<byte>)
    ensures ParseHeader(w).Some? ==> 1 <= ParseHeader(w).value.length <= |w|
  {
  }

  /** The value at the front of `w` and the number of bytes it takes. */
  function Parse(w: seq<byte>): (r: Option<(Item, nat)>)
    ensures r.Some? ==> 1 <= r.value.1 <= |w|
    decreases |w|, 0
  {
    match ParseHeader(w)
    case None => None
    case Some(Header(kind, n, h)) =>
      if h + n > |w| then None
      else
        var content := w[h..h + n];
        match kind
        case Byte => Some((Str([w[0]]), 1))
        case String => if n == 1 && content[0] < 128 then None else Some((Str(content), h + n))
        case ListKind =>
          match ParseAll(content)
          case None => None
          case Some(items) => Some((List(items), h + n))
  }

  /** The values that make up all of `w`. */
  function ParseAll(w: seq<byte>): Option<seq<Item>>
    decreases |w|, 1
  {
    if w == [] then Some([])
    else
      match Parse(w)
      case None => None
      case Some((v, k)) => Prepend([v], ParseAll(w[k..]))
  }

  function Prepend(xs: seq<Item>, rest: Option<seq<Item>>): Option<seq<Item>> {
    match rest
    case None => None
    case Some(ys) => Some(xs + ys)
  }

  // ---------- Encoding and parsing are inverse ----------

  lemma HeaderOfHead(small: byte, large: byte, kind: Kind, n: nat, r: seq<byte>)
    requires n < TWO_64
    requires (small == 0x80 && large == 0xB7 && kind == String) || (small == 0xC0 && large == 0xF7 && kind == ListKind)
    ensures ParseHeader(Head(small, large, n) + r) == Some(Header(kind, n, |Head(small, large, n)|))
  {
    hide BigEndian, Value, ParseLong;
    BigEndianFits(n);
    if n >= 56 {
      var be := BigEndian(n);
      ValueOfBigEndian(n);
      LongHeadParses(large + |be|, be, r, kind);
    }
  }

  lemma LongHeadParses(first: byte, be: seq<byte>, r: seq<byte>, kind: Kind)
    requires be != [] && be[0] != 0 && Value(be) >= 56
    ensures ParseLong([first] + be + r, kind, |be|) == Some(Header(kind, Value(be), 1 + |be|))
    ensures ([first] + be + r)[0] == first
  {
    hide Value;
    var w := [first] + be + r;
    assert w[1..1 + |be|] == be;
    assert w[1] == be[0];
  }

  lemma LongHead(w: seq<byte>, kind: Kind, l: nat)
    requires 1 <= l && ParseLong(w, kind, l).Some?
    ensures
      var n := Value(w[1..1 + l]);
      n >= 56 && |BigEndian(n)| == l && w[..1 + l] == [w[0]] + BigEndian(n)
  {
    BigEndianOfValue(w[1..1 + l]);
  }

  /** Conversely, an accepted header is the one the encoder writes. */
  lemma HeadOfHeader(w: seq<byte>)
    requires ParseHeader(w).Some? && ParseHeader(w).value.kind != Byte
    ensures
      var h := ParseHeader(w).value;
      h.length <= |w| &&
      w[..h.length] == if h.kind == String then Head(0x80, 0xB7, h.size) else Head(0xC0, 0xF7, h.size)
  {
    hide BigEndian, Value;
    if w[0] < 0xB8 {
    } else if w[0] < 0xC0 {
      LongHead(w, String, w[0] - 0xB7);
    } else if w[0] >= 0xF8 {
      LongHead(w, ListKind, w[0] - 0xF7);
    }
  }

  lemma SingleByteHeader(w: seq<byte>)
    requires w != [] && w[0] < 0x80
    ensures ParseHeader(w) == Some(Header(Byte, 0, 1))
  {
  }

  // One step of parsing, by the kind of the header.

  lemma ParseByte(w: seq<byte>)
    requires ParseHeader(w).Some? && ParseHeader(w).value.kind == Byte
    ensures w != [] && w[0] < 0x80 && Parse(w) == Some((Str([w[0]]), 1))
  {
  }

  lemma ParseString(w: seq<byte>)
    requires ParseHeader(w).Some? && ParseHeader(w).value.kind == String
    ensures
      var Header(_, n, h) := ParseHeader(w).value;
      if h + n > |w| || (n == 1 && w[h] < 128) then Parse(w) == None
      else Parse(w) == Some((Str(w[h..h + n]), h + n))
  {
    hide ParseHeader;
  }

  lemma ParseList(w: seq<byte>)
    requires ParseHeader(w).Some? && ParseHeader(w).value.kind == ListKind
    ensures
      var Header(_, n, h) := ParseHeader(w).value;
      if h + n > |w| || ParseAll(w[h..h + n]) == None then Parse(w) == None
      else Parse(w) == Some((List(ParseAll(w[h..h + n]).value), h + n))
  {
    hide ParseHeader, ParseAll;
  }

  lemma ContentAfter(head: seq<byte>, content: seq<byte>, r: seq<byte>)
    ensures head + content + r == head + (content + r)
    ensures (head + content + r)[|head|..|head| + |content|] == content
  {
  }

  lemma {:induction false} ParseOfEncode(v: Item, r: seq<byte>)
    requires |Encode(v)| < TWO_64
    ensures Parse(Encode(v) + r) == Some((v, |Encode(v)|))
    decreases v, 1
  {
    hide Parse, ParseHeader, Head, EncodeAll;
    match v
    case Str(b) =>
      if |b| == 1 && b[0] < 0x80 {
        var w := b + r;
        assert w[0] == b[0] && [w[0]] == b;
        SingleByteHeader(w);
        ParseByte(w);
      } else {
        ParseEncodedString(b, r);
      }
    case List(items) =>
      ParseAllOfEncode(items);
      ParseEncodedList(items, EncodeAll(items), r);
  }

  lemma EncodingOfString(b: seq<byte>)
    requires !(|b| == 1 && b[0] < 0x80)
    ensures Encode(Str(b)) == Head(0x80, 0xB7, |b|) + b
  {
  }

  lemma EncodingOfList(items: seq<Item>)
    ensures Encode(List(items)) == Head(0xC0, 0xF7, |EncodeAll(items)|) + EncodeAll(items)
  {
  }

  lemma ParseEncodedString(b: seq<byte>, r: seq<byte>)
    requires |b| < TWO_64 && !(|b| == 1 && b[0] < 0x80)
    ensures Parse(Encode(Str(b)) + r) == Some((Str(b), |Encode(Str(b))|))
  {
    hide *;
    var head := Head(0x80, 0xB7, |b|);
    var w := head + b + r;
    EncodingOfString(b);
    ContentAfter(head, b, r);
    HeaderOfHead(0x80, 0xB7, String, |b|, b + r);
    ParseString(w);
  }

  lemma ParseEncodedList(items: seq<Item>, content: seq<byte>, r: seq<byte>)
    requires content == EncodeAll(items) && |content| < TWO_64 && ParseAll(content) == Some(items)
    ensures Parse(Encode(List(items)) + r) == Some((List(items), |Encode(List(items))|))
  {
    hide *;
    var head := Head(0xC0, 0xF7, |content|);
    var w := head + content + r;
    EncodingOfList(items);
    ContentAfter(head, content, r);
    HeaderOfHead(0xC0, 0xF7, ListKind, |content|, content + r);
    ParseList(w);
  }

  lemma {:induction false} ParseAllOfEncode(items: seq<Item>)
    requires |EncodeAll(items)| < TWO_64
    ensures ParseAll(EncodeAll(items)) == Some(items)
    decreases items, 0
  {
    if items != [] {
      hide Parse, Encode, EncodeAll;
      var w, first, rest := EncodeAll(items), Encode(items[0]), EncodeAll(items[1..]);
      assert items == [items[0]] + items[1..];
      EncodeFirst(items[0], items[1..]);
      ParseOfEncode(items[0], rest);
      ParseAllOfEncode(items[1..]);
      assert w[|first|..] == rest;
    }
  }

  lemma {:induction false} EncodeOfParse(w: seq<byte>)
    requires Parse(w).Some?
    ensures Encode(Parse(w).value.0) == w[..Parse(w).value.1]
    decreases |w|, 0
  {
    hide *;
    ParsedHeader(w);
    var Header(kind, n, h) := ParseHeader(w).value;
    match kind
    case Byte =>
      ParseByte(w);
      EncodeByte(w);
    case String =>
      ParseString(w);
      HeadOfHeader(w);
      EncodeString(w, h, n);
    case ListKind =>
      ParseList(w);
      HeadOfHeader(w);
      EncodeOfParseAll(w[h..h + n]);
      EncodeList(w, h, n, ParseAll(w[h..h + n]).value);
  }

  lemma ParsedHeader(w: seq<byte>)
    requires Parse(w).Some?
    ensures ParseHeader(w).Some? && ParseHeader(w).value.length >= 1
    ensures ParseHeader(w).value.length + ParseHeader(w).value.size <= |w|
  {
  }

  lemma EncodeByte(w: seq<byte>)
    requires w != [] && w[0] < 0x80
    ensures Encode(Str([w[0]])) == w[..1]
  {
  }

  lemma EncodeString(w: seq<byte>, h: nat, n: nat)
    requires h + n <= |w| && w[..h] == Head(0x80, 0xB7, n) && !(n == 1 && w[h] < 0x80)
    ensures Encode(Str(w[h..h + n])) == w[..h + n]
  {
    hide Head;
    assert w[..h + n] == w[..h] + w[h..h + n];
  }

  lemma EncodeList(w: seq<byte>, h: nat, n: nat, items: seq<Item>)
    requires h + n <= |w| && w[..h] == Head(0xC0, 0xF7, n) && EncodeAll(items) == w[h..h + n]
    ensures Encode(List(items)) == w[..h + n]
  {
    hide Head, EncodeAll;
    assert w[..h + n] == w[..h] + w[h..h + n];
  }

  lemma {:induction false} EncodeOfParseAll(w: seq<byte>)
    requires ParseAll(w).Some?
    ensures EncodeAll(ParseAll(w).value) == w
    decreases |w|, 1
  {
    hide *;
    if w == [] {
      NothingParsed();
    } else {
      ParseFirst(w);
      var (v, k) := Parse(w).value;
      EncodeOfParse(w);
      EncodeOfParseAll(w[k..]);
      EncodeFirst(v, ParseAll(w[k..]).value);
      assert w == w[..k] + w[k..];
    }
  }

  lemma NothingParsed()
    ensures ParseAll([]) == Some([]) && EncodeAll([]) == []
  {
  }

  lemma ParseFirst(w: seq<byte>)
    requires w != [] && ParseAll(w).Some?
    ensures Parse(w).Some? && ParseAll(w[Parse(w).value.1..]).Some?
    ensures ParseAll(w).value == [Parse(w).value.0] + ParseAll(w[Parse(w).value.1..]).value
  {
    hide Parse;
  }

  lemma EncodeFirst(v: Item, rest: seq<Item>)
    ensures EncodeAll([v] + rest) == Encode(v) + EncodeAll(rest)
  {
    hide Encode;
    assert ([v] + rest)[1..] == rest;
  }

  /** No encoding is a proper prefix of another, and the encoding determines the value. */
  lemma EncodingsAreDistinct(v: Item, x: Item, r: seq<byte>, s: seq<byte>)
    requires |Encode(v)| < TWO_64 && |Encode(x)| < TWO_64
    requires Encode(v) + r == Encode(x) + s
    ensures v == x && r == s
  {
    ParseOfEncode(v, r);
    ParseOfEncode(x, s);
    assert r == (Encode(v) + r)[|Encode(v)|..];
    assert s == (Encode(x) + s)[|Encode(x)|..];
  }
}
