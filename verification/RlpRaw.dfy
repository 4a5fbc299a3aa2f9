/** Reading encoded values in place, without a stream. */
module RlpRaw {
  import opened Basics
  import opened RlpFormat
  import opened RlpStream

  datatype RawHead = RawHead(kind: Kind, tagSize: nat, contentSize: nat)

  datatype Parts = Parts(kind: Kind, content: seq<byte>, rest: seq<byte>)

  /** The size in `slen` big-endian bytes, put together by shifts. */
  function ShiftedSize(b: seq<byte>, slen: nat): nat
    requires 1 <= slen <= 8 && slen <= |b|
  {
    if slen == 1 then b[0]
    else if slen == 2 then b[0] as int * 0x100 + b[1]
    else if slen == 3 then b[0] as int * 0x1_0000 + b[1] as int * 0x100 + b[2]
    else if slen == 4 then b[0] as int * 0x100_0000 + b[1] as int * 0x1_0000 + b[2] as int * 0x100 + b[3]
    else if slen == 5 then
      b[0] as int * 0x1_0000_0000 + b[1] as int * 0x100_0000 + b[2] as int * 0x1_0000 + b[3] as int * 0x100 + b[4]
    else if slen == 6 then
      b[0] as int * 0x100_0000_0000 + b[1] as int * 0x1_0000_0000 + b[2] as int * 0x100_0000 +
      b[3] as int * 0x1_0000 + b[4] as int * 0x100 + b[5]
    else if slen == 7 then
      b[0] as int * 0x1_0000_0000_0000 + b[1] as int * 0x100_0000_0000 + b[2] as int * 0x1_0000_0000 +
      b[3] as int * 0x100_0000 + b[4] as int * 0x1_0000 + b[5] as int * 0x100 + b[6]
    else
      b[0] as int * 0x100_0000_0000_0000 + b[1] as int * 0x1_0000_0000_0000 + b[2] as int * 0x100_0000_0000 +
      b[3] as int * 0x1_0000_0000 + b[4] as int * 0x100_0000 + b[5] as int * 0x1_0000 + b[6] as int * 0x100 + b[7]
  }

  lemma {:induction false} ShiftedSizeIsValue(b: seq<byte>, slen: nat)
    requires 1 <= slen <= 8 && slen <= |b|
    ensures ShiftedSize(b, slen) == Value(b[..slen])
  {
    if slen == 1 {
      assert b[..1][..0] == [];
    } else {
      ShiftedSizeIsValue(b, slen - 1);
      assert b[..slen][..slen - 1] == b[..slen - 1];
    }
  }

  function ReadSize(b: seq<byte>, slen: nat): Result<nat>
    requires 1 <= slen <= 8
  {
    if slen > |b| then Err(UnexpectedEnd)
    else if ShiftedSize(b, slen) < 56 || b[0] == 0 then Err(NonCanonicalSize)
    else Ok(ShiftedSize(b, slen))
  }

  /** The tag and content sizes of the first value, before they are held against the input. */
  function ReadTag(buf: seq<byte>): Result<RawHead> {
    if |buf| == 0 then Err(UnexpectedEnd)
    else
      var b := buf[0];
      if b < 0x80 then Ok(RawHead(Byte, 0, 1))
      else if b < 0xB8 then
        if b == 0x81 && |buf| > 1 && buf[1] < 128 then Err(NonCanonicalSize)
        else Ok(RawHead(String, 1, b - 0x80))
      else if b < 0xC0 then Long(String, b - 0xB7, ReadSize(buf[1..], b - 0xB7))
      else if b < 0xF8 then Ok(RawHead(ListKind, 1, b - 0xC0))
      else Long(ListKind, b - 0xF7, ReadSize(buf[1..], b - 0xF7))
  }

  function Long(kind: Kind, slen: nat, size: Result<nat>): Result<RawHead> {
    match size
    case Ok(n) => Ok(RawHead(kind, slen + 1, n))
    case Err(e) => Err(e)
  }

  function ReadKind(buf: seq<byte>): Result<RawHead> {
    match ReadTag(buf)
    case Err(e) => Err(e)
    case Ok(h) => if h.contentSize > |buf| - h.tagSize then Err(ValueTooLarge) else Ok(h)
  }

  lemma LongAgrees(w: seq<byte>, kind: Kind, l: nat)
    requires 1 <= l <= 8 && w != []
    ensures Long(kind, l, ReadSize(w[1..], l)).Ok? <==> ParseLong(w, kind, l).Some?
    ensures ParseLong(w, kind, l).Some? ==>
      Long(kind, l, ReadSize(w[1..], l)) == Ok(RawHead(kind, l + 1, ParseLong(w, kind, l).value.size))
  {
    if l < |w| {
      ShiftedSizeIsValue(w[1..], l);
      assert w[1..][..l] == w[1..1 + l];
    }
  }

  /** A one-byte string that should have been a single byte. */
  ghost predicate Wasteful(w: seq<byte>)
    requires Readable(w)
  {
    HeaderOf(w).kind == String && HeaderOf(w).size == 1 && Content(w)[0] < 128
  }

  /** The in-place reader and the stream accept the same headers. */
  lemma ReadersAgree(w: seq<byte>)
    ensures ReadKind(w).Ok? <==> Readable(w) && !Wasteful(w)
    ensures ReadKind(w).Ok? ==>
      var h := ReadKind(w).value;
      && h.kind == HeaderOf(w).kind && h.tagSize + h.contentSize == Total(w)
      && (h.kind == Byte ==> h == RawHead(Byte, 0, 1))
      && (h.kind != Byte ==> h.tagSize == HeaderOf(w).length)
  {
    hide Value, ShiftedSize, ReadSize;
    if w == [] {
    } else if 0xB8 <= w[0] < 0xC0 {
      LongAgrees(w, String, w[0] - 0xB7);
    } else if 0xF8 <= w[0] {
      LongAgrees(w, ListKind, w[0] - 0xF7);
    } else {
      HeaderInSteps(w);
    }
  }

  function Split(b: seq<byte>): Result<Parts> {
    match ReadKind(b)
    case Err(e) => Err(e)
    case Ok(h) =>
      WithinInput(b);
      Ok(Parts(h.kind, b[h.tagSize..h.tagSize + h.contentSize], b[h.tagSize + h.contentSize..]))
  }

  lemma WithinInput(b: seq<byte>)
    requires ReadKind(b).Ok?
    ensures ReadKind(b).value.tagSize + ReadKind(b).value.contentSize <= |b|
  {
    ReadersAgree(b);
  }

  /** Splitting gives the parts of the first value: a string in full, a list as its undecoded content. */
  lemma SplitIsParse(b: seq<byte>)
    ensures Split(b).Err? ==> Parse(b) == None
    ensures Split(b).Ok? ==>
      var p := Split(b).value;
      if p.kind == ListKind then
        && b == Head(0xC0, 0xF7, |p.content|) + p.content + p.rest
        && Parse(b) == (match ParseAll(p.content)
                        case None => None
                        case Some(items) => Some((Item.List(items), |b| - |p.rest|)))
      else b == Encode(Str(p.content)) + p.rest && Parse(b) == Some((Str(p.content), |b| - |p.rest|))
  {
    hide ReadKind, ParseHeader, Parse, ParseAll, Head, Encode;
    ReadersAgree(b);
    NothingReadable(b);
    if Readable(b) {
      ParseOfString(b);
      var t := Total(b);
      assert b == b[..t] + b[t..];
      if ReadKind(b).Ok? {
        if HeaderOf(b).kind == ListKind {
          WholeValue(b);
          ParseOfList(b);
        } else {
          EncodeOfParse(b);
          assert b[0..1] == [b[0]];
        }
      }
    }
  }

  /** Whatever is encoded in front is split off again. */
  lemma SplitOfEncode(v: Item, r: seq<byte>)
    requires |Encode(v)| < TWO_64
    ensures Split(Encode(v) + r) ==
      match v
      case Str(s) => Ok(Parts(if |s| == 1 && s[0] < 0x80 then Byte else String, s, r))
      case List(items) => Ok(Parts(ListKind, EncodeAll(items), r))
  {
    var b := Encode(v) + r;
    SplitIsParse(b);
    ParseOfEncode(v, r);
    SplitKind(b);
    var p := Split(b).value;
    assert b[|Encode(v)|..] == r;
    assert b[|b| - |p.rest|..] == p.rest;
    match v
    case Str(s) =>
      StringKind(s, r);
    case List(items) =>
      EncodeOfParseAll(p.content);
  }

  lemma SplitKind(b: seq<byte>)
    requires Split(b).Ok?
    ensures Readable(b) && Split(b).value.kind == HeaderOf(b).kind
    ensures |Split(b).value.rest| <= |b| && b[|b| - |Split(b).value.rest|..] == Split(b).value.rest
  {
    ReadersAgree(b);
  }

  lemma StringKind(s: seq<byte>, r: seq<byte>)
    requires |Encode(Str(s))| < TWO_64
    ensures ParseHeader(Encode(Str(s)) + r).Some?
    ensures ParseHeader(Encode(Str(s)) + r).value.kind == if |s| == 1 && s[0] < 0x80 then Byte else String
  {
    if |s| == 1 && s[0] < 0x80 {
      SingleByteHeader(Encode(Str(s)) + r);
    } else {
      HeaderOfHead(0x80, 0xB7, String, |s|, s + r);
      assert Encode(Str(s)) + r == Head(0x80, 0xB7, |s|) + (s + r);
    }
  }

  /** `b` is made up of `n` values one after the other. */
  ghost predicate Made(b: seq<byte>, n: nat)
    decreases n
  {
    if n == 0 then b == [] else b != [] && Split(b).Ok? && Made(Split(b).value.rest, n - 1)
  }

  lemma MadeStep(b: seq<byte>, n: nat)
    requires b != []
    ensures Made(b, n) <==> n > 0 && Split(b).Ok? && Made(Split(b).value.rest, n - 1)
  {
  }

  method CountValues(input: seq<byte>) returns (r: Result<nat>)
    ensures r.Ok? ==> Made(input, r.value)
    ensures r.Err? ==> forall n: nat :: !Made(input, n)
  {
    hide ReadKind, Split, Made;
    var b, i := input, 0;
    while |b| > 0
      invariant Counted(input, b, i)
      decreases |b|
    {
      var h := ReadKind(b);
      if h.Err? {
        NotCounted(input, b, i);
        return Err(h.error);
      }
      Progress(b);
      CountOn(input, b, i);
      b := b[h.value.tagSize + h.value.contentSize..];
      i := i + 1;
    }
    assert Made([], 0) by {
      NothingMade();
    }
    r := Ok(i);
  }

  /** `b` is left of the input after `i` values. */
  ghost predicate Counted(input: seq<byte>, b: seq<byte>, i: nat) {
    forall n: nat :: Made(input, n) <==> n >= i && Made(b, n - i)
  }

  lemma CountOn(input: seq<byte>, b: seq<byte>, i: nat)
    requires Counted(input, b, i) && b != [] && Split(b).Ok?
    ensures Counted(input, Split(b).value.rest, i + 1)
  {
    hide Split, Made;
    forall n: nat
      ensures Made(input, n) <==> n >= i + 1 && Made(Split(b).value.rest, n - i - 1)
    {
      if n >= i {
        MadeStep(b, n - i);
      }
    }
  }

  lemma NotCounted(input: seq<byte>, b: seq<byte>, i: nat)
    requires Counted(input, b, i) && b != [] && ReadKind(b).Err?
    ensures forall n: nat :: !Made(input, n)
  {
    hide ReadKind;
    forall n: nat
      ensures !Made(input, n)
    {
      if n >= i {
        MadeStep(b, n - i);
      }
    }
  }

  lemma NothingMade()
    ensures Made([], 0)
  {
  }

  lemma Progress(b: seq<byte>)
    requires ReadKind(b).Ok?
    ensures Split(b).Ok? && |Split(b).value.rest| < |b|
    ensures ReadKind(b).value.tagSize + ReadKind(b).value.contentSize <= |b|
    ensures Split(b).value.rest == b[ReadKind(b).value.tagSize + ReadKind(b).value.contentSize..]
  {
    ReadersAgree(b);
    HeaderLength(b);
  }

  /** The number of values in an encoding of several is how many there are. */
  lemma {:induction false} CountOfEncodeAll(items: seq<Item>, n: nat)
    requires |EncodeAll(items)| < TWO_64
    ensures Made(EncodeAll(items), n) <==> n == |items|
    decreases |items|
  {
    hide Split, Encode;
    if items != [] {
      var w := EncodeAll(items);
      SplitOfEncode(items[0], EncodeAll(items[1..]));
      MadeStep(w, n);
      hide Made;
      if n > 0 {
        CountOfEncodeAll(items[1..], n - 1);
      }
    }
  }
}
