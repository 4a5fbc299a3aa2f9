/** Streaming decoder over a byte slice: piecemeal reads refine the plain parser. */
module RlpStream {
  import opened Basics
  import opened RlpFormat
  import opened RlpEncode

  datatype Error =
    | EndOfList | EndOfInput | UnexpectedEnd | ExpectedString | ExpectedList | NonCanonicalInt | NonCanonicalSize
    | ElementTooLarge | ValueTooLarge | NotInList | NotAtEndOfList | UintOverflow | MoreThanOneValue

  datatype Result<+T> = Ok(value: T) | Err(error: Error)

  /** An open list: how much of it has been read, and its size. */
  datatype ListPos = ListPos(pos: nat, size: nat)

  // ---------- Places in nested lists ----------

  function Top(stack: seq<ListPos>): ListPos
    requires stack != []
  {
    stack[|stack| - 1]
  }

  /** Moves `n` bytes on in the innermost list. */
  function Bump(stack: seq<ListPos>, n: nat): seq<ListPos> {
    if stack == [] then [] else stack[|stack| - 1 := ListPos(Top(stack).pos + n, Top(stack).size)]
  }

  /** Leaves the innermost list, which counts in full in the enclosing one. */
  function Pop(stack: seq<ListPos>): seq<ListPos>
    requires stack != []
  {
    Bump(stack[..|stack| - 1], Top(stack).size)
  }

  /** Every open list ends within the enclosing one, and the outermost within the `left` bytes left. */
  ghost predicate Fits(stack: seq<ListPos>, left: nat)
    decreases |stack|
  {
    stack != [] ==>
      && Top(stack).pos <= Top(stack).size <= Top(stack).pos + left
      && Fits(Pop(stack), left - (Top(stack).size - Top(stack).pos))
  }

  ghost predicate Placed(data: seq<byte>, pos: nat, stack: seq<ListPos>) {
    pos <= |data| && Fits(stack, |data| - pos)
  }

  /** The bytes left in the innermost list, or in the input outside any list. */
  ghost function View(data: seq<byte>, pos: nat, stack: seq<ListPos>): seq<byte>
    requires Placed(data, pos, stack)
  {
    if stack == [] then data[pos..] else data[pos..pos + Top(stack).size - Top(stack).pos]
  }

  lemma Advance(data: seq<byte>, pos: nat, stack: seq<ListPos>, n: nat)
    requires Placed(data, pos, stack) && n <= |View(data, pos, stack)|
    ensures Placed(data, pos + n, Bump(stack, n))
    ensures View(data, pos + n, Bump(stack, n)) == View(data, pos, stack)[n..]
    ensures data[pos..pos + n] == View(data, pos, stack)[..n]
  {
    if stack != [] {
      var k := |stack| - 1;
      assert Bump(stack, n)[..k] == stack[..k];
      assert Pop(Bump(stack, n)) == Pop(stack);
    }
  }

  lemma BumpTwice(stack: seq<ListPos>, m: nat, n: nat)
    ensures Bump(Bump(stack, m), n) == Bump(stack, m + n)
    ensures Bump(stack, 0) == stack && Bump(Bump(stack, m), 0) == Bump(stack, m)
    ensures (Bump(stack, m) == [] <==> stack == []) && (Bump(stack, m + n) == [] <==> stack == [])
  {
  }

  lemma Enter(data: seq<byte>, pos: nat, stack: seq<ListPos>, n: nat)
    requires Placed(data, pos, stack) && n <= |View(data, pos, stack)|
    ensures Placed(data, pos, stack + [ListPos(0, n)])
    ensures View(data, pos, stack + [ListPos(0, n)]) == View(data, pos, stack)[..n]
  {
    var inner := stack + [ListPos(0, n)];
    Advance(data, pos, stack, n);
    assert inner[..|stack|] == stack;
    assert Pop(inner) == Bump(stack, n);
  }

  lemma Leave(data: seq<byte>, pos: nat, stack: seq<ListPos>)
    requires Placed(data, pos, stack) && stack != [] && Top(stack).pos == Top(stack).size
    ensures Placed(data, pos, Pop(stack))
  {
  }

  // ---------- What can be read ahead ----------

  /** A header stands ahead and its content is all there. */
  ghost predicate Readable(w: seq<byte>) {
    ParseHeader(w).Some? && ParseHeader(w).value.length + ParseHeader(w).value.size <= |w|
  }

  ghost function HeaderOf(w: seq<byte>): Header
    requires Readable(w)
  {
    ParseHeader(w).value
  }

  function Need(w: seq<byte>): nat
    requires w != []
  {
    if w[0] < 0xB8 then 0 else if w[0] < 0xC0 then w[0] - 0xB7 else if w[0] < 0xF8 then 0 else w[0] - 0xF7
  }

  /** The header read byte by byte: the tag, then the size bytes it announces. */
  lemma HeaderInSteps(w: seq<byte>)
    requires w != []
    ensures 0 <= Need(w) <= 8
    ensures w[0] < 0x80 ==> ParseHeader(w) == Some(Header(Byte, 0, 1))
    ensures 0x80 <= w[0] < 0xB8 ==> ParseHeader(w) == Some(Header(String, w[0] - 0x80, 1))
    ensures 0xC0 <= w[0] < 0xF8 ==> ParseHeader(w) == Some(Header(ListKind, w[0] - 0xC0, 1))
    ensures 0xB8 <= w[0] < 0xC0 ==> ParseHeader(w) == LongHeader(w[1..], String, w[0] - 0xB7)
    ensures 0xF8 <= w[0] ==> ParseHeader(w) == LongHeader(w[1..], ListKind, w[0] - 0xF7)
  {
    if Need(w) > 0 && Need(w) < |w| {
      assert w[1..][..Need(w)] == w[1..1 + Need(w)];
      SmallSize(w[1..], Need(w));
    }
  }

  /** The size read from `s`, where a single size byte is not checked for zero. */
  ghost function LongHeader(s: seq<byte>, kind: Kind, l: nat): Option<Header>
    requires l > 0
  {
    if |s| < l || (l > 1 && s[0] == 0) || Value(s[..l]) < 56 then None
    else Some(Header(kind, Value(s[..l]), 1 + l))
  }

  lemma SmallSize(s: seq<byte>, l: nat)
    requires 0 < l <= |s|
    ensures l == 1 && s[0] == 0 ==> Value(s[..l]) < 56
  {
    if l == 1 {
      assert s[..1] == [s[0]];
      assert s[..1][..0] == [];
    }
  }

  function TooLarge(inList: bool): Error {
    if inList then ElementTooLarge else ValueTooLarge
  }

  /** Why the header ahead cannot be accepted, if it cannot. */
  ghost function HeaderError(w: seq<byte>, inList: bool): Option<Error> {
    if w == [] then Some(if inList then EndOfList else EndOfInput)
    else if |w| - 1 < Need(w) then Some(TooLarge(inList))
    else if ParseHeader(w).None? then Some(NonCanonicalSize)
    else if !Readable(w) then Some(TooLarge(inList))
    else None
  }

  lemma HeaderErrorIsExact(w: seq<byte>, inList: bool)
    ensures HeaderError(w, inList).None? <==> Readable(w)
    ensures HeaderError(w, inList) == Some(EndOfList) <==> w == [] && inList
  {
  }

  /** The unsigned integer of at most `width` bytes ahead. */
  ghost function ParseUint(w: seq<byte>, inList: bool, width: nat): Result<nat> {
    if !Readable(w) then
      HeaderErrorIsExact(w, inList);
      Err(HeaderError(w, inList).value)
    else
      var Header(kind, n, h) := HeaderOf(w);
      var content := w[h..h + n];
      match kind
      case Byte => if w[0] == 0 then Err(NonCanonicalInt) else Ok(w[0])
      case String =>
        if n > width then Err(UintOverflow)
        else if n > 1 && content[0] == 0 then Err(NonCanonicalInt)
        else if n > 0 && Value(content) < 128 then Err(NonCanonicalSize)
        else Ok(Value(content))
      case ListKind => Err(ExpectedString)
  }

  /** Every unsigned integer that fits is read back. */
  lemma UintRoundTrip(i: nat, r: seq<byte>, inList: bool, width: nat)
    requires 0 < width <= 8 && i < Pow256(width)
    ensures ParseUint(Encode(Str(UintBytes(i))) + r, inList, width) == Ok(i)
  {
    var b := UintBytes(i);
    var w := Encode(Str(b)) + r;
    BigEndianSize(i, width);
    if 0 < i < 128 {
      assert w[0] == i;
    } else {
      HeaderOfHead(0x80, 0xB7, String, |b|, b + r);
      var head := Head(0x80, 0xB7, |b|);
      assert w == head + (b + r);
      assert w[|head|..|head| + |b|] == b;
      ValueOfBigEndian(i);
    }
  }

  /** And an integer is read only from its own encoding. */
  lemma UintIsCanonical(w: seq<byte>, inList: bool, width: nat)
    requires ParseUint(w, inList, width).Ok? && width <= 8
    ensures
      var i := ParseUint(w, inList, width).value;
      var Header(_, n, h) := HeaderOf(w);
      i < TWO_64 && Encode(Str(UintBytes(i))) == w[..h + n]
  {
    var Header(kind, n, h) := HeaderOf(w);
    if kind == Byte {
      assert w[..1] == [w[0]];
    } else {
      HeadOfHeader(w);
      var content := w[h..h + n];
      assert w[..h + n] == w[..h] + content;
      if n > 0 {
        UintContent(content);
      }
    }
  }

  lemma UintContent(c: seq<byte>)
    requires 0 < |c| <= 8 && Value(c) >= 128 && (|c| > 1 ==> c[0] != 0)
    ensures BigEndian(Value(c)) == c && Value(c) < TWO_64
    ensures Encode(Str(c)) == Head(0x80, 0xB7, |c|) + c
  {
    if |c| == 1 {
      assert c[..0] == [];
    }
    BigEndianOfValue(c);
    BigEndianSize(Value(c), 8);
    Powers();
  }

  // ---------- The stream ----------

  class Stream {
    const data: seq<byte>
    var pos: nat
    var remaining: nat
    var kind: Option<Kind>
    var size: nat
    var byteval: byte
    var kinderr: Option<Error>
    var stack: seq<ListPos>
    const uintbuf: array<byte>
    /** Where the value ahead starts, and the open lists as of there. */
    ghost var mark: nat
    ghost var base: seq<ListPos>

    ghost predicate Sound()
      reads this
    {
      && |data| < TWO_64 && uintbuf.Length == 8
      && pos + remaining == |data| && Placed(data, pos, stack)
    }

    ghost function Window(): seq<byte>
      requires Placed(data, pos, stack)
      reads this
    {
      View(data, pos, stack)
    }

    /** The bytes from the value ahead to the end of the innermost list or of the input. */
    ghost function Ahead(): seq<byte>
      requires Placed(data, mark, base)
      reads this
    {
      View(data, mark, base)
    }

    ghost predicate InList()
      reads this
    {
      base != []
    }

    /** A header that was read ahead is the header of the value ahead. */
    ghost predicate Valid()
      reads this
    {
      && Sound() && Placed(data, mark, base)
      && match kind
         case None => mark == pos && base == stack
         case Some(k) => if kinderr.None? then HeaderRead(k)
                         else kinderr == HeaderError(Ahead(), InList()) && kinderr != Some(EndOfList)
    }

    ghost predicate HeaderRead(k: Kind)
      requires Placed(data, mark, base)
      reads this
    {
      && mark <= pos
      && Readable(Ahead()) && HeaderOf(Ahead()) == Header(k, size, pos - mark)
      && stack == Bump(base, pos - mark)
      && (k == Byte ==> byteval == Ahead()[0])
    }

    constructor (b: seq<byte>)
      requires |b| < TWO_64
      ensures Valid() && fresh(uintbuf) && data == b && mark == 0 && base == [] && Ahead() == b
    {
      data, pos, remaining := b, 0, |b|;
      kind, size, byteval, kinderr, stack := None, 0, 0, None, [];
      uintbuf := new byte[8];
      mark, base := 0, [];
    }

    /** Accounts for `n` bytes about to be read. */
    method WillRead(n: nat) returns (err: Option<Error>)
      requires Sound()
      modifies `kind, `stack, `remaining
      ensures kind == None
      ensures n <= |old(Window())| ==> err == None && stack == Bump(old(stack), n) && remaining == old(remaining) - n
      ensures n > |old(Window())| ==> err == Some(TooLarge(stack != [])) && unchanged(`stack) && unchanged(`remaining)
    {
      kind := None;
      if stack != [] {
        var tos := Top(stack);
        if n > tos.size - tos.pos {
          return Some(ElementTooLarge);
        }
        stack := Bump(stack, n);
      }
      if n > remaining {
        return Some(ValueTooLarge);
      }
      remaining := remaining - n;
      err := None;
    }

    method ReadFull(n: nat) returns (b: seq<byte>, err: Option<Error>)
      requires Sound()
      modifies `kind, `stack, `remaining, `pos
      ensures Sound() && kind == None
      ensures n <= |old(Window())| ==> err == None && b == old(Window())[..n] && Read(old(pos), old(stack), n)
      ensures n > |old(Window())| ==> err == Some(TooLarge(stack != [])) && Read(old(pos), old(stack), 0)
    {
      hide Fits, View, Bump;
      b := [];
      ghost var st := stack;
      BumpTwice(stack, 0, 0);
      err := WillRead(n);
      if err == None {
        Advance(data, pos, st, n);
        b := data[pos..pos + n];
        pos := pos + n;
      }
    }

    /** `n` bytes have been read since the given place. */
    ghost predicate Read(p: nat, st: seq<ListPos>, n: nat)
      reads this
    {
      pos == p + n && stack == Bump(st, n)
    }

    method ReadByte() returns (b: byte, err: Option<Error>)
      requires Sound()
      modifies `kind, `stack, `remaining, `pos
      ensures Sound() && kind == None
      ensures old(Window()) != [] ==> err == None && b == old(Window())[0] && Read(old(pos), old(stack), 1)
      ensures old(Window()) == [] ==> err == Some(TooLarge(stack != [])) && Read(old(pos), old(stack), 0)
    {
      hide Fits, View, Bump;
      var s;
      s, err := ReadFull(1);
      b := if err == None then s[0] else 0;
    }

    /** A big-endian integer of `k` bytes; a leading zero is refused when there is more than one byte. */
    method ReadUint(k: nat) returns (v: nat, err: Option<Error>)
      requires Sound() && k <= 8
      modifies `kind, `stack, `remaining, `pos, uintbuf
      ensures Sound() && kind == None
      ensures k > |old(Window())| ==> err == Some(TooLarge(stack != [])) && Read(old(pos), old(stack), 0)
      ensures k <= |old(Window())| ==>
        && Read(old(pos), old(stack), k)
        && err == (if k > 1 && old(Window())[0] == 0 then Some(NonCanonicalSize) else None)
        && (err == None ==> v == Value(old(Window())[..k]))
    {
      hide Fits, View, Bump, Value;
      BumpTwice(stack, 0, 0);
      ghost var w := Window();
      if k == 0 {
        kind := None;
        EmptyValue();
        return 0, None;
      }
      if k == 1 {
        var b;
        b, err := ReadByte();
        if err == None {
          ByteValue(w);
        }
        return b, err;
      }
      var start := 8 - k;
      for i := 0 to start
        invariant forall j :: 0 <= j < i ==> uintbuf[j] == 0
        modifies uintbuf
      {
        uintbuf[i] := 0;
      }
      var s;
      s, err := ReadFull(k);
      if err != None {
        return 0, err;
      }
      forall j | 0 <= j < k {
        uintbuf[start + j] := s[j];
      }
      if uintbuf[start] == 0 {
        return 0, Some(NonCanonicalSize);
      }
      assert uintbuf[..] == uintbuf[..start] + s;
      ValueOfZeros(uintbuf[..start], s);
      v := Value(uintbuf[..]);
    }

    method ReadKind() returns (k: Kind, n: nat, err: Option<Error>)
      requires Sound()
      modifies `kind, `stack, `remaining, `pos, `byteval, uintbuf
      ensures Sound() && kind == None && (stack == [] <==> old(stack) == [])
      ensures old(Window()) == [] ==> err == Some(if stack != [] then ElementTooLarge else EndOfInput)
      ensures old(Window()) != [] ==> HeaderTaken(old(Window()), old(pos), old(stack), k, n, err)
    {
      hide Fits, View, Bump, Value, ParseHeader;
      ghost var w, p, st := Window(), pos, stack;
      BumpTwice(stack, 1, 0);
      var b;
      b, err := ReadByte();
      if err != None {
        if stack == [] {
          err := Some(EndOfInput);
        }
        return Byte, 0, err;
      }
      Advance(data, p, st, 1);
      HeaderInSteps(w);
      byteval := 0;
      if b < 0x80 {
        byteval := b;
        k, n := Byte, 0;
      } else if b < 0xB8 {
        k, n := String, b - 0x80;
      } else if b < 0xC0 {
        n, err := ReadUint(b - 0xB7);
        BumpTwice(st, 1, b - 0xB7);
        if err == None && n < 56 {
          err := Some(NonCanonicalSize);
        }
        k := String;
      } else if b < 0xF8 {
        k, n := ListKind, b - 0xC0;
      } else {
        n, err := ReadUint(b - 0xF7);
        BumpTwice(st, 1, b - 0xF7);
        if err == None && n < 56 {
          err := Some(NonCanonicalSize);
        }
        k := ListKind;
      }
    }

    /** The outcome of reading the header at the front of `w`. */
    ghost predicate HeaderTaken(w: seq<byte>, p: nat, st: seq<ListPos>, k: Kind, n: nat, err: Option<Error>)
      requires w != []
      reads this
    {
      if ParseHeader(w).Some? then
        && err == None && p <= pos && ParseHeader(w).value == Header(k, n, pos - p)
        && Read(p, st, pos - p) && (k == Byte ==> byteval == w[0])
      else err == Some(if |w| - 1 < Need(w) then TooLarge(stack != []) else NonCanonicalSize)
    }

    /**
     * The kind and size of the value ahead.  Asking reads the header the first time and changes
     * nothing afterwards; the value ahead stays the same.
     */
    method Kind() returns (k: Kind, n: nat, err: Option<Error>)
      requires Valid()
      modifies `kind, `size, `kinderr, `stack, `remaining, `pos, `byteval, uintbuf
      ensures Valid()
      ensures err == HeaderError(Ahead(), InList())
      ensures err == None ==> kind == Some(k) && size == n && kinderr == None && HeaderRead(k)
      ensures err == Some(EndOfList) ==> kind == None
    {
      hide Fits, View, Bump, ParseHeader;
      HeaderErrorIsExact(Ahead(), InList());
      if kind == None {
        kinderr := None;
        ViewSize(data, pos, stack);
        if stack != [] && Top(stack).pos == Top(stack).size {
          return Byte, 0, Some(EndOfList);
        }
        ghost var w := Ahead();
        var k0, n0, e := ReadKind();
        kind, size, kinderr := Some(k0), n0, e;
        if e == None {
          HeaderLength(w);
          Advance(data, mark, base, pos - mark);
          ViewSize(data, pos, stack);
          BumpTwice(base, pos - mark, 0);
          if stack == [] {
            if size > remaining {
              kinderr := Some(ValueTooLarge);
            }
          } else {
            if size > Top(stack).size - Top(stack).pos {
              kinderr := Some(ElementTooLarge);
            }
          }
        }
        LongEnough(w);
      }
      return kind.value, size, kinderr;
    }

    /** The `n` bytes ahead of the given place have been consumed. */
    ghost predicate Passed(m: nat, b: seq<ListPos>, n: nat)
      reads this
    {
      kind == None && mark == m + n && base == Bump(b, n)
    }

    /** Enters the list ahead. */
    method List() returns (r: Result<nat>)
      requires Valid()
      modifies `kind, `size, `kinderr, `stack, `remaining, `pos, `byteval, `mark, `base, uintbuf
      ensures Valid()
      ensures r.Ok? ==>
        && Readable(old(Ahead())) && HeaderOf(old(Ahead())).kind == ListKind
        && r.value == HeaderOf(old(Ahead())).size
        && kind == None && mark == old(mark) + HeaderOf(old(Ahead())).length
        && base == Bump(old(base), HeaderOf(old(Ahead())).length) + [ListPos(0, r.value)]
        && Ahead() == Content(old(Ahead()))
      ensures r.Err? ==>
        && mark == old(mark) && base == old(base)
        && if Readable(old(Ahead())) then r.error == ExpectedList && HeaderOf(old(Ahead())).kind != ListKind
           else Some(r.error) == HeaderError(old(Ahead()), old(InList()))
    {
      hide Fits, View, Bump, ParseHeader;
      ghost var w := Ahead();
      HeaderErrorIsExact(w, InList());
      var k, n, err := Kind();
      if err != None {
        return Err(err.value);
      }
      if k != ListKind {
        return Err(ExpectedList);
      }
      Advance(data, mark, base, pos - mark);
      Enter(data, pos, stack, n);
      stack := stack + [ListPos(0, n)];
      kind, size := None, 0;
      mark, base := pos, stack;
      r := Ok(n);
    }

    /** Returns to the enclosing list, which must be asked for at the end of this one. */
    method ListEnd() returns (err: Option<Error>)
      requires Valid()
      modifies `kind, `size, `stack, `mark, `base
      ensures Valid()
      ensures err == if old(stack) == [] then Some(NotInList)
                     else if Top(old(stack)).pos != Top(old(stack)).size then Some(NotAtEndOfList) else None
      ensures err == None ==> kind == None && mark == pos && base == Pop(old(stack))
      ensures err != None ==> unchanged(this)
    {
      hide Fits, View, ParseHeader;
      if stack == [] {
        return Some(NotInList);
      }
      if Top(stack).pos != Top(stack).size {
        return Some(NotAtEndOfList);
      }
      Leave(data, pos, stack);
      stack := Pop(stack);
      kind, size := None, 0;
      mark, base := pos, stack;
      err := None;
    }

    /** The string ahead, which must be in its shortest form. */
    method Bytes() returns (r: Result<seq<byte>>)
      requires Valid()
      modifies `kind, `size, `kinderr, `stack, `remaining, `pos, `byteval, `mark, `base, uintbuf
      ensures Valid()
      ensures r.Ok? ==>
        && Readable(old(Ahead())) && Parse(old(Ahead())) == Some((Str(r.value), Total(old(Ahead()))))
        && Passed(old(mark), old(base), Total(old(Ahead())))
      ensures r.Err? ==> BytesError(old(Ahead()), old(InList()), r.error)
    {
      hide Fits, View, Bump, ParseHeader, Parse;
      ghost var w := Ahead();
      HeaderErrorIsExact(w, InList());
      var k, n, err := Kind();
      if err != None {
        return Err(err.value);
      }
      ParseOfString(w);
      Advance(data, mark, base, pos - mark);
      match k {
        case Byte =>
          kind := None;
          mark, base := pos, stack;
          r := Ok([byteval]);
        case String =>
          var b;
          BumpTwice(base, pos - mark, n);
          ContentIs(w, pos - mark, n);
          b, err := ReadFull(n);
          mark, base := pos, stack;
          if n == 1 && b[0] < 128 {
            r := Err(NonCanonicalSize);
          } else {
            r := Ok(b);
          }
        case ListKind =>
          r := Err(ExpectedString);
      }
    }

    /** The value ahead as it stands in the input; its header is put together again. */
    method Raw() returns (r: Result<seq<byte>>)
      requires Valid()
      modifies `kind, `size, `kinderr, `stack, `remaining, `pos, `byteval, `mark, `base, uintbuf
      ensures Valid()
      ensures r.Ok? <==> Readable(old(Ahead()))
      ensures r.Ok? ==> r.value == old(Ahead())[..Total(old(Ahead()))] && Passed(old(mark), old(base), |r.value|)
      ensures r.Err? ==> Some(r.error) == HeaderError(old(Ahead()), old(InList()))
    {
      hide Fits, View, Bump, ParseHeader, Head, Stored, BigEndian;
      ghost var w := Ahead();
      HeaderErrorIsExact(w, InList());
      var k, n, err := Kind();
      if err != None {
        return Err(err.value);
      }
      Advance(data, mark, base, pos - mark);
      if k == Byte {
        ParseOfString(w);
        kind := None;
        mark, base := pos, stack;
        return Ok([byteval]);
      }
      BumpTwice(base, pos - mark, n);
      ContentIs(w, pos - mark, n);
      WholeValue(w);
      var small: byte, large: byte := if k == String then 0x80 else 0xC0, if k == String then 0xB7 else 0xF7;
      var start := HeadSize(n, small, large);
      var content;
      content, err := ReadFull(n);
      mark, base := pos, stack;
      var value := Rebuild(small, large, start, content);
      r := Ok(value);
    }

    /** The unsigned integer ahead, of at most `width` bytes. */
    method Uint(width: nat) returns (r: Result<nat>)
      requires Valid() && width <= 8
      modifies `kind, `size, `kinderr, `stack, `remaining, `pos, `byteval, `mark, `base, uintbuf
      ensures Valid()
      ensures r == ParseUint(old(Ahead()), old(InList()), width)
      ensures r.Ok? ==> Passed(old(mark), old(base), Total(old(Ahead())))
    {
      hide Fits, View, Bump, ParseHeader, Value;
      ghost var w := Ahead();
      HeaderErrorIsExact(w, InList());
      var k, n, err := Kind();
      if err != None {
        return Err(err.value);
      }
      ParseOfString(w);
      Advance(data, mark, base, pos - mark);
      match k {
        case Byte =>
          if byteval == 0 {
            return Err(NonCanonicalInt);
          }
          kind := None;
          mark, base := pos, stack;
          r := Ok(byteval);
        case String =>
          if n > width {
            return Err(UintOverflow);
          }
          BumpTwice(base, pos - mark, n);
          ContentIs(w, pos - mark, n);
          var v;
          v, err := ReadUint(n);
          mark, base := pos, stack;
          if err == Some(NonCanonicalSize) {
            r := Err(NonCanonicalInt);
          } else if n > 0 && v < 128 {
            r := Err(NonCanonicalSize);
          } else {
            r := Ok(v);
          }
        case ListKind =>
          r := Err(ExpectedString);
      }
    }

    /** Decodes the value ahead, exactly when the bytes ahead start with the encoding of one. */
    method DecodeItem() returns (r: Result<Item>)
      requires Valid()
      modifies this, uintbuf
      ensures Valid()
      ensures r.Ok? ==> DecodedAs(old(Ahead()), r.value, old(mark), old(base))
      ensures r == Err(EndOfList) <==> old(InList()) && old(Ahead()) == []
      ensures r == Err(EndOfList) ==> kind == None && mark == old(mark) && base == old(base)
      ensures r.Err? ==> Parse(old(Ahead())) == None && r.error != MoreThanOneValue
      decreases |Ahead()|, 0
    {
      hide Fits, View, Bump, ParseHeader, Parse;
      ghost var w := Ahead();
      HeaderErrorIsExact(w, InList());
      NothingReadable(w);
      var k, n, err := Kind();
      if err != None {
        return Err(err.value);
      }
      HeaderLength(w);
      if k == ListKind {
        r := DecodeList();
      } else {
        ParseOfString(w);
        var b := Bytes();
        r := if b.Ok? then Ok(Str(b.value)) else Err(b.error);
      }
    }

    /** `v` has been decoded from the front of `w`, which started at the given place. */
    ghost predicate DecodedAs(w: seq<byte>, v: Item, m: nat, b: seq<ListPos>)
      reads this
    {
      Parse(w).Some? && Parse(w).value.0 == v && Passed(m, b, Parse(w).value.1)
    }

    method DecodeList() returns (r: Result<Item>)
      requires Valid() && Readable(Ahead()) && HeaderOf(Ahead()).kind == ListKind
      modifies this, uintbuf
      ensures Valid()
      ensures r.Ok? ==> DecodedAs(old(Ahead()), r.value, old(mark), old(base))
      ensures r.Err? ==> Parse(old(Ahead())) == None && r.error != EndOfList && r.error != MoreThanOneValue
      decreases |Ahead()| - 1, 2
    {
      hide Fits, View, Bump, ParseHeader, Parse, ParseAll;
      ghost var w, b := Ahead(), base;
      HeaderLength(w);
      ParseOfList(w);
      var n := List();
      ghost var h := HeaderOf(w).length;
      LeaveWhole(Bump(b, h), n.value);
      BumpTwice(b, h, n.value);
      if n.value == 0 {
        EmptyContent(w);
        BumpTwice(base, 0, 0);
        var _ := ListEnd();
        return Ok(Item.List([]));
      }
      var items := DecodeElements();
      if items.Err? {
        return Err(items.error);
      }
      var _ := ListEnd();
      r := Ok(Item.List(items.value));
    }

    /** Decodes elements until the end of the list. */
    method DecodeElements() returns (r: Result<seq<Item>>)
      requires Valid() && kind == None && InList()
      modifies this, uintbuf
      ensures Valid()
      ensures r.Ok? ==> ParseAll(old(Ahead())) == Some(r.value) && Passed(old(mark), old(base), |old(Ahead())|)
      ensures r.Err? ==> ParseAll(old(Ahead())) == None && r.error != EndOfList && r.error != MoreThanOneValue
      decreases |Ahead()|, 1
    {
      hide Fits, View, Bump, ParseHeader, Parse, ParseAll;
      ghost var w, b, m := Ahead(), base, 0;
      var xs := [];
      BumpTwice(b, 0, 0);
      Advance(data, mark, base, 0);
      ParsedNone(w);
      while true
        invariant Valid() && m <= |w| && Passed(old(mark), b, m)
        invariant Ahead() == w[m..]
        invariant ParseAll(w) == Prepend(xs, ParseAll(w[m..]))
        decreases |w| - m
      {
        BumpTwice(b, m, 0);
        Advance(data, old(mark), b, m);
        var x := DecodeItem();
        ParseAllStep(w[m..]);
        if x == Err(EndOfList) {
          assert w[m..] == [] && m == |w| && xs + [] == xs;
          return Ok(xs);
        }
        if x.Err? {
          return Err(x.error);
        }
        ghost var k := Parse(w[m..]).value.1;
        Advance(data, old(mark) + m, Bump(b, m), k);
        BumpTwice(b, m, k);
        assert w[m..][k..] == w[m + k..];
        PrependTwice(xs, [x.value], ParseAll(w[m + k..]));
        xs := xs + [x.value];
        m := m + k;
      }
    }
  }

  lemma NothingReadable(w: seq<byte>)
    ensures !Readable(w) ==> Parse(w) == None
    ensures w == [] ==> Parse(w) == None
  {
  }

  lemma LeaveWhole(st: seq<ListPos>, n: nat)
    ensures
      var inner := Bump(st + [ListPos(0, n)], n);
      inner != [] && Top(inner) == ListPos(n, n) && Pop(inner) == Bump(st, n)
  {
    assert (st + [ListPos(0, n)])[..|st|] == st;
  }

  lemma EmptyContent(w: seq<byte>)
    requires Readable(w) && HeaderOf(w).size == 0
    ensures ParseAll(Content(w)) == Some([])
  {
  }

  lemma ParsedNone(w: seq<byte>)
    ensures w[0..] == w && ParseAll(w) == Prepend([], ParseAll(w[0..]))
  {
    assert w[0..] == w;
    if ParseAll(w).Some? {
      assert [] + ParseAll(w).value == ParseAll(w).value;
    }
  }

  lemma ParseAllStep(w: seq<byte>)
    ensures w == [] ==> ParseAll(w) == Some([])
    ensures w != [] && Parse(w) == None ==> ParseAll(w) == None
    ensures w != [] && Parse(w).Some? ==>
      ParseAll(w) == Prepend([Parse(w).value.0], ParseAll(w[Parse(w).value.1..]))
  {
  }

  lemma PrependTwice(xs: seq<Item>, ys: seq<Item>, rest: Option<seq<Item>>)
    ensures Prepend(xs, Prepend(ys, rest)) == Prepend(xs + ys, rest)
  {
    if rest.Some? {
      assert xs + (ys + rest.value) == (xs + ys) + rest.value;
    }
  }

  /**
   * Decoding a byte slice: exactly the encodings are accepted, each gives back its value,
   * and trailing bytes are refused.
   */
  method DecodeBytes(b: seq<byte>) returns (r: Result<Item>)
    requires |b| < TWO_64
    ensures r.Ok? ==> Encode(r.value) == b
    ensures r.Err? ==> !exists v: Item :: Encode(v) == b
    ensures r == Err(MoreThanOneValue) <==> Parse(b).Some? && Parse(b).value.1 < |b|
  {
    hide Parse, Encode;
    var s := new Stream(b);
    r := s.DecodeItem();
    if r.Ok? {
      EncodeOfParse(b);
      assert b[..|b|] == b;
      if |b| - s.pos > 0 {
        r := Err(MoreThanOneValue);
      }
    }
    OnlyEncodings(b);
  }

  /** What is not parsed to the end is not an encoding. */
  lemma OnlyEncodings(b: seq<byte>)
    requires |b| < TWO_64
    ensures (Parse(b).Some? && Parse(b).value.1 == |b|) <==> exists v: Item :: Encode(v) == b
  {
    if Parse(b).Some? && Parse(b).value.1 == |b| {
      EncodeOfParse(b);
      assert Encode(Parse(b).value.0) == b;
    }
    forall v: Item | Encode(v) == b
      ensures Parse(b) == Some((v, |b|))
    {
      ParseOfEncode(v, []);
      assert b + [] == b;
    }
  }

  /** The header size for `n` bytes of content. */
  method HeadSize(n: nat, small: byte, large: byte) returns (k: nat)
    ensures k == |Head(small, large, n)|
  {
    if n < 56 {
      return 1;
    }
    k := IntSize(n);
    k := k + 1;
  }

  method Rebuild(small: byte, large: byte, start: nat, content: seq<byte>) returns (value: seq<byte>)
    requires |content| < TWO_64 && start == |Head(small, large, |content|)|
    ensures value == Head(small, large, |content|) + content
  {
    hide Head;
    var buf := new byte[start + |content|];
    Copy(buf, start, content);
    ghost var mid := buf[..];
    var _ := PutHead(buf, 0, small, large, |content|);
    StoredPrefix(buf[..], mid, 0, Head(small, large, |content|));
    StoredSuffix(buf[..], mid, 0, Head(small, large, |content|));
    value := buf[..];
    assert value == value[..start] + value[start..];
    assert mid[start..] == content;
  }

  lemma WholeValue(w: seq<byte>)
    requires Readable(w) && HeaderOf(w).kind != Byte
    ensures
      var head := if HeaderOf(w).kind == String then Head(0x80, 0xB7, HeaderOf(w).size)
                  else Head(0xC0, 0xF7, HeaderOf(w).size);
      w[..Total(w)] == head + Content(w)
  {
    HeadOfHeader(w);
    var h := HeaderOf(w).length;
    assert w[..Total(w)] == w[..h] + Content(w);
  }

  lemma ContentIs(w: seq<byte>, h: nat, n: nat)
    requires Readable(w) && HeaderOf(w).length == h && HeaderOf(w).size == n
    ensures h + n <= |w| && w[h..][..n] == Content(w) && Total(w) == h + n
  {
  }

  ghost function Total(w: seq<byte>): nat
    requires Readable(w)
  {
    HeaderOf(w).length + HeaderOf(w).size
  }

  ghost function Content(w: seq<byte>): seq<byte>
    requires Readable(w)
  {
    w[HeaderOf(w).length..Total(w)]
  }

  ghost predicate BytesError(w: seq<byte>, inList: bool, e: Error) {
    if !Readable(w) then Some(e) == HeaderError(w, inList)
    else
      match HeaderOf(w).kind
      case Byte => false
      case String => HeaderOf(w).size == 1 && Content(w)[0] < 128 && e == NonCanonicalSize
      case ListKind => e == ExpectedString
  }

  lemma ParseOfString(w: seq<byte>)
    requires Readable(w)
    ensures HeaderOf(w).kind == Byte ==>
      HeaderOf(w) == Header(Byte, 0, 1) && w != [] && Parse(w) == Some((Str([w[0]]), 1))
    ensures HeaderOf(w).kind == String ==>
      Parse(w) == if HeaderOf(w).size == 1 && Content(w)[0] < 128 then None else Some((Str(Content(w)), Total(w)))
  {
  }

  lemma ParseOfList(w: seq<byte>)
    requires Readable(w) && HeaderOf(w).kind == ListKind
    ensures ParseAll(Content(w)).None? ==> Parse(w) == None
    ensures ParseAll(Content(w)).Some? ==> Parse(w) == Some((Item.List(ParseAll(Content(w)).value), Total(w)))
  {
  }

  lemma ViewSize(data: seq<byte>, pos: nat, stack: seq<ListPos>)
    requires Placed(data, pos, stack)
    ensures |View(data, pos, stack)| ==
      if stack == [] then |data| - pos else Top(stack).size - Top(stack).pos
  {
  }

  lemma LongEnough(w: seq<byte>)
    ensures w != [] && ParseHeader(w).Some? ==> |w| - 1 >= Need(w)
  {
  }

  lemma EmptyValue()
    ensures Value([]) == 0
  {
  }

  lemma ByteValue(w: seq<byte>)
    requires w != []
    ensures Value(w[..1]) == w[0]
  {
    assert w[..1][..0] == [];
  }
}
