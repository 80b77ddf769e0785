/**
 * Primitive pvData encoding: fixed-width integers in either byte order, the
 * 'Sizes' encoding and length-prefixed strings, first as functions on byte
 * strings and then as the cursor classes the decoders advance.
 */
module PvData {
  import opened Wrappers

  type byte = n: int | 0 <= n < 256
  type i16 = n: int | -0x8000 <= n < 0x8000
  type i32 = n: int | -0x8000_0000 <= n < 0x8000_0000

  datatype ByteOrder = LittleEndian | BigEndian

  /** Why a nested or top-level type tag was rejected; the original carries a message text. */
  datatype ProtocolReason = UnknownId(id: i16) | NestedNull | NestedOnlyId(id: i16)

  datatype DecodeError =
    | UnexpectedEnd(needed: nat, available: nat)
    | UnexpectedNull
    | InvalidSize(size: int)
    | InvalidUtf8
    | UnknownTypeCode(code: byte)
    | Protocol(reason: ProtocolReason)

  /** What a parse yields: a value with the bytes left over, or an error. */
  datatype Parsed<+T> = Got(value: T, rest: seq<byte>) | Failed(error: DecodeError) {
    predicate IsFailure() {
      Failed?
    }

    function PropagateFailure<U>(): Parsed<U>
      requires Failed?
    {
      Failed(error)
    }

    function Extract(): (T, seq<byte>)
      requires Got?
    {
      (value, rest)
    }
  }

  // -------------------------------------------------------------------------
  // Two's-complement integers
  // -------------------------------------------------------------------------

  /** The `as i32` cast: keep the low 32 bits and read them as signed. */
  function WrapI32(n: int): i32 {
    Signed(n % 0x1_0000_0000)
  }

  function Signed(u: int): i32
    requires 0 <= u < 0x1_0000_0000
  {
    if u < 0x8000_0000 then u else u - 0x1_0000_0000
  }

  /** Base-256 digits, least significant first. */
  function LeBytes(u: int): (s: seq<byte>)
    requires 0 <= u < 0x1_0000_0000
    ensures |s| == 4
  {
    [u % 256, u / 256 % 256, u / 65536 % 256, u / 16777216]
  }

  function LeOf(s: seq<byte>): (u: int)
    requires |s| == 4
    ensures 0 <= u < 0x1_0000_0000
  {
    s[0] as int + 256 * s[1] as int + 65536 * s[2] as int + 16777216 * s[3] as int
  }

  /** Bytes in wire order; applying it twice restores the order. */
  function Arrange(order: ByteOrder, s: seq<byte>): (t: seq<byte>)
    requires |s| == 4
    ensures |t| == 4
  {
    if order == LittleEndian then s else [s[3], s[2], s[1], s[0]]
  }

  function I32Bytes(order: ByteOrder, v: i32): (bytes: seq<byte>)
    ensures |bytes| == 4
  {
    Arrange(order, LeBytes(v % 0x1_0000_0000))
  }

  function I32Of(order: ByteOrder, s: seq<byte>): i32
    requires |s| == 4
  {
    Signed(LeOf(Arrange(order, s)))
  }

  function I16Of(order: ByteOrder, s: seq<byte>): i16
    requires |s| == 2
  {
    var u := if order == LittleEndian then s[0] as int + 256 * s[1] as int else s[1] as int + 256 * s[0] as int;
    if u < 0x8000 then u else u - 0x1_0000
  }

  function I16Bytes(order: ByteOrder, v: i16): (bytes: seq<byte>)
    ensures |bytes| == 2
  {
    var low: byte, high: byte := v % 0x1_0000 % 256, v % 0x1_0000 / 256;
    if order == LittleEndian then [low, high] else [high, low]
  }

  lemma LeRoundTrip(u: int)
    requires 0 <= u < 0x1_0000_0000
    ensures LeOf(LeBytes(u)) == u
  {
    assert u / 65536 == u / 256 / 256 && u / 16777216 == u / 65536 / 256;
  }

  lemma LeSurjective(s: seq<byte>)
    requires |s| == 4
    ensures LeBytes(LeOf(s)) == s
  {
    var u := LeOf(s);
    assert u / 256 == s[1] as int + 256 * s[2] as int + 65536 * s[3] as int;
    assert u / 65536 == s[2] as int + 256 * s[3] as int;
  }

  lemma I32RoundTrip(order: ByteOrder, v: i32)
    ensures I32Of(order, I32Bytes(order, v)) == v
  {
    hide LeBytes, LeOf;
    var u := v % 0x1_0000_0000;
    LeRoundTrip(u);
    assert Arrange(order, Arrange(order, LeBytes(u))) == LeBytes(u);
  }

  lemma I32Surjective(order: ByteOrder, s: seq<byte>)
    requires |s| == 4
    ensures I32Bytes(order, I32Of(order, s)) == s
  {
    hide LeBytes, LeOf;
    LeSurjective(Arrange(order, s));
    assert Arrange(order, Arrange(order, s)) == s;
  }

  lemma I16RoundTrip(order: ByteOrder, v: i16)
    ensures I16Of(order, I16Bytes(order, v)) == v
  {
  }

  /** Little-endian bytes have the least significant first and big-endian ones last; the sign is the top bit. */
  lemma I32ByPosition(a: byte, b: byte, c: byte, d: byte)
    ensures var u: int := a as int + 0x100 * b as int + 0x1_0000 * c as int + 0x100_0000 * d as int;
      var v := if d < 0x80 then u else u - 0x1_0000_0000;
      && I32Of(LittleEndian, [a, b, c, d]) == v && I32Bytes(LittleEndian, v) == [a, b, c, d]
      && I32Of(BigEndian, [d, c, b, a]) == v && I32Bytes(BigEndian, v) == [d, c, b, a]
  {
    I32Surjective(LittleEndian, [a, b, c, d]);
    I32Surjective(BigEndian, [d, c, b, a]);
    hide I32Bytes;
  }

  lemma I16ByPosition(a: byte, b: byte)
    ensures var u: int := a as int + 0x100 * b as int;
      var v := if b < 0x80 then u else u - 0x1_0000;
      && I16Of(LittleEndian, [a, b]) == v && I16Bytes(LittleEndian, v) == [a, b]
      && I16Of(BigEndian, [b, a]) == v && I16Bytes(BigEndian, v) == [b, a]
  {
    var u: int := a as int + 0x100 * b as int;
    var v := if b < 0x80 then u else u - 0x1_0000;
    assert v % 0x1_0000 == u && u % 0x100 == a as int && u / 0x100 == b as int;
  }

  // -------------------------------------------------------------------------
  // Sizes and strings
  // -------------------------------------------------------------------------

  const SIZE_NULL: byte := 255
  const SIZE_EXTENDED: byte := 254

  function ParseU8(s: seq<byte>): Parsed<byte> {
    if |s| < 1 then Failed(UnexpectedEnd(1, |s|)) else Got(s[0], s[1..])
  }

  function ParseBytes(n: nat, s: seq<byte>): Parsed<seq<byte>> {
    if |s| < n then Failed(UnexpectedEnd(n, |s|)) else Got(s[..n], s[n..])
  }

  function ParseI16(order: ByteOrder, s: seq<byte>): Parsed<i16> {
    if |s| < 2 then Failed(UnexpectedEnd(2, |s|)) else Got(I16Of(order, s[..2]), s[2..])
  }

  function ParseI32(order: ByteOrder, s: seq<byte>): Parsed<i32> {
    if |s| < 4 then Failed(UnexpectedEnd(4, |s|)) else Got(I32Of(order, s[..4]), s[4..])
  }

  function ParseSize(order: ByteOrder, s: seq<byte>): Parsed<Option<nat>> {
    var (tag, s1) :- ParseU8(s);
    if tag == SIZE_NULL then
      Got(None, s1)
    else if tag == SIZE_EXTENDED then
      var (n, s2) :- ParseI32(order, s1);
      if n < 0 then Failed(InvalidSize(n)) else Got(Some(n), s2)
    else
      Got(Some(tag), s1)
  }

  /** Every size that is read fits a signed 32-bit integer, and reading one consumes a byte. */
  function ParseSizeNonNull(order: ByteOrder, s: seq<byte>): (p: Parsed<nat>)
    ensures p.Got? ==> p.value < 0x8000_0000 && |p.rest| < |s|
  {
    var (n, rest) :- ParseSize(order, s);
    if n.None? then Failed(UnexpectedNull) else Got(n.value, rest)
  }

  function SizeBytes(order: ByteOrder, n: nat): (bytes: seq<byte>)
    ensures |bytes| == if n < 254 then 1 else 5
  {
    if n < 254 then [n] else [SIZE_EXTENDED] + I32Bytes(order, WrapI32(n))
  }

  /** Continuation byte of a multi-byte UTF-8 sequence. */
  predicate Continues(s: seq<byte>, i: nat) {
    i < |s| && 0x80 <= s[i] <= 0xBF
  }

  /** Well-formed UTF-8, as table 3-7 of the Unicode standard defines it. */
  predicate Utf8(s: seq<byte>) {
    if s == [] then true
    else if s[0] <= 0x7F then Utf8(s[1..])
    else if 0xC2 <= s[0] <= 0xDF then Continues(s, 1) && Utf8(s[2..])
    else if 0xE0 <= s[0] <= 0xEF then
      && Continues(s, 1) && Continues(s, 2)
      && (s[0] == 0xE0 ==> 0xA0 <= s[1])
      && (s[0] == 0xED ==> s[1] <= 0x9F)
      && Utf8(s[3..])
    else if 0xF0 <= s[0] <= 0xF4 then
      && Continues(s, 1) && Continues(s, 2) && Continues(s, 3)
      && (s[0] == 0xF0 ==> 0x90 <= s[1])
      && (s[0] == 0xF4 ==> s[1] <= 0x8F)
      && Utf8(s[4..])
    else false
  }

  function ParseString(order: ByteOrder, s: seq<byte>): (p: Parsed<seq<byte>>)
    ensures p.Got? ==> Utf8(p.value) && |p.value| < 0x8000_0000 && |p.rest| < |s|
  {
    var (len, s1) :- ParseSizeNonNull(order, s);
    if len == 0 then
      Got([], s1)
    else
      var (text, s2) :- ParseBytes(len, s1);
      if Utf8(text) then Got(text, s2) else Failed(InvalidUtf8)
  }

  function StringBytes(order: ByteOrder, s: seq<byte>): seq<byte> {
    SizeBytes(order, |s|) + s
  }

  lemma ParseExtendedSize(order: ByteOrder, w: i32, rest: seq<byte>)
    ensures ParseSize(order, [SIZE_EXTENDED] + I32Bytes(order, w) + rest)
         == if w < 0 then Failed(InvalidSize(w)) else Got(Some(w), rest)
  {
    var tail := I32Bytes(order, w) + rest;
    assert ([SIZE_EXTENDED] + I32Bytes(order, w) + rest)[1..] == tail;
    assert tail[..4] == I32Bytes(order, w) && tail[4..] == rest;
    I32RoundTrip(order, w);
  }

  /** What the `as i32` cast keeps: the value modulo 2^32, and of the sizes exactly those below 2^31. */
  lemma WrapKeeps(n: nat)
    ensures (n - WrapI32(n)) % 0x1_0000_0000 == 0
    ensures WrapI32(n) == n <==> n < 0x8000_0000
  {
  }

  /**
   * The writer casts a size to i32 before storing it, so a size survives the
   * wire exactly when it is below 2^31.
   */
  lemma {:induction false} SizeRoundTrip(order: ByteOrder, n: nat, rest: seq<byte>)
    ensures ParseSizeNonNull(order, SizeBytes(order, n) + rest) == Got(n, rest) <==> n < 0x8000_0000
  {
    var wire := SizeBytes(order, n) + rest;
    if n < 254 {
      assert wire[1..] == rest;
    } else {
      var w := WrapI32(n);
      WrapKeeps(n);
      ParseExtendedSize(order, w, rest);
      var p := ParseSizeNonNull(order, wire);
      assert if w < 0 then p == Failed(InvalidSize(w)) else p == Got(w, rest);
    }
  }

  lemma {:induction false} ParseStringAfterSize(order: ByteOrder, wire: seq<byte>, s: seq<byte>, rest: seq<byte>)
    requires ParseSizeNonNull(order, wire) == Got(|s|, s + rest)
    requires Utf8(s)
    ensures ParseString(order, wire) == Got(s, rest)
  {
    assert (s + rest)[..|s|] == s && (s + rest)[|s|..] == rest;
  }

  lemma {:induction false} StringRoundTrip(order: ByteOrder, s: seq<byte>, rest: seq<byte>)
    requires Utf8(s)
    ensures ParseString(order, StringBytes(order, s) + rest) == Got(s, rest) <==> |s| < 0x8000_0000
  {
    var wire := StringBytes(order, s) + rest;
    assert wire == SizeBytes(order, |s|) + (s + rest);
    if |s| < 0x8000_0000 {
      SizeRoundTrip(order, |s|, s + rest);
      ParseStringAfterSize(order, wire, s, rest);
    }
  }

  /**
   * What each first byte says of a size: below 254 it is the size, 254 puts a signed
   * 32-bit integer behind it, which must not be negative, and 255 is the null size.
   */
  lemma SizeOnBytes(order: ByteOrder, s: seq<byte>)
    ensures ParseSizeNonNull(order, s)
      == if s == [] then Failed(UnexpectedEnd(1, 0))
         else if s[0] < 254 then Got(s[0], s[1..])
         else if s[0] == 255 then Failed(UnexpectedNull)
         else if |s| < 5 then Failed(UnexpectedEnd(4, |s| - 1))
         else if I32Of(order, s[1..5]) < 0 then Failed(InvalidSize(I32Of(order, s[1..5])))
         else Got(I32Of(order, s[1..5]), s[5..])
  {
    if |s| >= 5 {
      assert s[1..][..4] == s[1..5] && s[1..][4..] == s[5..];
    }
  }

  /** Of a string whose size has been read, exactly the missing bytes and the ill-formed text are errors. */
  lemma StringOnBytes(order: ByteOrder, n: nat, wire: seq<byte>, s: seq<byte>)
    requires ParseSizeNonNull(order, wire) == Got(n, s)
    ensures ParseString(order, wire)
      == if |s| < n then Failed(UnexpectedEnd(n, |s|))
         else if Utf8(s[..n]) then Got(s[..n], s[n..]) else Failed(InvalidUtf8)
  {
    assert n == 0 ==> s[..n] == [] && s[n..] == s;
  }

  // ---- UTF-8 ----

  /** A Unicode scalar value: a code point that is not a surrogate. */
  type Scalar = c: int | 0 <= c < 0xD800 || 0xE000 <= c < 0x11_0000

  function ScalarBytes(c: Scalar): seq<byte> {
    if c < 0x80 then [c]
    else if c < 0x800 then [0xC0 + c / 64, 0x80 + c % 64]
    else if c < 0x1_0000 then [0xE0 + c / 4096, 0x80 + c / 64 % 64, 0x80 + c % 64]
    else [0xF0 + c / 262144, 0x80 + c / 4096 % 64, 0x80 + c / 64 % 64, 0x80 + c % 64]
  }

  function TextBytes(cs: seq<Scalar>): seq<byte> {
    if cs == [] then [] else ScalarBytes(cs[0]) + TextBytes(cs[1..])
  }

  lemma ScalarThenText(c: Scalar, rest: seq<byte>)
    ensures Utf8(ScalarBytes(c) + rest) <==> Utf8(rest)
  {
    var b, s := ScalarBytes(c), ScalarBytes(c) + rest;
    assert s[|b|..] == rest && forall i | 0 <= i < |b| :: s[i] == b[i];
    assert c / 4096 == c / 64 / 64 && c / 262144 == c / 4096 / 64;
  }

  lemma SixBitDigits(a: int, b: int, c: int, d: int)
    requires 0 <= a && 0 <= b < 64 && 0 <= c < 64 && 0 <= d < 64
    ensures var n := a * 262144 + b * 4096 + c * 64 + d;
      n % 64 == d && n / 64 == a * 4096 + b * 64 + c && n / 64 % 64 == c
      && n / 4096 == a * 64 + b && n / 4096 % 64 == b && n / 262144 == a
  {
    var n := a * 262144 + b * 4096 + c * 64 + d;
    assert n / 64 == a * 4096 + b * 64 + c;
    assert n / 4096 == a * 64 + b;
    assert n / 262144 == a;
  }

  lemma TwoByteScalar(a: byte, b: byte) returns (c: Scalar)
    requires 0xC2 <= a <= 0xDF && 0x80 <= b <= 0xBF
    ensures ScalarBytes(c) == [a, b]
  {
    c := (a as int - 0xC0) * 64 + (b as int - 0x80);
    SixBitDigits(0, 0, a as int - 0xC0, b as int - 0x80);
  }

  lemma ThreeByteScalar(a: byte, b: byte, d: byte) returns (c: Scalar)
    requires 0xE0 <= a <= 0xEF && 0x80 <= b <= 0xBF && 0x80 <= d <= 0xBF
    requires (a == 0xE0 ==> 0xA0 <= b) && (a == 0xED ==> b <= 0x9F)
    ensures ScalarBytes(c) == [a, b, d]
  {
    c := (a as int - 0xE0) * 4096 + (b as int - 0x80) * 64 + (d as int - 0x80);
    SixBitDigits(0, a as int - 0xE0, b as int - 0x80, d as int - 0x80);
  }

  lemma FourByteScalar(a: byte, b: byte, d: byte, e: byte) returns (c: Scalar)
    requires 0xF0 <= a <= 0xF4 && 0x80 <= b <= 0xBF && 0x80 <= d <= 0xBF && 0x80 <= e <= 0xBF
    requires (a == 0xF0 ==> 0x90 <= b) && (a == 0xF4 ==> b <= 0x8F)
    ensures ScalarBytes(c) == [a, b, d, e]
  {
    c := (a as int - 0xF0) * 262144 + (b as int - 0x80) * 4096 + (d as int - 0x80) * 64 + (e as int - 0x80);
    SixBitDigits(a as int - 0xF0, b as int - 0x80, d as int - 0x80, e as int - 0x80);
  }

  /** The scalar value that well-formed text begins with. */
  lemma FirstScalar(s: seq<byte>) returns (c: Scalar)
    requires s != [] && Utf8(s)
    ensures |ScalarBytes(c)| <= |s| && ScalarBytes(c) == s[..|ScalarBytes(c)|] && Utf8(s[|ScalarBytes(c)|..])
  {
    if s[0] <= 0x7F {
      c := s[0];
      assert ScalarBytes(c) == [s[0]] == s[..1];
    } else if s[0] <= 0xDF {
      c := TwoByteScalar(s[0], s[1]);
      assert s[..2] == [s[0], s[1]];
    } else if s[0] <= 0xEF {
      c := ThreeByteScalar(s[0], s[1], s[2]);
      assert s[..3] == [s[0], s[1], s[2]];
    } else {
      c := FourByteScalar(s[0], s[1], s[2], s[3]);
      assert s[..4] == [s[0], s[1], s[2], s[3]];
    }
    hide ScalarBytes;
  }

  lemma {:induction false} TextIsUtf8(cs: seq<Scalar>)
    ensures Utf8(TextBytes(cs))
  {
    if cs != [] {
      TextIsUtf8(cs[1..]);
      ScalarThenText(cs[0], TextBytes(cs[1..]));
    }
  }

  lemma {:induction false} Utf8IsText(s: seq<byte>) returns (cs: seq<Scalar>)
    requires Utf8(s)
    ensures TextBytes(cs) == s
    decreases |s|
  {
    cs := [];
    if s != [] {
      var c := FirstScalar(s);
      var later := Utf8IsText(s[|ScalarBytes(c)|..]);
      cs := [c] + later;
      assert cs[1..] == later;
    }
  }

  /** The check accepts exactly the encodings of lists of Unicode scalar values. */
  lemma Utf8IffText(s: seq<byte>)
    ensures Utf8(s) <==> exists cs :: TextBytes(cs) == s
  {
    if Utf8(s) {
      var cs := Utf8IsText(s);
    }
    forall cs | TextBytes(cs) == s
      ensures Utf8(s)
    {
      TextIsUtf8(cs);
    }
  }

  // -------------------------------------------------------------------------
  // Cursor classes
  // -------------------------------------------------------------------------

  /** A reader's outcome agrees with a parse when it returns the same value or the same error. */
  class PvaReader {
    const buf: seq<byte>
    const order: ByteOrder
    var pos: nat

    constructor (buf: seq<byte>, order: ByteOrder)
      ensures Valid() && Rest() == buf && this.order == order
    {
      this.buf := buf;
      this.order := order;
      this.pos := 0;
    }

    ghost predicate Valid()
      reads this
    {
      pos <= |buf|
    }

    function Rest(): seq<byte>
      requires Valid()
      reads this
    {
      buf[pos..]
    }

    ghost predicate Agrees<T>(p: Parsed<T>, r: Result<T, DecodeError>)
      requires Valid()
      reads this
    {
      match p
      case Got(v, rest) => r == Ok(v) && Rest() == rest
      case Failed(e) => r == Err(e)
    }

    method ReadBytes(n: nat) returns (r: Result<seq<byte>, DecodeError>)
      requires Valid()
      modifies this
      ensures Valid() && pos >= old(pos)
      ensures Agrees(ParseBytes(n, old(Rest())), r)
    {
      if pos + n > |buf| {
        return Err(UnexpectedEnd(n, |buf| - pos));
      }
      assert Rest()[..n] == buf[pos..pos + n];
      r := Ok(buf[pos..pos + n]);
      pos := pos + n;
    }

    method ReadU8() returns (r: Result<byte, DecodeError>)
      requires Valid()
      modifies this
      ensures Valid() && pos >= old(pos)
      ensures r.Ok? ==> pos > old(pos)
      ensures Agrees(ParseU8(old(Rest())), r)
    {
      if pos + 1 > |buf| {
        return Err(UnexpectedEnd(1, |buf| - pos));
      }
      r := Ok(buf[pos]);
      pos := pos + 1;
    }

    method ReadI16() returns (r: Result<i16, DecodeError>)
      requires Valid()
      modifies this
      ensures Valid() && pos >= old(pos)
      ensures Agrees(ParseI16(order, old(Rest())), r)
    {
      var bytes :- ReadBytes(2);
      r := Ok(I16Of(order, bytes));
    }

    method ReadI32() returns (r: Result<i32, DecodeError>)
      requires Valid()
      modifies this
      ensures Valid() && pos >= old(pos)
      ensures Agrees(ParseI32(order, old(Rest())), r)
    {
      var bytes :- ReadBytes(4);
      r := Ok(I32Of(order, bytes));
    }

    method ReadSizeNonNull() returns (r: Result<nat, DecodeError>)
      requires Valid()
      modifies this
      ensures Valid() && pos >= old(pos)
      ensures r.Ok? ==> pos > old(pos)
      ensures Agrees(ParseSizeNonNull(order, old(Rest())), r)
    {
      var tag :- ReadU8();
      if tag == SIZE_NULL {
        return Err(UnexpectedNull);
      }
      if tag == SIZE_EXTENDED {
        var n :- ReadI32();
        return if n < 0 then Err(InvalidSize(n)) else Ok(n);
      }
      r := Ok(tag);
    }

    method ReadString() returns (r: Result<seq<byte>, DecodeError>)
      requires Valid()
      modifies this
      ensures Valid() && pos >= old(pos)
      ensures r.Ok? ==> pos > old(pos)
      ensures Agrees(ParseString(order, old(Rest())), r)
    {
      var len :- ReadSizeNonNull();
      if len == 0 {
        return Ok([]);
      }
      var bytes :- ReadBytes(len);
      r := if Utf8(bytes) then Ok(bytes) else Err(InvalidUtf8);
    }
  }

  class PvaWriter {
    const order: ByteOrder
    var buf: seq<byte>

    constructor (order: ByteOrder)
      ensures buf == [] && this.order == order
    {
      this.order := order;
      buf := [];
    }

    method WriteU8(v: byte)
      modifies this
      ensures buf == old(buf) + [v]
    {
      buf := buf + [v];
    }

    method WriteSize(n: nat)
      modifies this
      ensures buf == old(buf) + SizeBytes(order, n)
    {
      if n < 254 {
        WriteU8(n);
      } else {
        WriteU8(SIZE_EXTENDED);
        buf := buf + I32Bytes(order, WrapI32(n));
      }
    }

    method WriteString(s: seq<byte>)
      modifies this
      ensures buf == old(buf) + StringBytes(order, s)
    {
      WriteSize(|s|);
      buf := buf + s;
    }
  }
}
