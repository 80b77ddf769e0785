/**
 * The change mask of a monitor update: a set of field numbers kept in two inline
 * words and an overflow vector, and sent as trimmed little-endian bytes.
 */
module BitSet {
  import opened Wrappers
  import opened PvData
  import opened Words

  const INLINE_WORDS: nat := 2
  const INLINE_BITS: nat := 128

  // -------------------------------------------------------------------------
  // Words as a set
  // -------------------------------------------------------------------------

  function WordAt(ws: seq<word>, i: nat): word {
    if i < |ws| then ws[i] else 0
  }

  predicate HasBit(ws: seq<word>, i: nat) {
    Bit(WordAt(ws, i / 64), i % 64)
  }

  ghost function SetOfWords(ws: seq<word>): set<nat> {
    set i: nat | i < 64 * |ws| && HasBit(ws, i)
  }

  lemma InSetOfWords(ws: seq<word>, i: nat)
    ensures i in SetOfWords(ws) <==> HasBit(ws, i)
  {
    if i >= 64 * |ws| {
      ZeroBit(i % 64);
    }
  }

  lemma SameSet(ws: seq<word>, s: set<nat>)
    requires forall i: nat :: HasBit(ws, i) <==> i in s
    ensures SetOfWords(ws) == s
  {
    forall i: nat
      ensures i in SetOfWords(ws) <==> i in s
    {
      InSetOfWords(ws, i);
    }
  }

  /** The two sequences agree on every word but the one that holds bit index. */
  ghost predicate SameElsewhere(before: seq<word>, after: seq<word>, index: nat) {
    forall wi: nat | wi != index / 64 :: WordAt(after, wi) == WordAt(before, wi)
  }

  lemma OtherBits(before: seq<word>, after: seq<word>, index: nat, i: nat)
    requires SameElsewhere(before, after, index)
    ensures i / 64 != index / 64 ==> (HasBit(after, i) <==> HasBit(before, i))
    ensures i == index <==> i / 64 == index / 64 && i % 64 == index % 64
  {
  }

  lemma AfterSet(before: seq<word>, after: seq<word>, index: nat)
    requires SameElsewhere(before, after, index)
    requires WordAt(after, index / 64) == WithBit(WordAt(before, index / 64), index % 64)
    ensures SetOfWords(after) == SetOfWords(before) + {index}
  {
    hide SameElsewhere, WithBit;
    forall i: nat
      ensures HasBit(after, i) <==> i in SetOfWords(before) + {index}
    {
      OtherBits(before, after, index, i);
      InSetOfWords(before, i);
    }
    SameSet(after, SetOfWords(before) + {index});
  }

  lemma AfterClear(before: seq<word>, after: seq<word>, index: nat)
    requires SameElsewhere(before, after, index)
    requires WordAt(after, index / 64) == WithoutBit(WordAt(before, index / 64), index % 64)
    ensures SetOfWords(after) == SetOfWords(before) - {index}
  {
    hide SameElsewhere, WithoutBit;
    forall i: nat
      ensures HasBit(after, i) <==> i in SetOfWords(before) - {index}
    {
      OtherBits(before, after, index, i);
      InSetOfWords(before, i);
    }
    SameSet(after, SetOfWords(before) - {index});
  }

  ghost function Toggled(s: set<nat>, index: nat): set<nat> {
    if index in s then s - {index} else s + {index}
  }

  lemma AfterToggle(before: seq<word>, after: seq<word>, index: nat)
    requires SameElsewhere(before, after, index)
    requires WordAt(after, index / 64) == FlipBit(WordAt(before, index / 64), index % 64)
    ensures SetOfWords(after) == Toggled(SetOfWords(before), index)
  {
    hide SameElsewhere, FlipBit;
    forall i: nat
      ensures HasBit(after, i) <==> i in Toggled(SetOfWords(before), index)
    {
      OtherBits(before, after, index, i);
      InSetOfWords(before, i);
    }
    SameSet(after, Toggled(SetOfWords(before), index));
  }

  lemma NoWords(ws: seq<word>)
    requires forall w | w in ws :: w == 0
    ensures SetOfWords(ws) == {}
  {
    forall i: nat
      ensures !HasBit(ws, i)
    {
      assert i / 64 < |ws| ==> ws[i / 64] in ws;
      ZeroBit(i % 64);
    }
    SameSet(ws, {});
  }

  // -------------------------------------------------------------------------
  // The wire form of a set
  // -------------------------------------------------------------------------

  ghost function Max(s: set<nat>): (m: nat)
    requires s != {}
    ensures m in s && forall i | i in s :: i <= m
  {
    var x :| x in s;
    if s == {x} then x
    else
      var m := Max(s - {x});
      assert s == {x} + (s - {x});
      if m < x then x else m
  }

  /** Bytes needed to reach the largest member; none for the empty set. */
  ghost function ByteLength(s: set<nat>): nat {
    if s == {} then 0 else Max(s) / 8 + 1
  }

  /** The number whose first n bits tell which of base, base + 1, ... are members. */
  ghost function Pack(s: set<nat>, base: nat, n: nat): nat
    decreases n
  {
    if n == 0 then 0 else Digit(Pack(s, base + 1, n - 1), base in s)
  }

  lemma {:induction false} PackBit(s: set<nat>, base: nat, n: nat, k: nat)
    ensures Bit(Pack(s, base, n), k) <==> k < n && base + k in s
    decreases n
  {
    hide Digit;
    if n == 0 {
      ZeroBit(k);
    } else {
      DigitBit(Pack(s, base + 1, n - 1), base in s, k);
      if k > 0 {
        PackBit(s, base + 1, n - 1, k - 1);
      }
    }
  }

  lemma {:induction false} PackFits(s: set<nat>, base: nat, n: nat)
    ensures Pack(s, base, n) < Pow2(n)
    decreases n
  {
    if n > 0 {
      PackFits(s, base + 1, n - 1);
    }
  }

  ghost function ByteOf(s: set<nat>, j: nat): byte {
    PackFits(s, 8 * j, 8);
    assert Pow2(8) == 256;
    Pack(s, 8 * j, 8)
  }

  /** Member i is bit i mod 8 of byte i / 8, and there is no trailing zero byte. */
  ghost function BytesOf(s: set<nat>): (bytes: seq<byte>)
    ensures |bytes| == ByteLength(s)
  {
    seq(ByteLength(s), j requires j >= 0 => ByteOf(s, j))
  }

  ghost function WireOf(order: ByteOrder, s: set<nat>): seq<byte> {
    SizeBytes(order, |BytesOf(s)|) + BytesOf(s)
  }

  predicate HasByteBit(bytes: seq<byte>, i: nat) {
    i / 8 < |bytes| && Bit(bytes[i / 8], i % 8)
  }

  function SetOfBytes(bytes: seq<byte>): set<nat> {
    set i: nat | i < 8 * |bytes| && HasByteBit(bytes, i)
  }

  function ParseBytesOfSet(order: ByteOrder, s: seq<byte>): Parsed<seq<byte>> {
    var (n, s1) :- ParseSizeNonNull(order, s);
    if n == 0 then Got([], s1) else ParseBytes(n, s1)
  }

  lemma BytesHaveMembers(s: set<nat>, i: nat)
    ensures HasByteBit(BytesOf(s), i) <==> i in s
  {
    var bytes := BytesOf(s);
    assert i in s ==> i / 8 <= Max(s) / 8 < |bytes|;
    if i / 8 < |bytes| {
      PackBit(s, 8 * (i / 8), 8, i % 8);
    }
  }

  lemma NoMultipleWithin(x: int, m: int)
    requires -m < x * m < m
    ensures x == 0
  {
  }

  lemma QuotientIs(a: nat, m: nat, q: nat, r: nat)
    requires r < m && a == q * m + r
    ensures a / m == q
  {
    var d := a / m;
    assert a == d * m + a % m;
    assert (d - q) * m == d * m - q * m;
    NoMultipleWithin(d - q, m);
  }

  lemma HalfThen(w: nat, m: nat)
    requires m > 0
    ensures w / 2 / m == w / (2 * m)
  {
    var q, r := w / 2 / m, w / 2 % m;
    assert w / 2 == q * m + r;
    assert w == q * (2 * m) + (2 * r + w % 2);
    QuotientIs(w, 2 * m, q, 2 * r + w % 2);
  }

  lemma {:induction false} BitOfQuotient(w: nat, k: nat)
    ensures Bit(w, k) <==> w / Pow2(k) % 2 == 1
  {
    if k > 0 {
      BitOfQuotient(w / 2, k - 1);
      HalfThen(w, Pow2(k - 1));
    }
  }

  lemma SmallPowers()
    ensures Pow2(0) == 1 && Pow2(1) == 2 && Pow2(2) == 4 && Pow2(3) == 8
    ensures Pow2(4) == 16 && Pow2(5) == 32 && Pow2(6) == 64 && Pow2(7) == 128
  {
    assert Pow2(3) == 8;
    assert Pow2(5) == 32;
  }

  lemma BitOfByte(b: byte, k: nat)
    requires k < 8
    ensures Bit(b, k) <==> b as int / [1, 2, 4, 8, 16, 32, 64, 128][k] % 2 == 1
  {
    BitOfQuotient(b, k);
    SmallPowers();
    hide Bit, Pow2;
  }

  /** Which numbers are members: 8 j + k exactly when digit k of byte j is one, the lowest digit being the zeroth. */
  lemma MembersOnBytes(s: set<nat>, bytes: seq<byte>, j: nat, k: nat)
    requires k < 8
    ensures j < |BytesOf(s)| ==>
      (8 * j + k in s <==> BytesOf(s)[j] as int / [1, 2, 4, 8, 16, 32, 64, 128][k] % 2 == 1)
    ensures j >= |BytesOf(s)| ==> 8 * j + k !in s
    ensures 8 * j + k in SetOfBytes(bytes)
      <==> j < |bytes| && bytes[j] as int / [1, 2, 4, 8, 16, 32, 64, 128][k] % 2 == 1
  {
    hide BytesOf, Bit;
    BytesHaveMembers(s, 8 * j + k);
    if j < |BytesOf(s)| {
      BitOfByte(BytesOf(s)[j], k);
    }
    if j < |bytes| {
      BitOfByte(bytes[j], k);
    }
  }

  /** Decoding the encoding of a set gives the set. */
  lemma SetRoundTrip(s: set<nat>)
    ensures SetOfBytes(BytesOf(s)) == s
  {
    forall i: nat
      ensures i in SetOfBytes(BytesOf(s)) <==> i in s
    {
      BytesHaveMembers(s, i);
    }
  }

  /** The wire form survives, with what follows it, whenever its length fits a signed 32-bit size. */
  lemma WireRoundTrip(order: ByteOrder, s: set<nat>, rest: seq<byte>)
    ensures ByteLength(s) < 0x8000_0000 <==>
      ParseBytesOfSet(order, WireOf(order, s) + rest) == Got(BytesOf(s), rest)
  {
    hide ParseSizeNonNull, SizeBytes, BytesOf;
    var bytes := BytesOf(s);
    var tail := bytes + rest;
    assert WireOf(order, s) + rest == SizeBytes(order, |bytes|) + tail;
    SizeRoundTrip(order, |bytes|, tail);
    assert tail[..|bytes|] == bytes && tail[|bytes|..] == rest;
    if |bytes| >= 0x8000_0000 {
      var size := ParseSizeNonNull(order, SizeBytes(order, |bytes|) + tail);
      assert size.Got? ==> size.value < 0x8000_0000;
    } else if |bytes| == 0 {
      assert bytes == [];
    }
  }

  /** Two sets are sent alike exactly when they are the same set. */
  lemma WireIsCanonical(order: ByteOrder, s1: set<nat>, s2: set<nat>)
    ensures WireOf(order, s1) == WireOf(order, s2) <==> s1 == s2
  {
    hide I32Bytes, BytesOf;
    if WireOf(order, s1) == WireOf(order, s2) {
      var w, b1, b2 := WireOf(order, s1), BytesOf(s1), BytesOf(s2);
      assert w[0] == SizeBytes(order, |b1|)[0] == SizeBytes(order, |b2|)[0];
      assert |b1| == |b2|;
      assert b1 == w[|w| - |b1|..] && b2 == w[|w| - |b2|..];
      SetRoundTrip(s1);
      SetRoundTrip(s2);
    }
  }

  /** No byte of the wire form is spent on a trailing zero. */
  lemma WireIsTrimmed(s: set<nat>)
    requires s != {}
    ensures BytesOf(s)[|BytesOf(s)| - 1] != 0
  {
    var m := Max(s);
    BytesHaveMembers(s, m);
    ZeroBit(m % 8);
  }

  // -------------------------------------------------------------------------
  // The two-tier representation
  // -------------------------------------------------------------------------

  /** Walks the set bits of a word from the lowest. */
  class BitWordIter {
    var w: word
    const base: nat

    constructor (w: word, base: nat)
      ensures this.w == w && this.base == base
    {
      this.w := w;
      this.base := base;
    }

    method Next() returns (r: Option<nat>)
      modifies this
      ensures old(w) == 0 ==> r == None && w == 0
      ensures old(w) > 0 ==>
        && r == Some(base + TrailingZeros(old(w)))
        && w < old(w)
        && (forall k: nat :: Bit(w, k) <==> Bit(old(w), k) && k != TrailingZeros(old(w)))
    {
      if w == 0 {
        return None;
      }
      r := Some(base + TrailingZeros(w));
      forall k: nat
        ensures Bit(And(w, w - 1), k) <==> Bit(w, k) && k != TrailingZeros(w)
      {
        ClearLowest(w, k);
      }
      FitsWord(w, And(w, w - 1));
      AndBelow(w, w - 1);
      w := And(w, w - 1);
    }
  }

  lemma {:induction false} AndBelow(a: nat, b: nat)
    ensures And(a, b) <= b
    decreases a + b
  {
    if a > 0 || b > 0 {
      AndBelow(a / 2, b / 2);
    }
  }

  /** One more word adds its own positions, all above the earlier ones. */
  lemma WordAppended(ws: seq<word>, i: nat)
    requires i < |ws|
    ensures SetOfWords(ws[..i + 1]) == SetOfWords(ws[..i]) + Positions(ws[i], 64 * i, 64)
    ensures forall b | b in SetOfWords(ws[..i]) :: b < 64 * i
  {
    forall b: nat
      ensures b in SetOfWords(ws[..i + 1]) <==> b in SetOfWords(ws[..i]) || b in Positions(ws[i], 64 * i, 64)
    {
      if b / 64 == i {
        assert BitFrom(ws[i], 64 * i, b) == Bit(ws[i], b % 64);
      }
    }
  }

  lemma CountOneMore(ws: seq<word>, i: nat)
    requires i < |ws|
    ensures |SetOfWords(ws[..i + 1])| == |SetOfWords(ws[..i])| + CountOnes(ws[i])
  {
    hide SetOfWords;
    var before, here := SetOfWords(ws[..i]), Positions(ws[i], 64 * i, 64);
    CountOnesIsCardinality(ws[i], 64 * i, 64);
    WordAppended(ws, i);
    assert before !! here;
  }

  lemma NoOnes()
    ensures Ones(0) == 0
  {
  }

  lemma OnesUpTo(ws: seq<word>, n: nat)
    requires n <= 64 * |ws|
    requires forall j | 0 <= j < |ws| ::
      ws[j] == if j < n / 64 then Ones(64) else if j == n / 64 then Ones(n % 64) else 0
    ensures forall i: nat :: i in SetOfWords(ws) <==> i < n
  {
    hide Ones, SetOfWords;
    forall i: nat
      ensures i in SetOfWords(ws) <==> i < n
    {
      InSetOfWords(ws, i);
      ZeroBit(i % 64);
    }
  }

  lemma AfterOr(a: seq<word>, b: seq<word>, c: seq<word>)
    requires forall wi: nat, k: nat :: Bit(WordAt(c, wi), k) <==> Bit(WordAt(a, wi), k) || Bit(WordAt(b, wi), k)
    ensures SetOfWords(c) == SetOfWords(a) + SetOfWords(b)
  {
    hide SetOfWords, WordAt;
    forall i: nat
      ensures HasBit(c, i) <==> i in SetOfWords(a) + SetOfWords(b)
    {
      InSetOfWords(a, i);
      InSetOfWords(b, i);
    }
    SameSet(c, SetOfWords(a) + SetOfWords(b));
  }

  lemma AfterAnd(a: seq<word>, b: seq<word>, c: seq<word>)
    requires forall wi: nat, k: nat :: Bit(WordAt(c, wi), k) <==> Bit(WordAt(a, wi), k) && Bit(WordAt(b, wi), k)
    ensures SetOfWords(c) == SetOfWords(a) * SetOfWords(b)
  {
    hide SetOfWords, WordAt;
    forall i: nat
      ensures HasBit(c, i) <==> i in SetOfWords(a) * SetOfWords(b)
    {
      InSetOfWords(a, i);
      InSetOfWords(b, i);
    }
    SameSet(c, SetOfWords(a) * SetOfWords(b));
  }

  /** The bytes of the last non-zero word are the last bytes of the set. */
  lemma LengthOfWords(ws: seq<word>, n: nat)
    requires 0 < n <= |ws| && ws[n - 1] > 0
    requires forall j | n <= j < |ws| :: ws[j] == 0
    ensures BitLength(ws[n - 1]) <= 64
    ensures ByteLength(SetOfWords(ws)) == (n - 1) * 8 + (8 - (64 - BitLength(ws[n - 1])) / 8)
  {
    var w := ws[n - 1];
    var k := HighestBit(w);
    if k >= 64 {
      NoBitAbove(w, 64, k);
    }
    var top := 64 * (n - 1) + k;
    assert top / 64 == n - 1 && top % 64 == k;
    InSetOfWords(ws, top);
    forall i: nat | i > top
      ensures i !in SetOfWords(ws)
    {
      InSetOfWords(ws, i);
      if i / 64 == n - 1 {
        AboveLength(w, i % 64);
      } else {
        ZeroBit(i % 64);
      }
    }
    assert Max(SetOfWords(ws)) == top;
  }

  lemma ByteAgrees(ws: seq<word>, wi: nat, bi: nat)
    requires wi < |ws| && bi < 8
    ensures ByteOfWord(ws[wi], bi) == ByteOf(SetOfWords(ws), 8 * wi + bi)
  {
    hide SetOfWords, ByteOfWord;
    var s, base := SetOfWords(ws), 8 * (8 * wi + bi);
    forall k: nat
      ensures Bit(ByteOfWord(ws[wi], bi), k) <==> Bit(Pack(s, base, 8), k)
    {
      PackBit(s, base, 8, k);
      if k < 8 {
        assert (base + k) / 64 == wi && (base + k) % 64 == 8 * bi + k;
        InSetOfWords(ws, base + k);
      }
    }
    SameBitsSameWord(ByteOfWord(ws[wi], bi), Pack(s, base, 8));
  }

  lemma AfterWithByte(w: word, byte: byte, raw: seq<byte>, wi: nat, b: nat)
    requires b < 8 && 8 * wi + b < |raw| && byte == raw[8 * wi + b]
    requires forall k: nat :: Bit(w, k) <==> k < 8 * b && HasByteBit(raw, 64 * wi + k)
    ensures forall k: nat :: Bit(WithByte(w, byte, b), k) <==>
      k < 8 * (b + 1) && HasByteBit(raw, 64 * wi + k)
  {
    forall k: nat
      ensures Bit(WithByte(w, byte, b), k) <==> k < 8 * (b + 1) && HasByteBit(raw, 64 * wi + k)
    {
      assert Bit(WithByte(w, byte, b), k) <==> Bit(w, k) || (8 * b <= k < 8 * b + 8 && Bit(byte, k - 8 * b));
      if 8 * b <= k < 8 * b + 8 {
        assert (64 * wi + k) / 8 == 8 * wi + b && (64 * wi + k) % 8 == k - 8 * b;
      }
    }
  }

  lemma SetsAgree(ws: seq<word>, raw: seq<byte>)
    requires forall i: nat :: HasBit(ws, i) <==> i < 8 * |raw| && HasByteBit(raw, i)
    ensures SetOfWords(ws) == SetOfBytes(raw)
    ensures forall i | i in SetOfBytes(raw) :: i < 8 * |raw|
  {
    SameSet(ws, SetOfBytes(raw));
  }

  lemma NoBytes()
    ensures SetOfBytes([]) == {} && BytesOf({}) == []
  {
  }

  predicate Increasing(v: seq<nat>) {
    forall i, j | 0 <= i < j < |v| :: v[i] < v[j]
  }

  lemma IncreasingJoin(a: seq<nat>, b: seq<nat>, bound: nat)
    requires Increasing(a) && Increasing(b)
    requires forall x | x in a :: x < bound
    requires forall y | y in b :: bound <= y
    ensures Increasing(a + b)
  {
    forall i, j | 0 <= i < j < |a + b|
      ensures (a + b)[i] < (a + b)[j]
    {
      if i < |a| <= j {
        assert a[i] in a && b[j - |a|] in b;
      }
    }
  }

  class PvaBitSet {
    var inl: seq<word>
    var overflow: seq<word>
    var bitCount: nat

    function Words(): seq<word>
      reads this
    {
      inl + overflow
    }

    ghost function Members(): set<nat>
      reads this
    {
      SetOfWords(Words())
    }

    ghost predicate Valid()
      reads this
    {
      && |inl| == INLINE_WORDS
      && forall i | i in Members() :: i < bitCount
    }

    constructor WithCapacity(n: nat)
      ensures Valid() && Members() == {} && bitCount == n
      ensures 64 * |Words()| >= n
    {
      inl := [0, 0];
      overflow := OverflowFor(n);
      bitCount := n;
      new;
      NoWords(Words());
    }

    static function OverflowFor(n: nat): (ws: seq<word>)
      ensures forall w | w in ws :: w == 0
      ensures 64 * (INLINE_WORDS + |ws|) >= n
    {
      if n > INLINE_BITS then seq((n - INLINE_BITS + 63) / 64, _ => 0) else []
    }

    constructor FromBits(bits: seq<nat>)
      ensures Valid() && Members() == set b | b in bits
      ensures if bits == [] then bitCount == 0 else bitCount > 0 && bitCount - 1 in bits
    {
      var capacity := CapacityFor(bits);
      inl := [0, 0];
      overflow := OverflowFor(capacity);
      bitCount := capacity;
      new;
      hide SetOfWords;
      NoWords(Words());
      for i := 0 to |bits|
        invariant Valid() && bitCount == capacity
        invariant Members() == set b | b in bits[..i]
      {
        assert bits[i] in bits;
        Set(bits[i]);
        assert bits[..i + 1] == bits[..i] + [bits[i]];
      }
      assert bits[..|bits|] == bits;
    }

    static method CapacityFor(bits: seq<nat>) returns (capacity: nat)
      ensures forall b | b in bits :: b < capacity
      ensures if bits == [] then capacity == 0 else capacity > 0 && capacity - 1 in bits
    {
      if bits == [] {
        return 0;
      }
      var max := bits[0];
      for i := 1 to |bits|
        invariant max in bits && forall j | 0 <= j < i :: bits[j] <= max
      {
        max := if bits[i] > max then bits[i] else max;
      }
      return max + 1;
    }

    /** Overwrite one word; a word past the end is dropped, as the original's guards do. */
    method PutWord(wi: nat, w: word)
      requires |inl| == INLINE_WORDS
      modifies this`inl, this`overflow
      ensures |inl| == INLINE_WORDS && |overflow| == |old(overflow)|
      ensures Words() == if wi < |old(Words())| then old(Words())[wi := w] else old(Words())
    {
      if wi < INLINE_WORDS {
        inl := inl[wi := w];
      } else {
        var ow := wi - INLINE_WORDS;
        if ow < |overflow| {
          overflow := overflow[ow := w];
        }
      }
    }

    /** Make room for a word of the overflow vector. */
    method Reach(ow: nat)
      modifies this`overflow
      ensures ow < |overflow| && old(overflow) <= overflow
      ensures forall i | |old(overflow)| <= i < |overflow| :: overflow[i] == 0
    {
      if ow >= |overflow| {
        overflow := overflow + seq(ow + 1 - |overflow|, _ => 0);
      }
    }

    predicate IsSet(index: nat)
      requires |inl| == INLINE_WORDS
      reads this
    {
      var wi, k := index / 64, index % 64;
      if index < INLINE_BITS then Bit(inl[wi], k)
      else
        var ow := wi - INLINE_WORDS;
        ow < |overflow| && Bit(overflow[ow], k)
    }

    /** The membership test is membership. */
    lemma IsSetIsMembership(index: nat)
      requires |inl| == INLINE_WORDS
      ensures IsSet(index) <==> index in Members()
    {
      InSetOfWords(Words(), index);
      ZeroBit(index % 64);
    }

    method Set(index: nat)
      requires Valid()
      modifies this
      ensures Valid() && Members() == old(Members()) + {index}
      ensures bitCount == if index < old(bitCount) then old(bitCount) else index + 1
    {
      hide WithBit, SetOfWords, Bit, Pow2;
      var wi, k := index / 64, index % 64;
      if index < INLINE_BITS {
        inl := inl[wi := WithBit(inl[wi], k)];
      } else {
        var ow := wi - INLINE_WORDS;
        Reach(ow);
        overflow := overflow[ow := WithBit(overflow[ow], k)];
      }
      if index >= bitCount {
        bitCount := index + 1;
      }
      AfterSet(old(Words()), Words(), index);
      assert Members() == old(Members()) + {index};
    }

    method ClearBit(index: nat)
      requires Valid()
      modifies this
      ensures Valid() && Members() == old(Members()) - {index} && bitCount == old(bitCount)
    {
      hide WithoutBit, SetOfWords, Pow2;
      var wi, k := index / 64, index % 64;
      if index < INLINE_BITS {
        inl := inl[wi := WithoutBit(inl[wi], k)];
      } else {
        var ow := wi - INLINE_WORDS;
        if ow < |overflow| {
          overflow := overflow[ow := WithoutBit(overflow[ow], k)];
        } else {
          InSetOfWords(Words(), index);
          ZeroBit(k);
          assert index !in Members();
          return;
        }
      }
      AfterClear(old(Words()), Words(), index);
      assert Members() == old(Members()) - {index};
    }

    method ClearAll()
      requires Valid()
      modifies this
      ensures Valid() && Members() == {} && bitCount == old(bitCount)
    {
      inl := [0, 0];
      overflow := seq(|overflow|, _ => 0);
      NoWords(Words());
    }

    method Toggle(index: nat)
      requires Valid()
      modifies this
      ensures Valid() && Members() == Toggled(old(Members()), index)
      ensures bitCount == if index < old(bitCount) then old(bitCount) else index + 1
    {
      hide FlipBit, SetOfWords, Bit, Pow2;
      var wi, k := index / 64, index % 64;
      if index < INLINE_BITS {
        inl := inl[wi := FlipBit(inl[wi], k)];
      } else {
        var ow := wi - INLINE_WORDS;
        Reach(ow);
        overflow := overflow[ow := FlipBit(overflow[ow], k)];
      }
      if index >= bitCount {
        bitCount := index + 1;
      }
      AfterToggle(old(Words()), Words(), index);
      assert Members() == Toggled(old(Members()), index);
    }

    /** All of the first n bits, a whole word at a time. */
    constructor AllSet(n: nat)
      ensures Valid() && bitCount == n
      ensures forall i: nat :: i in Members() <==> i < n
    {
      inl := [0, 0];
      overflow := OverflowFor(n);
      bitCount := n;
      new;
      hide SetOfWords, Ones, Pow2;
      var fullWords, remainder := n / 64, n % 64;
      ghost var total := |Words()|;
      assert fullWords <= total && (remainder > 0 ==> fullWords < total);
      for i := 0 to fullWords
        invariant |inl| == INLINE_WORDS && |Words()| == total && bitCount == n
        invariant forall j | 0 <= j < total :: Words()[j] == if j < i then Ones(64) else 0
      {
        PutWord(i, Ones(64));
      }
      if remainder > 0 {
        PutWord(fullWords, Ones(remainder));
      } else if fullWords < total {
        NoOnes();
      }
      OnesUpTo(Words(), n);
    }

    /** The cardinality, from the population count of each word. */
    method CountSet() returns (count: nat)
      ensures count == |Members()|
    {
      count := 0;
      var ws := Words();
      for i := 0 to |ws|
        invariant count == |SetOfWords(ws[..i])|
      {
        CountOneMore(ws, i);
        count := count + CountOnes(ws[i]);
      }
      assert ws[..|ws|] == ws;
    }

    method ToVec() returns (v: seq<nat>)
      ensures Increasing(v)
      ensures forall i: nat :: i in v <==> i in Members()
    {
      v := [];
      var ws := Words();
      for i := 0 to |ws|
        invariant Increasing(v)
        invariant forall b: nat :: b in v <==> b in SetOfWords(ws[..i])
      {
        var here := WordPositions(ws[i], 64 * i);
        WordAppended(ws, i);
        IncreasingJoin(v, here, 64 * i);
        v := v + here;
      }
      assert ws[..|ws|] == ws;
    }

    static method WordPositions(w: word, base: nat) returns (v: seq<nat>)
      ensures Increasing(v)
      ensures forall b: nat :: b in v <==> b in Positions(w, base, 64)
    {
      v := [];
      var iter := new BitWordIter(w, base);
      ghost var low: nat := 0;
      while iter.w != 0
        invariant iter.base == base && low <= 64
        invariant forall k: nat :: Bit(iter.w, k) <==> low <= k && Bit(w, k)
        invariant Increasing(v)
        invariant forall b: nat :: b in v <==> b < base + low && b in Positions(w, base, 64)
        decreases iter.w
      {
        ghost var t := TrailingZeros(iter.w);
        LowestBit(iter.w);
        if t >= 64 {
          NoBitAbove(iter.w, 64, t);
        }
        assert BitFrom(w, base, base + t);
        assert forall k: nat | low <= k < t :: !Bit(w, k);
        var next := iter.Next();
        IncreasingJoin(v, [next.value], base + low);
        v := v + [next.value];
        low := t + 1;
      }
      forall b | b in Positions(w, base, 64)
        ensures b < base + low
      {
        ZeroBit(b - base);
      }
    }

    /** `|=`: the union. */
    method OrAssign(rhs: PvaBitSet)
      requires Valid() && rhs.Valid() && rhs != this
      modifies this
      ensures Valid() && Members() == old(Members()) + rhs.Members()
      ensures bitCount == if old(bitCount) < rhs.bitCount then rhs.bitCount else old(bitCount)
    {
      hide SetOfWords, OrWord, Pow2;
      for i := 0 to INLINE_WORDS
        invariant |inl| == INLINE_WORDS && overflow == old(overflow) && bitCount == old(bitCount)
        invariant forall j | 0 <= j < INLINE_WORDS ::
          inl[j] == if j < i then OrWord(old(inl)[j], rhs.inl[j]) else old(inl)[j]
      {
        inl := inl[i := OrWord(inl[i], rhs.inl[i])];
      }
      if |rhs.overflow| > 0 {
        Reach(|rhs.overflow| - 1);
      }
      ghost var reached := overflow;
      for i := 0 to |rhs.overflow|
        invariant |overflow| == |reached| >= |rhs.overflow| && |inl| == INLINE_WORDS && bitCount == old(bitCount)
        invariant inl == [OrWord(old(inl)[0], rhs.inl[0]), OrWord(old(inl)[1], rhs.inl[1])]
        invariant forall j | 0 <= j < |overflow| ::
          overflow[j] == if j < i then OrWord(reached[j], rhs.overflow[j]) else reached[j]
      {
        overflow := overflow[i := OrWord(overflow[i], rhs.overflow[i])];
      }
      if rhs.bitCount > bitCount {
        bitCount := rhs.bitCount;
      }
      forall wi: nat, k: nat
        ensures Bit(WordAt(Words(), wi), k) <==> Bit(WordAt(old(Words()), wi), k) || Bit(WordAt(rhs.Words(), wi), k)
      {
        ZeroBit(k);
      }
      AfterOr(old(Words()), rhs.Words(), Words());
      assert Members() == old(Members()) + rhs.Members();
    }

    /** `&`: the intersection, as a new set. */
    method BitAnd(rhs: PvaBitSet) returns (result: PvaBitSet)
      requires Valid() && rhs.Valid()
      ensures fresh(result) && result.Valid() && result.Members() == Members() * rhs.Members()
      ensures result.bitCount == if bitCount < rhs.bitCount then bitCount else rhs.bitCount
    {
      hide SetOfWords;
      result := new PvaBitSet.WithCapacity(if bitCount < rhs.bitCount then bitCount else rhs.bitCount);
      result.inl := [AndWord(inl[0], rhs.inl[0]), AndWord(inl[1], rhs.inl[1])];
      var mine, theirs := overflow, rhs.overflow;
      var n := if |mine| < |theirs| then |mine| else |theirs|;
      result.overflow := seq(n, i requires 0 <= i < n => AndWord(mine[i], theirs[i]));
      forall wi: nat, k: nat
        ensures Bit(WordAt(result.Words(), wi), k) <==> Bit(WordAt(Words(), wi), k) && Bit(WordAt(rhs.Words(), wi), k)
      {
        ZeroBit(k);
      }
      AfterAnd(Words(), rhs.Words(), result.Words());
      assert result.Members() == Members() * rhs.Members();
    }

    /** The words up to the last that is not zero. */
    static method WordsUsed(ws: seq<word>) returns (n: nat)
      ensures n <= |ws| && (n > 0 ==> ws[n - 1] != 0)
      ensures forall j | n <= j < |ws| :: ws[j] == 0
    {
      n := |ws|;
      while n > 0 && ws[n - 1] == 0
        invariant 0 <= n <= |ws|
        invariant forall j | n <= j < |ws| :: ws[j] == 0
      {
        n := n - 1;
      }
    }

    /** Write the trimmed little-endian bytes of the words, length first. */
    method Encode(writer: PvaWriter)
      requires |inl| == INLINE_WORDS
      modifies writer
      ensures writer.buf == old(writer.buf) + WireOf(writer.order, Members())
    {
      hide SetOfWords, BytesOf, SizeBytes, ByteLength, BitLength, Pow2;
      var ws := Words();
      var lastWord := WordsUsed(ws);
      if lastWord == 0 {
        NoWords(ws);
        NoBytes();
        writer.WriteSize(0);
        assert writer.buf == old(writer.buf) + (SizeBytes(writer.order, 0) + []);
        return;
      }
      LengthOfWords(ws, lastWord);
      var lastW := ws[lastWord - 1];
      var bytesInLast := 8 - (64 - BitLength(lastW)) / 8;
      var totalBytes := (lastWord - 1) * 8 + bytesInLast;
      writer.WriteSize(totalBytes);
      ghost var head, body := writer.buf, BytesOf(Members());
      for wi := 0 to lastWord
        invariant writer.buf == head + body[..if wi == lastWord then totalBytes else 8 * wi]
      {
        var bytesToWrite := if wi == lastWord - 1 then bytesInLast else 8;
        WriteWord(ws, wi, bytesToWrite, writer);
        assert body[..8 * wi] + body[8 * wi..8 * wi + bytesToWrite] == body[..8 * wi + bytesToWrite];
      }
      assert body[..totalBytes] == body;
    }

    /** The low bytes of one word, lowest first. */
    static method WriteWord(ws: seq<word>, wi: nat, count: nat, writer: PvaWriter)
      requires wi < |ws| && count <= 8 && 8 * wi + count <= ByteLength(SetOfWords(ws))
      modifies writer
      ensures writer.buf == old(writer.buf) + BytesOf(SetOfWords(ws))[8 * wi..8 * wi + count]
    {
      hide SetOfWords, ByteOfWord, ByteLength, ByteOf, Bit, Pow2;
      ghost var body := BytesOf(SetOfWords(ws));
      for bi := 0 to count
        invariant writer.buf == old(writer.buf) + body[8 * wi..8 * wi + bi]
      {
        ByteAgrees(ws, wi, bi);
        writer.WriteU8(ByteOfWord(ws[wi], bi));
        assert body[8 * wi..8 * wi + bi + 1] == body[8 * wi..8 * wi + bi] + [body[8 * wi + bi]];
      }
    }

    /** Rebuild the words from the bytes; no word is ever dropped. */
    static method Decode(reader: PvaReader) returns (r: Result<PvaBitSet, DecodeError>)
      requires reader.Valid()
      modifies reader
      ensures reader.Valid()
      ensures match ParseBytesOfSet(reader.order, old(reader.Rest()))
        case Failed(e) => r == Err(e)
        case Got(bytes, rest) =>
          && r.Ok? && fresh(r.value) && reader.Rest() == rest
          && r.value.Valid() && r.value.Members() == SetOfBytes(bytes) && r.value.bitCount == 8 * |bytes|
    {
      hide ParseSizeNonNull, SetOfWords, SetOfBytes;
      var byteCount :- reader.ReadSizeNonNull();
      if byteCount == 0 {
        var empty := new PvaBitSet.WithCapacity(0);
        NoBytes();
        return Ok(empty);
      }
      var raw :- reader.ReadBytes(byteCount);
      var bs := new PvaBitSet.WithCapacity(byteCount * 8);
      bs.Fill(raw);
      return Ok(bs);
    }

    /** Store the word that holds the bits of the raw bytes from 64 * wi on, of which there are n. */
    method PutWhole(wi: nat, w: word, raw: seq<byte>, n: nat)
      requires |inl| == INLINE_WORDS && wi < |Words()| && n <= 64
      requires forall i: nat :: HasBit(Words(), i) <==> i < 64 * wi && HasByteBit(raw, i)
      requires forall k: nat :: Bit(w, k) <==> k < n && HasByteBit(raw, 64 * wi + k)
      modifies this`inl, this`overflow
      ensures |inl| == INLINE_WORDS && |Words()| == |old(Words())|
      ensures forall i: nat :: HasBit(Words(), i) <==> i < 64 * wi + n && HasByteBit(raw, i)
    {
      PutWord(wi, w);
      forall i: nat
        ensures HasBit(Words(), i) <==> i < 64 * wi + n && HasByteBit(raw, i)
      {
        assert HasBit(old(Words()), i) <==> i < 64 * wi && HasByteBit(raw, i);
        if i / 64 == wi {
          assert i == 64 * wi + i % 64;
        }
      }
    }

    /** The word-building loop of the decoder. */
    method Fill(raw: seq<byte>)
      requires Valid() && Members() == {} && bitCount == 8 * |raw| <= 64 * |Words()|
      modifies this
      ensures Valid() && Members() == SetOfBytes(raw) && bitCount == old(bitCount)
    {
      hide SetOfWords, SetOfBytes, WithByte, HasByteBit, HasBit;
      var wordIdx, byteInWord, currentWord: word := 0, 0, 0;
      forall i: nat
        ensures !HasBit(Words(), i) && !Bit(0, i)
      {
        InSetOfWords(Words(), i);
        ZeroBit(i);
      }
      var j := 0;
      while j < |raw|
        invariant 0 <= j <= |raw| && j == 8 * wordIdx + byteInWord && byteInWord < 8
        invariant |inl| == INLINE_WORDS && |Words()| == |old(Words())| && bitCount == old(bitCount)
        invariant forall i: nat :: HasBit(Words(), i) <==> i < 64 * wordIdx && HasByteBit(raw, i)
        invariant forall k: nat :: Bit(currentWord, k) <==> k < 8 * byteInWord && HasByteBit(raw, 64 * wordIdx + k)
      {
        AfterWithByte(currentWord, raw[j], raw, wordIdx, byteInWord);
        currentWord := WithByte(currentWord, raw[j], byteInWord);
        byteInWord := byteInWord + 1;
        j := j + 1;
        if byteInWord == 8 {
          PutWhole(wordIdx, currentWord, raw, 64);
          wordIdx, byteInWord, currentWord := wordIdx + 1, 0, 0;
          forall k: nat
            ensures !Bit(0, k)
          {
            ZeroBit(k);
          }
        }
      }
      if byteInWord > 0 {
        PutWhole(wordIdx, currentWord, raw, 8 * byteInWord);
      }
      SetsAgree(Words(), raw);
      assert Members() == SetOfBytes(raw);
    }
  }
}
