/**
 * 64-bit words as numbers, and the bitwise operators digit by digit. Bit is the
 * meaning of a word; every other operation is characterised by the bits it gives.
 */
module Words {

  function Pow2(n: nat): (p: nat)
    ensures p > 0
  {
    if n == 0 then 1 else 2 * Pow2(n - 1)
  }

  /** A `u64` */
  type word = n: nat | n < Pow2(64)

  predicate Bit(w: nat, k: nat) {
    if k == 0 then w % 2 == 1 else Bit(w / 2, k - 1)
  }

  /** A number by its lowest digit and the rest. */
  function Digit(high: nat, low: bool): nat {
    2 * high + if low then 1 else 0
  }

  lemma DigitParts(high: nat, low: bool)
    ensures Digit(high, low) / 2 == high && (Digit(high, low) % 2 == 1 <==> low)
  {
  }

  lemma DigitBit(high: nat, low: bool, k: nat)
    ensures Bit(Digit(high, low), k) <==> if k == 0 then low else Bit(high, k - 1)
  {
    hide Digit;
    DigitParts(high, low);
  }

  /** `1 << k` */
  function Mask(k: nat): nat {
    Pow2(k)
  }

  /** `(1 << n) - 1` */
  function LowOnes(n: nat): nat {
    Pow2(n) - 1
  }

  /** `a | b` */
  function Or(a: nat, b: nat): nat
    decreases a + b
  {
    if a == 0 && b == 0 then 0 else Digit(Or(a / 2, b / 2), a % 2 == 1 || b % 2 == 1)
  }

  /** `a & b` */
  function And(a: nat, b: nat): nat
    decreases a + b
  {
    if a == 0 && b == 0 then 0 else Digit(And(a / 2, b / 2), a % 2 == 1 && b % 2 == 1)
  }

  /** `a ^ b` */
  function Xor(a: nat, b: nat): nat
    decreases a + b
  {
    if a == 0 && b == 0 then 0 else Digit(Xor(a / 2, b / 2), a % 2 != b % 2)
  }

  /** `a & !b` */
  function AndNot(a: nat, b: nat): nat
    decreases a + b
  {
    if a == 0 && b == 0 then 0 else Digit(AndNot(a / 2, b / 2), a % 2 == 1 && b % 2 == 0)
  }

  /** `w >> n` */
  function Shr(w: nat, n: nat): nat {
    if n == 0 then w else Shr(w / 2, n - 1)
  }

  /** `w << n`, where no bit is pushed out */
  function Shl(w: nat, n: nat): nat {
    if n == 0 then w else Digit(Shl(w, n - 1), false)
  }

  /** `w.trailing_zeros()` of a non-zero word */
  function TrailingZeros(w: nat): nat
    requires w > 0
  {
    if w % 2 == 1 then 0 else 1 + TrailingZeros(w / 2)
  }

  /** The number of digits of a word: 64 - `w.leading_zeros()`. */
  function BitLength(w: nat): nat {
    if w == 0 then 0 else 1 + BitLength(w / 2)
  }

  /** `w.count_ones()` */
  function CountOnes(w: nat): nat {
    if w == 0 then 0 else w % 2 + CountOnes(w / 2)
  }

  // -------------------------------------------------------------------------
  // The bits of each operation
  // -------------------------------------------------------------------------

  lemma ZeroBit(k: nat)
    ensures !Bit(0, k)
  {
  }

  lemma {:induction false} OrBit(a: nat, b: nat, k: nat)
    ensures Bit(Or(a, b), k) <==> Bit(a, k) || Bit(b, k)
    decreases k
  {
    hide Digit;
    ZeroBit(k);
    DigitBit(Or(a / 2, b / 2), a % 2 == 1 || b % 2 == 1, k);
    if k > 0 {
      OrBit(a / 2, b / 2, k - 1);
    }
  }

  lemma {:induction false} AndBit(a: nat, b: nat, k: nat)
    ensures Bit(And(a, b), k) <==> Bit(a, k) && Bit(b, k)
    decreases k
  {
    hide Digit;
    ZeroBit(k);
    DigitBit(And(a / 2, b / 2), a % 2 == 1 && b % 2 == 1, k);
    if k > 0 {
      AndBit(a / 2, b / 2, k - 1);
    }
  }

  lemma {:induction false} XorBit(a: nat, b: nat, k: nat)
    ensures Bit(Xor(a, b), k) <==> Bit(a, k) != Bit(b, k)
    decreases k
  {
    hide Digit;
    ZeroBit(k);
    DigitBit(Xor(a / 2, b / 2), a % 2 != b % 2, k);
    if k > 0 {
      XorBit(a / 2, b / 2, k - 1);
    }
  }

  lemma {:induction false} AndNotBit(a: nat, b: nat, k: nat)
    ensures Bit(AndNot(a, b), k) <==> Bit(a, k) && !Bit(b, k)
    decreases k
  {
    hide Digit;
    ZeroBit(k);
    DigitBit(AndNot(a / 2, b / 2), a % 2 == 1 && b % 2 == 0, k);
    if k > 0 {
      AndNotBit(a / 2, b / 2, k - 1);
    }
  }

  lemma {:induction false} MaskBit(j: nat, k: nat)
    ensures Bit(Mask(j), k) <==> k == j
    decreases k
  {
    if k > 0 && j > 0 {
      assert Mask(j) / 2 == Mask(j - 1);
      MaskBit(j - 1, k - 1);
    } else if k > 0 {
      ZeroBit(k - 1);
    }
  }

  lemma {:induction false} OnesBit(n: nat, k: nat)
    ensures Bit(LowOnes(n), k) <==> k < n
    decreases n
  {
    if n == 0 {
      ZeroBit(k);
    } else if k > 0 {
      assert LowOnes(n) / 2 == LowOnes(n - 1);
      OnesBit(n - 1, k - 1);
    }
  }

  lemma {:induction false} ShrBit(w: nat, n: nat, k: nat)
    ensures Bit(Shr(w, n), k) <==> Bit(w, k + n)
    decreases n
  {
    if n > 0 {
      ShrBit(w / 2, n - 1, k);
    }
  }

  lemma {:induction false} ShlBit(w: nat, n: nat, k: nat)
    ensures Bit(Shl(w, n), k) <==> k >= n && Bit(w, k - n)
    decreases n
  {
    hide Digit;
    if n > 0 {
      DigitBit(Shl(w, n - 1), false, k);
      if k > 0 {
        ShlBit(w, n - 1, k - 1);
      }
    }
  }

  // -------------------------------------------------------------------------
  // Sizes and equality
  // -------------------------------------------------------------------------

  /** A number is below 2^n exactly when it has no bit from n on. */
  lemma {:induction false} BelowPow2(w: nat, n: nat)
    requires forall k :: k >= n ==> !Bit(w, k)
    ensures w < Pow2(n)
    decreases w
  {
    if w > 0 {
      if n == 0 {
        var k := HighestBit(w);
      } else {
        forall k | k >= n - 1
          ensures !Bit(w / 2, k)
        {
          assert !Bit(w, k + 1);
        }
        BelowPow2(w / 2, n - 1);
      }
    }
  }

  lemma {:induction false} NoBitAbove(w: nat, n: nat, k: nat)
    requires w < Pow2(n) && k >= n
    ensures !Bit(w, k)
    decreases n
  {
    if n == 0 {
      ZeroBit(k);
    } else {
      NoBitAbove(w / 2, n - 1, k - 1);
    }
  }

  /** The highest bit of a non-zero word is the last of its digits. */
  lemma {:induction false} HighestBit(w: nat) returns (k: nat)
    requires w > 0
    ensures k == BitLength(w) - 1 && Bit(w, k)
  {
    if w == 1 {
      k := 0;
    } else {
      k := HighestBit(w / 2);
      k := k + 1;
    }
  }

  lemma {:induction false} AboveLength(w: nat, k: nat)
    requires k >= BitLength(w)
    ensures !Bit(w, k)
  {
    if w == 0 {
      ZeroBit(k);
    } else {
      AboveLength(w / 2, k - 1);
    }
  }

  lemma {:induction false} SameBitsSameWord(a: nat, b: nat)
    requires forall k: nat :: Bit(a, k) <==> Bit(b, k)
    ensures a == b
    decreases a + b
  {
    if a > 0 || b > 0 {
      assert Bit(a, 0) <==> Bit(b, 0);
      forall k: nat
        ensures Bit(a / 2, k) <==> Bit(b / 2, k)
      {
        assert Bit(a, k + 1) <==> Bit(b, k + 1);
      }
      SameBitsSameWord(a / 2, b / 2);
    }
  }

  /** The lowest set bit of a non-zero word, and what `w & (w - 1)` leaves. */
  lemma {:induction false} LowestBit(w: nat)
    requires w > 0
    ensures Bit(w, TrailingZeros(w))
    ensures forall k :: 0 <= k < TrailingZeros(w) ==> !Bit(w, k)
  {
    if w % 2 == 0 {
      LowestBit(w / 2);
    }
  }

  lemma {:induction false} ClearLowest(w: nat, k: nat)
    requires w > 0
    ensures Bit(And(w, w - 1), k) <==> Bit(w, k) && k != TrailingZeros(w)
    decreases k
  {
    if w % 2 == 1 {
      AndBit(w, w - 1, k);
      assert k > 0 ==> (w - 1) / 2 == w / 2;
    } else {
      assert (w - 1) / 2 == w / 2 - 1;
      assert And(w, w - 1) / 2 == And(w / 2, w / 2 - 1) && And(w, w - 1) % 2 == 0;
      if k > 0 {
        ClearLowest(w / 2, k - 1);
      }
    }
  }

  // -------------------------------------------------------------------------
  // The word updates the bit set performs, with their bits
  // -------------------------------------------------------------------------

  lemma FitsWord(w: nat, r: nat)
    requires w < Pow2(64)
    requires forall k: nat :: k >= 64 && Bit(r, k) ==> Bit(w, k)
    ensures r < Pow2(64)
  {
    forall k: nat | k >= 64
      ensures !Bit(r, k)
    {
      NoBitAbove(w, 64, k);
    }
    BelowPow2(r, 64);
  }

  /** `w |= 1 << k` */
  function WithBit(w: word, k: nat): (r: word)
    requires k < 64
    ensures forall j: nat :: Bit(r, j) <==> j == k || Bit(w, j)
  {
    WithBitFacts(w, k);
    Or(w, Mask(k))
  }

  lemma WithBitFacts(w: word, k: nat)
    requires k < 64
    ensures Or(w, Mask(k)) < Pow2(64)
    ensures forall j: nat :: Bit(Or(w, Mask(k)), j) <==> j == k || Bit(w, j)
  {
    forall j: nat
      ensures Bit(Or(w, Mask(k)), j) <==> j == k || Bit(w, j)
    {
      OrBit(w, Mask(k), j);
      MaskBit(k, j);
    }
    FitsWord(w, Or(w, Mask(k)));
  }

  /** `w &= !(1 << k)` */
  function WithoutBit(w: word, k: nat): (r: word)
    requires k < 64
    ensures forall j: nat :: Bit(r, j) <==> j != k && Bit(w, j)
  {
    WithoutBitFacts(w, k);
    AndNot(w, Mask(k))
  }

  lemma WithoutBitFacts(w: word, k: nat)
    requires k < 64
    ensures AndNot(w, Mask(k)) < Pow2(64)
    ensures forall j: nat :: Bit(AndNot(w, Mask(k)), j) <==> j != k && Bit(w, j)
  {
    forall j: nat
      ensures Bit(AndNot(w, Mask(k)), j) <==> j != k && Bit(w, j)
    {
      AndNotBit(w, Mask(k), j);
      MaskBit(k, j);
    }
    FitsWord(w, AndNot(w, Mask(k)));
  }

  /** `w ^= 1 << k` */
  function FlipBit(w: word, k: nat): (r: word)
    requires k < 64
    ensures forall j: nat :: Bit(r, j) <==> Bit(w, j) != (j == k)
  {
    FlipBitFacts(w, k);
    Xor(w, Mask(k))
  }

  lemma FlipBitFacts(w: word, k: nat)
    requires k < 64
    ensures Xor(w, Mask(k)) < Pow2(64)
    ensures forall j: nat :: Bit(Xor(w, Mask(k)), j) <==> Bit(w, j) != (j == k)
  {
    forall j: nat
      ensures Bit(Xor(w, Mask(k)), j) <==> Bit(w, j) != (j == k)
    {
      XorBit(w, Mask(k), j);
      MaskBit(k, j);
    }
    FitsWord(w, Xor(w, Mask(k)));
  }

  /** `a | b` on words */
  function OrWord(a: word, b: word): (r: word)
    ensures forall j: nat :: Bit(r, j) <==> Bit(a, j) || Bit(b, j)
  {
    OrWordFacts(a, b);
    Or(a, b)
  }

  lemma OrWordFacts(a: word, b: word)
    ensures Or(a, b) < Pow2(64)
    ensures forall j: nat :: Bit(Or(a, b), j) <==> Bit(a, j) || Bit(b, j)
  {
    forall j: nat
      ensures Bit(Or(a, b), j) <==> Bit(a, j) || Bit(b, j)
    {
      OrBit(a, b, j);
    }
    forall j: nat | j >= 64
      ensures !Bit(Or(a, b), j)
    {
      NoBitAbove(a, 64, j);
      NoBitAbove(b, 64, j);
    }
    BelowPow2(Or(a, b), 64);
  }

  /** `a & b` on words */
  function AndWord(a: word, b: word): (r: word)
    ensures forall j: nat :: Bit(r, j) <==> Bit(a, j) && Bit(b, j)
  {
    AndWordFacts(a, b);
    And(a, b)
  }

  lemma AndWordFacts(a: word, b: word)
    ensures And(a, b) < Pow2(64)
    ensures forall j: nat :: Bit(And(a, b), j) <==> Bit(a, j) && Bit(b, j)
  {
    forall j: nat
      ensures Bit(And(a, b), j) <==> Bit(a, j) && Bit(b, j)
    {
      AndBit(a, b, j);
    }
    FitsWord(a, And(a, b));
  }

  /** `(1 << n) - 1`, and `u64::MAX` at 64 */
  function Ones(n: nat): (r: word)
    requires n <= 64
    ensures forall j: nat :: Bit(r, j) <==> j < n
  {
    OnesFacts(n);
    LowOnes(n)
  }

  lemma OnesFacts(n: nat)
    requires n <= 64
    ensures LowOnes(n) < Pow2(64)
    ensures forall j: nat :: Bit(LowOnes(n), j) <==> j < n
  {
    forall j: nat
      ensures Bit(LowOnes(n), j) <==> j < n
    {
      OnesBit(n, j);
    }
    BelowPow2(LowOnes(n), 64);
  }

  /** `(w >> (8 * n)) & 0xFF` */
  function ByteOfWord(w: word, n: nat): (r: nat)
    requires n < 8
    ensures r < 256
    ensures forall j: nat :: Bit(r, j) <==> j < 8 && Bit(w, 8 * n + j)
  {
    ByteOfWordFacts(w, n);
    And(Shr(w, 8 * n), 0xFF)
  }

  lemma ByteOfWordFacts(w: word, n: nat)
    requires n < 8
    ensures And(Shr(w, 8 * n), 0xFF) < 256
    ensures forall j: nat :: Bit(And(Shr(w, 8 * n), 0xFF), j) <==> j < 8 && Bit(w, 8 * n + j)
  {
    var r := And(Shr(w, 8 * n), 0xFF);
    assert LowOnes(8) == 0xFF && Pow2(8) == 256;
    forall j: nat
      ensures Bit(r, j) <==> j < 8 && Bit(w, 8 * n + j)
    {
      AndBit(Shr(w, 8 * n), 0xFF, j);
      ShrBit(w, 8 * n, j);
      OnesBit(8, j);
    }
    BelowPow2(r, 8);
  }

  /** `w | (byte << (8 * n))` into the part of the word above its first n bytes */
  function WithByte(w: word, byte: nat, n: nat): (r: word)
    requires byte < 256 && n < 8
    ensures forall j: nat :: Bit(r, j) <==> Bit(w, j) || (8 * n <= j < 8 * n + 8 && Bit(byte, j - 8 * n))
  {
    WithByteFacts(w, byte, n);
    Or(w, Shl(byte, 8 * n))
  }

  lemma WithByteFacts(w: word, byte: nat, n: nat)
    requires byte < 256 && n < 8
    ensures var r := Or(w, Shl(byte, 8 * n));
      && r < Pow2(64)
      && (forall j: nat :: Bit(r, j) <==> Bit(w, j) || (8 * n <= j < 8 * n + 8 && Bit(byte, j - 8 * n)))
  {
    var r := Or(w, Shl(byte, 8 * n));
    assert Pow2(8) == 256;
    forall j: nat
      ensures Bit(r, j) <==> Bit(w, j) || (8 * n <= j < 8 * n + 8 && Bit(byte, j - 8 * n))
    {
      OrBit(w, Shl(byte, 8 * n), j);
      ShlBit(byte, 8 * n, j);
      if j >= 8 * n + 8 {
        NoBitAbove(byte, 8, j - 8 * n);
      }
    }
    FitsWord(w, r);
  }

  // -------------------------------------------------------------------------
  // Counting
  // -------------------------------------------------------------------------

  predicate BitFrom(w: nat, base: nat, i: int) {
    i >= base && Bit(w, i - base)
  }

  /** The positions of a word's first n bits, offset by a base. */
  ghost function Positions(w: nat, base: nat, n: nat): set<nat> {
    set i | base <= i < base + n && BitFrom(w, base, i)
  }

  lemma {:induction false} CountOnesIsCardinality(w: nat, base: nat, n: nat)
    requires w < Pow2(n)
    ensures |Positions(w, base, n)| == CountOnes(w)
    decreases n
  {
    if n == 0 {
      assert Positions(w, base, n) == {};
    } else {
      var upper := Positions(w / 2, base + 1, n - 1);
      CountOnesIsCardinality(w / 2, base + 1, n - 1);
      forall i | base < i < base + n
        ensures i in Positions(w, base, n) <==> i in upper
      {
        assert BitFrom(w, base, i) == BitFrom(w / 2, base + 1, i);
      }
      assert Positions(w, base, n) == upper + if w % 2 == 1 then {base} else {};
    }
  }
}
