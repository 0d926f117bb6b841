/** Unsigned 64-bit words as natural numbers, with the bit operations the
    fingerprints use: exclusive or, conjunction, shift, truncation, bit test. */
module Words {

  type uint64 = x: nat | x < 0x1_0000_0000_0000_0000

  function Xor(a: nat, b: nat): nat
    decreases a + b
  {
    if a == 0 && b == 0 then 0 else 2 * Xor(a / 2, b / 2) + (a + b) % 2
  }

  function And(a: nat, b: nat): nat {
    if a == 0 || b == 0 then 0 else 2 * And(a / 2, b / 2) + (a % 2) * (b % 2)
  }

  function Or(a: nat, b: nat): nat
    decreases a + b
  {
    if a == 0 && b == 0 then 0
    else 2 * Or(a / 2, b / 2) + (if a % 2 == 1 || b % 2 == 1 then 1 else 0)
  }

  function ShiftRight(x: nat, n: nat): nat {
    if n == 0 then x else ShiftRight(x / 2, n - 1)
  }

  function ShiftLeft(x: nat, n: nat): nat {
    if n == 0 then x else 2 * ShiftLeft(x, n - 1)
  }

  /** The low n bits of x. */
  function Truncate(x: nat, n: nat): nat {
    if n == 0 then 0 else 2 * Truncate(x / 2, n - 1) + x % 2
  }

  predicate Bit(x: nat, i: nat) {
    ShiftRight(x, i) % 2 == 1
  }

  /** The number of set bits, read off one bit at a time. */
  function PopCount(x: nat): nat {
    if x == 0 then 0 else x % 2 + PopCount(x / 2)
  }

  // ----- conjunction and the lowest set bit -----

  lemma {:induction false} AndSelf(x: nat)
    ensures And(x, x) == x
  {
    if x != 0 {
      AndSelf(x / 2);
    }
  }

  lemma Halves(a: nat, x: nat)
    requires x < 2
    ensures (2 * a + x) / 2 == a && (2 * a + x) % 2 == x
  {
  }

  lemma Digits(x: nat, half: nat)
    requires half == x / 2
    ensures x == 2 * half + x % 2
  {
  }

  /** Conjunction and bit count of a number given by its last digit and the rest. */
  lemma AndDigits(a: nat, x: nat, b: nat, y: nat)
    requires x < 2 && y < 2
    ensures And(2 * a + x, 2 * b + y) == 2 * And(a, b) + (if x == 1 && y == 1 then 1 else 0)
  {
    Halves(a, x);
    Halves(b, y);
    if a == 0 || b == 0 {
      AndZero(a, b);
    }
  }

  lemma AndZero(a: nat, b: nat)
    requires a == 0 || b == 0
    ensures And(a, b) == 0
  {
  }

  lemma PopCountDigits(a: nat, x: nat)
    requires x < 2
    ensures PopCount(2 * a + x) == x + PopCount(a)
  {
  }

  /** x & (x - 1) clears exactly one bit. */
  lemma {:induction false} ClearLowestBit(x: nat)
    requires x != 0
    ensures And(x, x - 1) < x
    ensures PopCount(And(x, x - 1)) == PopCount(x) - 1
    decreases x, 1
  {
    var half := x / 2;
    Digits(x, half);
    ClearDigits(half, x % 2);
  }

  lemma {:induction false} ClearDigits(k: nat, b: nat)
    requires b < 2 && 0 < 2 * k + b
    ensures var x := 2 * k + b; And(x, x - 1) < x && PopCount(And(x, x - 1)) == PopCount(x) - 1
    decreases 2 * k + b, 0
  {
    PopCountDigits(k, b);
    if b == 1 {
      AndSelf(k);
      AndDigits(k, 1, k, 0);
      PopCountDigits(k, 0);
    } else {
      ClearLowestBit(k);
      AndDigits(k, 0, k - 1, 1);
      PopCountDigits(And(k, k - 1), 0);
    }
  }

  // ----- exclusive or -----

  lemma {:induction false} XorSymmetric(a: nat, b: nat)
    ensures Xor(a, b) == Xor(b, a)
    decreases a + b
  {
    if a != 0 || b != 0 {
      XorSymmetric(a / 2, b / 2);
    }
  }

  lemma {:induction false} XorZero(a: nat, b: nat)
    ensures Xor(a, b) == 0 <==> a == b
    decreases a + b
  {
    if a != 0 || b != 0 {
      XorZero(a / 2, b / 2);
    }
  }

  lemma {:induction false} PopCountZero(x: nat)
    ensures PopCount(x) == 0 <==> x == 0
  {
    if x != 0 {
      PopCountZero(x / 2);
    }
  }

  lemma XorHalf(a: nat, b: nat)
    ensures Xor(a, b) / 2 == Xor(a / 2, b / 2)
    ensures Xor(a, b) % 2 == (a + b) % 2
  {
  }

  lemma {:induction false} XorShift(a: nat, b: nat, n: nat)
    ensures ShiftRight(Xor(a, b), n) == Xor(ShiftRight(a, n), ShiftRight(b, n))
    decreases n
  {
    if n > 0 {
      XorHalf(a, b);
      XorShift(a / 2, b / 2, n - 1);
    }
  }

  /** Exclusive or of two numbers given by their last digit and the rest. */
  lemma XorDigits(a: nat, x: nat, b: nat, y: nat)
    requires x < 2 && y < 2
    ensures Xor(2 * a + x, 2 * b + y) == 2 * Xor(a, b) + (if x == y then 0 else 1)
  {
    Halves(a, x);
    Halves(b, y);
    SumParity(a, x, b, y);
  }

  lemma SumParity(a: nat, x: nat, b: nat, y: nat)
    requires x < 2 && y < 2
    ensures (2 * a + x + (2 * b + y)) % 2 == if x == y then 0 else 1
  {
  }

  lemma {:induction false} XorTruncate(a: nat, b: nat, n: nat)
    ensures Truncate(Xor(a, b), n) == Xor(Truncate(a, n), Truncate(b, n))
    decreases n
  {
    if n > 0 {
      XorTruncateDigits(a / 2, a % 2, b / 2, b % 2, n);
    }
  }

  lemma {:induction false} XorTruncateDigits(a: nat, x: nat, b: nat, y: nat, n: nat)
    requires x < 2 && y < 2 && n > 0
    ensures Truncate(Xor(2 * a + x, 2 * b + y), n) == Xor(Truncate(2 * a + x, n), Truncate(2 * b + y, n))
    decreases n, 0
  {
    XorTruncate(a, b, n - 1);
    XorDigits(a, x, b, y);
    TruncateDigits(a, x, n);
    TruncateDigits(b, y, n);
    TruncateDigits(Xor(a, b), if x == y then 0 else 1, n);
    XorDigits(Truncate(a, n - 1), x, Truncate(b, n - 1), y);
  }

  lemma TruncateDigits(h: nat, x: nat, n: nat)
    requires x < 2 && n > 0
    ensures Truncate(2 * h + x, n) == 2 * Truncate(h, n - 1) + x
  {
  }

  // ----- splitting a word -----

  lemma {:induction false} ShiftShift(x: nat, m: nat, n: nat)
    ensures ShiftRight(ShiftRight(x, m), n) == ShiftRight(x, m + n)
    decreases m
  {
    if m > 0 {
      ShiftShift(x / 2, m - 1, n);
    }
  }

  /** The low n bits and the rest account for every set bit. */
  lemma {:induction false} PopCountSplit(x: nat, n: nat)
    ensures PopCount(x) == PopCount(Truncate(x, n)) + PopCount(ShiftRight(x, n))
    decreases n
  {
    if n > 0 {
      PopCountSplit(x / 2, n - 1);
      var t := Truncate(x / 2, n - 1);
      assert (2 * t + x % 2) / 2 == t;
    }
  }

  function Pow2(n: nat): (p: nat)
    ensures p > 0
  {
    if n == 0 then 1 else 2 * Pow2(n - 1)
  }

  lemma DoubleProduct(p: nat, s: nat)
    ensures (2 * p) * s == 2 * (p * s)
  {
  }

  /** The low n bits and the rest rebuild the word. */
  lemma {:induction false} SplitRebuild(x: nat, n: nat)
    ensures x == Truncate(x, n) + Pow2(n) * ShiftRight(x, n)
    ensures Truncate(x, n) < Pow2(n)
    decreases n
  {
    if n > 0 {
      var half := x / 2;
      SplitRebuild(half, n - 1);
      DoubleProduct(Pow2(n - 1), ShiftRight(half, n - 1));
      Digits(x, half);
    }
  }

  lemma {:induction false} ShiftBounded(x: nat, n: nat)
    requires x < Pow2(n)
    ensures ShiftRight(x, n) == 0
    decreases n
  {
    if n > 0 {
      ShiftBounded(x / 2, n - 1);
    }
  }

  // ----- single bits -----

  lemma {:induction false} BitOr(a: nat, b: nat, i: nat)
    ensures Bit(Or(a, b), i) <==> Bit(a, i) || Bit(b, i)
    decreases i
  {
    if a == 0 && b == 0 {
      ShiftZero(i);
    } else if i > 0 {
      assert Or(a, b) / 2 == Or(a / 2, b / 2);
      BitOr(a / 2, b / 2, i - 1);
    }
  }

  lemma {:induction false} ShiftZero(n: nat)
    ensures ShiftRight(0, n) == 0
  {
    if n > 0 {
      ShiftZero(n - 1);
    }
  }

  /** 1 << i has bit i and no other. */
  lemma {:induction false} BitOfOne(i: nat, j: nat)
    ensures Bit(ShiftLeft(1, i), j) <==> i == j
    decreases i
  {
    if j == 0 {
    } else if i == 0 {
      ShiftZero(j - 1);
    } else {
      assert ShiftLeft(1, i) / 2 == ShiftLeft(1, i - 1);
      BitOfOne(i - 1, j - 1);
    }
  }

  lemma {:induction false} OrBounded(a: nat, b: nat, n: nat)
    requires a < Pow2(n) && b < Pow2(n)
    ensures Or(a, b) < Pow2(n)
    decreases n
  {
    if n > 0 && (a != 0 || b != 0) {
      OrBounded(a / 2, b / 2, n - 1);
    }
  }

  lemma {:induction false} OneBounded(i: nat, n: nat)
    requires i < n
    ensures ShiftLeft(1, i) < Pow2(n)
    decreases i
  {
    if i > 0 {
      OneBounded(i - 1, n - 1);
    }
  }

  /** h & (1 << i) is nonzero exactly when bit i is set. */
  lemma {:induction false} AndTestsBit(h: nat, i: nat)
    ensures And(h, ShiftLeft(1, i)) != 0 <==> Bit(h, i)
    decreases i
  {
    if h == 0 {
      ShiftZero(i);
    } else if i == 0 {
      assert And(h, 1) == 2 * And(h / 2, 0) + (h % 2) * 1;
    } else {
      var one := ShiftLeft(1, i);
      OnePositive(i);
      assert one / 2 == ShiftLeft(1, i - 1) && one % 2 == 0;
      AndTestsBit(h / 2, i - 1);
      assert And(h, one) == 2 * And(h / 2, one / 2) + (h % 2) * 0;
    }
  }

  lemma {:induction false} OnePositive(i: nat)
    ensures ShiftLeft(1, i) > 0
  {
    if i > 0 {
      OnePositive(i - 1);
    }
  }

  lemma Pow2Of64()
    ensures Pow2(64) == 0x1_0000_0000_0000_0000
  {
    assert Pow2(8) == 256;
    Pow2Plus(8, 8);
    assert Pow2(16) == 0x10000;
    Pow2Plus(16, 16);
    assert Pow2(32) == 0x1_0000_0000;
    Pow2Plus(32, 32);
  }

  lemma {:induction false} Pow2Plus(m: nat, n: nat)
    ensures Pow2(m + n) == Pow2(m) * Pow2(n)
    decreases m
  {
    if m > 0 {
      Pow2Plus(m - 1, n);
      var a, b := Pow2(m - 1), Pow2(n);
      assert (2 * a) * b == 2 * (a * b);
    }
  }
}
