/** Bitwise operations on naturals, and rounding to the nearest integer. */
module Bits {

  function Pow2(k: nat): (p: nat)
    ensures p >= 1
  {
    if k == 0 then 1 else 2 * Pow2(k - 1)
  }

  lemma {:induction false} FourMore(k: nat)
    ensures Pow2(k + 4) == 16 * Pow2(k)
  {
    assert Pow2(k + 1) == 2 * Pow2(k) && Pow2(k + 2) == 2 * Pow2(k + 1) && Pow2(k + 3) == 2 * Pow2(k + 2);
  }

  function BitOr(a: nat, b: nat): nat {
    if a == 0 then b else if b == 0 then a
    else 2 * BitOr(a / 2, b / 2) + if a % 2 == 1 || b % 2 == 1 then 1 else 0
  }

  function BitXor(a: nat, b: nat): nat {
    if a == 0 then b else if b == 0 then a
    else 2 * BitXor(a / 2, b / 2) + if a % 2 != b % 2 then 1 else 0
  }

  /** Bit by bit: a bit of the result is set where one of the operands has it set. */
  lemma {:induction false} OrStep(a: nat, b: nat)
    ensures BitOr(a, b) % 2 == 1 <==> a % 2 == 1 || b % 2 == 1
    ensures BitOr(a, b) / 2 == BitOr(a / 2, b / 2) && BitOr(0, 0) == 0
  {
  }

  /** Or of numbers without common bits is their sum. */
  lemma {:induction false} OrDisjoint(a: nat, k: nat, b: nat)
    requires b < Pow2(k)
    ensures BitOr(a * Pow2(k), b) == a * Pow2(k) + b
  {
    if k > 0 && a > 0 && b > 0 {
      var p := a * Pow2(k - 1);
      assert a * Pow2(k) == 2 * p;
      OrDisjoint(a, k - 1, b / 2);
    }
  }

  /** Xor works on the low and the high bits apart. */
  lemma {:induction false} XorSplit(a: nat, A: nat, b: nat, B: nat, k: nat)
    requires a < Pow2(k) && b < Pow2(k)
    ensures BitXor(a + Pow2(k) * A, b + Pow2(k) * B) == BitXor(a, b) + Pow2(k) * BitXor(A, B)
  {
    hide BitXor;
    if k > 0 {
      var p := Pow2(k - 1);
      XorSplit(a / 2, A, b / 2, B, k - 1);
      XorCarry(a, p * A, b, p * B, p * BitXor(A, B));
      Twice(p, A);
      Twice(p, B);
      Twice(p, BitXor(A, B));
    } else {
      XorSelf(0);
    }
  }

  lemma {:induction false} Twice(p: nat, x: nat)
    ensures 2 * p * x == 2 * (p * x)
  {
  }

  lemma {:induction false} XorCarry(a: nat, pa: nat, b: nat, pb: nat, px: nat)
    requires BitXor(a / 2 + pa, b / 2 + pb) == BitXor(a / 2, b / 2) + px
    ensures BitXor(a + 2 * pa, b + 2 * pb) == BitXor(a, b) + 2 * px
  {
    hide BitXor;
    XorStep(a + 2 * pa, b + 2 * pb);
    XorStep(a, b);
    assert (a + 2 * pa) / 2 == a / 2 + pa && (b + 2 * pb) / 2 == b / 2 + pb;
  }

  lemma {:induction false} XorStep(a: nat, b: nat)
    ensures BitXor(a, b) == 2 * BitXor(a / 2, b / 2) + if a % 2 != b % 2 then 1 else 0
  {
  }

  lemma {:induction false} XorBelow(a: nat, b: nat, k: nat)
    requires a < Pow2(k) && b < Pow2(k)
    ensures BitXor(a, b) < Pow2(k)
  {
    if k > 0 {
      XorBelow(a / 2, b / 2, k - 1);
      XorStep(a, b);
    }
  }

  /** Masking twice with the same key undoes it. */
  lemma {:induction false} XorTwice(a: nat, b: nat)
    ensures BitXor(BitXor(a, b), b) == a
  {
    if a > 0 && b > 0 {
      XorTwice(a / 2, b / 2);
      var x := BitXor(a, b);
      XorStep(a, b);
      assert x / 2 == BitXor(a / 2, b / 2);
      XorStep(x, b);
    } else if a == 0 {
      XorSelf(b);
    }
  }

  lemma {:induction false} XorSelf(b: nat)
    ensures BitXor(b, b) == 0
  {
    if b > 0 {
      XorSelf(b / 2);
    }
  }

  // ----- Rounding

  /** The nearest integer, ties to even. */
  function RoundEven(x: real): int {
    var f := x.Floor;
    var d := x - f as real;
    if d < 0.5 then f else if d > 0.5 then f + 1 else if f % 2 == 0 then f else f + 1
  }

  lemma {:induction false} RoundClose(x: real)
    ensures -0.5 <= x - RoundEven(x) as real <= 0.5
  {
  }

  /** Half way between two integers it takes the even one. */
  lemma {:induction false} RoundTie(x: real)
    requires x - RoundEven(x) as real == 0.5 || x - RoundEven(x) as real == -0.5
    ensures RoundEven(x) % 2 == 0
  {
    var f := x.Floor;
    assert f % 2 == 0 || (f + 1) % 2 == 0;
  }

  lemma {:induction false} RoundMonotone(x: real, y: real)
    requires x <= y
    ensures RoundEven(x) <= RoundEven(y)
  {
  }

  lemma {:induction false} RoundInteger(n: int)
    ensures RoundEven(n as real) == n
  {
  }

  lemma {:induction false} RoundOdd(x: real)
    ensures RoundEven(-x) == -RoundEven(x)
  {
    var f := x.Floor;
    if x == f as real {
      assert (-x).Floor == -f;
    } else {
      assert (-x).Floor == -f - 1;
    }
  }
}
