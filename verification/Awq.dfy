/**
 Group-wise 4-bit quantization and the packing of its codes into 32-bit words (tools/convert_awq.py). The scale is the
 one before it is cast to FP16.
 */
module Awq {
  import opened Arith
  import opened Bits

  // ----- One group

  function Clip(v: int): (r: nat)
    ensures r <= 15
  {
    if v < 0 then 0 else if v > 15 then 15 else v
  }

  function Scale(lo: real, hi: real): (s: real)
    ensures s > 0.0
  {
    var s := (hi - lo) / 15.0;
    if s > 0.0 then s else 1.0
  }

  function ZeroOf(lo: real, s: real): (z: nat)
    requires s > 0.0
    ensures z <= 15
  {
    Clip(RoundEven(-lo / s))
  }

  function CodeOf(v: real, s: real, z: nat): (q: nat)
    requires s > 0.0
    ensures q <= 15
  {
    Clip(RoundEven(v / s) + z)
  }

  /** The value that code `q` stands for is within half a step of `v`. */
  predicate IsNear(v: real, s: real, z: nat, q: nat) { Abs(v - (q - z) as real * s) <= s / 2.0 }

  /** When a group with least value `lo` and greatest `hi` is represented to within half a step. */
  predicate Representable(lo: real, hi: real) {
    if lo < hi then lo <= Scale(lo, hi) / 2.0 && hi >= -Scale(lo, hi) / 2.0 else -15.5 <= lo <= 15.5
  }

  /** In units of a step: `u` is near its code, given the least value `least`. */
  ghost predicate NearInSteps(u: real, least: real) {
    var z := Clip(RoundEven(-least));
    Abs(u - (Clip(RoundEven(u) + z) - z) as real) <= 0.5
  }

  /** Clipping costs nothing but at an exact tie while the zero point itself is not clipped by more than half a step. */
  lemma {:induction false} StepsNear(u: real, least: real)
    requires -15.5 <= least <= 0.5 && least <= u <= least + 15.0
    ensures NearInSteps(u, least)
  {
    hide RoundEven;
    RoundClose(u);
    RoundClose(-least);
  }

  lemma {:induction false} StepsAbove(u: real, least: real)
    requires least > 0.5 && u > 15.5
    ensures !NearInSteps(u, least)
  {
    hide RoundEven;
    RoundClose(-least);
  }

  lemma {:induction false} StepsBelow(u: real, least: real)
    requires least < -15.5 && u < -15.5
    ensures !NearInSteps(u, least)
  {
    hide RoundEven;
    RoundClose(-least);
  }

  /** A group of equal values `c`, whose step is one. */
  lemma {:induction false} StepsConstant(c: real)
    ensures NearInSteps(c, c) <==> -15.5 <= c <= 15.5
  {
    RoundOdd(c);
    hide RoundEven;
    RoundClose(c);
    RoundClose(-c);
  }

  lemma {:induction false} InSteps(v: real, lo: real, s: real, u: real, least: real)
    requires s > 0.0 && v == u * s && lo == least * s
    ensures IsNear(v, s, ZeroOf(lo, s), CodeOf(v, s, ZeroOf(lo, s))) <==> NearInSteps(u, least)
  {
    hide RoundEven, Clip, IsNear;
    var z := Clip(RoundEven(-least));
    assert ZeroOf(lo, s) == z by {
      Divides(-lo, -least, s);
    }
    var q := Clip(RoundEven(u) + z);
    assert CodeOf(v, s, z) == q by {
      Divides(v, u, s);
    }
    NearIs(v, s, z, q, u);
  }

  lemma {:induction false} NearIs(v: real, s: real, z: nat, q: nat, u: real)
    requires s > 0.0 && v == u * s
    ensures IsNear(v, s, z, q) <==> Abs(u - (q - z) as real) <= 0.5
  {
    HalfStep(u, (q - z) as real, s);
  }

  lemma {:induction false} Divides(v: real, u: real, s: real)
    requires s > 0.0 && v == u * s
    ensures v / s == u
  {
  }

  lemma {:induction false} HalfStep(u: real, d: real, s: real)
    requires s > 0.0
    ensures Abs(u * s - d * s) <= s / 2.0 <==> Abs(u - d) <= 0.5
  {
    var us, ds := u * s, d * s;
    Above(u, d, s, us, ds);
    Above(d, u, s, ds, us);
  }

  lemma {:induction false} Above(u: real, d: real, s: real, us: real, ds: real)
    requires s > 0.0 && us == u * s && ds == d * s
    ensures us - ds > s / 2.0 <==> u - d > 0.5
  {
    var e := u - d - 0.5;
    assert e * s == us - ds - 0.5 * s;
    Sign(e, s);
  }

  lemma {:induction false} Sign(a: real, s: real)
    requires s > 0.0
    ensures a > 0.0 <==> a * s > 0.0
  {
  }

  lemma {:induction false} NotGreater(a: real, b: real, s: real)
    requires a <= b && s > 0.0
    ensures a * s <= b * s
  {
  }

  ghost predicate IsLeast(w: seq<real>, lo: real) { lo in w && forall i | 0 <= i < |w| :: lo <= w[i] }

  ghost predicate IsGreatest(w: seq<real>, hi: real) { hi in w && forall i | 0 <= i < |w| :: w[i] <= hi }

  /** The whole group is represented to within half a step. */
  ghost predicate GroupNear(w: seq<real>, lo: real, s: real)
    requires s > 0.0
  {
    forall i | 0 <= i < |w| :: IsNear(w[i], s, ZeroOf(lo, s), CodeOf(w[i], s, ZeroOf(lo, s)))
  }

  /** Exactly the groups whose range comes within half a step of zero are. */
  lemma {:induction false} GroupNearIff(w: seq<real>, lo: real, hi: real)
    requires IsLeast(w, lo) && IsGreatest(w, hi)
    ensures GroupNear(w, lo, Scale(lo, hi)) <==> Representable(lo, hi)
  {
    hide IsNear, ZeroOf, CodeOf, NearInSteps;
    var s := Scale(lo, hi);
    var j :| 0 <= j < |w| && w[j] == lo;
    var k :| 0 <= k < |w| && w[k] == hi;
    if lo < hi {
      if Representable(lo, hi) {
        SpreadNear(w, lo, hi, s);
      } else {
        SpreadFar(lo, hi, s);
      }
    } else {
      assert forall i | 0 <= i < |w| :: w[i] == lo;
      InSteps(lo, lo, 1.0, lo, lo);
      StepsConstant(lo);
    }
  }

  lemma {:induction false} SpreadNear(w: seq<real>, lo: real, hi: real, s: real)
    requires IsLeast(w, lo) && IsGreatest(w, hi) && lo < hi && s == Scale(lo, hi) && lo <= s / 2.0 && hi >= -s / 2.0
    ensures GroupNear(w, lo, s)
  {
    hide IsNear, ZeroOf, CodeOf, NearInSteps;
    assert hi == lo + 15.0 * s;
    forall i | 0 <= i < |w|
      ensures IsNear(w[i], s, ZeroOf(lo, s), CodeOf(w[i], s, ZeroOf(lo, s)))
    {
      ValueNear(w[i], lo, s);
    }
  }

  lemma {:induction false} ValueNear(v: real, lo: real, s: real)
    requires s > 0.0 && lo <= v <= lo + 15.0 * s && -15.5 * s <= lo <= s / 2.0
    ensures IsNear(v, s, ZeroOf(lo, s), CodeOf(v, s, ZeroOf(lo, s)))
  {
    var u, least := v / s, lo / s;
    Between(lo, s, -15.5, 0.5, least);
    BelowIn(least, u, lo, v, s);
    BelowIn(u, least + 15.0, v, lo + 15.0 * s, s);
    hide IsNear, ZeroOf, CodeOf, NearInSteps;
    StepsNear(u, least);
    InSteps(v, lo, s, u, least);
  }

  lemma {:induction false} Between(v: real, s: real, a: real, b: real, u: real)
    requires s > 0.0 && u * s == v && a * s <= v <= b * s
    ensures a <= u <= b
  {
    if u < a {
      Grows(a, u, s);
    } else if u > b {
      Grows(u, b, s);
    }
  }

  lemma {:induction false} BelowIn(a: real, b: real, x: real, y: real, s: real)
    requires s > 0.0 && a * s == x && b * s == y && x <= y
    ensures a <= b
  {
    if a > b {
      Grows(a, b, s);
    }
  }

  lemma {:induction false} SpreadFar(lo: real, hi: real, s: real)
    requires lo < hi && s == Scale(lo, hi)
    ensures lo > s / 2.0 ==> !IsNear(hi, s, ZeroOf(lo, s), CodeOf(hi, s, ZeroOf(lo, s)))
    ensures hi < -s / 2.0 ==> !IsNear(lo, s, ZeroOf(lo, s), CodeOf(lo, s, ZeroOf(lo, s)))
  {
    var least := lo / s;
    assert least * s == lo && hi == lo + 15.0 * s;
    FarInSteps(lo, hi, s, least, least + 15.0);
  }

  lemma {:induction false} FarInSteps(lo: real, hi: real, s: real, least: real, u: real)
    requires s > 0.0 && lo == least * s && hi == u * s && u == least + 15.0
    ensures lo > s / 2.0 ==> !IsNear(hi, s, ZeroOf(lo, s), CodeOf(hi, s, ZeroOf(lo, s)))
    ensures hi < -s / 2.0 ==> !IsNear(lo, s, ZeroOf(lo, s), CodeOf(lo, s, ZeroOf(lo, s)))
  {
    hide IsNear, ZeroOf, CodeOf, NearInSteps;
    InSteps(hi, lo, s, u, least);
    InSteps(lo, lo, s, least, least);
    if lo > s / 2.0 {
      Exceeds(least, 0.5, lo, s);
      StepsAbove(u, least);
    }
    if hi < -s / 2.0 {
      Exceeds(-u, 0.5, -hi, s);
      StepsBelow(least, least);
    }
  }

  lemma {:induction false} Exceeds(u: real, a: real, v: real, s: real)
    requires s > 0.0 && u * s == v && v > a * s
    ensures u > a
  {
    if u <= a {
      NotGreater(u, a, s);
    }
  }

  /** In particular every group whose range contains zero. */
  lemma {:induction false} RangeAroundZero(w: seq<real>, lo: real, hi: real)
    requires IsLeast(w, lo) && IsGreatest(w, hi) && lo <= 0.0 <= hi
    ensures GroupNear(w, lo, Scale(lo, hi))
  {
    hide GroupNear;
    GroupNearIff(w, lo, hi);
  }

  /** A group that does not: 14 and 29 get zero point 0 and step 1, and 29 is stored as 15. */
  lemma {:induction false} FarFromZero()
    ensures IsLeast([14.0, 29.0], 14.0) && IsGreatest([14.0, 29.0], 29.0)
            && !GroupNear([14.0, 29.0], 14.0, Scale(14.0, 29.0))
  {
    hide GroupNear;
    assert [14.0, 29.0][0] == 14.0 && [14.0, 29.0][1] == 29.0;
    GroupNearIff([14.0, 29.0], 14.0, 29.0);
  }

  /** The step of a group is a fifteenth of its range, or one where all values are equal. */
  lemma {:induction false} ScaleIs(lo: real, hi: real)
    ensures if lo < hi then 15.0 * Scale(lo, hi) == hi - lo else Scale(lo, hi) == 1.0
  {
  }

  /** No number from 0 to 15 is nearer to `u + z` than the one that rounding and clipping take; a tie goes to even. */
  lemma {:induction false} ClipIsNearest(u: real, z: nat, c: nat)
    requires c <= 15
    ensures var q := Clip(RoundEven(u) + z);
            && Abs(u - (q - z) as real) <= Abs(u - (c - z) as real)
            && (0 < q < 15 && Abs(u - (q - z) as real) == 0.5 ==> (q - z) % 2 == 0)
  {
    RoundClose(u);
    if Abs(u - RoundEven(u) as real) == 0.5 {
      RoundTie(u);
    }
    hide RoundEven;
  }

  /** Whatever the group, no code `c` stands for a value nearer to `v` than the code it gets. */
  lemma {:induction false} CodeIsNearest(v: real, s: real, z: nat, c: nat, near: real, other: real)
    requires s > 0.0 && c <= 15 && near == (CodeOf(v, s, z) - z) as real * s && other == (c - z) as real * s
    ensures Abs(v - near) <= Abs(v - other)
    ensures 0 < CodeOf(v, s, z) < 15 && Abs(v - near) == s / 2.0 ==> (CodeOf(v, s, z) - z) % 2 == 0
  {
    hide CodeOf, Clip, RoundEven, Abs;
    var u := Quotient(v, s);
    CodeInSteps(v, s, z, u);
    ClipIsNearest(u, z, c);
    NearerInSteps(v, u, s, (CodeOf(v, s, z) - z) as real, (c - z) as real, near, other);
  }

  /** The zero point is the number from 0 to 15 nearest to `-lo` in steps, the even one at a tie. */
  lemma {:induction false} ZeroIsNearest(lo: real, s: real, c: nat, near: real, other: real)
    requires s > 0.0 && c <= 15 && near == ZeroOf(lo, s) as real * s && other == c as real * s
    ensures Abs(lo + near) <= Abs(lo + other)
    ensures 0 < ZeroOf(lo, s) < 15 && Abs(lo + near) == s / 2.0 ==> ZeroOf(lo, s) % 2 == 0
  {
    hide CodeOf, ZeroOf, Clip, RoundEven, Abs;
    var u := Quotient(-lo, s);
    ZeroIsCode(lo, s);
    CodeInSteps(-lo, s, 0, u);
    ClipIsNearest(u, 0, c);
    NearerInSteps(-lo, u, s, ZeroOf(lo, s) as real, c as real, near, other);
    Opposites(lo, near);
    Opposites(lo, other);
  }

  lemma {:induction false} ZeroIsCode(lo: real, s: real)
    requires s > 0.0
    ensures ZeroOf(lo, s) == CodeOf(-lo, s, 0)
  {
    hide Clip, RoundEven;
  }

  lemma {:induction false} Opposites(a: real, b: real)
    ensures Abs(-a - b) == Abs(a + b)
  {
  }

  lemma {:induction false} NearerInSteps(v: real, u: real, s: real, d: real, e: real, near: real, other: real)
    requires s > 0.0 && u * s == v && Abs(u - d) <= Abs(u - e) && near == d * s && other == e * s
    ensures Abs(v - near) <= Abs(v - other) && (Abs(v - near) == s / 2.0 ==> Abs(u - d) == 0.5)
  {
    hide Abs;
    var x, y := Abs(u - d) * s, Abs(u - e) * s;
    InUnits(v, u, s, d, near, x);
    InUnits(v, u, s, e, other, y);
    ScaledErrors(Abs(u - d), Abs(u - e), s, x, y);
  }

  lemma {:induction false} Quotient(v: real, s: real) returns (u: real)
    requires s > 0.0
    ensures u * s == v
  {
    u := v / s;
  }

  lemma {:induction false} CodeInSteps(v: real, s: real, z: nat, u: real)
    requires s > 0.0 && u * s == v
    ensures CodeOf(v, s, z) == Clip(RoundEven(u) + z)
  {
    hide RoundEven, Clip;
    Divides(v, u, s);
  }

  lemma {:induction false} InUnits(v: real, u: real, s: real, d: real, x: real, e: real)
    requires s > 0.0 && u * s == v && x == d * s && e == Abs(u - d) * s
    ensures Abs(v - x) == e
  {
    var w := u - d;
    assert w * s == v - x;
    Sign(w, s);
  }

  lemma {:induction false} ScaledErrors(a: real, b: real, s: real, x: real, y: real)
    requires s > 0.0 && x == a * s && y == b * s
    ensures a <= b ==> x <= y
    ensures x == s / 2.0 ==> a == 0.5
  {
    if a <= b {
      NotGreater(a, b, s);
    }
    if a > 0.5 {
      Grows(a, 0.5, s);
    } else if a < 0.5 {
      Grows(0.5, a, s);
    }
  }

  // ----- Words of eight codes

  /** Column `j` of a word sits at nibble `ORDER[j]`; nibble `p` holds column `COLUMN[p]`. */
  const ORDER := [0, 4, 1, 5, 2, 6, 3, 7]
  const COLUMN := [0, 2, 4, 6, 1, 3, 5, 7]

  predicate AreNibbles(d: seq<nat>) { forall i | 0 <= i < |d| :: d[i] < 16 }

  /** The number with these hexadecimal digits, the lowest first. */
  ghost function FromDigits(d: seq<nat>): nat { if d == [] then 0 else d[0] + 16 * FromDigits(d[1..]) }

  /** Nibble `p` of a word, by shifting and masking. */
  function Nibble(word: nat, p: nat): nat { if p == 0 then word % 16 else Nibble(word / 16, p - 1) }

  lemma {:induction false} NibbleIs(word: nat, p: nat)
    ensures Nibble(word, p) == word / Pow2(4 * p) % 16
  {
    if p == 0 {
      assert Pow2(0) == 1;
    } else {
      NibbleIs(word / 16, p - 1);
      hide Pow2, Nibble;
      FourMore(4 * p - 4);
      DivTwice(word, 16, Pow2(4 * p - 4));
    }
  }

  lemma {:induction false} Powers16()
    ensures Pow2(0) == 1 && Pow2(4) == 0x10 && Pow2(8) == 0x100 && Pow2(12) == 0x1000 && Pow2(16) == 0x1_0000
    ensures Pow2(20) == 0x10_0000 && Pow2(24) == 0x100_0000 && Pow2(28) == 0x1000_0000
  {
    assert Pow2(0) == 1;
    hide Pow2;
    FourMore(0);
    FourMore(4);
    FourMore(8);
    FourMore(12);
    FourMore(16);
    FourMore(20);
    FourMore(24);
  }

  /** The even columns of a word are its low four nibbles in turn, the odd ones its high four. */
  lemma {:induction false} NibblePlaces(word: nat)
    ensures |ORDER| == 8
    ensures Nibble(word, ORDER[0]) == word % 16 && Nibble(word, ORDER[2]) == word / 0x10 % 16
    ensures Nibble(word, ORDER[4]) == word / 0x100 % 16 && Nibble(word, ORDER[6]) == word / 0x1000 % 16
    ensures Nibble(word, ORDER[1]) == word / 0x1_0000 % 16 && Nibble(word, ORDER[3]) == word / 0x10_0000 % 16
    ensures Nibble(word, ORDER[5]) == word / 0x100_0000 % 16 && Nibble(word, ORDER[7]) == word / 0x1000_0000 % 16
  {
    hide Nibble, Pow2;
    Powers16();
    NibbleIs(word, 0);
    NibbleIs(word, 1);
    NibbleIs(word, 2);
    NibbleIs(word, 3);
    NibbleIs(word, 4);
    NibbleIs(word, 5);
    NibbleIs(word, 6);
    NibbleIs(word, 7);
  }

  lemma {:induction false} DigitRead(d: seq<nat>, p: nat)
    requires AreNibbles(d) && p < |d|
    ensures Nibble(FromDigits(d), p) == d[p]
  {
    if p > 0 {
      DigitRead(d[1..], p - 1);
    }
  }

  lemma {:induction false} DigitsBelow(d: seq<nat>)
    requires AreNibbles(d)
    ensures FromDigits(d) < Pow2(4 * |d|)
  {
    if d != [] {
      DigitsBelow(d[1..]);
      FourMore(4 * |d| - 4);
    } else {
      assert Pow2(0) == 1;
    }
  }

  lemma {:induction false} OrBit(lo: nat, a: nat, b: nat)
    requires lo < 2
    ensures BitOr(lo + 2 * a, 2 * b) == lo + 2 * BitOr(a, b)
  {
  }

  lemma {:induction false} OrFourBits(lo: nat, a: nat, b: nat)
    requires lo < 16
    ensures BitOr(lo + 16 * a, 16 * b) == lo + 16 * BitOr(a, b)
  {
    hide BitOr;
    OrBit(lo % 2, lo / 2 + 8 * a, 8 * b);
    OrBit(lo / 2 % 2, lo / 4 + 4 * a, 4 * b);
    OrBit(lo / 4 % 2, lo / 8 + 2 * a, 2 * b);
    OrBit(lo / 8, a, b);
  }

  /** Or-ing a nibble into a place that is zero puts it there. */
  lemma {:induction false} OrDigit(d: seq<nat>, p: nat, v: nat)
    requires AreNibbles(d) && p < |d| && d[p] == 0 && v < 16
    ensures BitOr(FromDigits(d), v * Pow2(4 * p)) == FromDigits(d[p := v])
  {
    hide BitOr, Pow2, FromDigits;
    var rest := d[1..];
    FirstDigit(d);
    FirstDigit(d[p := v]);
    if p == 0 {
      OrLow(FromDigits(rest), v);
      assert d[0 := v][1..] == rest;
    } else {
      OrDigit(rest, p - 1, v);
      var b := v * Pow2(4 * (p - 1));
      ShiftFour(v, p);
      OrFourBits(d[0], FromDigits(rest), b);
      assert d[p := v][1..] == rest[p - 1 := v];
    }
  }

  lemma {:induction false} FirstDigit(d: seq<nat>)
    requires d != []
    ensures FromDigits(d) == d[0] + 16 * FromDigits(d[1..])
  {
  }

  lemma {:induction false} OrLow(a: nat, v: nat)
    requires v < 16
    ensures BitOr(16 * a, v * Pow2(4 * 0)) == v + 16 * a
  {
    hide BitOr;
    assert Pow2(0) == 1;
    FourMore(0);
    OrDisjoint(a, 4, v);
  }

  lemma {:induction false} ShiftFour(v: nat, p: nat)
    requires p > 0
    ensures v * Pow2(4 * p) == 16 * (v * Pow2(4 * (p - 1)))
  {
    hide Pow2;
    FourMore(4 * (p - 1));
    var q := Pow2(4 * (p - 1));
    assert v * (16 * q) == 16 * (v * q);
  }

  /** The digits of a word once its first `j` columns are in. */
  function DigitsTo(c: seq<nat>, j: int): (d: seq<nat>)
    requires |c| == 8
    ensures |d| == 8
  {
    seq(8, p requires 0 <= p < 8 => if COLUMN[p] < j then c[COLUMN[p]] else 0)
  }

  lemma {:induction false} DigitsStep(c: seq<nat>, j: nat)
    requires |c| == 8 && AreNibbles(c) && j < 8
    ensures AreNibbles(DigitsTo(c, j)) && DigitsTo(c, j)[ORDER[j]] == 0
    ensures DigitsTo(c, j + 1) == DigitsTo(c, j)[ORDER[j] := c[j]]
  {
    assert forall p | 0 <= p < 8 :: COLUMN[p] == j <==> p == ORDER[j];
  }

  lemma {:induction false} WordStep(c: seq<nat>, j: nat)
    requires |c| == 8 && AreNibbles(c) && j < 8
    ensures BitOr(FromDigits(DigitsTo(c, j)), c[j] * Pow2(4 * ORDER[j])) == FromDigits(DigitsTo(c, j + 1))
  {
    hide FromDigits, BitOr, Pow2;
    DigitsStep(c, j);
    OrDigit(DigitsTo(c, j), ORDER[j], c[j]);
  }

  /** A packed word is 32 bits and gives every column back. */
  lemma {:induction false} WordRead(c: seq<nat>, j: nat)
    requires |c| == 8 && AreNibbles(c) && j < 8
    ensures FromDigits(DigitsTo(c, 8)) < 0x1_0000_0000 && Nibble(FromDigits(DigitsTo(c, 8)), ORDER[j]) == c[j]
  {
    hide FromDigits, Nibble;
    var d := DigitsTo(c, 8);
    assert COLUMN[ORDER[j]] == j;
    DigitRead(d, ORDER[j]);
    DigitsBelow(d);
    Pow32();
  }

  lemma {:induction false} Pow32()
    ensures Pow2(32) == 0x1_0000_0000
  {
    Powers16();
    hide Pow2;
    FourMore(28);
  }

  /** Row `l`, columns `8 c` to `8 c + 7` of the transposed codes. */
  function Columns(q: seq<seq<nat>>, l: nat, c: nat): (r: seq<nat>)
    requires 8 * c + 8 <= |q| && forall n | 0 <= n < |q| :: l < |q[n]|
    ensures |r| == 8 && forall j | 0 <= j < 8 :: r[j] == q[8 * c + j][l]
  {
    seq(8, j requires 0 <= j < 8 => q[8 * c + j][l])
  }

  ghost predicate IsTable(q: seq<seq<nat>>, L: nat) {
    |q| % 8 == 0 && forall n | 0 <= n < |q| :: |q[n]| == L && AreNibbles(q[n])
  }

  /** Word `(l, c)` with its first `j` columns in. */
  ghost function Word(q: seq<seq<nat>>, L: nat, l: nat, c: nat, j: nat): nat
    requires IsTable(q, L) && l < L && c < |q| / 8
  {
    FromDigits(DigitsTo(Columns(q, l, c), j))
  }

  /** Transposes `N` rows of `L` codes into `L` rows of words, eight codes to a word. */
  method PackWords(q: seq<seq<nat>>, L: nat) returns (out: array2<nat>)
    requires IsTable(q, L)
    ensures fresh(out) && out.Length0 == L && out.Length1 == |q| / 8
    ensures forall l, c | 0 <= l < L && 0 <= c < |q| / 8 :: out[l, c] < 0x1_0000_0000
    ensures forall l, n | 0 <= l < L && 0 <= n < |q| :: Nibble(out[l, n / 8], ORDER[n % 8]) == q[n][l]
  {
    var nw := |q| / 8;
    out := new nat[L, nw]((l, c) => 0);
    forall l, c | 0 <= l < L && 0 <= c < nw
      ensures out[l, c] == Word(q, L, l, c, 0)
    {
      NoDigits(Columns(q, l, c));
    }
    hide Word;
    for j := 0 to 8
      invariant forall l, c | 0 <= l < L && 0 <= c < nw :: out[l, c] == Word(q, L, l, c, j)
    {
      OrColumn(q, L, j, j + 1, out);
    }
    forall l, c | 0 <= l < L && 0 <= c < nw
      ensures out[l, c] < 0x1_0000_0000
    {
      WordColumn(q, L, l, 8 * c);
    }
    forall l, n | 0 <= l < L && 0 <= n < |q|
      ensures Nibble(out[l, n / 8], ORDER[n % 8]) == q[n][l]
    {
      WordColumn(q, L, l, n);
    }
  }

  lemma {:induction false} NoDigits(c: seq<nat>)
    requires |c| == 8
    ensures FromDigits(DigitsTo(c, 0)) == 0
  {
    ZeroDigits(DigitsTo(c, 0));
  }

  lemma {:induction false} ZeroDigits(d: seq<nat>)
    requires forall i | 0 <= i < |d| :: d[i] == 0
    ensures FromDigits(d) == 0
  {
    if d != [] {
      ZeroDigits(d[1..]);
    }
  }

  lemma {:induction false} ColumnsAreNibbles(q: seq<seq<nat>>, L: nat, l: nat, c: nat)
    requires IsTable(q, L) && l < L && c < |q| / 8
    ensures AreNibbles(Columns(q, l, c))
  {
  }

  lemma {:induction false} WordColumn(q: seq<seq<nat>>, L: nat, l: nat, n: nat)
    requires IsTable(q, L) && l < L && n < |q|
    ensures var word := Word(q, L, l, n / 8, 8);
            word < 0x1_0000_0000 && Nibble(word, ORDER[n % 8]) == q[n][l]
  {
    hide FromDigits, DigitsTo, Nibble;
    var c, j := n / 8, n % 8;
    ColumnsAreNibbles(q, L, l, c);
    WordRead(Columns(q, l, c), j);
    assert Columns(q, l, c)[j] == q[8 * c + j][l];
  }

  /** One step of the packing loop, on every word. */
  method OrColumn(q: seq<seq<nat>>, L: nat, j: nat, ghost next: nat, out: array2<nat>)
    requires IsTable(q, L) && j < 8 && next == j + 1 && out.Length0 == L && out.Length1 == |q| / 8
    requires forall l, c | 0 <= l < L && 0 <= c < out.Length1 :: out[l, c] == Word(q, L, l, c, j)
    modifies out
    ensures forall l, c | 0 <= l < L && 0 <= c < out.Length1 :: out[l, c] == Word(q, L, l, c, next)
  {
    hide Word, BitOr, Pow2;
    for l := 0 to L
      invariant forall x, y | 0 <= x < L && 0 <= y < out.Length1 ::
                  out[x, y] == if x < l then Word(q, L, x, y, next) else Word(q, L, x, y, j)
    {
      for c := 0 to out.Length1
        invariant forall x, y | 0 <= x < L && 0 <= y < out.Length1 ::
                    out[x, y] == if x < l || (x == l && y < c) then Word(q, L, x, y, next) else Word(q, L, x, y, j)
      {
        WordNext(q, L, l, c, j);
        out[l, c] := BitOr(out[l, c], q[8 * c + j][l] * Pow2(4 * ORDER[j]));
      }
    }
  }

  lemma {:induction false} WordNext(q: seq<seq<nat>>, L: nat, l: nat, c: nat, j: nat)
    requires IsTable(q, L) && l < L && c < |q| / 8 && j < 8
    ensures BitOr(Word(q, L, l, c, j), q[8 * c + j][l] * Pow2(4 * ORDER[j])) == Word(q, L, l, c, j + 1)
  {
    hide FromDigits, DigitsTo, BitOr, Pow2;
    ColumnsAreNibbles(q, L, l, c);
    WordStep(Columns(q, l, c), j);
  }

  // ----- A whole weight

  function Least(w: seq<real>): (lo: real)
    requires w != []
    ensures IsLeast(w, lo)
  {
    if |w| == 1 then w[0] else
      var m, last := Least(w[..|w| - 1]), w[|w| - 1];
      assert w == w[..|w| - 1] + [last];
      if last < m then last else m
  }

  function Greatest(w: seq<real>): (hi: real)
    requires w != []
    ensures IsGreatest(w, hi)
  {
    if |w| == 1 then w[0] else
      var m, last := Greatest(w[..|w| - 1]), w[|w| - 1];
      assert w == w[..|w| - 1] + [last];
      if last > m then last else m
  }

  predicate HasGroup(row: seq<real>, g: nat, group: nat) {
    group > 0 && 0 <= Mul(g, group) && Mul(g, group) + group <= |row|
  }

  function Slice(row: seq<real>, g: nat, group: nat): (r: seq<real>)
    requires HasGroup(row, g, group)
    ensures |r| == group
  {
    row[Mul(g, group)..Mul(g, group) + group]
  }

  function GroupScale(row: seq<real>, g: nat, group: nat): (s: real)
    requires HasGroup(row, g, group)
    ensures s > 0.0
  {
    Scale(Least(Slice(row, g, group)), Greatest(Slice(row, g, group)))
  }

  function GroupZero(row: seq<real>, g: nat, group: nat): (z: nat)
    requires HasGroup(row, g, group)
    ensures z <= 15
  {
    ZeroOf(Least(Slice(row, g, group)), GroupScale(row, g, group))
  }

  function RowCode(row: seq<real>, k: nat, group: nat): (q: nat)
    requires k < |row| && group > 0 && HasGroup(row, k / group, group)
    ensures q <= 15
  {
    CodeOf(row[k], GroupScale(row, k / group, group), GroupZero(row, k / group, group))
  }

  lemma {:induction false} GroupExists(row: seq<real>, g: nat, group: nat)
    requires group > 0 && |row| % group == 0 && g < |row| / group
    ensures HasGroup(row, g, group)
  {
    MulMonotone(g + 1, |row| / group, group);
  }

  lemma {:induction false} IndexInGroup(g: nat, group: nat, i: nat)
    requires i < group
    ensures (Mul(g, group) + i) / group == g
  {
    DivModOf(g, group, i);
  }

  function CodeRow(row: seq<real>, group: nat): (r: seq<nat>)
    requires group > 0
    ensures |r| == |row| && AreNibbles(r)
    ensures forall k | 0 <= k < |r| :: r[k] == CodeAt(row, k, group)
  {
    seq(|row|, k requires 0 <= k < |row| => CodeAt(row, k, group))
  }

  /** A column past the last whole group has no code. */
  function CodeAt(row: seq<real>, k: nat, group: nat): (q: nat)
    requires k < |row| && group > 0
    ensures q <= 15
  {
    if HasGroup(row, k / group, group) then RowCode(row, k, group) else 0
  }

  function ZeroRow(row: seq<real>, group: nat): (r: seq<nat>)
    requires group > 0 && |row| % group == 0
    ensures |r| == |row| / group && AreNibbles(r)
    ensures forall g | 0 <= g < |r| :: HasGroup(row, g, group) && r[g] == GroupZero(row, g, group)
  {
    AllGroups(row, group);
    seq(|row| / group, g requires 0 <= g < |row| / group && HasGroup(row, g, group) => GroupZero(row, g, group))
  }

  function ScaleRow(row: seq<real>, group: nat): (r: seq<real>)
    requires group > 0 && |row| % group == 0
    ensures |r| == |row| / group
    ensures forall g | 0 <= g < |r| :: HasGroup(row, g, group) && r[g] == GroupScale(row, g, group)
  {
    AllGroups(row, group);
    seq(|row| / group, g requires 0 <= g < |row| / group && HasGroup(row, g, group) => GroupScale(row, g, group))
  }

  lemma {:induction false} AllGroups(row: seq<real>, group: nat)
    requires group > 0 && |row| % group == 0
    ensures forall g | 0 <= g < |row| / group :: HasGroup(row, g, group)
  {
    forall g | 0 <= g < |row| / group
      ensures HasGroup(row, g, group)
    {
      GroupExists(row, g, group);
    }
  }

  /** What is stored for row `n` of a weight: the codes, the zero point and the scale of group `g`. */
  ghost predicate StoredNear(row: seq<real>, qweight: array2<nat>, qzeros: array2<nat>, scales: seq<seq<real>>,
                             group: nat, n: nat, g: nat)
    reads qweight, qzeros
    requires HasGroup(row, g, group) && qweight.Length0 == |row| && g < qzeros.Length0 && g < |scales|
             && n < |scales[g]|
    requires n / 8 < qweight.Length1 && n / 8 < qzeros.Length1
  {
    forall i | 0 <= i < group ::
      IsNear(Slice(row, g, group)[i], scales[g][n], Nibble(qzeros[g, n / 8], ORDER[n % 8]),
             Nibble(qweight[Mul(g, group) + i, n / 8], ORDER[n % 8]))
  }

  /**
   The scale, zero point and codes are the group's, and what they stand for is within half a step if and only if the
   group's range allows it.
   */
  ghost predicate StoredAsGroup(row: seq<real>, qweight: array2<nat>, qzeros: array2<nat>, scales: seq<seq<real>>,
                                  group: nat, n: nat, g: nat)
    reads qweight, qzeros
    requires qweight.Length0 == |row| && g < qzeros.Length0 && g < |scales| && n < |scales[g]|
    requires n / 8 < qweight.Length1 && n / 8 < qzeros.Length1
  {
    && HasGroup(row, g, group)
    && var lo, hi := Least(Slice(row, g, group)), Greatest(Slice(row, g, group));
       && scales[g][n] == Scale(lo, hi) && Nibble(qzeros[g, n / 8], ORDER[n % 8]) == ZeroOf(lo, Scale(lo, hi))
       && (forall i | 0 <= i < group ::
             Nibble(qweight[Mul(g, group) + i, n / 8], ORDER[n % 8])
             == CodeOf(Slice(row, g, group)[i], Scale(lo, hi), ZeroOf(lo, Scale(lo, hi))))
       && (StoredNear(row, qweight, qzeros, scales, group, n, g) <==> Representable(lo, hi))
  }

  /**
   What is read back from the words and scales is within half a step of the weight, in exactly the groups that allow it.
   Fails when the columns are no whole number of groups or the rows no whole number of words.
   */
  method QuantizeAwq(w: seq<seq<real>>, K: nat, group: nat)
    returns (ok: bool, qweight: array2<nat>, qzeros: array2<nat>, scales: seq<seq<real>>)
    requires forall n | 0 <= n < |w| :: |w[n]| == K
    ensures ok <==> group > 0 && K % group == 0 && |w| % 8 == 0
    ensures ok ==> qweight.Length0 == K && qzeros.Length0 == |scales| == K / group
    ensures ok ==> qweight.Length1 == qzeros.Length1 == |w| / 8
    ensures ok ==> forall g | 0 <= g < |scales| :: |scales[g]| == |w|
    ensures ok ==> forall n, g | 0 <= n < |w| && 0 <= g < |scales| ::
              StoredAsGroup(w[n], qweight, qzeros, scales, group, n, g)
  {
    hide StoredAsGroup, HasGroup, Nibble;
    if group == 0 || K % group != 0 || |w| % 8 != 0 {
      ok, scales := false, [];
      qweight, qzeros := new nat[0, 0], new nat[0, 0];
      return;
    }
    ok := true;
    var q := seq(|w|, n requires 0 <= n < |w| => CodeRow(w[n], group));
    var z := seq(|w|, n requires 0 <= n < |w| => ZeroRow(w[n], group));
    qweight := PackWords(q, K);
    qzeros := PackWords(z, K / group);
    scales := seq(K / group, g requires 0 <= g < K / group =>
      seq(|w|, n requires 0 <= n < |w| => ScaleRow(w[n], group)[g]));
    forall n, g | 0 <= n < |w| && 0 <= g < |scales|
      ensures StoredAsGroup(w[n], qweight, qzeros, scales, group, n, g)
    {
      GroupExists(w[n], g, group);
      StoredIff(w[n], q, z, K, qweight, qzeros, scales, group, n, g);
    }
  }

  lemma {:induction false} StoredIff(row: seq<real>, q: seq<seq<nat>>, z: seq<seq<nat>>, K: nat,
                                     qweight: array2<nat>, qzeros: array2<nat>, scales: seq<seq<real>>, group: nat,
                                       n: nat, g: nat)
    requires group > 0 && |row| == K && K % group == 0 && HasGroup(row, g, group) && g < K / group
    requires n < |q| == |z| && |q| % 8 == 0 && q[n] == CodeRow(row, group) && z[n] == ZeroRow(row, group)
    requires qweight.Length0 == K && qzeros.Length0 == K / group && qweight.Length1 == qzeros.Length1 == |q| / 8
    requires forall l | 0 <= l < K :: Nibble(qweight[l, n / 8], ORDER[n % 8]) == q[n][l]
    requires forall l | 0 <= l < K / group :: Nibble(qzeros[l, n / 8], ORDER[n % 8]) == z[n][l]
    requires g < |scales| && n < |scales[g]| && scales[g][n] == ScaleRow(row, group)[g]
    ensures StoredAsGroup(row, qweight, qzeros, scales, group, n, g)
  {
    hide Representable, Scale, Least, Greatest, Nibble, IsNear, ZeroOf, CodeOf, Mul;
    var sl := Slice(row, g, group);
    var lo, hi := Least(sl), Greatest(sl);
    GroupNearIff(sl, lo, hi);
    forall i | 0 <= i < group
      ensures Nibble(qweight[Mul(g, group) + i, n / 8], ORDER[n % 8])
              == CodeOf(sl[i], Scale(lo, hi), ZeroOf(lo, Scale(lo, hi)))
    {
      IndexInGroup(g, group, i);
    }
  }
}
