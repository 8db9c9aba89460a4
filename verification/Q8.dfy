/** The order of int8 activations inside a run of 32 columns (include/vibevoice/q8.h). */
module Q8 {
  import opened Sums

  datatype Layout = Natural | Nibble | W4Gemv | W4Mma

  /** Where column `j` of a run is stored. */
  function Pos(layout: Layout, j: int): int {
    var e, t := j % 2, j / 2 % 4;
    var s := j / 8 + 4 * e;
    match layout
    case Nibble => if e == 1 then 16 + j / 2 else j / 2
    case W4Gemv => 8 * t + 4 * (s % 2) + s / 2
    case W4Mma => 16 * e + 4 * t + s % 4
    case Natural => j
  }

  /** Which column is stored at `p`. */
  function Column(layout: Layout, p: int): int {
    match layout
    case Nibble => if p < 16 then 2 * p else 2 * (p - 16) + 1
    case W4Gemv => 8 * ((2 * (p % 4) + p % 8 / 4) % 4) + 2 * (p / 8) + (2 * (p % 4) + p % 8 / 4) / 4
    case W4Mma => 8 * (p % 4) + 2 * (p % 16 / 4) + p / 16
    case Natural => p
  }

  /** In every layout each column has its own place and every place is used. */
  lemma {:induction false} PosIsBijective(layout: Layout, j: int)
    requires 0 <= j < 32
    ensures 0 <= Pos(layout, j) < 32 && Column(layout, Pos(layout, j)) == j
    ensures 0 <= Column(layout, j) < 32 && Pos(layout, Column(layout, j)) == j
  {
    match layout
    case Nibble => NibblePos(j);
    case W4Gemv => GemvPos(j);
    case W4Mma => MmaPos(j);
    case Natural =>
  }

  lemma {:induction false} NibblePos(j: int)
    requires 0 <= j < 32
    ensures 0 <= Pos(Nibble, j) < 32 && Column(Nibble, Pos(Nibble, j)) == j
    ensures 0 <= Column(Nibble, j) < 32 && Pos(Nibble, Column(Nibble, j)) == j
  {
  }

  /** Column `8 a + 2 t + e` has parity `e`, word `t` and octet `a`. */
  lemma {:induction false} Digits(a: int, t: int, e: int)
    requires 0 <= a < 4 && 0 <= t < 4 && 0 <= e < 2
    ensures var j := 8 * a + 2 * t + e;
            0 <= j < 32 && j % 2 == e && j / 2 % 4 == t && j / 8 == a
  {
  }

  lemma {:induction false} DigitsOf(j: int) returns (a: int, t: int, e: int)
    requires 0 <= j < 32
    ensures 0 <= a < 4 && 0 <= t < 4 && 0 <= e < 2 && j == 8 * a + 2 * t + e
  {
    a, t, e := j / 8, j % 8 / 2, j % 2;
  }

  lemma {:induction false} GemvPlace(t: int, b: int, e: int, c: int)
    requires 0 <= t < 4 && 0 <= b < 2 && 0 <= e < 2 && 0 <= c < 2
    ensures Pos(W4Gemv, 8 * (2 * c + b) + 2 * t + e) == 8 * t + 4 * b + 2 * e + c
  {
    Digits(2 * c + b, t, e);
  }

  lemma {:induction false} GemvColumn(t: int, b: int, e: int, c: int)
    requires 0 <= t < 4 && 0 <= b < 2 && 0 <= e < 2 && 0 <= c < 2
    ensures Column(W4Gemv, 8 * t + 4 * b + 2 * e + c) == 8 * (2 * c + b) + 2 * t + e
  {
    var p := 8 * t + 4 * b + 2 * e + c;
    assert p / 8 == t && p % 8 == 4 * b + 2 * e + c && p % 4 == 2 * e + c;
    assert p % 8 / 4 == b;
  }

  lemma {:induction false} GemvPos(j: int)
    requires 0 <= j < 32
    ensures 0 <= Pos(W4Gemv, j) < 32 && Column(W4Gemv, Pos(W4Gemv, j)) == j
    ensures 0 <= Column(W4Gemv, j) < 32 && Pos(W4Gemv, Column(W4Gemv, j)) == j
  {
    hide Pos, Column;
    var a, t, e := DigitsOf(j);
    GemvPlace(t, a % 2, e, a / 2);
    GemvColumn(t, a % 2, e, a / 2);
    GemvDigits(j);
  }

  lemma {:induction false} GemvDigits(j: int)
    requires 0 <= j < 32
    ensures 0 <= Column(W4Gemv, j) < 32 && Pos(W4Gemv, Column(W4Gemv, j)) == j
  {
    hide Pos, Column;
    var t, b, e, c := j / 8, j % 8 / 4, j % 4 / 2, j % 2;
    assert j == 8 * t + 4 * b + 2 * e + c;
    GemvPlace(t, b, e, c);
    GemvColumn(t, b, e, c);
  }

  lemma {:induction false} MmaPlace(a: int, t: int, e: int)
    requires 0 <= a < 4 && 0 <= t < 4 && 0 <= e < 2
    ensures Pos(W4Mma, 8 * a + 2 * t + e) == 16 * e + 4 * t + a
            && Column(W4Mma, 16 * e + 4 * t + a) == 8 * a + 2 * t + e
  {
    Digits(a, t, e);
    var p := 16 * e + 4 * t + a;
    assert p / 16 == e && p % 16 == 4 * t + a && p % 4 == a;
  }

  lemma {:induction false} MmaPos(j: int)
    requires 0 <= j < 32
    ensures 0 <= Pos(W4Mma, j) < 32 && Column(W4Mma, Pos(W4Mma, j)) == j
    ensures 0 <= Column(W4Mma, j) < 32 && Pos(W4Mma, Column(W4Mma, j)) == j
  {
    hide Pos, Column;
    var a, t, e := DigitsOf(j);
    MmaPlace(a, t, e);
    MmaDigits(j);
  }

  lemma {:induction false} MmaDigits(j: int)
    requires 0 <= j < 32
    ensures 0 <= Column(W4Mma, j) < 32 && Pos(W4Mma, Column(W4Mma, j)) == j
  {
    hide Pos, Column;
    var e, t, a := j / 16, j % 16 / 4, j % 4;
    assert j == 16 * e + 4 * t + a;
    MmaPlace(a, t, e);
  }

  /**
   What each layout is for. Slot `4 e + 2 c + b` of word `t` of a packed GPU chunk holds column `8 (2 c + b) + 2 t + e`.
   For the GEMV the even slots of a word come first and then the odd ones; for the MMA the low halves of all words and
   then the high ones; for the CPU the even columns and then the odd ones. In natural order every column is in place.
   */
  lemma {:induction false} LayoutsFollowTheWords(t: int, e: int, c: int, b: int, i: int)
    requires 0 <= t < 4 && 0 <= e < 2 && 0 <= c < 2 && 0 <= b < 2 && 0 <= i < 16
    ensures var j := 8 * (2 * c + b) + 2 * t + e;
            && 0 <= j < 32
            && Pos(W4Gemv, j) == (if b == 0 then 8 * t + (2 * e + c) else 8 * t + 4 + (2 * e + c))
            && Pos(W4Mma, j) == (if e == 0 then 4 * t + (2 * c + b) else 16 + 4 * t + (2 * c + b))
    ensures Pos(Nibble, 2 * i) == i && Pos(Nibble, 2 * i + 1) == 16 + i
    ensures Pos(Natural, i) == i && Pos(Natural, 16 + i) == 16 + i
  {
    hide Pos;
    NaturalPos(i);
    NaturalPos(16 + i);
    GemvPlace(t, b, e, c);
    MmaPlace(2 * c + b, t, e);
    EvenThenOdd(i);
  }

  lemma {:induction false} NaturalPos(i: int)
    ensures Pos(Natural, i) == i
  {
  }

  lemma {:induction false} EvenThenOdd(i: int)
    requires 0 <= i < 16
    ensures Pos(Nibble, 2 * i) == i && Pos(Nibble, 2 * i + 1) == 16 + i
  {
  }

  /** A sum over a run does not depend on the layout. */
  lemma {:induction false} RunSumInAnyLayout(layout: Layout, f: int -> int)
    ensures Sum(32, j => f(Pos(layout, j))) == Sum(32, f)
  {
    hide Pos, Column, Sum;
    forall j | 0 <= j < 32
      ensures 0 <= Pos(layout, j) < 32 && Column(layout, Pos(layout, j)) == j
      ensures 0 <= Column(layout, j) < 32 && Pos(layout, Column(layout, j)) == j
    {
      PosIsBijective(layout, j);
    }
    SumReorder(32, f, j => Pos(layout, j), p => Column(layout, p));
    SumSame(32, j => f((j => Pos(layout, j))(j)), j => f(Pos(layout, j)));
  }
}
