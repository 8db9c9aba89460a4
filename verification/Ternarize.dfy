/** Packing ternary weights four to a byte, and turning real weights into ternary ones (src/cpu/bitnet_cpu.c). */
module Ternarize {
  import opened Common
  import opened Arith
  import opened Sums
  import opened Bits
  import opened Lanes
  import Ternary

  predicate AreTernary(t: seq<int>) { forall k | 0 <= k < |t| :: -1 <= t[k] <= 1 }

  // ----- Bytes

  /** The first `n` fields, from the top, of a byte with codes `c0` to `c3`. */
  function Fields(c0: int, c1: int, c2: int, c3: int, n: int): int {
    (if n > 0 then 64 * c0 else 0) + (if n > 1 then 16 * c1 else 0) + (if n > 2 then 4 * c2 else 0)
      + (if n > 3 then c3 else 0)
  }

  predicate IsCode(c: int) { 0 <= c <= 3 }

  /** Field `f` shifted into place. */
  function Shifted(c: int, f: int): int {
    if f == 0 then 64 * c else if f == 1 then 16 * c else if f == 2 then 4 * c else c
  }

  lemma {:induction false} FieldsOf(c0: int, c1: int, c2: int, c3: int)
    requires IsCode(c0) && IsCode(c1) && IsCode(c2) && IsCode(c3)
    ensures var b := Fields(c0, c1, c2, c3, 4);
            && 0 <= b <= 255 && Ternary.Field(b, 0) == c0 && Ternary.Field(b, 1) == c1 && Ternary.Field(b, 2) == c2
              && Ternary.Field(b, 3) == c3
  {
    var b := Fields(c0, c1, c2, c3, 4);
    DivModOf(c0, 64, 16 * c1 + 4 * c2 + c3);
    DivModOf(4 * c0 + c1, 16, 4 * c2 + c3);
    DivModOf(16 * c0 + 4 * c1 + c2, 4, c3);
    assert b / 64 == c0 && b / 16 == 4 * c0 + c1 && b / 4 == 16 * c0 + 4 * c1 + c2;
  }

  /** Or-ing the next field in adds it, because its bits are still clear. */
  lemma {:induction false} OrField(c0: nat, c1: nat, c2: nat, c3: nat, f: nat)
    requires IsCode(c0) && IsCode(c1) && IsCode(c2) && IsCode(c3) && f < 4
    ensures var c := [c0, c1, c2, c3][f];
            BitOr(Fields(c0, c1, c2, c3, f), Shifted(c, f)) == Fields(c0, c1, c2, c3, f + 1)
  {
    Powers();
    hide BitOr, Pow2;
    if f == 0 {
      OrAt(0, 8, 256, 64 * c0);
    } else if f == 1 {
      OrAt(c0, 6, 64, 16 * c1);
    } else if f == 2 {
      OrAt(4 * c0 + c1, 4, 16, 4 * c2);
    } else {
      OrAt(16 * c0 + 4 * c1 + c2, 2, 4, c3);
    }
  }

  lemma {:induction false} OrAt(a: nat, k: nat, p: nat, b: nat)
    requires p == Pow2(k) && b < p
    ensures BitOr(a * p, b) == a * p + b
  {
    OrDisjoint(a, k, b);
  }

  lemma {:induction false} Powers()
    ensures Pow2(2) == 4 && Pow2(4) == 16 && Pow2(6) == 64 && Pow2(8) == 256
  {
    assert Pow2(4) == 4 * Pow2(2);
    assert Pow2(6) == 4 * Pow2(4);
    assert Pow2(8) == 4 * Pow2(6);
  }

  /** Code `f` of byte `i` of ternary values `t`. */
  function CodeFor(t: seq<int>, i: int, f: int): int { At(t, i / 32 * 128 + f * 32 + i % 32) + 1 }

  /** Byte `i`, and its first `n` fields. */
  function PackedPart(t: seq<int>, i: int, n: int): int {
    Fields(CodeFor(t, i, 0), CodeFor(t, i, 1), CodeFor(t, i, 2), CodeFor(t, i, 3), n)
  }

  function PackedByte(t: seq<int>, i: int): int { PackedPart(t, i, 4) }

  lemma {:induction false} CodesAre(t: seq<int>, i: int)
    requires AreTernary(t)
    ensures forall f :: 0 <= CodeFor(t, i, f) <= 2
  {
  }

  lemma {:induction false} CodeForIs(t: seq<int>, b: nat, f: nat, j: nat)
    requires f < 4 && j < 32
    ensures CodeFor(t, b * 32 + j, f) == At(t, b * 128 + f * 32 + j) + 1
  {
    hide At;
    DivModOf(b, 32, j);
  }

  lemma {:induction false} BlockFits(k: nat, n: nat)
    requires k < n && n % 128 == 0
    ensures 128 * (k / 128) + 128 <= n
  {
  }

  lemma {:induction false} PackedCodesAt(t: seq<int>, codes: seq<int>, b: nat, f: nat, j: nat)
    requires AreTernary(t) && 4 * |codes| == |t| && 128 * b + 128 <= |t| && f < 4 && j < 32
    requires forall i | 0 <= i < |codes| :: codes[i] == PackedByte(t, i)
    ensures Ternary.Code(codes, b * 128 + f * 32 + j) == t[b * 128 + f * 32 + j] + 1
  {
    hide CodeFor, Fields, Ternary.Field, Ternary.Code, AreTernary;
    var i := b * 32 + j;
    CodeForIs(t, b, f, j);
    CodesAre(t, i);
    Ternary.Place(codes, b, f, j);
    assert codes[i] == PackedByte(t, i);
    FieldsOf(CodeFor(t, i, 0), CodeFor(t, i, 1), CodeFor(t, i, 2), CodeFor(t, i, 3));
  }

  /** Packed bytes carry the values: the code of weight `k` is `t[k] + 1`. */
  lemma {:induction false} PackedCodes(t: seq<int>, codes: seq<int>, k: nat)
    requires AreTernary(t) && 4 * |codes| == |t| && |t| % 128 == 0 && k < |t|
    requires forall i | 0 <= i < |codes| :: codes[i] == PackedByte(t, i)
    ensures Ternary.Code(codes, k) == t[k] + 1
  {
    var b, f, j := k / 128, k % 128 / 32, k % 32;
    KIndex(k, b, f, j);
    BlockFits(k, |t|);
    PackedCodesAt(t, codes, b, f, j);
  }

  lemma {:induction false} KIndex(k: nat, b: int, f: int, j: int)
    requires b == k / 128 && f == k % 128 / 32 && j == k % 32
    ensures k == b * 128 + f * 32 + j && 0 <= f < 4 && 0 <= j < 32 && (b * 32 + j) / 32 == b && (b * 32 + j) % 32 == j
  {
    var e := k % 128;
    assert e == f * 32 + e % 32;
    DivModOf(4 * b + f, 32, e % 32);
    DivModOf(b, 32, j);
  }

  /** Byte `32 b + j` has weights 32 apart in it, the first of them on top, each one more than its value. */
  lemma {:induction false} PackedByteIs(t: seq<int>, b: nat, j: nat)
    requires j < 32 && 128 * b + 96 + j < |t|
    ensures var s := 128 * b + j;
            PackedByte(t, 32 * b + j)
            == 64 * (t[s] + 1) + 16 * (t[s + 32] + 1) + 4 * (t[s + 64] + 1) + (t[s + 96] + 1)
  {
    hide CodeFor;
    CodeForIs(t, b, 0, j);
    CodeForIs(t, b, 1, j);
    CodeForIs(t, b, 2, j);
    CodeForIs(t, b, 3, j);
  }

  // ----- The code

  method Pack(t: seq<int>, N: int, K: int, codes: array<int>) returns (st: Status)
    requires AreTernary(t) && (N > 0 && K > 0 ==> |t| == N * K && 4 * codes.Length == |t|)
    modifies codes
    ensures st == Ok <==> N > 0 && K > 0 && K % 128 == 0
    ensures st != Ok ==> unchanged(codes)
    ensures st == Ok ==> forall i | 0 <= i < codes.Length :: codes[i] == PackedByte(t, i)
    ensures st == Ok ==> forall k | 0 <= k < |t| :: Ternary.Code(codes[..], k) == t[k] + 1
  {
    if N <= 0 || K <= 0 || K % 128 != 0 {
      return InvalidArg;
    }
    WholeBlocks(N, K);
    PackBlocks(t, codes);
    st := Ok;
  }

  method PackBlocks(t: seq<int>, codes: array<int>)
    requires AreTernary(t) && |t| % 128 == 0 && 4 * codes.Length == |t|
    modifies codes
    ensures forall i | 0 <= i < codes.Length :: codes[i] == PackedByte(t, i)
    ensures forall k | 0 <= k < |t| :: Ternary.Code(codes[..], k) == t[k] + 1
  {
    hide PackedByte, Ternary.Code, BitOr;
    for b := 0 to |t| / 128
      invariant forall i | 0 <= i < 32 * b :: codes[i] == PackedByte(t, i)
    {
      for j := 0 to 32
        invariant forall i | 0 <= i < 32 * b + j :: codes[i] == PackedByte(t, i)
      {
        var s := 128 * b + j;
        PackByteAt(t, b, j);
        codes[32 * b + j] :=
          BitOr(BitOr(BitOr(64 * (t[s] + 1), 16 * (t[s + 32] + 1)), 4 * (t[s + 64] + 1)), t[s + 96] + 1);
      }
    }
    forall k | 0 <= k < |t|
      ensures Ternary.Code(codes[..], k) == t[k] + 1
    {
      PackedCodes(t, codes[..], k);
    }
  }

  lemma {:induction false} WholeBlocks(N: int, K: int)
    requires N > 0 && K > 0 && K % 128 == 0
    ensures N * K % 128 == 0
  {
    assert N * K == (N * (K / 128)) * 128;
  }

  lemma {:induction false} PackByteAt(t: seq<int>, b: nat, j: nat)
    requires AreTernary(t) && 128 * b + 128 <= |t| && j < 32
    ensures var s := 128 * b + j;
            BitOr(BitOr(BitOr(64 * (t[s] + 1), 16 * (t[s + 32] + 1)), 4 * (t[s + 64] + 1)), t[s + 96] + 1)
              == PackedByte(t, 32 * b + j)
  {
    hide BitOr;
    var s, i := 128 * b + j, 32 * b + j;
    DivModOf(b, 32, j);
    var c0, c1, c2, c3 := t[s] + 1, t[s + 32] + 1, t[s + 64] + 1, t[s + 96] + 1;
    assert CodeFor(t, i, 0) == c0 && CodeFor(t, i, 1) == c1 && CodeFor(t, i, 2) == c2 && CodeFor(t, i, 3) == c3;
    OrField(c0, c1, c2, c3, 1);
    OrField(c0, c1, c2, c3, 2);
    OrField(c0, c1, c2, c3, 3);
  }

  /** Four values out of every byte. */
  method UnpackRow(codes: seq<int>, K: nat) returns (t: array<int>)
    requires K % 128 == 0 && 4 * |codes| == K
    ensures t.Length == K && forall k | 0 <= k < K :: t[k] == Ternary.Code(codes, k) - 1
  {
    hide Ternary.Code, Ternary.Field;
    t := new int[K];
    for b := 0 to K / 128
      invariant forall k | 0 <= k < 128 * b :: t[k] == Ternary.Code(codes, k) - 1
    {
      UnpackBlock(codes, t, b);
    }
  }

  method UnpackBlock(codes: seq<int>, t: array<int>, b: nat)
    requires 128 * b + 128 <= t.Length == 4 * |codes|
    modifies t
    ensures forall k | 0 <= k < t.Length ::
              t[k] == if 128 * b <= k < 128 * b + 128 then Ternary.Code(codes, k) - 1 else old(t[k])
  {
    hide Ternary.Code, Ternary.Field;
    for j := 0 to 32
      invariant forall k | 0 <= k < 128 * b || 128 * b + 128 <= k < t.Length :: t[k] == old(t[k])
      invariant forall k | 128 * b <= k < 128 * b + j || 128 * b + 32 <= k < 128 * b + 32 + j
                           || 128 * b + 64 <= k < 128 * b + 64 + j || 128 * b + 96 <= k < 128 * b + 96 + j ::
                  t[k] == Ternary.Code(codes, k) - 1
    {
      var c, e := codes[32 * b + j], 128 * b + j;
      ByteCodes(codes, b, j);
      t[e] := Ternary.Field(c, 0) - 1;
      t[e + 32] := Ternary.Field(c, 1) - 1;
      t[e + 64] := Ternary.Field(c, 2) - 1;
      t[e + 96] := Ternary.Field(c, 3) - 1;
    }
  }

  lemma {:induction false} ByteCodes(codes: seq<int>, b: nat, j: nat)
    requires 32 * b + j < |codes| && j < 32
    ensures var e := 128 * b + j; var c := codes[32 * b + j];
            && Ternary.Code(codes, e) == Ternary.Field(c, 0) && Ternary.Code(codes, e + 32) == Ternary.Field(c, 1)
            && Ternary.Code(codes, e + 64) == Ternary.Field(c, 2) && Ternary.Code(codes, e + 96) == Ternary.Field(c, 3)
  {
    hide Ternary.Code, Ternary.Field;
    Ternary.Place(codes, b, 0, j);
    Ternary.Place(codes, b, 1, j);
    Ternary.Place(codes, b, 2, j);
    Ternary.Place(codes, b, 3, j);
  }

  /** Unpacking what was packed gives the values back. */
  method PackThenUnpack(t: seq<int>) returns (r: array<int>)
    requires AreTernary(t) && |t| % 128 == 0
    ensures r[..] == t
  {
    hide Ternary.Code;
    var codes := new int[|t| / 4];
    PackBlocks(t, codes);
    r := UnpackRow(codes[..], |t|);
  }

  // ----- Real weights

  function Clamp(r: int): int { if r > 1 then 1 else if r < -1 then -1 else r }

  /** The ternary value of weight `w` at scale `mean`. */
  function Value(w: real, mean: real): int
    requires mean > 0.0
  {
    Clamp(RoundEven(w / mean))
  }

  function Values(w: seq<real>, mean: real): (t: seq<int>)
    requires mean > 0.0
    ensures |t| == |w| && AreTernary(t) && forall k | 0 <= k < |w| :: t[k] == Value(w[k], mean)
  {
    seq(|w|, k requires 0 <= k < |w| => Value(w[k], mean))
  }

  /** Mean magnitude of the weights, kept away from zero. */
  ghost function Mean(w: seq<real>): (m: real)
    requires |w| > 0
    ensures m >= 0.00001
  {
    var m := RSum(|w|, k => if 0 <= k < |w| then Abs(w[k]) else 0.0) / |w| as real;
    if m < 0.00001 then 0.00001 else m
  }

  /** A weight counts where its magnitude is more than half the mean; exactly half does not. */
  lemma {:induction false} ValueIs(w: real, mean: real)
    requires mean > 0.0
    ensures -1 <= Value(w, mean) <= 1
    ensures Value(w, mean) == 1 <==> w > mean / 2.0
    ensures Value(w, mean) == -1 <==> w < -mean / 2.0
  {
    var u := w / mean;
    assert w == u * mean;
    HalfOf(u, mean, w);
    assert Value(w, mean) == Clamp(RoundEven(u));
    RoundedSign(u);
  }

  lemma {:induction false} HalfOf(u: real, mean: real, w: real)
    requires mean > 0.0 && w == u * mean
    ensures (u > 0.5 <==> w > mean / 2.0) && (u < -0.5 <==> w < -mean / 2.0)
  {
    if u > 0.5 {
      Grows(u, 0.5, mean);
    } else if u < 0.5 {
      Grows(0.5, u, mean);
    }
    if u > -0.5 {
      Grows(u, -0.5, mean);
    } else if u < -0.5 {
      Grows(-0.5, u, mean);
    }
  }

  lemma {:induction false} RoundedSign(u: real)
    ensures (RoundEven(u) >= 1 <==> u > 0.5) && (RoundEven(u) <= -1 <==> u < -0.5)
  {
    RoundClose(u);
    if u == 0.5 || u == -0.5 {
      if u - RoundEven(u) as real == 0.5 || u - RoundEven(u) as real == -0.5 {
        RoundTie(u);
      }
    }
    hide RoundEven;
  }

  /** The scale: the mean magnitude, `f(k)` being that of weight `k`, or 1e-5 if that is more. */
  lemma {:induction false} MeanIs(w: seq<real>, f: int -> real)
    requires |w| > 0
    requires forall k | 0 <= k < |w| :: f(k) == if w[k] >= 0.0 then w[k] else -w[k]
    ensures Mean(w) >= 0.00001 && Mean(w) >= RSum(|w|, f) / |w| as real
    ensures Mean(w) == 0.00001 || Mean(w) == RSum(|w|, f) / |w| as real
  {
    RSumSame(|w|, f, k => if 0 <= k < |w| then Abs(w[k]) else 0.0);
  }

  /** The code the source derives, through the dequantized value and its test against 1e-6. */
  function CodeOf(w: real, s: real): int
    requires s > 0.0
  {
    CodeOfRounded(Clamp(RoundEven(w * s)), s)
  }

  function CodeOfRounded(r: int, s: real): int
    requires s > 0.0
  {
    var wq := r as real / s;
    if Abs(wq) < 0.000001 then 1 else if wq > 0.0 then 2 else 0
  }

  lemma {:induction false} RoundedCode(r: int, s: real, mean: real)
    requires s > 0.0 && mean >= 0.00001 && 1.0 / s == mean && -1.0 / s == -mean && 0.0 / s == 0.0 && -1 <= r <= 1
    ensures CodeOfRounded(r, s) == r + 1
  {
    if r == 1 {
      assert r as real == 1.0;
    } else if r == 0 {
      assert r as real == 0.0;
    } else {
      assert r as real == -1.0;
    }
  }

  /** The test never takes a nonzero value for zero, because the scale is at least 1e-5. */
  lemma {:induction false} CodeIsValue(w: real, mean: real, s: real)
    requires mean >= 0.00001 && s == 1.0 / mean
    ensures s > 0.0 && CodeOf(w, s) == Value(w, mean) + 1
  {
    ReciprocalFacts(w, mean, s);
    hide RoundEven, CodeOfRounded;
    RoundedCode(Clamp(RoundEven(w * s)), s, mean);
  }

  lemma {:induction false} ReciprocalFacts(w: real, mean: real, s: real)
    requires mean > 0.0 && s == 1.0 / mean
    ensures s > 0.0 && w * s == w / mean && 1.0 / s == mean && -1.0 / s == -mean && 0.0 / s == 0.0
  {
    assert s * mean == 1.0;
  }

  method MeanMagnitude(w: seq<real>) returns (mean: real)
    requires |w| > 0
    ensures mean == Mean(w)
  {
    var acc := 0.0;
    for i := 0 to |w|
      invariant acc == RSum(i, k => if 0 <= k < |w| then Abs(w[k]) else 0.0)
    {
      acc := acc + Abs(w[i]);
    }
    mean := acc / |w| as real;
    if mean < 0.00001 {
      mean := 0.00001;
    }
  }

  /** One block of 128 weights: clears its 32 bytes, then or-s every code into place. */
  method TernarizeBlock(w: seq<real>, b: nat, s: real, codes: array<int>, ghost t: seq<int>) returns (any: bool)
    requires 128 * b + 128 <= |w| == |t| && 4 * codes.Length == |w| && s > 0.0 && AreTernary(t)
    requires forall k | 128 * b <= k < 128 * b + 128 :: CodeOf(w[k], s) == t[k] + 1
    modifies codes
    ensures forall i | 0 <= i < codes.Length ::
              codes[i] == if 32 * b <= i < 32 * b + 32 then PackedByte(t, i) else old(codes[i])
    ensures any <==> exists k | 128 * b <= k < 128 * b + 128 :: t[k] != 0
  {
    hide PackedPart, CodeOf, BitOr;
    any := false;
    for i := 32 * b to 32 * b + 32
      invariant forall x | 0 <= x < codes.Length :: codes[x] == if 32 * b <= x < i then 0 else old(codes[x])
    {
      codes[i] := 0;
    }
    NoFields(t);
    for j := 0 to 128
      invariant forall x | 0 <= x < codes.Length ::
                  codes[x] == if 32 * b <= x < 32 * b + 32 then PackedPart(t, x, FieldsIn(j, x - 32 * b))
                    else old(codes[x])
      invariant any <==> exists k | 128 * b <= k < 128 * b + j :: t[k] != 0
    {
      var c := CodeOf(w[128 * b + j], s);
      var at := 32 * b + j % 32;
      if c != 1 {
        any := true;
      }
      OrNext(t, b, j);
      codes[at] := BitOr(codes[at], Shifted(c, j / 32));
    }
  }

  /** How many fields of byte `i` of a block the first `j` weights fill. */
  function FieldsIn(j: int, i: int): int { if i < j % 32 then j / 32 + 1 else j / 32 }

  lemma {:induction false} NoFields(t: seq<int>)
    ensures forall i :: PackedPart(t, i, 0) == 0
  {
  }

  lemma {:induction false} FieldsNext(j: nat)
    ensures FieldsIn(j, j % 32) == j / 32 && FieldsIn(j + 1, j % 32) == j / 32 + 1
    ensures forall i | 0 <= i < 32 && i != j % 32 :: FieldsIn(j + 1, i) == FieldsIn(j, i)
  {
  }

  lemma {:induction false} PartIsNat(t: seq<int>, i: int, n: int)
    requires AreTernary(t)
    ensures PackedPart(t, i, n) >= 0
  {
    CodesAre(t, i);
    hide CodeFor;
  }

  lemma {:induction false} OrNext(t: seq<int>, b: nat, j: nat)
    requires AreTernary(t) && 128 * b + 128 <= |t| && j < 128
    ensures var at := 32 * b + j % 32;
            && PackedPart(t, at, j / 32) >= 0
            && BitOr(PackedPart(t, at, j / 32), Shifted(t[128 * b + j] + 1, j / 32)) == PackedPart(t, at, j / 32 + 1)
    ensures FieldsIn(j, j % 32) == j / 32 && FieldsIn(j + 1, j % 32) == j / 32 + 1
    ensures forall i | 0 <= i < 32 && i != j % 32 :: FieldsIn(j + 1, i) == FieldsIn(j, i)
  {
    var at, f := 32 * b + j % 32, j / 32;
    DivModOf(b, 32, j % 32);
    assert CodeFor(t, at, f) == t[128 * b + j] + 1;
    FieldsNext(j);
    CodesAre(t, at);
    hide CodeFor, FieldsIn, Fields, Shifted, BitOr;
    OrField(CodeFor(t, at, 0), CodeFor(t, at, 1), CodeFor(t, at, 2), CodeFor(t, at, 3), f);
    PartIsNat(t, at, f);
  }

  /** Real weights to packed ternary ones and their common scale. */
  method TernarizeF32(w: seq<real>, N: int, K: int, codes: array<int>) returns (st: Status, scale: real)
    requires N > 0 && K > 0 ==> |w| == N * K && 4 * codes.Length == |w|
    modifies codes
    ensures st == Ok <==> N > 0 && K > 0 && K % 128 == 0
    ensures st != Ok ==> unchanged(codes)
    ensures st == Ok ==> |w| > 0 && forall k | 0 <= k < |w| ::
              var v := Ternary.Code(codes[..], k) - 1;
              && v == Value(w[k], Mean(w)) && -1 <= v <= 1
              && (v == 1 <==> w[k] > Mean(w) / 2.0) && (v == -1 <==> w[k] < -Mean(w) / 2.0)
    ensures st == Ok ==> forall i | 0 <= i < codes.Length :: codes[i] == PackedByte(Values(w, Mean(w)), i)
    ensures st == Ok ==> scale == if exists k | 0 <= k < |w| :: Value(w[k], Mean(w)) != 0 then Mean(w) else 0.0
  {
    scale := 0.0;
    if N <= 0 || K <= 0 || K % 128 != 0 {
      return InvalidArg, scale;
    }
    WholeBlocks(N, K);
    NotEmpty(N, K);
    scale := TernarizeBlocks(w, codes);
    hide Mean, Value, Ternary.Code, PackedByte;
    forall k | 0 <= k < |w|
      ensures var v := Value(w[k], Mean(w));
              -1 <= v <= 1 && (v == 1 <==> w[k] > Mean(w) / 2.0) && (v == -1 <==> w[k] < -Mean(w) / 2.0)
    {
      ValueIs(w[k], Mean(w));
    }
    st := Ok;
  }

  lemma {:induction false} NotEmpty(N: int, K: int)
    requires N > 0 && K > 0
    ensures N * K > 0
  {
  }

  method TernarizeBlocks(w: seq<real>, codes: array<int>) returns (scale: real)
    requires |w| > 0 && |w| % 128 == 0 && 4 * codes.Length == |w|
    modifies codes
    ensures forall k | 0 <= k < |w| :: Ternary.Code(codes[..], k) - 1 == Value(w[k], Mean(w))
    ensures forall i | 0 <= i < codes.Length :: codes[i] == PackedByte(Values(w, Mean(w)), i)
    ensures scale == if exists k | 0 <= k < |w| :: Value(w[k], Mean(w)) != 0 then Mean(w) else 0.0
  {
    hide Mean, PackedByte, CodeOf, Value, Ternary.Code;
    var mean := MeanMagnitude(w);
    var s := 1.0 / mean;
    ghost var t := Values(w, mean);
    ReciprocalFacts(0.0, mean, s);
    forall k | 0 <= k < |w|
      ensures CodeOf(w[k], s) == t[k] + 1
    {
      CodeIsValue(w[k], mean, s);
    }
    var any := false;
    for b := 0 to |w| / 128
      invariant forall i | 0 <= i < 32 * b :: codes[i] == PackedByte(t, i)
      invariant any <==> exists k | 0 <= k < 128 * b :: t[k] != 0
    {
      var some := TernarizeBlock(w, b, s, codes, t);
      any := any || some;
    }
    scale := if any then 1.0 / s else 0.0;
    forall k | 0 <= k < |w|
      ensures Ternary.Code(codes[..], k) - 1 == t[k]
    {
      PackedCodes(t, codes[..], k);
    }
  }
}
