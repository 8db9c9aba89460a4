/**
 Ternary weights times int8 activations (src/cpu/bitnet_cpu.c): 2-bit codes 0, 1, 2 for -1, 0, 1, packed four to a
 byte in blocks of 128, against the signed dot product they stand for.
 */
module Ternary {
  import opened Common
  import opened Arith
  import opened Sums
  import opened Lanes

  const BLOCK := 128
  const BYTES := 32  // of codes in a block

  /** Field `f` of a code byte, from the top. */
  function Field(byte: int, f: int): int {
    if f == 0 then byte / 64 % 4 else if f == 1 then byte / 16 % 4 else if f == 2 then byte / 4 % 4 else byte / 1 % 4
  }

  /** The code of weight `k`: block `k / 128` keeps weight `32 f + j` in field `f` of byte `j`. */
  function Code(codes: Vec, k: int): int { Field(At(codes, k / BLOCK * BYTES + k % BYTES), k % BLOCK / BYTES) }

  /** A row of codes for `nb` blocks, every field 0, 1 or 2. */
  ghost predicate IsRow(codes: Vec, nb: nat) {
    |codes| == nb * BYTES && AreU8(codes)
    && forall i, f | 0 <= i < |codes| && 0 <= f < 4 :: Field(codes[i], f) <= 2
  }

  ghost predicate IsActivation(x: Vec, nb: nat) { |x| == nb * BLOCK && AreI8(x) }

  /** The dot product the codes stand for. */
  ghost function TernDot(codes: Vec, x: Vec, K: nat): int { Sum(K, k => (Code(codes, k) - 1) * At(x, k)) }

  /** Where the codes are: in quarters of a byte, from the top, those of weights 32 apart. */
  lemma {:induction false} CodeFields(codes: Vec, b: nat, j: nat)
    requires j < 32 && 32 * b + j < |codes|
    ensures var (c, k) := (codes[32 * b + j], 128 * b + j);
            && Code(codes, k) == c / 64 % 4 && Code(codes, k + 32) == c / 16 % 4
            && Code(codes, k + 64) == c / 4 % 4 && Code(codes, k + 96) == c % 4
  {
    hide Code;
    Place(codes, b, 0, j);
    Place(codes, b, 1, j);
    Place(codes, b, 2, j);
    Place(codes, b, 3, j);
  }

  /** Term by term: weight `k` is two bits of byte `32 b + j`, counted from the top in quarters, less one. */
  lemma {:induction false} TernDotStep(codes: Vec, x: Vec, b: nat, j: nat)
    requires j < 32 && 32 * b + j < |codes| && 128 * b + 96 + j < |x|
    ensures TernDot(codes, x, 0) == 0
    ensures var (c, k) := (codes[32 * b + j], 128 * b + j);
            && TernDot(codes, x, k + 1) == TernDot(codes, x, k) + (c / 64 % 4 - 1) * x[k]
            && TernDot(codes, x, k + 33) == TernDot(codes, x, k + 32) + (c / 16 % 4 - 1) * x[k + 32]
            && TernDot(codes, x, k + 65) == TernDot(codes, x, k + 64) + (c / 4 % 4 - 1) * x[k + 64]
            && TernDot(codes, x, k + 97) == TernDot(codes, x, k + 96) + (c % 4 - 1) * x[k + 96]
  {
    hide Code, Sum;
    var f := (k: int) => (Code(codes, k) - 1) * At(x, k);
    SumNone(f);
    SumStep(128 * b + j, f);
    SumStep(128 * b + j + 32, f);
    SumStep(128 * b + j + 64, f);
    SumStep(128 * b + j + 96, f);
    CodeFields(codes, b, j);
  }

  // ----- The same sum, byte by byte

  /** The four products of byte `j` of block `b`, with unsigned codes. */
  function ByteTerm(codes: Vec, x: Vec, b: int, j: int): int {
    var c, e := At(codes, b * BYTES + j), b * BLOCK + j;
    Field(c, 0) * At(x, e) + Field(c, 1) * At(x, e + 32) + Field(c, 2) * At(x, e + 64) + Field(c, 3) * At(x, e + 96)
  }

  ghost function BlockTerm(codes: Vec, x: Vec, b: int): int { Sum(BYTES, j => ByteTerm(codes, x, b, j)) }

  lemma {:induction false} Place(codes: Vec, b: int, f: int, j: int)
    requires 0 <= f < 4 && 0 <= j < 32
    ensures Code(codes, b * BLOCK + f * 32 + j) == Field(At(codes, b * BYTES + j), f)
  {
    hide Field, At;
    PlaceIndex(b, f, j);
  }

  lemma {:induction false} PlaceIndex(b: int, f: int, j: int)
    requires 0 <= f < 4 && 0 <= j < 32
    ensures var k := b * BLOCK + f * 32 + j;
            k / BLOCK == b && k % BYTES == j && k % BLOCK / BYTES == f
  {
    DivModOf(b, BLOCK, f * 32 + j);
    DivModOf(4 * b + f, BYTES, j);
    DivModOf(f, BYTES, j);
  }

  /** A block of 128 terms, four at a time. */
  lemma {:induction false} BlockByBytes(g: int -> int, base: int)
    ensures Sum(BLOCK, e => g(base + e))
            == Sum(BYTES, j => g(base + j) + g(base + 32 + j) + g(base + 64 + j) + g(base + 96 + j))
  {
    hide Sum;
    var all := (e: int) => g(base + e);
    var p0, p1, p2, p3 := (j: int) => g(base + j), (j: int) => g(base + 32 + j), (j: int) => g(base + 64 + j),
      (j: int) => g(base + 96 + j);
    SumSplit(96, 32, all, p3);
    SumSplit(64, 32, all, p2);
    SumSplit(32, 32, all, p1);
    SumSame(32, all, p0);
    SumPlus(32, p0, p1, j => p0(j) + p1(j));
    SumPlus(32, p2, p3, j => p2(j) + p3(j));
    SumPlus(32, j => p0(j) + p1(j), j => p2(j) + p3(j),
            j => g(base + j) + g(base + 32 + j) + g(base + 64 + j) + g(base + 96 + j));
  }

  lemma {:induction false} BlockInOrder(codes: Vec, x: Vec, b: int)
    ensures Sum(BLOCK, e => Code(codes, b * BLOCK + e) * At(x, b * BLOCK + e)) == BlockTerm(codes, x, b)
  {
    hide Sum, Code, Field, At;
    var g := (k: int) => Code(codes, k) * At(x, k);
    var base := b * BLOCK;
    BlockByBytes(g, base);
    SumSame(BLOCK, e => g(base + e), e => Code(codes, b * BLOCK + e) * At(x, b * BLOCK + e));
    forall j | 0 <= j < 32
      ensures g(base + j) + g(base + 32 + j) + g(base + 64 + j) + g(base + 96 + j) == ByteTerm(codes, x, b, j)
    {
      Place(codes, b, 0, j);
      Place(codes, b, 1, j);
      Place(codes, b, 2, j);
      Place(codes, b, 3, j);
    }
    SumSame(32, j => g(base + j) + g(base + 32 + j) + g(base + 64 + j) + g(base + 96 + j),
            j => ByteTerm(codes, x, b, j));
  }

  /** All blocks: the unsigned sum in weight order. */
  lemma {:induction false} BlocksInOrder(codes: Vec, x: Vec, nb: nat)
    ensures Sum(nb * BLOCK, k => Code(codes, k) * At(x, k)) == Sum(nb, b => BlockTerm(codes, x, b))
  {
    var g := (k: int) => Code(codes, k) * At(x, k);
    hide Sum, Code, At, BlockTerm;
    forall b | 0 <= b < nb
      ensures BlockTerm(codes, x, b) == Sum(BLOCK, e => g(b * BLOCK + e))
    {
      BlockInOrder(codes, x, b);
      SumSame(BLOCK, e => g(b * BLOCK + e), e => Code(codes, b * BLOCK + e) * At(x, b * BLOCK + e));
    }
    SumBlocks(nb, BLOCK, g, b => BlockTerm(codes, x, b));
  }

  /** Taking the activations off once turns unsigned codes into signed weights. */
  lemma {:induction false} RowSumCorrection(codes: Vec, x: Vec, nb: nat)
    ensures TernDot(codes, x, nb * BLOCK) == Sum(nb, b => BlockTerm(codes, x, b)) - Sum(nb * BLOCK, k => At(x, k))
  {
    hide Sum, Code, At, BlockTerm;
    BlocksInOrder(codes, x, nb);
    var signed := (k: int) => (Code(codes, k) - 1) * At(x, k);
    SumPlus(nb * BLOCK, signed, k => At(x, k), k => Code(codes, k) * At(x, k));
  }

  // ----- Lanes

  /** What one 16-bit lane gets from block `b`: two neighbouring bytes. */
  function LaneTerm(codes: Vec, x: Vec, b: int, l: int): int {
    ByteTerm(codes, x, b, 2 * l) + ByteTerm(codes, x, b, 2 * l + 1)
  }

  /** And from blocks `lo` up to `hi`. */
  ghost function LaneRun(codes: Vec, x: Vec, lo: nat, hi: nat, l: int): int {
    if hi <= lo then 0 else LaneRun(codes, x, lo, hi - 1, l) + LaneTerm(codes, x, hi - 1, l)
  }

  lemma {:induction false} ProductBound(c: int, q: int)
    requires 0 <= c <= 2 && IsI8(q)
    ensures -256 <= c * q <= 254
  {
  }

  lemma {:induction false} ByteTermBound(codes: Vec, x: Vec, nb: nat, b: nat, j: nat)
    requires IsRow(codes, nb) && IsActivation(x, nb) && b < nb && j < 32
    ensures -1024 <= ByteTerm(codes, x, b, j) <= 1016
  {
    var c, e := At(codes, b * BYTES + j), b * BLOCK + j;
    ByteFacts(codes, x, nb, b, j);
    hide Field, At, IsRow, IsActivation;
    ProductBound(Field(c, 0), At(x, e));
    ProductBound(Field(c, 1), At(x, e + 32));
    ProductBound(Field(c, 2), At(x, e + 64));
    ProductBound(Field(c, 3), At(x, e + 96));
  }

  lemma {:induction false} FieldRange(c: int)
    requires 0 <= c <= 255
    ensures forall f :: 0 <= Field(c, f) <= 3
  {
  }

  /** A lane takes at most -2048 .. 2032 a block, so sixteen blocks fit in 16 bits exactly. */
  lemma {:induction false} LaneRunBound(codes: Vec, x: Vec, nb: nat, lo: nat, hi: nat, l: nat)
    requires IsRow(codes, nb) && IsActivation(x, nb) && lo <= hi <= nb && l < 16
    ensures -2048 * (hi - lo) <= LaneRun(codes, x, lo, hi, l) <= 2032 * (hi - lo)
    decreases hi
  {
    if hi > lo {
      LaneRunBound(codes, x, nb, lo, hi - 1, l);
      ByteTermBound(codes, x, nb, hi - 1, 2 * l);
      ByteTermBound(codes, x, nb, hi - 1, 2 * l + 1);
    }
  }

  // ----- The 256-bit kernel

  /** One block onto the 16-bit lanes: unpack the codes once, multiply, add. */
  function BlockStep(a16: Vec, w: Vec, x: Vec): (r: Vec)
    requires |a16| == 16 && |w| == BYTES && |x| == BLOCK
    ensures |r| == 16
  {
    var p0 := MaddUBS(ShiftMask(w, 64), x[0..32]);
    var p1 := MaddUBS(ShiftMask(w, 16), x[32..64]);
    var p2 := MaddUBS(ShiftMask(w, 4), x[64..96]);
    var p3 := MaddUBS(ShiftMask(w, 1), x[96..128]);
    Add16(a16, Add16(Add16(p0, p1), Add16(p2, p3)))
  }

  /** Shifting by `d` and masking leaves field `f` of every byte. */
  ghost predicate Selects(d: int, f: int) {
    (d == 64 && f == 0) || (d == 16 && f == 1) || (d == 4 && f == 2) || (d == 1 && f == 3)
  }

  lemma {:induction false} MaskedField(w: Vec, d: int, f: int, i: nat)
    requires |w| % 2 == 0 && AreU8(w) && i < |w| && Selects(d, f)
    ensures ShiftMask(w, d)[i] == Field(w[i], f) && 0 <= Field(w[i], f) <= 3
  {
    hide ShiftMask;
    ShiftMaskBytes(w, d, i);
    FieldRange(w[i]);
  }

  /** One lane of one field: no saturation. */
  lemma {:induction false} MaddLane(w: Vec, x: Vec, d: int, f: int, l: nat)
    requires |w| == BYTES && AreU8(w) && |x| == 32 && AreI8(x) && l < 16
    requires Selects(d, f)
    requires Field(w[2 * l], f) <= 2 && Field(w[2 * l + 1], f) <= 2
    ensures MaddUBS(ShiftMask(w, d), x)[l] == Field(w[2 * l], f) * x[2 * l] + Field(w[2 * l + 1], f) * x[2 * l + 1]
    ensures -512 <= MaddUBS(ShiftMask(w, d), x)[l] <= 508
  {
    hide ShiftMask, Field;
    MaskedField(w, d, f, 2 * l);
    MaskedField(w, d, f, 2 * l + 1);
    ProductBound(Field(w[2 * l], f), x[2 * l]);
    ProductBound(Field(w[2 * l + 1], f), x[2 * l + 1]);
  }

  lemma {:induction false} Add16Lane(a: Vec, b: Vec, l: nat)
    requires |a| == |b| && l < |a| && IsI16(a[l] + b[l])
    ensures Add16(a, b)[l] == a[l] + b[l]
  {
    WrapSmall(a[l] + b[l]);
  }

  /** One lane of one block, from the block alone. */
  function LaneOf(w: Vec, y: Vec, l: int): int {
    var u, v := At(w, 2 * l), At(w, 2 * l + 1);
    (Field(u, 0) * At(y, 2 * l) + Field(v, 0) * At(y, 2 * l + 1))
    + (Field(u, 1) * At(y, 32 + 2 * l) + Field(v, 1) * At(y, 32 + 2 * l + 1))
    + ((Field(u, 2) * At(y, 64 + 2 * l) + Field(v, 2) * At(y, 64 + 2 * l + 1))
    + (Field(u, 3) * At(y, 96 + 2 * l) + Field(v, 3) * At(y, 96 + 2 * l + 1)))
  }

  ghost predicate IsBlock(w: Vec, y: Vec) {
    && |w| == BYTES && AreU8(w) && |y| == BLOCK && AreI8(y)
    && forall i, f | 0 <= i < |w| && 0 <= f < 4 :: Field(w[i], f) <= 2
  }

  lemma {:induction false} BlockStepOf(w: Vec, y: Vec, a16: Vec, l: nat)
    requires IsBlock(w, y) && |a16| == 16 && l < 16 && IsI16(a16[l] + LaneOf(w, y, l))
    ensures BlockStep(a16, w, y)[l] == a16[l] + LaneOf(w, y, l)
  {
    hide MaddUBS, ShiftMask, Add16, Field;
    SliceI8(y, 0, 32);
    SliceI8(y, 32, 64);
    SliceI8(y, 64, 96);
    SliceI8(y, 96, 128);
    MaddLane(w, y[0..32], 64, 0, l);
    MaddLane(w, y[32..64], 16, 1, l);
    MaddLane(w, y[64..96], 4, 2, l);
    MaddLane(w, y[96..128], 1, 3, l);
    var p0, p1 := MaddUBS(ShiftMask(w, 64), y[0..32]), MaddUBS(ShiftMask(w, 16), y[32..64]);
    var p2, p3 := MaddUBS(ShiftMask(w, 4), y[64..96]), MaddUBS(ShiftMask(w, 1), y[96..128]);
    Add16Lane(p0, p1, l);
    Add16Lane(p2, p3, l);
    Add16Lane(Add16(p0, p1), Add16(p2, p3), l);
    Add16Lane(a16, Add16(Add16(p0, p1), Add16(p2, p3)), l);
  }

  /** Block `b` of a row and of its activations. */
  function CodeBlock(codes: Vec, b: int): Vec
    requires 0 <= b && b * BYTES + BYTES <= |codes|
  {
    codes[b * BYTES..b * BYTES + BYTES]
  }

  function XBlock(x: Vec, b: int): Vec
    requires 0 <= b && b * BLOCK + BLOCK <= |x|
  {
    x[b * BLOCK..b * BLOCK + BLOCK]
  }

  lemma {:induction false} BlockOf(codes: Vec, x: Vec, nb: nat, b: nat)
    requires IsRow(codes, nb) && IsActivation(x, nb) && b < nb
    ensures IsBlock(CodeBlock(codes, b), XBlock(x, b))
  {
    hide Field;
    SliceI8(x, b * BLOCK, b * BLOCK + BLOCK);
    var w := CodeBlock(codes, b);
    forall i | 0 <= i < |w|
      ensures w[i] == codes[b * BYTES + i]
    {
    }
  }

  lemma {:induction false} LaneOfBlock(codes: Vec, x: Vec, nb: nat, b: nat, l: nat)
    requires |codes| == nb * BYTES && |x| == nb * BLOCK && b < nb && l < 16
    ensures LaneOf(CodeBlock(codes, b), XBlock(x, b), l) == LaneTerm(codes, x, b, l)
  {
    hide Field;
  }

  lemma {:induction false} BlockStepLane(codes: Vec, x: Vec, nb: nat, b: nat, a16: Vec, l: nat)
    requires IsRow(codes, nb) && IsActivation(x, nb) && b < nb && |a16| == 16 && l < 16
    requires IsI16(a16[l] + LaneTerm(codes, x, b, l))
    ensures BlockStep(a16, CodeBlock(codes, b), XBlock(x, b))[l] == a16[l] + LaneTerm(codes, x, b, l)
  {
    hide BlockStep, LaneOf, LaneTerm, IsBlock;
    BlockOf(codes, x, nb, b);
    LaneOfBlock(codes, x, nb, b, l);
    BlockStepOf(CodeBlock(codes, b), XBlock(x, b), a16, l);
  }

  // ----- Lanes add up to blocks

  lemma {:induction false} BlockFromLanes(codes: Vec, x: Vec, b: int)
    ensures Sum(16, l => LaneTerm(codes, x, b, l)) == BlockTerm(codes, x, b)
  {
    hide Sum, ByteTerm;
    SumPairs(16, j => ByteTerm(codes, x, b, j), l => LaneTerm(codes, x, b, l));
  }

  lemma {:induction false} LanesTotal(codes: Vec, x: Vec, nb: nat)
    ensures Sum(16, l => LaneRun(codes, x, 0, nb, l)) == Sum(nb, b => BlockTerm(codes, x, b))
  {
    hide Sum, LaneTerm, BlockTerm;
    if nb == 0 {
      SumTimes(16, 0, l => 0, l => LaneRun(codes, x, 0, 0, l));
      SumNone(b => BlockTerm(codes, x, b));
    } else {
      LanesTotal(codes, x, nb - 1);
      BlockFromLanes(codes, x, nb - 1);
      SumPlus(16, l => LaneRun(codes, x, 0, nb - 1, l), l => LaneTerm(codes, x, nb - 1, l),
              l => LaneRun(codes, x, 0, nb, l));
      SumStep(nb - 1, b => BlockTerm(codes, x, b));
    }
  }

  lemma {:induction false} RunSplit(codes: Vec, x: Vec, lo: nat, mid: nat, hi: nat, l: int)
    requires lo <= mid <= hi
    ensures LaneRun(codes, x, lo, hi, l) == LaneRun(codes, x, lo, mid, l) + LaneRun(codes, x, mid, hi, l)
    decreases hi
  {
    hide LaneTerm;
    if hi > mid {
      RunSplit(codes, x, lo, mid, hi - 1, l);
    }
  }

  /** Lanes small enough to add up without wrapping. */
  lemma {:induction false} HSumExact(v: Vec, bound: int)
    requires bound > 0 && |v| * bound <= 0x8000_0000 && forall i | 0 <= i < |v| :: -bound < v[i] < bound
    ensures HSum(v) == Sum(|v|, i => At(v, i))
    ensures -bound * |v| <= HSum(v) <= bound * |v| && (v != [] ==> -bound * |v| < HSum(v) < bound * |v|)
  {
    if v == [] {
      SumNone(i => At(v, i));
    } else {
      var n := |v| - 1;
      assert bound * |v| == bound * n + bound;
      HSumExact(v[..n], bound);
      SumSame(n, i => At(v[..n], i), i => At(v, i));
      SumStep(n, i => At(v, i));
      WrapSmall(HSum(v[..n]) + v[n]);
    }
  }

  /** Blocks before `b0` are in the 32-bit lanes, blocks `b0` up to `b` still in the 16-bit ones. */
  ghost predicate LanesHold(codes: Vec, x: Vec, a16: Vec, a32: Vec, b0: nat, b: nat) {
    && |a16| == 16 && |a32| == 8
    && (forall l | 0 <= l < 16 :: a16[l] == LaneRun(codes, x, b0, b, l))
    && (forall i | 0 <= i < 8 :: a32[i] == LaneRun(codes, x, 0, b0, 2 * i) + LaneRun(codes, x, 0, b0, 2 * i + 1))
  }

  lemma {:induction false} StepHolds(codes: Vec, x: Vec, nb: nat, a16: Vec, a32: Vec, b0: nat, b: nat)
    requires IsRow(codes, nb) && IsActivation(x, nb) && b0 <= b < nb && b - b0 < 16
             && LanesHold(codes, x, a16, a32, b0, b)
    ensures LanesHold(codes, x, BlockStep(a16, CodeBlock(codes, b), XBlock(x, b)), a32, b0, b + 1)
  {
    hide BlockStep, LaneTerm, AreU8, AreI8, Field;
    forall l | 0 <= l < 16
      ensures BlockStep(a16, CodeBlock(codes, b), XBlock(x, b))[l] == LaneRun(codes, x, b0, b + 1, l)
    {
      LaneRunBound(codes, x, nb, b0, b + 1, l);
      BlockStepLane(codes, x, nb, b, a16, l);
    }
  }

  lemma {:induction false} FlushHolds(codes: Vec, x: Vec, nb: nat, a16: Vec, a32: Vec, b0: nat, b: nat)
    requires IsRow(codes, nb) && IsActivation(x, nb) && b0 <= b <= nb < 0x1_0000 && LanesHold(codes, x, a16, a32, b0, b)
    ensures LanesHold(codes, x, Zeros(16), Add32(a32, MaddOnes(a16)), b, b)
  {
    hide LaneRun, AreU8, AreI8, Field;
    forall i | 0 <= i < 8
      ensures Add32(a32, MaddOnes(a16))[i] == LaneRun(codes, x, 0, b, 2 * i) + LaneRun(codes, x, 0, b, 2 * i + 1)
    {
      RunSplit(codes, x, 0, b0, b, 2 * i);
      RunSplit(codes, x, 0, b0, b, 2 * i + 1);
      LaneRunBound(codes, x, nb, 0, b, 2 * i);
      LaneRunBound(codes, x, nb, 0, b, 2 * i + 1);
      FlushLane(a16, a32, i);
    }
    forall l | 0 <= l < 16
      ensures LaneRun(codes, x, b, b, l) == 0
    {
      RunEmpty(codes, x, b, l);
    }
  }

  lemma {:induction false} RunEmpty(codes: Vec, x: Vec, b: nat, l: int)
    ensures LaneRun(codes, x, b, b, l) == 0
  {
  }

  lemma {:induction false} FlushLane(a16: Vec, a32: Vec, i: nat)
    requires |a16| == 16 && |a32| == 8 && i < 8 && IsI32(a32[i] + (a16[2 * i] + a16[2 * i + 1]))
    ensures Add32(a32, MaddOnes(a16))[i] == a32[i] + a16[2 * i] + a16[2 * i + 1]
  {
    WrapSmall(a32[i] + (a16[2 * i] + a16[2 * i + 1]));
  }

  /** After the last flush the 32-bit lanes add up to the unsigned sum. */
  lemma {:induction false} LanesEnd(codes: Vec, x: Vec, nb: nat, a16: Vec, a32: Vec)
    requires IsRow(codes, nb) && IsActivation(x, nb) && nb < 0x1_0000 && LanesHold(codes, x, a16, a32, nb, nb)
    ensures HSum(a32) == Sum(nb, b => BlockTerm(codes, x, b))
  {
    hide AreU8, AreI8, Field, Sum, HSum, BlockTerm, LaneRun;
    forall i | 0 <= i < 8
      ensures -0x1000_0000 < a32[i] < 0x1000_0000
    {
      LaneRunBound(codes, x, nb, 0, nb, 2 * i);
      LaneRunBound(codes, x, nb, 0, nb, 2 * i + 1);
    }
    HSumExact(a32, 0x1000_0000);
    SumPairs(8, l => LaneRun(codes, x, 0, nb, l), i => At(a32, i));
    LanesTotal(codes, x, nb);
  }

  /** Up to four activation rows against one row of codes, through 16-bit lanes that are widened every 16 blocks. */
  method RowsAvx2(codes: Vec, q: seq<Vec>, nb: nat, xsum: seq<int>) returns (acc: seq<int>)
    requires IsRow(codes, nb) && nb < 0x1_0000 && |xsum| == |q| && forall t | 0 <= t < |q| :: IsActivation(q[t], nb)
    ensures |acc| == |q|
    ensures forall t | 0 <= t < |q| :: acc[t] == Wrap32(Sum(nb, b => BlockTerm(codes, q[t], b)) - xsum[t])
  {
    hide BlockStep, LanesHold, Sum, BlockTerm, HSum, Wrap32;
    var nt := |q|;
    var a16, a32 := seq(nt, _ => Zeros(16)), seq(nt, _ => Zeros(8));
    ghost var b0 := 0;
    forall t | 0 <= t < nt
      ensures LanesHold(codes, q[t], a16[t], a32[t], 0, 0)
    {
      LanesStart(codes, q[t]);
    }
    for b := 0 to nb
      invariant |a16| == |a32| == nt && (forall t | 0 <= t < nt :: |a16[t]| == 16 && |a32[t]| == 8)
      invariant if b < nb then b0 <= b && b - b0 == b % 16 else b0 == b
      invariant forall t | 0 <= t < nt :: LanesHold(codes, q[t], a16[t], a32[t], b0, b)
    {
      var w := CodeBlock(codes, b);
      for t := 0 to nt
        invariant |a16| == nt && forall t | 0 <= t < nt :: |a16[t]| == 16
        invariant forall u | 0 <= u < nt :: LanesHold(codes, q[u], a16[u], a32[u], b0, if u < t then b + 1 else b)
      {
        StepHolds(codes, q[t], nb, a16[t], a32[t], b0, b);
        a16 := a16[t := BlockStep(a16[t], w, XBlock(q[t], b))];
      }
      if b % 16 == 15 || b == nb - 1 {
        for t := 0 to nt
          invariant |a16| == |a32| == nt && forall t | 0 <= t < nt :: |a16[t]| == 16 && |a32[t]| == 8
          invariant forall u | 0 <= u < nt :: LanesHold(codes, q[u], a16[u], a32[u], if u < t then b + 1 else b0, b + 1)
        {
          FlushHolds(codes, q[t], nb, a16[t], a32[t], b0, b + 1);
          a32 := a32[t := Add32(a32[t], MaddOnes(a16[t]))];
          a16 := a16[t := Zeros(16)];
        }
        b0 := b + 1;
      }
    }
    acc := [];
    for t := 0 to nt
      invariant |acc| == t
      invariant forall u | 0 <= u < t :: acc[u] == Wrap32(Sum(nb, b => BlockTerm(codes, q[u], b)) - xsum[u])
    {
      LanesEnd(codes, q[t], nb, a16[t], a32[t]);
      acc := acc + [Wrap32(HSum(a32[t]) - xsum[t])];
    }
  }

  lemma {:induction false} LanesStart(codes: Vec, x: Vec)
    ensures LanesHold(codes, x, Zeros(16), Zeros(8), 0, 0)
  {
  }

  // ----- The 512-bit kernel

  /** Two neighbouring blocks' activations of one field, side by side. */
  function SideBySide(y: Vec, off: nat): (r: Vec)
    requires |y| == 2 * BLOCK && off + 32 <= BLOCK
    ensures |r| == 64 && forall k | 0 <= k < 64 :: r[k] == y[k / 32 * BLOCK + off + k % 32]
  {
    y[off..off + 32] + y[BLOCK + off..BLOCK + off + 32]
  }

  /** Two blocks onto sixteen 32-bit lanes. */
  function PairStep(a: Vec, w: Vec, y: Vec): (r: Vec)
    requires |a| == 16 && |w| == 2 * BYTES && |y| == 2 * BLOCK
    ensures |r| == 16
  {
    var a := DpBusd(a, ShiftMask(w, 64), SideBySide(y, 0));
    var a := DpBusd(a, ShiftMask(w, 16), SideBySide(y, 32));
    var a := DpBusd(a, ShiftMask(w, 4), SideBySide(y, 64));
    DpBusd(a, ShiftMask(w, 1), SideBySide(y, 96))
  }

  /** What field `f` of byte `k` of two blocks adds. */
  function FieldTerm(w: Vec, y: Vec, f: int, k: int): int {
    Field(At(w, k), f) * At(y, k / 32 * BLOCK + f * 32 + k % 32)
  }

  function QuadField(w: Vec, y: Vec, f: int, i: int): int {
    FieldTerm(w, y, f, 4 * i) + FieldTerm(w, y, f, 4 * i + 1) + FieldTerm(w, y, f, 4 * i + 2)
      + FieldTerm(w, y, f, 4 * i + 3)
  }

  ghost predicate IsPair(w: Vec, y: Vec) {
    && |w| == 2 * BYTES && AreU8(w) && |y| == 2 * BLOCK && AreI8(y)
    && forall i, f | 0 <= i < |w| && 0 <= f < 4 :: Field(w[i], f) <= 2
  }

  lemma {:induction false} FieldTermBound(w: Vec, y: Vec, d: int, f: int, k: nat)
    requires IsPair(w, y) && Selects(d, f) && k < 64
    ensures -256 <= FieldTerm(w, y, f, k) <= 254
    ensures ShiftMask(w, d)[k] * SideBySide(y, f * 32)[k] == FieldTerm(w, y, f, k)
  {
    hide ShiftMask, Field, SideBySide;
    MaskedField(w, d, f, k);
    ProductBound(Field(w[k], f), y[k / 32 * BLOCK + f * 32 + k % 32]);
  }

  lemma {:induction false} DpLane(a: Vec, w: Vec, y: Vec, d: int, f: int, i: nat)
    requires IsPair(w, y) && Selects(d, f) && |a| == 16 && i < 16 && -0x4000_0000 <= a[i] <= 0x4000_0000
    ensures DpBusd(a, ShiftMask(w, d), SideBySide(y, f * 32))[i] == a[i] + QuadField(w, y, f, i)
    ensures -1024 <= QuadField(w, y, f, i) <= 1016
  {
    hide ShiftMask, Field, SideBySide, FieldTerm, IsPair;
    FieldTermBound(w, y, d, f, 4 * i);
    FieldTermBound(w, y, d, f, 4 * i + 1);
    FieldTermBound(w, y, d, f, 4 * i + 2);
    FieldTermBound(w, y, d, f, 4 * i + 3);
    WrapSmall(a[i] + QuadField(w, y, f, i));
  }

  /** Four neighbouring bytes of block `b`. */
  function QuadTerm(codes: Vec, x: Vec, b: int, i: int): int {
    ByteTerm(codes, x, b, 4 * i) + ByteTerm(codes, x, b, 4 * i + 1) + ByteTerm(codes, x, b, 4 * i + 2)
      + ByteTerm(codes, x, b, 4 * i + 3)
  }

  lemma {:induction false} QuadOfFields(w: Vec, y: Vec, i: nat)
    requires i < 16
    ensures QuadField(w, y, 0, i) + QuadField(w, y, 1, i) + QuadField(w, y, 2, i) + QuadField(w, y, 3, i)
            == QuadTerm(w, y, i / 8, i % 8)
  {
    hide FieldTerm, ByteTerm;
    QuadIndex(i, 0);
    QuadIndex(i, 1);
    QuadIndex(i, 2);
    QuadIndex(i, 3);
    BytesOfFields(w, y, 4 * i);
    BytesOfFields(w, y, 4 * i + 1);
    BytesOfFields(w, y, 4 * i + 2);
    BytesOfFields(w, y, 4 * i + 3);
  }

  lemma {:induction false} QuadIndex(i: nat, e: nat)
    requires e < 4
    ensures (4 * i + e) / 32 == i / 8 && (4 * i + e) % 32 == 4 * (i % 8) + e
  {
  }

  lemma {:induction false} BytesOfFields(w: Vec, y: Vec, k: nat)
    ensures FieldTerm(w, y, 0, k) + FieldTerm(w, y, 1, k) + FieldTerm(w, y, 2, k) + FieldTerm(w, y, 3, k)
            == ByteTerm(w, y, k / 32, k % 32)
  {
    hide Field, At;
    assert k / 32 * BYTES + k % 32 == k;
  }

  lemma {:induction false} PairStepLane(a: Vec, w: Vec, y: Vec, i: nat)
    requires IsPair(w, y) && |a| == 16 && i < 16 && -0x3000_0000 <= a[i] <= 0x3000_0000
    ensures PairStep(a, w, y)[i] == a[i] + QuadTerm(w, y, i / 8, i % 8)
    ensures -4096 <= QuadTerm(w, y, i / 8, i % 8) <= 4064
  {
    hide DpBusd, ShiftMask, SideBySide, QuadField, QuadTerm, Field;
    var a1 := DpBusd(a, ShiftMask(w, 64), SideBySide(y, 0 * 32));
    DpLane(a, w, y, 64, 0, i);
    var a2 := DpBusd(a1, ShiftMask(w, 16), SideBySide(y, 1 * 32));
    DpLane(a1, w, y, 16, 1, i);
    var a3 := DpBusd(a2, ShiftMask(w, 4), SideBySide(y, 2 * 32));
    DpLane(a2, w, y, 4, 2, i);
    DpLane(a3, w, y, 1, 3, i);
    QuadOfFields(w, y, i);
  }

  /** The two blocks from `b` on, cut out. */
  lemma {:induction false} PairOf(codes: Vec, x: Vec, nb: nat, b: nat)
    requires IsRow(codes, nb) && IsActivation(x, nb) && b + 2 <= nb
    ensures IsPair(codes[b * BYTES..b * BYTES + 64], x[b * BLOCK..b * BLOCK + 256])
  {
    hide Field;
    SliceI8(x, b * BLOCK, b * BLOCK + 256);
    var w := codes[b * BYTES..b * BYTES + 64];
    forall i | 0 <= i < |w|
      ensures w[i] == codes[b * BYTES + i]
    {
    }
  }

  lemma {:induction false} ByteTermMoves(codes: Vec, x: Vec, nb: nat, b: nat, n: nat, h: nat, j: nat)
    requires |codes| == nb * BYTES && |x| == nb * BLOCK && b + n <= nb && h < n && j < 32
    ensures ByteTerm(codes[b * BYTES..b * BYTES + n * BYTES], x[b * BLOCK..b * BLOCK + n * BLOCK], h, j)
            == ByteTerm(codes, x, b + h, j)
  {
    hide Field;
  }

  lemma {:induction false} QuadMoves(codes: Vec, x: Vec, nb: nat, b: nat, h: nat, i: nat)
    requires |codes| == nb * BYTES && |x| == nb * BLOCK && b + 2 <= nb && h < 2 && i < 8
    ensures QuadTerm(codes[b * BYTES..b * BYTES + 64], x[b * BLOCK..b * BLOCK + 256], h, i)
            == QuadTerm(codes, x, b + h, i)
  {
    hide ByteTerm;
    ByteTermMoves(codes, x, nb, b, 2, h, 4 * i);
    ByteTermMoves(codes, x, nb, b, 2, h, 4 * i + 1);
    ByteTermMoves(codes, x, nb, b, 2, h, 4 * i + 2);
    ByteTermMoves(codes, x, nb, b, 2, h, 4 * i + 3);
  }

  /** Lane `i` after `n` pairs of blocks: low lanes take the first block of each pair, high lanes the second. */
  ghost function QuadRun(codes: Vec, x: Vec, n: nat, i: int): int {
    if n == 0 then 0 else QuadRun(codes, x, n - 1, i) + QuadTerm(codes, x, 2 * (n - 1) + i / 8, i % 8)
  }

  lemma {:induction false} BlockFromQuads(codes: Vec, x: Vec, b: int)
    ensures Sum(8, i => QuadTerm(codes, x, b, i)) == BlockTerm(codes, x, b)
  {
    hide Sum, ByteTerm;
    BlockFromLanes(codes, x, b);
    SumPairs(8, l => LaneTerm(codes, x, b, l), i => QuadTerm(codes, x, b, i));
  }

  lemma {:induction false} QuadsTotal(codes: Vec, x: Vec, n: nat)
    ensures Sum(16, i => QuadRun(codes, x, n, i)) == Sum(2 * n, b => BlockTerm(codes, x, b))
  {
    hide Sum, QuadTerm, BlockTerm;
    if n == 0 {
      SumTimes(16, 0, i => 0, i => QuadRun(codes, x, 0, i));
      SumNone(b => BlockTerm(codes, x, b));
    } else {
      var p := n - 1;
      QuadsTotal(codes, x, p);
      BlockFromQuads(codes, x, 2 * p);
      BlockFromQuads(codes, x, 2 * p + 1);
      var now := (i: int) => QuadTerm(codes, x, 2 * p + i / 8, i % 8);
      SumSame(8, now, i => QuadTerm(codes, x, 2 * p, i));
      SumSplit(8, 8, now, i => QuadTerm(codes, x, 2 * p + 1, i));
      SumPlus(16, i => QuadRun(codes, x, p, i), now, i => QuadRun(codes, x, n, i));
      SumStep(2 * p, b => BlockTerm(codes, x, b));
      SumStep(2 * p + 1, b => BlockTerm(codes, x, b));
    }
  }

  ghost predicate PairsHold(codes: Vec, x: Vec, a: Vec, n: nat) {
    |a| == 16 && forall i | 0 <= i < 16 :: a[i] == QuadRun(codes, x, n, i)
  }

  lemma {:induction false} QuadRunBound(codes: Vec, x: Vec, nb: nat, n: nat, i: nat)
    requires IsRow(codes, nb) && IsActivation(x, nb) && 2 * n <= nb && i < 16
    ensures -4096 * n <= QuadRun(codes, x, n, i) <= 4064 * n
  {
    hide IsRow, IsActivation, ByteTerm;
    if n > 0 {
      var b, j := 2 * (n - 1) + i / 8, 4 * (i % 8);
      QuadRunBound(codes, x, nb, n - 1, i);
      ByteTermBound(codes, x, nb, b, j);
      ByteTermBound(codes, x, nb, b, j + 1);
      ByteTermBound(codes, x, nb, b, j + 2);
      ByteTermBound(codes, x, nb, b, j + 3);
    }
  }

  lemma {:induction false} PairHolds(codes: Vec, x: Vec, nb: nat, a: Vec, n: nat)
    requires IsRow(codes, nb) && IsActivation(x, nb) && nb < 0x1_0000 && 2 * n + 2 <= nb && PairsHold(codes, x, a, n)
    ensures PairsHold(codes, x, PairStep(a, codes[2 * n * BYTES..2 * n * BYTES + 64],
                                         x[2 * n * BLOCK..2 * n * BLOCK + 256]), n + 1)
  {
    hide PairStep, QuadTerm, AreU8, AreI8, Field, IsPair;
    PairOf(codes, x, nb, 2 * n);
    var r := PairStep(a, codes[2 * n * BYTES..2 * n * BYTES + 64], x[2 * n * BLOCK..2 * n * BLOCK + 256]);
    forall i | 0 <= i < 16
      ensures r[i] == QuadRun(codes, x, n + 1, i)
    {
      QuadRunBound(codes, x, nb, n, i);
      PairStepLane(a, codes[2 * n * BYTES..2 * n * BYTES + 64], x[2 * n * BLOCK..2 * n * BLOCK + 256], i);
      QuadMoves(codes, x, nb, 2 * n, i / 8, i % 8);
    }
  }

  lemma {:induction false} PairsEnd(codes: Vec, x: Vec, nb: nat, a: Vec, n: nat)
    requires IsRow(codes, nb) && IsActivation(x, nb) && nb < 0x1_0000 && 2 * n <= nb && PairsHold(codes, x, a, n)
    ensures HSum(a) == Sum(2 * n, b => BlockTerm(codes, x, b))
  {
    hide IsRow, IsActivation, Sum, HSum, QuadRun, BlockTerm;
    forall i | 0 <= i < 16
      ensures -0x800_0000 < a[i] < 0x800_0000
    {
      QuadRunBound(codes, x, nb, n, i);
    }
    HSumExact(a, 0x800_0000);
    SumSame(16, i => At(a, i), i => QuadRun(codes, x, n, i));
    QuadsTotal(codes, x, n);
  }

  /** The odd last block alone, through the 256-bit kernel. */
  lemma {:induction false} LastBlock(codes: Vec, x: Vec, nb: nat)
    requires IsRow(codes, nb) && IsActivation(x, nb) && nb > 0
    ensures var c, y := codes[(nb - 1) * BYTES..], x[(nb - 1) * BLOCK..];
            && IsRow(c, 1) && IsActivation(y, 1)
            && Wrap32(Sum(1, b => BlockTerm(c, y, b)) - 0) == BlockTerm(codes, x, nb - 1)
  {
    hide Wrap32, Sum, BlockTerm;
    LastRow(codes, x, nb);
    var l := nb - 1;
    var c, y := codes[l * BYTES..], x[l * BLOCK..];
    LastTerm(codes, x, nb, c, y);
    SumStep(0, b => BlockTerm(c, y, b));
    SumNone(b => BlockTerm(c, y, b));
    WrapSmall(BlockTerm(c, y, 0));
  }

  lemma {:induction false} LastRow(codes: Vec, x: Vec, nb: nat)
    requires IsRow(codes, nb) && IsActivation(x, nb) && nb > 0
    ensures IsRow(codes[(nb - 1) * BYTES..], 1) && IsActivation(x[(nb - 1) * BLOCK..], 1)
  {
    hide Field, IsI8;
  }

  lemma {:induction false} LastTerm(codes: Vec, x: Vec, nb: nat, c: Vec, y: Vec)
    requires IsRow(codes, nb) && IsActivation(x, nb) && nb > 0 && c == codes[(nb - 1) * BYTES..]
             && y == x[(nb - 1) * BLOCK..]
    ensures BlockTerm(c, y, 0) == BlockTerm(codes, x, nb - 1) && -32768 <= BlockTerm(c, y, 0) <= 32512
  {
    hide Field, ByteTerm, Sum, AreU8, AreI8;
    var l := nb - 1;
    assert c == codes[l * BYTES..l * BYTES + 1 * BYTES] && y == x[l * BLOCK..l * BLOCK + 1 * BLOCK];
    forall j | 0 <= j < 32
      ensures ByteTerm(c, y, 0, j) == ByteTerm(codes, x, l, j) && -1024 <= ByteTerm(c, y, 0, j) <= 1016
    {
      ByteTermMoves(codes, x, nb, l, 1, 0, j);
      ByteTermBound(codes, x, nb, l, j);
    }
    SumSame(32, j => ByteTerm(c, y, 0, j), j => ByteTerm(codes, x, l, j));
    SumBound(32, j => ByteTerm(c, y, 0, j), -1024, 1016);
  }

  /** Two blocks a step; an odd last block goes through the 256-bit kernel. */
  method RowsAvx512(codes: Vec, q: seq<Vec>, nb: nat, xsum: seq<int>) returns (acc: seq<int>)
    requires IsRow(codes, nb) && nb < 0x1_0000 && |xsum| == |q| && forall t | 0 <= t < |q| :: IsActivation(q[t], nb)
    ensures |acc| == |q|
    ensures forall t | 0 <= t < |q| :: acc[t] == Wrap32(Sum(nb, b => BlockTerm(codes, q[t], b)) - xsum[t])
  {
    hide PairStep, PairsHold, Sum, BlockTerm, HSum, Wrap32, Field, AreU8, AreI8;
    var nt := |q|;
    var a := seq(nt, _ => Zeros(16));
    forall t | 0 <= t < nt
      ensures PairsHold(codes, q[t], a[t], 0)
    {
      PairsStart(codes, q[t]);
    }
    var n := 0;
    while 2 * n + 2 <= nb
      invariant 0 <= 2 * n <= nb && |a| == nt && forall t | 0 <= t < nt :: |a[t]| == 16
      invariant forall t | 0 <= t < nt :: PairsHold(codes, q[t], a[t], n)
    {
      var w := codes[2 * n * BYTES..2 * n * BYTES + 64];
      for t := 0 to nt
        invariant |a| == nt && forall t | 0 <= t < nt :: |a[t]| == 16
        invariant forall u | 0 <= u < nt :: PairsHold(codes, q[u], a[u], if u < t then n + 1 else n)
      {
        PairHolds(codes, q[t], nb, a[t], n);
        a := a[t := PairStep(a[t], w, q[t][2 * n * BLOCK..2 * n * BLOCK + 256])];
      }
      n := n + 1;
    }
    var tail := seq(nt, _ => 0);
    if 2 * n < nb {
      forall t | 0 <= t < nt {
        LastBlock(codes, q[t], nb);
      }
      LastCodes(codes, nb);
      var rows := seq(nt, t requires 0 <= t < nt => q[t][2 * n * BLOCK..]);
      tail := RowsAvx2(codes[2 * n * BYTES..], rows, 1, seq(nt, _ => 0));
    }
    acc := [];
    for t := 0 to nt
      invariant |acc| == t
      invariant forall u | 0 <= u < t :: acc[u] == Wrap32(Sum(nb, b => BlockTerm(codes, q[u], b)) - xsum[u])
    {
      PairsEnd(codes, q[t], nb, a[t], n);
      if 2 * n < nb {
        LastBlock(codes, q[t], nb);
        SumStep(2 * n, b => BlockTerm(codes, q[t], b));
      }
      acc := acc + [Wrap32(HSum(a[t]) + tail[t] - xsum[t])];
    }
  }

  lemma {:induction false} PairsStart(codes: Vec, x: Vec)
    ensures PairsHold(codes, x, Zeros(16), 0)
  {
  }

  lemma {:induction false} LastCodes(codes: Vec, nb: nat)
    requires IsRow(codes, nb) && nb > 0
    ensures IsRow(codes[(nb - 1) * BYTES..], 1)
  {
    hide Field;
  }

  // ----- The scalar kernel

  /** The four signed products of byte `j` of block `b`. */
  function SignedByte(codes: Vec, x: Vec, b: int, j: int): int {
    var c, e := At(codes, b * BYTES + j), b * BLOCK + j;
    (Field(c, 0) - 1) * At(x, e) + (Field(c, 1) - 1) * At(x, e + 32) + (Field(c, 2) - 1) * At(x, e + 64)
      + (Field(c, 3) - 1) * At(x, e + 96)
  }

  ghost function SignedBlock(codes: Vec, x: Vec, b: int): int { Sum(BYTES, j => SignedByte(codes, x, b, j)) }

  lemma {:induction false} SignedBlockInOrder(codes: Vec, x: Vec, b: int)
    ensures Sum(BLOCK, e => (Code(codes, b * BLOCK + e) - 1) * At(x, b * BLOCK + e)) == SignedBlock(codes, x, b)
  {
    hide Sum, Code, Field, At;
    var g := (k: int) => (Code(codes, k) - 1) * At(x, k);
    var base := b * BLOCK;
    BlockByBytes(g, base);
    SumSame(BLOCK, e => g(base + e), e => (Code(codes, b * BLOCK + e) - 1) * At(x, b * BLOCK + e));
    forall j | 0 <= j < 32
      ensures g(base + j) + g(base + 32 + j) + g(base + 64 + j) + g(base + 96 + j) == SignedByte(codes, x, b, j)
    {
      Place(codes, b, 0, j);
      Place(codes, b, 1, j);
      Place(codes, b, 2, j);
      Place(codes, b, 3, j);
    }
    SumSame(32, j => g(base + j) + g(base + 32 + j) + g(base + 64 + j) + g(base + 96 + j),
            j => SignedByte(codes, x, b, j));
  }

  lemma {:induction false} SignedInOrder(codes: Vec, x: Vec, nb: nat)
    ensures TernDot(codes, x, nb * BLOCK) == Sum(nb, b => SignedBlock(codes, x, b))
  {
    var g := (k: int) => (Code(codes, k) - 1) * At(x, k);
    hide Sum, Code, At, SignedBlock;
    forall b | 0 <= b < nb
      ensures SignedBlock(codes, x, b) == Sum(BLOCK, e => g(b * BLOCK + e))
    {
      SignedBlockInOrder(codes, x, b);
      SumSame(BLOCK, e => g(b * BLOCK + e), e => (Code(codes, b * BLOCK + e) - 1) * At(x, b * BLOCK + e));
    }
    SumBlocks(nb, BLOCK, g, b => SignedBlock(codes, x, b));
  }

  lemma {:induction false} SignedByteBound(codes: Vec, x: Vec, nb: nat, b: nat, j: nat)
    requires IsRow(codes, nb) && IsActivation(x, nb) && b < nb && j < 32
    ensures -512 <= SignedByte(codes, x, b, j) <= 512
  {
    var c, e := At(codes, b * BYTES + j), b * BLOCK + j;
    ByteFacts(codes, x, nb, b, j);
    hide Field, At, IsRow, IsActivation;
    SignedProduct(Field(c, 0), At(x, e));
    SignedProduct(Field(c, 1), At(x, e + 32));
    SignedProduct(Field(c, 2), At(x, e + 64));
    SignedProduct(Field(c, 3), At(x, e + 96));
  }

  /** What byte `j` of block `b` holds, and what it meets. */
  lemma {:induction false} ByteFacts(codes: Vec, x: Vec, nb: nat, b: nat, j: nat)
    requires IsRow(codes, nb) && IsActivation(x, nb) && b < nb && j < 32
    ensures var c, e := At(codes, b * BYTES + j), b * BLOCK + j;
            && (forall f | 0 <= f < 4 :: 0 <= Field(c, f) <= 2)
            && IsI8(At(x, e)) && IsI8(At(x, e + 32)) && IsI8(At(x, e + 64)) && IsI8(At(x, e + 96))
  {
    hide Field;
    FieldRange(At(codes, b * BYTES + j));
  }

  lemma {:induction false} SignedProduct(c: int, q: int)
    requires 0 <= c <= 2 && IsI8(q)
    ensures -128 <= (c - 1) * q <= 128
  {
  }

  /** The reference: every row on its own, byte by byte. */
  method RowsScalar(codes: Vec, q: seq<Vec>, nb: nat) returns (acc: seq<int>)
    requires IsRow(codes, nb) && nb < 0x1_0000 && forall t | 0 <= t < |q| :: IsActivation(q[t], nb)
    ensures |acc| == |q|
    ensures forall t | 0 <= t < |q| :: acc[t] == TernDot(codes, q[t], nb * BLOCK)
  {
    hide Sum, TernDot, IsRow, IsActivation;
    acc := [];
    for t := 0 to |q|
      invariant |acc| == t && forall u | 0 <= u < t :: acc[u] == TernDot(codes, q[u], nb * BLOCK)
    {
      var s := RowScalar(codes, q[t], nb);
      acc := acc + [s];
    }
  }

  method RowScalar(codes: Vec, x: Vec, nb: nat) returns (s: int)
    requires IsRow(codes, nb) && nb < 0x1_0000 && IsActivation(x, nb)
    ensures s == TernDot(codes, x, nb * BLOCK)
  {
    SignedInOrder(codes, x, nb);
    hide Sum, TernDot, SignedByte, Field, AreU8, AreI8;
    s := 0;
    SumNone(b => SignedBlock(codes, x, b));
    for b := 0 to nb
      invariant s == Sum(b, b => SignedBlock(codes, x, b)) && -0x4000 * b <= s <= 0x4000 * b
    {
      ghost var s0 := s;
      SumNone(j => SignedByte(codes, x, b, j));
      for j := 0 to 32
        invariant s == s0 + Sum(j, j => SignedByte(codes, x, b, j)) && s0 - 512 * j <= s <= s0 + 512 * j
      {
        SumStep(j, j => SignedByte(codes, x, b, j));
        SignedByteBound(codes, x, nb, b, j);
        WrapSmall(s + SignedByte(codes, x, b, j));
        s := Wrap32(s + SignedByte(codes, x, b, j));
      }
      SumStep(b, b => SignedBlock(codes, x, b));
    }
  }

  // ----- The drivers

  datatype Isa = Scalar | Avx2 | Avx512

  lemma {:induction false} SignedBlockBound(codes: Vec, x: Vec, nb: nat, b: nat)
    requires IsRow(codes, nb) && IsActivation(x, nb) && b < nb
    ensures -0x4000 <= SignedBlock(codes, x, b) <= 0x4000
  {
    hide Sum, SignedByte, IsRow, IsActivation;
    forall j | 0 <= j < 32
      ensures -512 <= SignedByte(codes, x, b, j) <= 512
    {
      SignedByteBound(codes, x, nb, b, j);
    }
    SumBound(32, j => SignedByte(codes, x, b, j), -512, 512);
  }

  lemma {:induction false} TernDotFits(codes: Vec, x: Vec, nb: nat)
    requires IsRow(codes, nb) && IsActivation(x, nb) && nb < 0x1_0000
    ensures IsI32(TernDot(codes, x, nb * BLOCK))
  {
    hide Sum, TernDot, SignedBlock, IsRow, IsActivation;
    SignedInOrder(codes, x, nb);
    forall b | 0 <= b < nb
      ensures -0x4000 <= SignedBlock(codes, x, b) <= 0x4000
    {
      SignedBlockBound(codes, x, nb, b);
    }
    SumBound(nb, b => SignedBlock(codes, x, b), -0x4000, 0x4000);
  }

  /** Once the row sums are taken off, an unsigned kernel gives the signed dot product. */
  lemma {:induction false} Corrected(codes: Vec, x: Vec, nb: nat)
    requires IsRow(codes, nb) && IsActivation(x, nb) && nb < 0x1_0000
    ensures Wrap32(Sum(nb, b => BlockTerm(codes, x, b)) - Sum(nb * BLOCK, k => At(x, k)))
            == TernDot(codes, x, nb * BLOCK)
  {
    hide Sum, TernDot, BlockTerm, IsRow, IsActivation;
    RowSumCorrection(codes, x, nb);
    TernDotFits(codes, x, nb);
    WrapSmall(TernDot(codes, x, nb * BLOCK));
  }

  method RowSum(x: Vec) returns (s: int)
    ensures s == Sum(|x|, k => At(x, k))
  {
    s := 0;
    for k := 0 to |x|
      invariant s == Sum(k, k => At(x, k))
    {
      s := s + x[k];
    }
  }

  /** Whichever kernel runs, the rows get the same dot products. */
  method Rows(isa: Isa, codes: Vec, q: seq<Vec>, nb: nat, xsum: seq<int>) returns (acc: seq<int>)
    requires IsRow(codes, nb) && nb < 0x1_0000 && |xsum| == |q| && forall t | 0 <= t < |q| :: IsActivation(q[t], nb)
    requires isa != Scalar ==> forall t | 0 <= t < |q| :: xsum[t] == Sum(nb * BLOCK, k => At(q[t], k))
    ensures |acc| == |q| && forall t | 0 <= t < |q| :: acc[t] == TernDot(codes, q[t], nb * BLOCK)
  {
    hide Sum, TernDot, BlockTerm, IsRow, IsActivation, Wrap32;
    match isa
    case Scalar =>
      acc := RowsScalar(codes, q, nb);
    case Avx2 =>
      acc := RowsAvx2(codes, q, nb, xsum);
      forall t | 0 <= t < |q| {
        Corrected(codes, q[t], nb);
      }
    case Avx512 =>
      acc := RowsAvx512(codes, q, nb, xsum);
      forall t | 0 <= t < |q| {
        Corrected(codes, q[t], nb);
      }
  }

  /** How a sum becomes a float output: over the scale of its activation row, times that of the weights, plus a bias. */
  datatype Scaling = Scaling(scale: seq<real>, wScale: real, bias: Option<seq<real>>)
  {
    predicate Covers(M: nat) { |scale| == M && forall m | 0 <= m < M :: scale[m] != 0.0 }

    function Value(sum: int, m: nat, n: nat): real
      requires m < |scale| && scale[m] != 0.0
    {
      sum as real / scale[m] * wScale + BiasAt(bias, n)
    }
  }

  /** Column `n` of rows `at` on, into whichever outputs there are; the first of them is activation row `m0`. */
  method WriteRows(a: seq<int>, lin: Scaling, out: array2?<int>, y: array2?<real>, at: nat, m0: nat, n: nat,
                   ghost M: nat)
    requires out != null ==> at + |a| <= out.Length0 && n < out.Length1
    requires y != null ==> at + |a| <= y.Length0 && n < y.Length1 && lin.Covers(M) && m0 + |a| <= M
    modifies out, y
    ensures out != null ==> forall m, i | 0 <= m < out.Length0 && 0 <= i < out.Length1 ::
              out[m, i] == if at <= m < at + |a| && i == n then a[m - at] else old(out[m, i])
    ensures y != null ==> forall m, i | 0 <= m < y.Length0 && 0 <= i < y.Length1 ::
              y[m, i] == if at <= m < at + |a| && i == n then lin.Value(a[m - at], m0 + (m - at), n) else old(y[m, i])
  {
    hide Scaling.Value;
    for t := 0 to |a|
      invariant out != null ==> forall m, i | 0 <= m < out.Length0 && 0 <= i < out.Length1 ::
                  out[m, i] == if at <= m < at + t && i == n then a[m - at] else old(out[m, i])
      invariant y != null ==> forall m, i | 0 <= m < y.Length0 && 0 <= i < y.Length1 ::
                  y[m, i] == if at <= m < at + t && i == n then lin.Value(a[m - at], m0 + (m - at), n) else old(y[m, i])
    {
      if out != null {
        out[at + t, n] := a[t];
      }
      if y != null {
        y[at + t, n] := lin.Value(a[t], m0 + t, n);
      }
    }
  }

  /** One weight row against every activation row, four at a time. */
  method OneColumn(isa: Isa, q: seq<Vec>, w: Vec, nb: nat, xs: seq<int>, lin: Scaling, out: array2?<int>,
                   y: array2?<real>,
                   row0: nat, n: nat)
    requires nb < 0x1_0000 && IsRow(w, nb) && |xs| == |q| && forall m | 0 <= m < |q| :: IsActivation(q[m], nb)
    requires isa != Scalar ==> forall u | 0 <= u < |q| :: xs[u] == Sum(nb * BLOCK, k => At(q[u], k))
    requires out != null ==> row0 + |q| <= out.Length0 && n < out.Length1
    requires y != null ==> row0 + |q| <= y.Length0 && n < y.Length1 && lin.Covers(|q|)
    modifies out, y
    ensures out != null ==> forall m, i | 0 <= m < out.Length0 && 0 <= i < out.Length1 ::
              out[m, i] == if row0 <= m < row0 + |q| && i == n then TernDot(w, q[m - row0], nb * BLOCK)
                else old(out[m, i])
    ensures y != null ==> forall m, i | 0 <= m < y.Length0 && 0 <= i < y.Length1 ::
              y[m, i] == if row0 <= m < row0 + |q| && i == n
                then lin.Value(TernDot(w, q[m - row0], nb * BLOCK), m - row0, n)
                         else old(y[m, i])
  {
    hide Sum, TernDot, IsRow, IsActivation, Scaling.Value;
    var m0 := 0;
    while m0 < |q|
      invariant 0 <= m0 <= |q|
      invariant out != null ==> forall m, i | 0 <= m < out.Length0 && 0 <= i < out.Length1 ::
                  out[m, i] == if row0 <= m < row0 + m0 && i == n then TernDot(w, q[m - row0], nb * BLOCK)
                    else old(out[m, i])
      invariant y != null ==> forall m, i | 0 <= m < y.Length0 && 0 <= i < y.Length1 ::
                  y[m, i] == if row0 <= m < row0 + m0 && i == n
                    then lin.Value(TernDot(w, q[m - row0], nb * BLOCK), m - row0, n)
                             else old(y[m, i])
    {
      var nt := Min(|q| - m0, 4);
      var four := q[m0..m0 + nt];
      var a := Rows(isa, w, four, nb, xs[m0..m0 + nt]);
      assert forall t | 0 <= t < nt :: four[t] == q[m0 + t];
      WriteRows(a, lin, out, y, row0 + m0, m0, n, |q|);
      m0 := m0 + nt;
    }
  }

  /** Every weight row against every activation row, into rows `row0` on of whichever outputs there are. */
  method Drive(isa: Isa, q: seq<Vec>, w: seq<Vec>, nb: nat, lin: Scaling, out: array2?<int>, y: array2?<real>,
               row0: nat)
    requires nb < 0x1_0000 && (forall n | 0 <= n < |w| :: IsRow(w[n], nb))
             && forall m | 0 <= m < |q| :: IsActivation(q[m], nb)
    requires out != null ==> row0 + |q| <= out.Length0 && |w| == out.Length1
    requires y != null ==> row0 + |q| <= y.Length0 && |w| == y.Length1 && lin.Covers(|q|)
    modifies out, y
    ensures out != null ==> forall m, n | 0 <= m < out.Length0 && 0 <= n < out.Length1 ::
              out[m, n] == if row0 <= m < row0 + |q| then TernDot(w[n], q[m - row0], nb * BLOCK) else old(out[m, n])
    ensures y != null ==> forall m, n | 0 <= m < y.Length0 && 0 <= n < y.Length1 ::
              y[m, n] == if row0 <= m < row0 + |q| then lin.Value(TernDot(w[n], q[m - row0], nb * BLOCK), m - row0, n)
                         else old(y[m, n])
  {
    hide Sum, TernDot, IsRow, Scaling.Value;
    var xs := RowSums(isa, q, nb);
    hide IsActivation;
    for n := 0 to |w|
      invariant out != null ==> forall m, i | 0 <= m < out.Length0 && 0 <= i < out.Length1 ::
                  out[m, i] == if row0 <= m < row0 + |q| && i < n then TernDot(w[i], q[m - row0], nb * BLOCK)
                    else old(out[m, i])
      invariant y != null ==> forall m, i | 0 <= m < y.Length0 && 0 <= i < y.Length1 ::
                  y[m, i] == if row0 <= m < row0 + |q| && i < n
                    then lin.Value(TernDot(w[i], q[m - row0], nb * BLOCK), m - row0, i)
                             else old(y[m, i])
    {
      OneColumn(isa, q, w[n], nb, xs, lin, out, y, row0, n);
    }
  }

  /** The sums of the activation rows, for the kernels that take unsigned codes. */
  method RowSums(isa: Isa, q: seq<Vec>, nb: nat) returns (xs: seq<int>)
    requires nb < 0x1_0000 && forall m | 0 <= m < |q| :: IsActivation(q[m], nb)
    ensures |xs| == |q| && (isa != Scalar ==> forall u | 0 <= u < |q| :: xs[u] == Sum(nb * BLOCK, k => At(q[u], k)))
  {
    hide Sum;
    xs := [];
    for m := 0 to |q|
      invariant |xs| == m && (isa != Scalar ==> forall u | 0 <= u < m :: xs[u] == Sum(nb * BLOCK, k => At(q[u], k)))
    {
      var s := 0;
      if isa != Scalar {
        s := RowSum(q[m]);
      }
      xs := xs + [s];
    }
  }

  const MBLOCK := 64

  /** The prefill driver: more than 64 activation rows go block by block, each into its own rows of the outputs. */
  method DriveBlocked(isa: Isa, q: seq<Vec>, w: seq<Vec>, K: nat, lin: Scaling, out: array2?<int>, y: array2?<real>)
    returns (st: Status)
    requires K < 0x80_0000 && (forall n | 0 <= n < |w| :: IsRow(w[n], K / BLOCK))
    requires forall m | 0 <= m < |q| :: IsActivation(q[m], K / BLOCK)
    requires out != null ==> |q| == out.Length0 && |w| == out.Length1
    requires y != null ==> |q| == y.Length0 && |w| == y.Length1 && lin.Covers(|q|)
    modifies out, y
    ensures st == Ok <==> |q| > 0 && |w| > 0 && K > 0 && K % BLOCK == 0
    ensures st != Ok ==> (out != null ==> unchanged(out)) && (y != null ==> unchanged(y))
    ensures st == Ok && out != null ==> forall m, n | 0 <= m < |q| && 0 <= n < |w| ::
              out[m, n] == TernDot(w[n], q[m], K)
    ensures st == Ok && y != null ==> forall m, n | 0 <= m < |q| && 0 <= n < |w| ::
              var v := TernDot(w[n], q[m], K) as real / lin.scale[m] * lin.wScale;
              && (lin.bias.None? ==> y[m, n] == v)
              && (lin.bias.Some? && n < |lin.bias.value| ==> y[m, n] == v + lin.bias.value[n])
  {
    hide TernDot, IsRow, IsActivation;
    if |q| == 0 || |w| == 0 || K == 0 || K % BLOCK != 0 {
      return InvalidArg;
    }
    var nb := K / BLOCK;
    assert nb * BLOCK == K;
    if |q| <= MBLOCK {
      Drive(isa, q, w, nb, lin, out, y, 0);
    } else {
      AllBlocks(isa, q, w, nb, lin, out, y);
    }
    st := Ok;
  }

  method AllBlocks(isa: Isa, q: seq<Vec>, w: seq<Vec>, nb: nat, lin: Scaling, out: array2?<int>, y: array2?<real>)
    requires nb < 0x1_0000 && (forall n | 0 <= n < |w| :: IsRow(w[n], nb))
             && forall m | 0 <= m < |q| :: IsActivation(q[m], nb)
    requires out != null ==> |q| == out.Length0 && |w| == out.Length1
    requires y != null ==> |q| == y.Length0 && |w| == y.Length1 && lin.Covers(|q|)
    modifies out, y
    ensures out != null ==> forall m, n | 0 <= m < |q| && 0 <= n < |w| :: out[m, n] == TernDot(w[n], q[m], nb * BLOCK)
    ensures y != null ==> forall m, n | 0 <= m < |q| && 0 <= n < |w| ::
              y[m, n] == lin.Value(TernDot(w[n], q[m], nb * BLOCK), m, n)
  {
    hide TernDot, IsRow, IsActivation, Scaling.Value;
    var m0 := 0;
    while m0 < |q|
      invariant 0 <= m0 <= |q|
      invariant out != null ==> forall m, n | 0 <= m < m0 && 0 <= n < |w| ::
                  out[m, n] == TernDot(w[n], q[m], nb * BLOCK)
      invariant y != null ==> forall m, n | 0 <= m < m0 && 0 <= n < |w| ::
                  y[m, n] == lin.Value(TernDot(w[n], q[m], nb * BLOCK), m, n)
    {
      var mb := Min(|q| - m0, MBLOCK);
      var part := if y != null then lin.(scale := lin.scale[m0..m0 + mb]) else lin;
      if y != null {
        PartValues(lin, m0, mb);
      }
      Drive(isa, q[m0..m0 + mb], w, nb, part, out, y, m0);
      m0 := m0 + mb;
    }
  }

  /** A block of rows is scaled as it would be among all. */
  lemma {:induction false} PartValues(lin: Scaling, m0: nat, mb: nat)
    requires m0 + mb <= |lin.scale| && lin.Covers(|lin.scale|)
    ensures var part := lin.(scale := lin.scale[m0..m0 + mb]);
            && part.Covers(mb)
            && forall sum, m: nat, n: nat | m0 <= m < m0 + mb :: part.Value(sum, m - m0, n) == lin.Value(sum, m, n)
  {
    var part := lin.scale[m0..m0 + mb];
    assert forall i | 0 <= i < mb :: part[i] == lin.scale[m0 + i];
  }
}
