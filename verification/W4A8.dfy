/**
 4-bit weights times int8 activations (src/cpu/cpu_int8.c): codes two to a byte, a scale and a zero point a group,
 against activations stored as the even columns of a run of 32 and then the odd ones.
 */
module W4A8 {
  import opened Common
  import opened Arith
  import opened Sums
  import opened Lanes
  import opened Q8
  import opened Quantize

  const MAX_GROUPS := 1024  // of one row
  const RUN := 8  // chunks added up in 16 bits

  /** The code of column `k`: even columns in the high nibble. */
  function Nib(wp: Vec, k: int): int { if k % 2 == 0 then At(wp, k / 2) / 16 else At(wp, k / 2) % 16 }

  /** The activation of column `k`. */
  function X(x: Vec, k: int): int { At(x, Slot(Nibble, k)) }

  /** Chunk `c` of a row is 32 columns; its first `n` chunks exist in both operands. */
  ghost predicate IsRow(wp: Vec, x: Vec, n: nat) { |wp| == 16 * n && AreU8(wp) && |x| == 32 * n && AreI8(x) }

  // ----- Memory order against column order

  /** The code that meets the `i`-th activation of chunk `c`. */
  function Code(wp: Vec, c: int, i: int): int {
    if i < 16 then At(wp, 16 * c + i) / 16 else At(wp, 16 * c + i - 16) % 16
  }

  lemma {:induction false} CodePlace(wp: Vec, c: int, e: int)
    requires 0 <= e < 32
    ensures Code(wp, c, Pos(Nibble, e)) == Nib(wp, 32 * c + e)
  {
    hide At;
    assert (32 * c + e) % 2 == e % 2 && (32 * c + e) / 2 == 16 * c + e / 2;
  }

  function Term(wp: Vec, x: Vec, c: int, i: int): int { Code(wp, c, i) * At(x, 32 * c + i) }

  ghost function ChunkDot(wp: Vec, x: Vec, c: int): int { Sum(32, i => Term(wp, x, c, i)) }

  function ColumnTerm(wp: Vec, x: Vec, k: int): int { Nib(wp, k) * X(x, k) }

  lemma {:induction false} TermInOrder(wp: Vec, x: Vec, c: int, e: int)
    requires 0 <= e < 32
    ensures Term(wp, x, c, Pos(Nibble, e)) == ColumnTerm(wp, x, 32 * c + e)
  {
    CodePlace(wp, c, e);
    SlotIs(Nibble, c, e);
  }

  /** Codes and activations meet column by column. */
  lemma {:induction false} ChunkInOrder(wp: Vec, x: Vec, c: int)
    ensures ChunkDot(wp, x, c) == Sum(32, e => ColumnTerm(wp, x, 32 * c + e))
  {
    hide Sum, Term, ColumnTerm, Pos;
    var f := (i: int) => Term(wp, x, c, i);
    RunSumInAnyLayout(Nibble, f);
    forall e | 0 <= e < 32
      ensures f(Pos(Nibble, e)) == ColumnTerm(wp, x, 32 * c + e)
    {
      TermInOrder(wp, x, c, e);
    }
    SumSame(32, e => f(Pos(Nibble, e)), e => ColumnTerm(wp, x, 32 * c + e));
    SumSame(32, f, i => Term(wp, x, c, i));
  }

  /** The unsigned dot product of chunks `lo` .. `lo + n - 1`, in column order. */
  ghost function GroupDot(wp: Vec, x: Vec, lo: int, n: nat): int { Sum(32 * n, e => ColumnTerm(wp, x, 32 * lo + e)) }

  lemma {:induction false} GroupDotNone(wp: Vec, x: Vec, lo: int)
    ensures GroupDot(wp, x, lo, 0) == 0
  {
  }

  lemma {:induction false} GroupDotStep(wp: Vec, x: Vec, lo: int, n: nat)
    ensures GroupDot(wp, x, lo, n + 1) == GroupDot(wp, x, lo, n) + ChunkDot(wp, x, lo + n)
  {
    hide Sum, ColumnTerm, ChunkDot;
    ChunkInOrder(wp, x, lo + n);
    var g := (e: int) => ColumnTerm(wp, x, 32 * (lo + n) + e);
    SumSame(32, e => ColumnTerm(wp, x, 32 * (lo + n) + e), g);
    SumSplit(32 * n, 32, e => ColumnTerm(wp, x, 32 * lo + e), g);
  }

  // ----- Lanes

  /** What a 16-bit lane gets from chunk `c`, and from chunks `lo` up to `hi`. */
  function LaneTerm(wp: Vec, x: Vec, c: int, l: int): int { Term(wp, x, c, 2 * l) + Term(wp, x, c, 2 * l + 1) }

  ghost function LaneRun(wp: Vec, x: Vec, lo: int, hi: int, l: int): int
    decreases hi - lo
  {
    if hi <= lo then 0 else LaneRun(wp, x, lo, hi - 1, l) + LaneTerm(wp, x, hi - 1, l)
  }

  lemma {:induction false} ProductBound(c: int, q: int, b: int)
    requires 0 <= c <= 15 && -b <= q <= b
    ensures -15 * b <= c * q <= 15 * b
  {
    MulMonotone(-b, q, c);
    MulMonotone(q, b, c);
    MulMonotone(c, 15, b);
  }

  ghost predicate Bounded(x: Vec, b: int) { forall i | 0 <= i < |x| :: -b <= x[i] <= b }

  lemma {:induction false} TermBound(wp: Vec, x: Vec, c: int, i: int, b: nat)
    requires AreU8(wp) && Bounded(x, b) && 0 <= c && 0 <= i < 32
    ensures -15 * b <= Term(wp, x, c, i) <= 15 * b && 0 <= Code(wp, c, i) <= 15
  {
    ProductBound(Code(wp, c, i), At(x, 32 * c + i), b);
  }

  /** Eight chunks of activations within 127 keep a lane within 30480; -128 would still leave it within 30720. */
  lemma {:induction false} LaneRunBound(wp: Vec, x: Vec, lo: nat, hi: nat, l: nat, b: nat)
    requires AreU8(wp) && Bounded(x, b) && lo <= hi && l < 16
    ensures -Mul(30 * b, hi - lo) <= LaneRun(wp, x, lo, hi, l) <= Mul(30 * b, hi - lo)
    decreases hi
  {
    OneMore(30 * b, hi - lo);
    hide Term, Mul;
    if hi > lo {
      LaneRunBound(wp, x, lo, hi - 1, l, b);
      TermBound(wp, x, hi - 1, 2 * l, b);
      TermBound(wp, x, hi - 1, 2 * l + 1, b);
    }
  }

  lemma {:induction false} OneMore(a: int, n: int)
    ensures Mul(a, n) == Mul(a, n - 1) + a && Mul(a, 0) == 0
  {
  }

  lemma {:induction false} EightChunksFit(wp: Vec, x: Vec, lo: nat, hi: nat, l: nat)
    requires AreU8(wp) && lo <= hi <= lo + RUN && l < 16
    ensures Bounded(x, 127) ==> -30480 <= LaneRun(wp, x, lo, hi, l) <= 30480
    ensures AreI8(x) ==> IsI16(LaneRun(wp, x, lo, hi, l))
  {
    hide LaneRun, AreU8;
    if Bounded(x, 127) {
      LaneRunBound(wp, x, lo, hi, l, 127);
    }
    if AreI8(x) {
      LaneRunBound(wp, x, lo, hi, l, 128);
    }
  }

  /** Byte 0 or 1 of a 16-bit word shifted right by 4 and masked to four bits. */
  function Shifted(lo: int, hi: int, odd: bool): int {
    var word := (lo + 256 * hi) / 16;
    (if odd then word / 256 % 256 else word % 256) % 16
  }

  lemma {:induction false} ShiftedNibbles(lo: int, hi: int)
    requires 0 <= lo <= 255 && 0 <= hi <= 255
    ensures Shifted(lo, hi, false) == lo / 16 && Shifted(lo, hi, true) == hi / 16
  {
    var a, r, p := lo / 16, hi % 16, hi / 16;
    assert (lo + 256 * hi) / 16 == a + 16 * r + 256 * p;
    Digits3(a, r, p);
  }

  lemma {:induction false} Digits3(a: int, r: int, p: int)
    requires 0 <= a < 16 && 0 <= r < 16 && 0 <= p < 16
    ensures var w := a + 16 * r + 256 * p;
            w % 256 % 16 == a && w / 256 % 256 % 16 == p
  {
    var w := a + 16 * r + 256 * p;
    assert w % 256 == a + 16 * r && w / 256 == p;
  }

  /** The high nibbles of 16 bytes (shifted as words, then masked) and after them the low ones. */
  function Split(b: Vec): (r: Vec)
    requires |b| == 16
    ensures |r| == 32
  {
    seq(32, i requires 0 <= i < 32 =>
      if i >= 16 then b[i - 16] % 16 else if i % 2 == 1 then Shifted(b[i - 1], b[i], true)
        else Shifted(b[i], b[i + 1], false))
  }

  lemma {:induction false} SplitBytes(b: Vec, i: nat)
    requires |b| == 16 && AreU8(b) && i < 32
    ensures Split(b)[i] == if i < 16 then b[i] / 16 else b[i - 16] % 16
  {
    hide Shifted;
    if i < 16 && i % 2 == 1 {
      ShiftedNibbles(b[i - 1], b[i]);
    } else if i < 16 {
      ShiftedNibbles(b[i], b[i + 1]);
    }
  }

  lemma {:induction false} SplitIs(wp: Vec, c: nat, i: nat)
    requires AreU8(wp) && 16 * c + 16 <= |wp| && i < 32
    ensures Split(wp[16 * c..16 * c + 16])[i] == Code(wp, c, i)
  {
    hide Split;
    var b := wp[16 * c..16 * c + 16];
    assert forall j | 0 <= j < 16 :: b[j] == wp[16 * c + j];
    SplitBytes(b, i);
  }

  /** One chunk onto the 16-bit lanes. */
  function ChunkStep(h: Vec, b: Vec, y: Vec): (r: Vec)
    requires |h| == 16 && |b| == 16 && |y| == 32
    ensures |r| == 16
  {
    Add16(h, MaddUBS(Split(b), y))
  }

  lemma {:induction false} MaddIs(wp: Vec, x: Vec, c: nat, l: nat)
    requires AreU8(wp) && AreI8(x) && 16 * c + 16 <= |wp| && 32 * c + 32 <= |x| && l < 16
    ensures MaddUBS(Split(wp[16 * c..16 * c + 16]), x[32 * c..32 * c + 32])[l] == LaneTerm(wp, x, c, l)
  {
    hide Split, Code, MaddUBS, AreU8;
    var u, y := Split(wp[16 * c..16 * c + 16]), x[32 * c..32 * c + 32];
    SplitIs(wp, c, 2 * l);
    SplitIs(wp, c, 2 * l + 1);
    assert y[2 * l] == At(x, 32 * c + 2 * l) && y[2 * l + 1] == At(x, 32 * c + (2 * l + 1));
    TermBound(wp, x, c, 2 * l, 128);
    TermBound(wp, x, c, 2 * l + 1, 128);
    hide At, AreI8, Bounded;
    MaddOf(u, y, l, Term(wp, x, c, 2 * l), Term(wp, x, c, 2 * l + 1));
  }

  lemma {:induction false} MaddOf(u: Vec, y: Vec, l: nat, a: int, b: int)
    requires |u| == |y| == 32 && l < 16 && a == u[2 * l] * y[2 * l] && b == u[2 * l + 1] * y[2 * l + 1] && IsI16(a + b)
    ensures MaddUBS(u, y)[l] == a + b
  {
    WrapSmall(a + b);
  }

  lemma {:induction false} Add16Is(a: Vec, b: Vec, l: nat)
    requires |a| == |b| && l < |a| && IsI16(a[l] + b[l])
    ensures Add16(a, b)[l] == a[l] + b[l]
  {
    WrapSmall(a[l] + b[l]);
  }

  lemma {:induction false} ChunkLane(wp: Vec, x: Vec, c: nat, h: Vec, l: nat)
    requires AreU8(wp) && AreI8(x) && 16 * c + 16 <= |wp| && 32 * c + 32 <= |x| && |h| == 16 && l < 16
    requires IsI16(h[l] + LaneTerm(wp, x, c, l))
    ensures ChunkStep(h, wp[16 * c..16 * c + 16], x[32 * c..32 * c + 32])[l] == h[l] + LaneTerm(wp, x, c, l)
  {
    hide Split, Code, MaddUBS, Add16;
    var b, y := wp[16 * c..16 * c + 16], x[32 * c..32 * c + 32];
    MaddIs(wp, x, c, l);
    hide LaneTerm, Term;
    Add16Is(h, MaddUBS(Split(b), y), l);
  }

  lemma {:induction false} RunSplit(wp: Vec, x: Vec, lo: int, mid: int, hi: int, l: int)
    requires lo <= mid <= hi
    ensures LaneRun(wp, x, lo, hi, l) == LaneRun(wp, x, lo, mid, l) + LaneRun(wp, x, mid, hi, l)
    decreases hi - lo
  {
    hide LaneTerm;
    if hi > mid {
      RunSplit(wp, x, lo, mid, hi - 1, l);
    }
  }

  lemma {:induction false} RunEmpty(wp: Vec, x: Vec, lo: int, l: int)
    ensures LaneRun(wp, x, lo, lo, l) == 0
  {
  }

  lemma {:induction false} ChunkFromLanes(wp: Vec, x: Vec, c: int)
    ensures Sum(16, l => LaneTerm(wp, x, c, l)) == ChunkDot(wp, x, c)
  {
    hide Sum, Term;
    SumPairs(16, i => Term(wp, x, c, i), l => LaneTerm(wp, x, c, l));
  }

  lemma {:induction false} LanesTotal(wp: Vec, x: Vec, lo: int, n: nat)
    ensures Sum(16, l => LaneRun(wp, x, lo, lo + n, l)) == GroupDot(wp, x, lo, n)
  {
    hide Sum, LaneTerm, ChunkDot, GroupDot;
    if n == 0 {
      SumZero(16, l => LaneRun(wp, x, lo, lo + n, l));
      GroupDotNone(wp, x, lo);
    } else {
      LanesTotal(wp, x, lo, n - 1);
      ChunkFromLanes(wp, x, lo + n - 1);
      GroupDotStep(wp, x, lo, n - 1);
      SumPlus(16, l => LaneRun(wp, x, lo, lo + (n - 1), l), l => LaneTerm(wp, x, lo + n - 1, l),
              l => LaneRun(wp, x, lo, lo + n, l));
    }
  }

  // ----- One group

  /** Chunks of a group whose dot product stays in 32 bits. */
  const MAX_CHUNKS := 34952

  /** Chunks `lo` up to `b0` are in the 32-bit lanes, chunks `b0` up to `c` still in the 16-bit ones. */
  ghost predicate LanesHold(wp: Vec, x: Vec, h: Vec, a: Vec, lo: nat, b0: nat, c: nat) {
    && |h| == 16 && |a| == 8
    && (forall l | 0 <= l < 16 :: h[l] == LaneRun(wp, x, b0, c, l))
    && (forall i | 0 <= i < 8 :: a[i] == LaneRun(wp, x, lo, b0, 2 * i) + LaneRun(wp, x, lo, b0, 2 * i + 1))
  }

  lemma {:induction false} StepHolds(wp: Vec, x: Vec, n: nat, h: Vec, a: Vec, lo: nat, b0: nat, c: nat)
    requires IsRow(wp, x, n) && lo <= b0 <= c < n && c - b0 < RUN && LanesHold(wp, x, h, a, lo, b0, c)
    ensures LanesHold(wp, x, ChunkStep(h, wp[16 * c..16 * c + 16], x[32 * c..32 * c + 32]), a, lo, b0, c + 1)
  {
    hide ChunkStep, LaneTerm, AreU8, AreI8;
    var r := ChunkStep(h, wp[16 * c..16 * c + 16], x[32 * c..32 * c + 32]);
    forall l | 0 <= l < 16
      ensures r[l] == LaneRun(wp, x, b0, c + 1, l)
    {
      EightChunksFit(wp, x, b0, c + 1, l);
      ChunkLane(wp, x, c, h, l);
    }
  }

  lemma {:induction false} FlushHolds(wp: Vec, x: Vec, n: nat, h: Vec, a: Vec, lo: nat, b0: nat, c: nat)
    requires IsRow(wp, x, n) && lo <= b0 <= c <= n && c - lo <= MAX_CHUNKS && LanesHold(wp, x, h, a, lo, b0, c)
    ensures LanesHold(wp, x, Zeros(16), Add32(a, MaddOnes(h)), lo, c, c)
  {
    hide LaneRun, AreU8, Add32, MaddOnes;
    forall i | 0 <= i < 8
      ensures Add32(a, MaddOnes(h))[i] == LaneRun(wp, x, lo, c, 2 * i) + LaneRun(wp, x, lo, c, 2 * i + 1)
    {
      RunSplit(wp, x, lo, b0, c, 2 * i);
      RunSplit(wp, x, lo, b0, c, 2 * i + 1);
      LaneRunBound(wp, x, lo, c, 2 * i, 128);
      LaneRunBound(wp, x, lo, c, 2 * i + 1, 128);
      FlushLane(h, a, i);
    }
    forall l | 0 <= l < 16
      ensures LaneRun(wp, x, c, c, l) == 0
    {
      RunEmpty(wp, x, c, l);
    }
  }

  lemma {:induction false} FlushLane(h: Vec, a: Vec, i: nat)
    requires |h| == 16 && |a| == 8 && i < 8 && IsI32(a[i] + (h[2 * i] + h[2 * i + 1]))
    ensures Add32(a, MaddOnes(h))[i] == a[i] + h[2 * i] + h[2 * i + 1]
  {
    WrapSmall(a[i] + (h[2 * i] + h[2 * i + 1]));
  }

  lemma {:induction false} LanesEnd(wp: Vec, x: Vec, h: Vec, a: Vec, lo: nat, n: nat)
    requires LanesHold(wp, x, h, a, lo, lo + n, lo + n)
    ensures Sum(8, i => At(a, i)) == GroupDot(wp, x, lo, n)
  {
    hide Sum, GroupDot, LaneRun;
    SumPairs(8, l => LaneRun(wp, x, lo, lo + n, l), i => At(a, i));
    LanesTotal(wp, x, lo, n);
  }

  /** One group in 16-bit lanes that are widened every eight chunks and at the end. */
  method GroupAvx2(wp: Vec, x: Vec, total: nat, lo: nat, n: nat) returns (a: Vec)
    requires IsRow(wp, x, total) && lo + n <= total && n <= MAX_CHUNKS
    ensures |a| == 8 && Sum(8, i => At(a, i)) == GroupDot(wp, x, lo, n)
  {
    hide LanesHold, ChunkStep, Sum, GroupDot, AreU8, AreI8;
    a := Zeros(8);
    var h, pend := Zeros(16), 0;
    LanesStart(wp, x, lo);
    for c := lo to lo + n
      invariant |h| == 16 && |a| == 8 && 0 <= pend < RUN && pend <= c - lo
      invariant LanesHold(wp, x, h, a, lo, c - pend, c)
    {
      StepHolds(wp, x, total, h, a, lo, c - pend, c);
      h := ChunkStep(h, wp[16 * c..16 * c + 16], x[32 * c..32 * c + 32]);
      pend := pend + 1;
      if pend == RUN {
        FlushHolds(wp, x, total, h, a, lo, c + 1 - pend, c + 1);
        a, h := Add32(a, MaddOnes(h)), Zeros(16);
        pend := 0;
      }
    }
    if pend != 0 {
      FlushHolds(wp, x, total, h, a, lo, lo + n - pend, lo + n);
      a, h := Add32(a, MaddOnes(h)), Zeros(16);
    }
    LanesEnd(wp, x, h, a, lo, n);
  }

  lemma {:induction false} LanesStart(wp: Vec, x: Vec, lo: nat)
    ensures LanesHold(wp, x, Zeros(16), Zeros(8), lo, lo, lo)
  {
  }

  // ----- The scalar group

  /** The two products of byte `j` of chunk `c`. */
  function ByteTerm(wp: Vec, x: Vec, c: int, j: int): int { Term(wp, x, c, j) + Term(wp, x, c, 16 + j) }

  lemma {:induction false} ChunkByBytes(wp: Vec, x: Vec, c: int)
    ensures Sum(16, j => ByteTerm(wp, x, c, j)) == ChunkDot(wp, x, c)
  {
    hide Sum, Term;
    SumSplit(16, 16, i => Term(wp, x, c, i), j => Term(wp, x, c, 16 + j));
    SumPlus(16, i => Term(wp, x, c, i), j => Term(wp, x, c, 16 + j), j => ByteTerm(wp, x, c, j));
  }

  ghost function BytesTo(wp: Vec, x: Vec, c: int, n: nat): int { Sum(n, j => ByteTerm(wp, x, c, j)) }

  lemma {:induction false} BytesToStep(wp: Vec, x: Vec, c: int, n: nat)
    ensures BytesTo(wp, x, c, 0) == 0 && BytesTo(wp, x, c, n + 1) == BytesTo(wp, x, c, n) + ByteTerm(wp, x, c, n)
  {
    hide ByteTerm;
  }

  method ChunkScalar(wp: Vec, x: Vec, total: nat, c: nat, dot0: int) returns (dot: int)
    requires IsRow(wp, x, total) && c < total && -0x8000_0000 + 61440 <= dot0 < 0x8000_0000 - 61440
    ensures dot == dot0 + ChunkDot(wp, x, c) && dot0 - 61440 <= dot <= dot0 + 61440
  {
    hide Wrap32, BytesTo, Sum, ChunkDot;
    dot := dot0;
    BytesToStep(wp, x, c, 0);
    for j := 0 to 16
      invariant dot == dot0 + BytesTo(wp, x, c, j) && dot0 - 3840 * j <= dot <= dot0 + 3840 * j
    {
      ByteIs(wp, x, total, c, j);
      BytesToStep(wp, x, c, j);
      var high, low := HighPart(wp[16 * c + j], x[32 * c + j]), LowPart(wp[16 * c + j], x[32 * c + 16 + j]);
      hide HighPart, LowPart, Term, IsRow;
      WrapSmall(dot + high);
      WrapSmall(dot + high + low);
      dot := Wrap32(dot + high);
      dot := Wrap32(dot + low);
    }
    WholeChunk(wp, x, c);
  }

  function HighPart(b: int, v: int): int { b / 16 * v }

  function LowPart(b: int, v: int): int { b % 16 * v }

  lemma {:induction false} ByteIs(wp: Vec, x: Vec, total: nat, c: nat, j: nat)
    requires IsRow(wp, x, total) && c < total && j < 16
    ensures HighPart(wp[16 * c + j], x[32 * c + j]) == Term(wp, x, c, j)
    ensures LowPart(wp[16 * c + j], x[32 * c + 16 + j]) == Term(wp, x, c, 16 + j)
    ensures -1920 <= Term(wp, x, c, j) <= 1920 && -1920 <= Term(wp, x, c, 16 + j) <= 1920
  {
    TermBound(wp, x, c, j, 128);
    TermBound(wp, x, c, 16 + j, 128);
  }

  lemma {:induction false} WholeChunk(wp: Vec, x: Vec, c: int)
    ensures BytesTo(wp, x, c, 16) == ChunkDot(wp, x, c)
  {
    ChunkByBytes(wp, x, c);
  }

  method GroupScalar(wp: Vec, x: Vec, total: nat, lo: nat, n: nat) returns (dot: int)
    requires IsRow(wp, x, total) && lo + n <= total && n <= MAX_CHUNKS
    ensures dot == GroupDot(wp, x, lo, n) && -61440 * n <= dot <= 61440 * n
  {
    hide ChunkDot, GroupDot, IsRow;
    dot := 0;
    GroupDotNone(wp, x, lo);
    for i := 0 to n
      invariant dot == GroupDot(wp, x, lo, i) && -61440 * i <= dot <= 61440 * i
    {
      GroupDotStep(wp, x, lo, i);
      dot := ChunkScalar(wp, x, total, lo + i, dot);
    }
  }

  // ----- One row

  /** The weight that column `k` stands for. */
  function Weight(wp: Vec, s: seq<real>, z: Vec, G: nat, k: int): real
    requires G > 0
  {
    RealAt(s, k / G) * (Nib(wp, k) - At(z, k / G)) as real
  }

  /** The activations of a group, added up. */
  ghost function GroupSum(x: Vec, lo: int, n: nat): int { Sum(32 * n, e => X(x, 32 * lo + e)) }

  function SignedTerm(wp: Vec, x: Vec, z: int, k: int): int { (Nib(wp, k) - z) * X(x, k) }

  ghost function GroupSigned(wp: Vec, x: Vec, z: int, lo: int, n: nat): int {
    Sum(32 * n, e => SignedTerm(wp, x, z, 32 * lo + e))
  }

  /** The zero point comes out of the sum. */
  lemma {:induction false} ZeroPointFactors(wp: Vec, x: Vec, z: int, lo: int, n: nat)
    ensures GroupDot(wp, x, lo, n) - z * GroupSum(x, lo, n) == GroupSigned(wp, x, z, lo, n)
  {
    hide Sum, X, Nib;
    var zx := (e: int) => z * X(x, 32 * lo + e);
    SumTimes(32 * n, z, e => X(x, 32 * lo + e), zx);
    forall e | 0 <= e < 32 * n
      ensures ColumnTerm(wp, x, 32 * lo + e) == SignedTerm(wp, x, z, 32 * lo + e) + zx(e)
    {
      Distribute(Nib(wp, 32 * lo + e), z, X(x, 32 * lo + e));
    }
    SumPlus(32 * n, e => SignedTerm(wp, x, z, 32 * lo + e), zx, e => ColumnTerm(wp, x, 32 * lo + e));
  }

  lemma {:induction false} Distribute(a: int, z: int, v: int)
    ensures a * v == (a - z) * v + z * v
  {
  }

  /** The largest magnitude of a code less the zero point. */
  function Reach(z: int): int { Max(z, 15) }

  lemma {:induction false} SignedBound(wp: Vec, x: Vec, z: int, lo: nat, n: nat)
    requires AreU8(wp) && AreI8(x) && z >= 0
    ensures -4096 * Mul(Reach(z), n) <= GroupSigned(wp, x, z, lo, n) <= 4096 * Mul(Reach(z), n)
    ensures -4096 * n <= GroupSum(x, lo, n) <= 4096 * n
  {
    hide Sum, SignedTerm, X, AreU8, AreI8, Reach;
    var b := 128 * Reach(z);
    forall k
      ensures -b <= SignedTerm(wp, x, z, k) <= b && -128 <= X(x, k) <= 128
    {
      SignedTermBound(wp, x, z, k);
    }
    SumBound(32 * n, e => SignedTerm(wp, x, z, 32 * lo + e), -b, b);
    SumBound(32 * n, e => X(x, 32 * lo + e), -128, 128);
    Regroup(n, Reach(z));
  }

  lemma {:induction false} Regroup(n: int, r: int)
    ensures 32 * n * (128 * r) == 4096 * Mul(r, n) && 32 * n * (-(128 * r)) == -4096 * Mul(r, n)
  {
  }

  lemma {:induction false} SignedTermBound(wp: Vec, x: Vec, z: int, k: int)
    requires AreU8(wp) && AreI8(x) && z >= 0
    ensures -128 * Reach(z) <= SignedTerm(wp, x, z, k) <= 128 * Reach(z) && -128 <= X(x, k) <= 128
  {
    hide Slot;
    assert 0 <= Nib(wp, k) <= 15;
    SignedProduct(Nib(wp, k) - z, X(x, k), Reach(z));
  }

  lemma {:induction false} SignedProduct(d: int, v: int, r: int)
    requires -r <= d <= r && -128 <= v <= 128
    ensures -128 * r <= d * v <= 128 * r
  {
    if v >= 0 {
      ScaledBy(d, r, v);
    } else {
      ScaledBy(d, r, -v);
      assert d * (-v) == -(d * v);
    }
  }

  lemma {:induction false} ScaledBy(d: int, r: int, m: nat)
    requires -r <= d <= r && m <= 128
    ensures -128 * r <= d * m <= 128 * r
  {
    MulMonotone(-r, d, m);
    MulMonotone(d, r, m);
    MulMonotone(m, 128, r);
  }

  ghost function GroupValue(wp: Vec, s: seq<real>, z: Vec, cg: nat, x: Vec, g: nat): real {
    RealAt(s, g) * GroupSigned(wp, x, At(z, g), Mul(g, cg), cg) as real
  }

  ghost function RowSum(wp: Vec, s: seq<real>, z: Vec, cg: nat, x: Vec, ng: nat): real {
    if ng == 0 then 0.0 else RowSum(wp, s, z, cg, x, ng - 1) + GroupValue(wp, s, z, cg, x, ng - 1)
  }

  /** A row of `ng` groups of `cg` chunks each; `gs` holds the sums of the activations by group. */
  ghost predicate IsWeightRow(wp: Vec, s: seq<real>, z: Vec, cg: nat, ng: nat) {
    && |wp| == 16 * Mul(ng, cg) && AreU8(wp) && |s| == |z| == ng
    && forall g | 0 <= g < ng :: 0 <= z[g] <= 255 && FitsInt32(z[g], cg)
  }

  /** No sum over a group of `cg` chunks with this zero point leaves 32 bits. */
  predicate FitsInt32(z: int, cg: nat) { Mul(Reach(z), cg) < 0x8_0000 }

  ghost predicate AreGroupSums(x: Vec, cg: nat, ng: nat, gs: Vec) {
    |gs| == ng && forall g | 0 <= g < ng :: gs[g] == GroupSum(x, Mul(g, cg), cg)
  }

  lemma {:induction false} GroupFits(g: nat, ng: nat, cg: nat)
    requires g < ng
    ensures 0 <= Mul(g, cg) && Mul(g, cg) + cg == Mul(g + 1, cg) <= Mul(ng, cg)
  {
    MulMonotone(g + 1, ng, cg);
  }

  function ScaledInt(s: real, v: int): real { s * v as real }

  method RowScalar(wp: Vec, s: seq<real>, z: Vec, cg: nat, ng: nat, x: Vec, gs: Vec) returns (t: real)
    requires IsWeightRow(wp, s, z, cg, ng) && |x| == 32 * Mul(ng, cg) && AreI8(x) && AreGroupSums(x, cg, ng, gs)
             && cg <= MAX_CHUNKS
    ensures t == RowSum(wp, s, z, cg, x, ng)
  {
    hide GroupSum, GroupSigned, Mul, AreU8, AreI8, FitsInt32;
    t := 0.0;
    for g := 0 to ng
      invariant t == RowSum(wp, s, z, cg, x, g)
    {
      GroupFits(g, ng, cg);
      var signed := SignedScalar(wp, x, Mul(ng, cg), Mul(g, cg), cg, z[g], gs[g]);
      t := t + s[g] * signed as real;
    }
  }

  /** One group: its dot product less zero point times activation sum, in 32 bits. */
  method SignedScalar(wp: Vec, x: Vec, total: nat, lo: nat, cg: nat, z: int, gs: int) returns (r: int)
    requires IsRow(wp, x, total) && lo + cg <= total && cg <= MAX_CHUNKS && z >= 0 && FitsInt32(z, cg)
             && gs == GroupSum(x, lo, cg)
    ensures r == GroupSigned(wp, x, z, lo, cg)
  {
    hide GroupDot, GroupSum, GroupSigned, Wrap32, Reach;
    var dot := GroupScalar(wp, x, total, lo, cg);
    SignedBound(wp, x, z, lo, cg);
    ZeroPointFactors(wp, x, z, lo, cg);
    ZeroProduct(z, gs, cg);
    hide IsRow, Mul;
    var zs := z * gs;
    WrapSmall(zs);
    WrapSmall(dot - zs);
    r := Wrap32(dot - Wrap32(zs));
  }

  lemma {:induction false} ZeroProduct(z: int, v: int, cg: nat)
    requires 0 <= z && -4096 * cg <= v <= 4096 * cg && FitsInt32(z, cg)
    ensures IsI32(z * v)
  {
    MulMonotone(-4096 * cg, v, z);
    MulMonotone(v, 4096 * cg, z);
    MulMonotone(z, Reach(z), cg);
    assert z * (4096 * cg) == 4096 * (z * cg);
  }

  // ----- The same row in lanes

  /** Adds the eight lanes in the order of the shuffles. */
  function FloatSum(f: seq<real>): real
    requires |f| == 8
  {
    ((f[0] + f[4]) + (f[2] + f[6])) + ((f[1] + f[5]) + (f[3] + f[7]))
  }

  function Fma(a: Vec, s: real, f: seq<real>): (r: seq<real>)
    requires |a| == |f| == 8
    ensures |r| == 8
  {
    seq(8, i requires 0 <= i < 8 => ScaledInt(s, a[i]) + f[i])
  }

  lemma {:induction false} SumOfEight(a: Vec)
    requires |a| == 8
    ensures Sum(8, i => At(a, i)) == a[0] + a[1] + a[2] + a[3] + a[4] + a[5] + a[6] + a[7]
  {
    var f := (i: int) => At(a, i);
    hide Sum;
    SumNone(f);
    SumStep(0, f);
    SumStep(1, f);
    SumStep(2, f);
    SumStep(3, f);
    SumStep(4, f);
    SumStep(5, f);
    SumStep(6, f);
    SumStep(7, f);
  }

  lemma {:induction false} ScaledPlus(s: real, u: int, v: int)
    ensures ScaledInt(s, u + v) == ScaledInt(s, u) + ScaledInt(s, v)
  {
  }

  lemma {:induction false} FmaSum(a: Vec, s: real, f: seq<real>)
    requires |a| == |f| == 8
    ensures FloatSum(Fma(a, s, f)) == FloatSum(f) + ScaledInt(s, Sum(8, i => At(a, i)))
  {
    hide ScaledInt, Sum;
    SumOfEight(a);
    ScaledPlus(s, a[0], a[1]);
    ScaledPlus(s, a[0] + a[1], a[2]);
    ScaledPlus(s, a[0] + a[1] + a[2], a[3]);
    ScaledPlus(s, a[0] + a[1] + a[2] + a[3], a[4]);
    ScaledPlus(s, a[0] + a[1] + a[2] + a[3] + a[4], a[5]);
    ScaledPlus(s, a[0] + a[1] + a[2] + a[3] + a[4] + a[5], a[6]);
    ScaledPlus(s, a[0] + a[1] + a[2] + a[3] + a[4] + a[5] + a[6], a[7]);
  }

  method RowAvx2(wp: Vec, s: seq<real>, z: Vec, cg: nat, ng: nat, x: Vec, gs: Vec) returns (t: real)
    requires IsWeightRow(wp, s, z, cg, ng) && |x| == 32 * Mul(ng, cg) && AreI8(x) && AreGroupSums(x, cg, ng, gs)
             && cg <= MAX_CHUNKS
    ensures t == RowSum(wp, s, z, cg, x, ng)
  {
    hide GroupDot, GroupSum, GroupSigned, Mul, AreU8, AreI8, FloatSum, Fma, FitsInt32, ScaledInt;
    var f, corr := seq(8, _ => 0.0), 0.0;
    FloatSumNone(f);
    for g := 0 to ng
      invariant |f| == 8 && FloatSum(f) - corr == RowSum(wp, s, z, cg, x, g)
    {
      var lo := Mul(g, cg);
      GroupFits(g, ng, cg);
      var a := GroupAvx2(wp, x, Mul(ng, cg), lo, cg);
      FmaSum(a, s[g], f);
      ZeroPointFactors(wp, x, z[g], lo, cg);
      ZeroScaled(s[g], GroupDot(wp, x, lo, cg), z[g], gs[g]);
      var zs := s[g] * z[g] as real;
      f := Fma(a, s[g], f);
      corr := corr + zs * gs[g] as real;
    }
    t := FloatSum(f) - corr;
  }

  lemma {:induction false} FloatSumNone(f: seq<real>)
    requires |f| == 8 && forall i | 0 <= i < 8 :: f[i] == 0.0
    ensures FloatSum(f) == 0.0
  {
  }

  lemma {:induction false} ZeroScaled(s: real, dot: int, z: int, v: int)
    ensures ScaledInt(s, dot) - s * z as real * v as real == s * (dot - z * v) as real
  {
    assert (z * v) as real == z as real * v as real;
  }

  // ----- Column by column

  function Times(a: real, b: real): real { a * b }

  /** The dot product of weights and activations, in column order. */
  ghost function ColumnSum(wp: Vec, s: seq<real>, z: Vec, G: nat, x: Vec, K: nat): real
    requires G > 0
  {
    RSum(K, k => Times(Weight(wp, s, z, G, k), X(x, k) as real))
  }

  lemma {:induction false} ScaledSum(n: nat, s: real, t: int -> int, h: int -> real)
    requires forall i | 0 <= i < n :: h(i) == ScaledInt(s, t(i))
    ensures RSum(n, h) == ScaledInt(s, Sum(n, t))
  {
    hide ScaledInt;
    if n == 0 {
      ScaledNone(s);
    } else {
      ScaledSum(n - 1, s, t, h);
      ScaledPlus(s, Sum(n - 1, t), t(n - 1));
    }
  }

  lemma {:induction false} ScaledNone(s: real)
    ensures ScaledInt(s, 0) == 0.0
  {
  }

  lemma {:induction false} ColumnIs(wp: Vec, s: seq<real>, z: Vec, G: nat, x: Vec, g: nat, k: int)
    requires G > 0 && k / G == g
    ensures Times(Weight(wp, s, z, G, k), X(x, k) as real) == ScaledInt(RealAt(s, g), SignedTerm(wp, x, At(z, g), k))
  {
    hide X, Nib;
    Reassociate(RealAt(s, g), Nib(wp, k) - At(z, g), X(x, k));
  }

  lemma {:induction false} Reassociate(s: real, d: int, v: int)
    ensures s * d as real * v as real == ScaledInt(s, d * v)
  {
    assert (d * v) as real == d as real * v as real;
  }

  lemma {:induction false} GroupByColumns(wp: Vec, s: seq<real>, z: Vec, cg: nat, x: Vec, g: nat, f: int -> real)
    requires cg > 0 && forall k :: f(k) == Times(Weight(wp, s, z, 32 * cg, k), X(x, k) as real)
    ensures RSum(32 * cg, j => f(g * (32 * cg) + j)) == GroupValue(wp, s, z, cg, x, g)
  {
    hide Sum, RSum, Weight, SignedTerm, X, Mul;
    var G, lo, base := 32 * cg, Mul(g, cg), g * (32 * cg);
    GroupStart(g, cg);
    var t := (e: int) => SignedTerm(wp, x, At(z, g), 32 * lo + e);
    forall j | 0 <= j < G
      ensures f(base + j) == ScaledInt(RealAt(s, g), t(j))
    {
      InGroup(g, cg, j);
      ColumnIs(wp, s, z, G, x, g, base + j);
    }
    hide ScaledInt;
    ScaledSum(G, RealAt(s, g), t, j => f(base + j));
    SumSame(G, t, e => SignedTerm(wp, x, At(z, g), 32 * lo + e));
    RSumSame(G, j => f(base + j), j => f(g * (32 * cg) + j));
    GroupValueIs(wp, s, z, cg, x, g);
  }

  lemma {:induction false} GroupValueIs(wp: Vec, s: seq<real>, z: Vec, cg: nat, x: Vec, g: nat)
    ensures GroupValue(wp, s, z, cg, x, g) == ScaledInt(RealAt(s, g),
                                                        Sum(32 * cg,
                                                            e => SignedTerm(wp, x, At(z, g), 32 * Mul(g, cg) + e)))
  {
  }

  lemma {:induction false} GroupStart(g: nat, cg: nat)
    ensures g * (32 * cg) == 32 * Mul(g, cg)
  {
  }

  lemma {:induction false} InGroup(g: nat, cg: nat, j: nat)
    requires j < 32 * cg
    ensures (g * (32 * cg) + j) / (32 * cg) == g
  {
    DivModOf(g, 32 * cg, j);
  }

  /** Groups, chunks, lanes and zero points aside, a row is the dot product of its weights in column order. */
  lemma {:induction false} RowIsColumnSum(wp: Vec, s: seq<real>, z: Vec, cg: nat, x: Vec, ng: nat)
    requires cg > 0
    ensures RowSum(wp, s, z, cg, x, ng) == ColumnSum(wp, s, z, 32 * cg, x, ng * (32 * cg))
  {
    hide RSum, Weight, X, GroupValue;
    var f := (k: int) => Times(Weight(wp, s, z, 32 * cg, k), X(x, k) as real);
    var gv := (g: int) => if g >= 0 then GroupValue(wp, s, z, cg, x, g) else 0.0;
    forall g: nat | g < ng
      ensures gv(g) == RSum(32 * cg, j => f(g * (32 * cg) + j))
    {
      GroupByColumns(wp, s, z, cg, x, g, f);
    }
    RSumBlocks(ng, 32 * cg, f, gv);
    RowIsGroups(wp, s, z, cg, x, ng, gv);
  }

  lemma {:induction false} RowIsGroups(wp: Vec, s: seq<real>, z: Vec, cg: nat, x: Vec, ng: nat, gv: int -> real)
    requires forall g: nat :: gv(g) == GroupValue(wp, s, z, cg, x, g)
    ensures RowSum(wp, s, z, cg, x, ng) == RSum(ng, gv)
  {
    hide GroupValue;
    if ng > 0 {
      RowIsGroups(wp, s, z, cg, x, ng - 1, gv);
    }
  }

  // ----- Sums by group from sums by run

  ghost function ChunkSum(x: Vec, c: int): int { Sum(32, e => X(x, 32 * c + e)) }

  lemma {:induction false} GroupSumStep(x: Vec, lo: int, n: nat)
    ensures GroupSum(x, lo, 0) == 0 && GroupSum(x, lo, n + 1) == GroupSum(x, lo, n) + ChunkSum(x, lo + n)
  {
    hide Sum, X;
    SumNone(e => X(x, 32 * lo + e));
    var g := (e: int) => X(x, 32 * (lo + n) + e);
    SumSplit(32 * n, 32, e => X(x, 32 * lo + e), g);
    SumSame(32, g, e => X(x, 32 * (lo + n) + e));
  }

  ghost predicate AreRunSums(x: Vec, xs: Vec) { forall c | 0 <= c < |xs| :: xs[c] == ChunkSum(x, c) }

  method GroupSums(xs: Vec, cg: nat, ng: nat, ghost x: Vec) returns (gs: Vec)
    requires AreI8(x) && |xs| == Mul(ng, cg) && AreRunSums(x, xs) && cg <= MAX_CHUNKS
    ensures AreGroupSums(x, cg, ng, gs)
  {
    hide GroupSum, ChunkSum, Mul, AreI8;
    gs := [];
    for g := 0 to ng
      invariant |gs| == g && forall i | 0 <= i < g :: gs[i] == GroupSum(x, Mul(i, cg), cg)
    {
      var t, lo := 0, Mul(g, cg);
      GroupFits(g, ng, cg);
      GroupSumStep(x, lo, 0);
      for c := 0 to cg
        invariant t == GroupSum(x, lo, c)
      {
        GroupSumStep(x, lo, c);
        SumFits(x, lo, c + 1);
        t := Wrap32(t + xs[lo + c]);
      }
      gs := gs + [t];
    }
  }

  lemma {:induction false} SumFits(x: Vec, lo: nat, n: nat)
    requires AreI8(x) && n <= MAX_CHUNKS
    ensures Wrap32(GroupSum(x, lo, n)) == GroupSum(x, lo, n)
  {
    hide GroupSum, AreI8;
    SignedBound([], x, 0, lo, n);
    WrapSmall(GroupSum(x, lo, n));
  }

  // ----- The driver

  datatype Isa = Scalar | Avx2

  const NB := 16  // weight rows a thread takes at a time

  /** One weight row against up to four activation rows. */
  method Rows(isa: Isa, wp: Vec, s: seq<real>, z: Vec, cg: nat, ng: nat, xr: seq<Vec>, gs: seq<Vec>)
    returns (t: seq<real>)
    requires IsWeightRow(wp, s, z, cg, ng) && cg <= MAX_CHUNKS && |gs| == |xr|
    requires forall r | 0 <= r < |xr| ::
               |xr[r]| == 32 * Mul(ng, cg) && AreI8(xr[r]) && AreGroupSums(xr[r], cg, ng, gs[r])
    ensures |t| == |xr| && forall r | 0 <= r < |xr| :: t[r] == RowSum(wp, s, z, cg, xr[r], ng)
  {
    hide IsWeightRow, AreI8, AreGroupSums, RowSum, Mul;
    t := [];
    for r := 0 to |xr|
      invariant |t| == r && forall i | 0 <= i < r :: t[i] == RowSum(wp, s, z, cg, xr[i], ng)
    {
      var v;
      if isa == Avx2 {
        v := RowAvx2(wp, s, z, cg, ng, xr[r], gs[r]);
      } else {
        v := RowScalar(wp, s, z, cg, ng, xr[r], gs[r]);
      }
      t := t + [v];
    }
  }

  datatype Acts = Acts(q: seq<Vec>, sx: seq<real>, xsum: seq<Vec>)

  datatype Weights = Weights(packed: seq<Vec>, scales: seq<seq<real>>, zeros: seq<Vec>, bias: Option<seq<real>>)

  /** What the callers provide for `ng` groups of `cg` chunks. */
  ghost predicate AreInputs(a: Acts, w: Weights, cg: nat, ng: nat) {
    && AreWeights(w, cg, ng) && |a.q| == |a.sx| == |a.xsum|
    && forall m | 0 <= m < |a.q| ::
         |a.q[m]| == 32 * Mul(ng, cg) && AreI8(a.q[m]) && |a.xsum[m]| == Mul(ng, cg) && AreRunSums(a.q[m], a.xsum[m])
  }

  ghost predicate AreWeights(w: Weights, cg: nat, ng: nat) {
    && cg <= MAX_CHUNKS && |w.packed| == |w.scales| == |w.zeros|
    && forall n | 0 <= n < |w.packed| :: IsWeightRow(w.packed[n], w.scales[n], w.zeros[n], cg, ng)
  }

  /** Output `(m, n)`. */
  ghost function Cell(a: Acts, w: Weights, cg: nat, ng: nat, m: nat, n: nat): real
    requires m < |a.q| == |a.sx| && n < |w.packed| == |w.scales| == |w.zeros|
  {
    RowSum(w.packed[n], w.scales[n], w.zeros[n], cg, a.q[m], ng) * a.sx[m] + BiasAt(w.bias, n)
  }

  /** Four activation rows (or the last few) against the weight rows of one block. */
  method FourRows(isa: Isa, a: Acts, w: Weights, cg: nat, ng: nat, m0: nat, n0: nat, n1: nat, out: array2<real>)
    requires AreInputs(a, w, cg, ng) && m0 < |a.q| == out.Length0 && n0 <= n1 <= |w.packed| == out.Length1
    modifies out
    ensures forall m, n | 0 <= m < out.Length0 && 0 <= n < out.Length1 ::
              out[m, n] == if m0 <= m < m0 + 4 && n0 <= n < n1 then Cell(a, w, cg, ng, m, n) else old(out[m, n])
  {
    hide RowSum, Mul, AreI8, AreRunSums, IsWeightRow, AreGroupSums, BiasAt;
    var nr := Min(|a.q| - m0, 4);
    var xr, gs: seq<Vec> := a.q[m0..m0 + nr], [];
    assert forall r | 0 <= r < nr :: xr[r] == a.q[m0 + r];
    for r := 0 to nr
      invariant |gs| == r && forall i | 0 <= i < r :: AreGroupSums(xr[i], cg, ng, gs[i])
      modifies {}
    {
      var g := GroupSums(a.xsum[m0 + r], cg, ng, a.q[m0 + r]);
      gs := gs + [g];
    }
    for n := n0 to n1
      invariant forall m, i | 0 <= m < out.Length0 && 0 <= i < out.Length1 ::
                  out[m, i] == if m0 <= m < m0 + 4 && n0 <= i < n then Cell(a, w, cg, ng, m, i) else old(out[m, i])
    {
      var t := Rows(isa, w.packed[n], w.scales[n], w.zeros[n], cg, ng, xr, gs);
      WriteColumn(a, w, cg, ng, m0, nr, n, t, out);
    }
  }

  method WriteColumn(a: Acts, w: Weights, ghost cg: nat, ghost ng: nat, m0: nat, nr: nat, n: nat, t: seq<real>,
                     out: array2<real>)
    requires |a.q| == |a.sx| == out.Length0 && n < |w.packed| == |w.scales| == |w.zeros| == out.Length1
    requires m0 + nr <= |a.q| && |t| == nr
    requires forall r | 0 <= r < nr :: t[r] == RowSum(w.packed[n], w.scales[n], w.zeros[n], cg, a.q[m0 + r], ng)
    modifies out
    ensures forall m, i | 0 <= m < out.Length0 && 0 <= i < out.Length1 ::
              out[m, i] == if m0 <= m < m0 + nr && i == n then Cell(a, w, cg, ng, m, n) else old(out[m, i])
  {
    hide RowSum, BiasAt;
    var b := BiasAt(w.bias, n);
    for r := 0 to nr
      invariant forall m, i | 0 <= m < out.Length0 && 0 <= i < out.Length1 ::
                  out[m, i] == if m0 <= m < m0 + r && i == n then Cell(a, w, cg, ng, m, n) else old(out[m, i])
    {
      assert t[r] == RowSum(w.packed[n], w.scales[n], w.zeros[n], cg, a.q[m0 + r], ng);
      out[m0 + r, n] := t[r] * a.sx[m0 + r] + b;
    }
  }

  /** The weight rows of block `nb`: its columns of the output and no others. */
  method Block(isa: Isa, a: Acts, w: Weights, cg: nat, ng: nat, nb: nat, out: array2<real>)
    requires AreInputs(a, w, cg, ng) && |a.q| == out.Length0 && |w.packed| == out.Length1 && NB * nb < |w.packed|
    modifies out
    ensures forall m, n | 0 <= m < out.Length0 && 0 <= n < out.Length1 ::
              out[m, n] == if n / NB == nb then Cell(a, w, cg, ng, m, n) else old(out[m, n])
  {
    hide Cell, AreInputs;
    var n0, n1 := NB * nb, Min(NB * nb + NB, |w.packed|);
    var m0 := 0;
    InputCounts(a, w, cg, ng);
    while m0 < |a.q|
      invariant 0 <= m0
      invariant forall m, n | 0 <= m < out.Length0 && 0 <= n < out.Length1 ::
                  out[m, n] == if m < m0 && n0 <= n < n1 then Cell(a, w, cg, ng, m, n) else old(out[m, n])
    {
      FourRows(isa, a, w, cg, ng, m0, n0, n1, out);
      m0 := m0 + 4;
    }
    assert forall n | 0 <= n < out.Length1 :: n0 <= n < n1 <==> n / NB == nb;
  }

  lemma {:induction false} InputCounts(a: Acts, w: Weights, cg: nat, ng: nat)
    requires AreInputs(a, w, cg, ng)
    ensures |a.q| == |a.sx| == |a.xsum| && |w.packed| == |w.scales| == |w.zeros|
  {
  }

  predicate Supported(G: int, K: nat) { G > 0 && G % 32 == 0 && K % G == 0 && K / G <= MAX_GROUPS }

  lemma {:induction false} Dims(G: nat, K: nat)
    requires G > 0 && G % 32 == 0 && K % G == 0
    ensures G / 32 > 0 && 32 * (G / 32) == G && K / G * G == K && 32 * Mul(K / G, G / 32) == K
  {
    GroupStart(K / G, G / 32);
  }

  /** Whatever order the blocks are taken in, every output is the dot product in column order, scaled, plus the bias. */
  method Gemm(isa: Isa, a: Acts, w: Weights, G: int, K: nat, order: seq<nat>, out: array2<real>) returns (st: Status)
    requires Supported(G, K) ==> AreInputs(a, w, G / 32, K / G)
    requires |a.q| == |a.sx| == out.Length0 && |w.packed| == |w.scales| == |w.zeros| == out.Length1
    requires (forall i | 0 <= i < |order| :: NB * order[i] < out.Length1)
             && forall nb: nat | NB * nb < out.Length1 :: nb in order
    modifies out
    ensures st == InvalidArg <==> |a.q| == 0 || |w.packed| == 0 || K == 0
    ensures st == Ok <==> st != InvalidArg && G > 0 && G % 32 == 0 && K % G == 0 && K / G <= 1024
    ensures st != Ok ==> unchanged(out)
    ensures st == Ok ==> forall m, n | 0 <= m < out.Length0 && 0 <= n < out.Length1 ::
              var v := ColumnSum(w.packed[n], w.scales[n], w.zeros[n], G, a.q[m], K) * a.sx[m];
              && (w.bias.None? ==> out[m, n] == v)
              && (w.bias.Some? && n < |w.bias.value| ==> out[m, n] == v + w.bias.value[n])
  {
    if |a.q| == 0 || |w.packed| == 0 || K == 0 {
      return InvalidArg;
    }
    if G <= 0 || G % 32 != 0 || K % G != 0 {
      return Unsupported;
    }
    if K / G > MAX_GROUPS {
      return Unsupported;
    }
    AllBlocks(isa, a, w, G / 32, K / G, order, out);
    forall m: nat, n: nat | m < out.Length0 && n < out.Length1
      ensures var v := ColumnSum(w.packed[n], w.scales[n], w.zeros[n], G, a.q[m], K) * a.sx[m];
              && (w.bias.None? ==> out[m, n] == v)
              && (w.bias.Some? && n < |w.bias.value| ==> out[m, n] == v + w.bias.value[n])
    {
      CellIs(a, w, G, K, G / 32, K / G, m, n);
    }
    st := Ok;
  }

  lemma {:induction false} CellIs(a: Acts, w: Weights, G: nat, K: nat, cg: nat, ng: nat, m: nat, n: nat)
    requires G > 0 && G % 32 == 0 && K % G == 0 && m < |a.q| == |a.sx| && n < |w.packed| == |w.scales| == |w.zeros|
    requires cg == G / 32 && ng == K / G
    ensures var v := ColumnSum(w.packed[n], w.scales[n], w.zeros[n], G, a.q[m], K) * a.sx[m];
            && (w.bias.None? ==> Cell(a, w, cg, ng, m, n) == v)
            && (w.bias.Some? && n < |w.bias.value| ==> Cell(a, w, cg, ng, m, n) == v + w.bias.value[n])
  {
    hide RowSum, ColumnSum, BiasAt;
    Dims(G, K);
    RowIsColumnSum(w.packed[n], w.scales[n], w.zeros[n], cg, a.q[m], ng);
  }

  method AllBlocks(isa: Isa, a: Acts, w: Weights, cg: nat, ng: nat, order: seq<nat>, out: array2<real>)
    requires AreInputs(a, w, cg, ng) && |a.q| == out.Length0 && |w.packed| == out.Length1
    requires (forall i | 0 <= i < |order| :: NB * order[i] < out.Length1)
             && forall nb: nat | NB * nb < out.Length1 :: nb in order
    modifies out
    ensures |a.q| == |a.sx| && |w.packed| == |w.scales| == |w.zeros|
    ensures forall m, n | 0 <= m < out.Length0 && 0 <= n < out.Length1 :: out[m, n] == Cell(a, w, cg, ng, m, n)
  {
    InputCounts(a, w, cg, ng);
    hide Cell, AreInputs;
    for i := 0 to |order|
      invariant forall m, n | 0 <= m < out.Length0 && 0 <= n < out.Length1 && n / NB in order[..i] ::
                  out[m, n] == Cell(a, w, cg, ng, m, n)
    {
      Block(isa, a, w, cg, ng, order[i], out);
      assert order[..i + 1] == order[..i] + [order[i]];
    }
    assert order[..|order|] == order;
  }

  // ----- Against the activations before quantization

  /** The product that the layer approximates. */
  ghost function RealSum(wp: Vec, s: seq<real>, z: Vec, G: nat, x: seq<real>, K: nat): real
    requires G > 0
  {
    RSum(K, k => Times(Weight(wp, s, z, G, k), RealAt(x, k)))
  }

  ghost function WeightMass(wp: Vec, s: seq<real>, z: Vec, G: nat, K: nat): real
    requires G > 0
  {
    RSum(K, k => Abs(Weight(wp, s, z, G, k)))
  }

  /** The weight of column `k`: its code, the high half of a byte for an even column, in the terms of its group `g`. */
  lemma {:induction false} WeightIs(wp: Vec, s: seq<real>, z: Vec, G: nat, k: nat, g: nat, c: int, w: real)
    requires G > 0 && g * G <= k < (g + 1) * G && k / 2 < |wp| && g < |s| == |z|
    requires c == if k % 2 == 0 then wp[k / 2] / 16 else wp[k / 2] % 16
    requires w == s[g] * (c - z[g]) as real
    ensures Weight(wp, s, z, G, k) == w
  {
    DivAtLeast(k, G, g);
    DivAtMost(k, G, g);
  }

  /** The activation of column `k`: in its run of 32 the even columns come first and then the odd ones. */
  lemma {:induction false} ActivationIs(q: Vec, k: nat, p: nat)
    requires k % 32 == 2 * (p % 32) || k % 32 == 2 * (p % 32 - 16) + 1
    requires p / 32 == k / 32 && p < |q|
    ensures X(q, k) == q[p]
  {
  }

  lemma {:induction false} AbsIs(w: real)
    ensures Abs(w) == if w >= 0.0 then w else -w
  {
  }

  /** Term by term, with weight `w`: stored activations, activations as they were, and magnitudes. */
  lemma {:induction false} ColumnStep(wp: Vec, s: seq<real>, z: Vec, G: nat, q: Vec, x: seq<real>, k: nat, w: real)
    requires G > 0 && w == Weight(wp, s, z, G, k) && k < |x|
    ensures ColumnSum(wp, s, z, G, q, 0) == RealSum(wp, s, z, G, x, 0) == WeightMass(wp, s, z, G, 0) == 0.0
    ensures ColumnSum(wp, s, z, G, q, k + 1) == ColumnSum(wp, s, z, G, q, k) + w * X(q, k) as real
    ensures RealSum(wp, s, z, G, x, k + 1) == RealSum(wp, s, z, G, x, k) + w * x[k]
    ensures WeightMass(wp, s, z, G, k + 1) == WeightMass(wp, s, z, G, k) + if w >= 0.0 then w else -w
  {
    hide Weight, X, RSum, Abs, Times, RealAt;
    var f, r := (j: int) => Times(Weight(wp, s, z, G, j), X(q, j) as real),
      (j: int) => Times(Weight(wp, s, z, G, j), RealAt(x, j));
    var a := (j: int) => Abs(Weight(wp, s, z, G, j));
    RSumNone(f);
    RSumNone(r);
    RSumNone(a);
    RSumStep(k, f);
    RSumStep(k, r);
    RSumStep(k, a);
    RealAtIs(x, k);
    TimesIs(w, X(q, k) as real);
    TimesIs(w, x[k]);
    AbsIs(w);
  }

  lemma {:induction false} ErrorAdds(K: nat, p: int -> real, x: int -> real, b: int -> real)
    requires forall k | 0 <= k < K :: Abs(p(k) - x(k)) <= b(k)
    ensures Abs(RSum(K, p) - RSum(K, x)) <= RSum(K, b)
  {
    if K > 0 {
      ErrorAdds(K - 1, p, x, b);
    }
  }

  lemma {:induction false} OneError(w: real, q: real, x: real, sx: real)
    requires Abs(x - sx * q) <= sx / 2.0
    ensures Abs(Times(sx, Times(w, q)) - Times(w, x)) <= Times(sx / 2.0, Abs(w))
  {
    var e := x - sx * q;
    assert sx * (w * q) - w * x == -(w * e);
    if w >= 0.0 {
      NotNegative(w, sx / 2.0 - e);
      NotNegative(w, sx / 2.0 + e);
    } else {
      NotNegative(-w, sx / 2.0 - e);
      NotNegative(-w, sx / 2.0 + e);
    }
  }

  lemma {:induction false} SumScaled(n: nat, c: real, f: int -> real)
    ensures RSum(n, i => Times(c, f(i))) == Times(c, RSum(n, f))
  {
    hide RSum;
    RSumTimes(n, c, f, i => Times(c, f(i)));
  }

  lemma {:induction false} QuantizedColumn(x: seq<real>, q: Vec, sx: real, xs: Vec, k: nat)
    requires IsQuantized(x, Nibble, q, sx, Some(xs)) && k < |x|
    ensures X(q, k) == QuantOf(x[k], 127.0 * sx) && Abs(x[k] - sx * X(q, k) as real) <= sx / 2.0
  {
    hide Slot, QuantOf;
    assert Abs(x[k]) <= 127.0 * sx && X(q, k) == QuantOf(x[k], 127.0 * sx);
    hide IsQuantized, X;
    CloseInSteps(x[k], sx);
  }

  lemma {:induction false} CloseInSteps(v: real, sx: real)
    requires Abs(v) <= 127.0 * sx
    ensures Abs(v - sx * QuantOf(v, 127.0 * sx) as real) <= sx / 2.0
  {
    hide QuantOf;
    QuantClose(v, 127.0 * sx);
    assert 127.0 * sx / 127.0 == sx;
  }

  /** Each product is off by at most half a step times the magnitude of the weights. */
  lemma {:induction false} RowError(wp: Vec, s: seq<real>, z: Vec, G: nat, x: seq<real>, q: Vec, sx: real, xs: Vec)
    requires G > 0 && IsQuantized(x, Nibble, q, sx, Some(xs))
    ensures Abs(ColumnSum(wp, s, z, G, q, |x|) * sx - RealSum(wp, s, z, G, x, |x|))
              <= sx / 2.0 * WeightMass(wp, s, z, G, |x|)
  {
    hide RSum, Weight, X, Slot, QuantOf, IsQuantized, RealAt, Times;
    var w, qv, xv := (k: int) => Weight(wp, s, z, G, k), (k: int) => X(q, k) as real, (k: int) => RealAt(x, k);
    forall k | 0 <= k < |x|
      ensures Within(qv, xv, sx, k)
    {
      QuantizedColumn(x, q, sx, xs, k);
      RealAtIs(x, k);
    }
    LinearError(|x|, w, qv, xv, sx);
    RSumSame(|x|, k => Times(w(k), qv(k)), k => Times(Weight(wp, s, z, G, k), X(q, k) as real));
    RSumSame(|x|, k => Times(w(k), xv(k)), k => Times(Weight(wp, s, z, G, k), RealAt(x, k)));
    RSumSame(|x|, k => Abs(w(k)), k => Abs(Weight(wp, s, z, G, k)));
    TimesIs(sx, ColumnSum(wp, s, z, G, q, |x|));
    TimesIs(sx / 2.0, WeightMass(wp, s, z, G, |x|));
  }

  lemma {:induction false} TimesIs(a: real, b: real)
    ensures Times(a, b) == a * b
  {
  }

  lemma {:induction false} RealAtIs(x: seq<real>, k: nat)
    requires k < |x|
    ensures RealAt(x, k) == x[k]
  {
  }

  ghost predicate Within(q: int -> real, x: int -> real, sx: real, k: int) { Abs(x(k) - sx * q(k)) <= sx / 2.0 }

  lemma {:induction false} LinearError(K: nat, w: int -> real, q: int -> real, x: int -> real, sx: real)
    requires forall k | 0 <= k < K :: Within(q, x, sx, k)
    ensures Abs(Times(sx, RSum(K, k => Times(w(k), q(k)))) - RSum(K, k => Times(w(k), x(k))))
              <= Times(sx / 2.0, RSum(K, k => Abs(w(k))))
  {
    hide RSum, Times;
    var qs, xs, ws := (k: int) => Times(w(k), q(k)), (k: int) => Times(w(k), x(k)), (k: int) => Abs(w(k));
    var p, b := (k: int) => Times(sx, qs(k)), (k: int) => Times(sx / 2.0, ws(k));
    forall k | 0 <= k < K
      ensures Abs(p(k) - xs(k)) <= b(k)
    {
      assert Within(q, x, sx, k);
      OneError(w(k), q(k), x(k), sx);
    }
    ErrorAdds(K, p, xs, b);
    SumScaled(K, sx, qs);
    SumScaled(K, sx / 2.0, ws);
    RSumSame(K, p, k => Times(sx, qs(k)));
    RSumSame(K, b, k => Times(sx / 2.0, ws(k)));
    RSumSame(K, qs, k => Times(w(k), q(k)));
    RSumSame(K, xs, k => Times(w(k), x(k)));
    RSumSame(K, ws, k => Abs(w(k)));
  }

  /** The sums the quantizer leaves are the ones the product needs. */
  lemma {:induction false} QuantizedRuns(x: seq<real>, q: Vec, sx: real, xs: Vec)
    requires IsQuantized(x, Nibble, q, sx, Some(xs))
    ensures AreI8(q) && AreRunSums(q, xs)
  {
    CodesAreSmall(x, Nibble, q, sx, Some(xs));
    hide Sum, X, Slot, QuantOf, Abs;
    forall c | 0 <= c < |xs|
      ensures xs[c] == ChunkSum(q, c)
    {
      OneRun(x, q, sx, xs, c);
    }
  }

  lemma {:induction false} OneRun(x: seq<real>, q: Vec, sx: real, xs: Vec, c: nat)
    requires IsQuantized(x, Nibble, q, sx, Some(xs)) && c < |xs|
    ensures xs[c] == ChunkSum(q, c)
  {
    hide Sum, X, Slot, QuantOf, Abs;
    var amax := 127.0 * sx;
    assert 32 * c + 32 <= |x| && xs[c] == RunSum(x, amax, c);
    hide IsQuantized;
    forall k | 32 * c <= k < 32 * c + 32
      ensures QuantOf(RealAt(x, k), amax) == X(q, k)
    {
      QuantizedColumn(x, q, sx, xs, k);
    }
    SumSame(32, j => QuantOf(RealAt(x, 32 * c + j), amax), e => X(q, 32 * c + e));
  }

  /** A layer as the decoder runs it, quantizer and product; a step is the largest magnitude of the row over 127. */
  method Linear(isa: Isa, x: seq<seq<real>>, w: Weights, G: int, K: nat, order: seq<nat>, out: array2<real>)
    returns (st: Status, sx: seq<real>)
    requires forall m | 0 <= m < |x| :: |x[m]| == K
    requires Supported(G, K) ==> AreWeights(w, G / 32, K / G)
    requires |x| == out.Length0 && |w.packed| == |w.scales| == |w.zeros| == out.Length1
    requires (forall i | 0 <= i < |order| :: NB * order[i] < out.Length1)
             && forall nb: nat | NB * nb < out.Length1 :: nb in order
    modifies out
    ensures st == Ok <==> |x| > 0 && |w.packed| > 0 && K > 0 && G > 0 && G % 32 == 0 && K % G == 0 && K / G <= 1024
    ensures st != Ok ==> unchanged(out)
    ensures st == Ok ==> |sx| == |x| && forall m | 0 <= m < |x| ::
              && sx[m] >= 0.0 && (forall k | 0 <= k < K :: -127.0 * sx[m] <= x[m][k] <= 127.0 * sx[m])
              && (sx[m] == 0.0 || exists k :: 0 <= k < K && (x[m][k] == 127.0 * sx[m] || x[m][k] == -127.0 * sx[m]))
    ensures st == Ok ==> forall m, n | 0 <= m < out.Length0 && 0 <= n < out.Length1 ::
              var wp, s, z := w.packed[n], w.scales[n], w.zeros[n];
              var p, b := RealSum(wp, s, z, G, x[m], K), sx[m] / 2.0 * WeightMass(wp, s, z, G, K);
              && (w.bias.None? ==> -b <= out[m, n] - p <= b)
              && (w.bias.Some? && n < |w.bias.value| ==> -b <= out[m, n] - w.bias.value[n] - p <= b)
  {
    hide IsQuantized, AreWeights, BiasAt, ColumnSum, RealSum, WeightMass, AreInputs, IsAbsMax;
    var a;
    st, a := QuantizeRows(x, K);
    sx := a.sx;
    NotWholeRuns(G, K);
    if st != Ok {
      return;
    }
    QuantizedInputs(x, a, w, G, K);
    st := Gemm(isa, a, w, G, K, order, out);
    if st == Ok {
      forall m: nat, n: nat | m < out.Length0 && n < out.Length1
        ensures var wp, s, z := w.packed[n], w.scales[n], w.zeros[n];
              var p, b := RealSum(wp, s, z, G, x[m], K), sx[m] / 2.0 * WeightMass(wp, s, z, G, K);
              && (w.bias.None? ==> -b <= out[m, n] - p <= b)
              && (w.bias.Some? && n < |w.bias.value| ==> -b <= out[m, n] - w.bias.value[n] - p <= b)
      {
        OutputError(x, a, w, G, K, m, n, out[m, n]);
      }
      forall m | 0 <= m < |x|
        ensures && sx[m] >= 0.0 && (forall k | 0 <= k < K :: -127.0 * sx[m] <= x[m][k] <= 127.0 * sx[m])
                && (sx[m] == 0.0
                    || exists k :: 0 <= k < K && (x[m][k] == 127.0 * sx[m] || x[m][k] == -127.0 * sx[m]))
      {
        QuantizedCounts(x[m], a.q[m], a.sx[m], a.xsum[m]);
        StepIs(x[m], sx[m]);
      }
    }
  }

  method QuantizeRows(x: seq<seq<real>>, K: nat) returns (st: Status, a: Acts)
    requires forall m | 0 <= m < |x| :: |x[m]| == K
    ensures st == Ok <==> |x| > 0 && K > 0 && K % 32 == 0
    ensures st == Ok ==> AreQuantized(x, a, K)
  {
    hide IsQuantized, RowOf;
    var xq, xsum, sx := new int[|x|, K], new int[|x|, K / 32], new real[|x|];
    st := QuantAct(x, K, Nibble, xq, sx, xsum);
    a := Acts(RowList(xq), sx[..], RowList(xsum));
  }

  lemma {:induction false} NotWholeRuns(G: int, K: nat)
    ensures K % 32 != 0 ==> !Supported(G, K)
  {
    if Supported(G, K) {
      Dims(G, K);
    }
  }

  function RowList(a: array2<int>): (r: seq<Vec>)
    reads a
    ensures |r| == a.Length0 && forall m | 0 <= m < |r| :: r[m] == RowOf(a, m)
  {
    seq(a.Length0, m requires 0 <= m < a.Length0 reads a => RowOf(a, m))
  }

  /** `a` is `x`, quantized row by row. */
  ghost predicate AreQuantized(x: seq<seq<real>>, a: Acts, K: nat) {
    && |a.q| == |a.sx| == |a.xsum| == |x|
    && forall m | 0 <= m < |x| :: |x[m]| == K && IsQuantized(x[m], Nibble, a.q[m], a.sx[m], Some(a.xsum[m]))
  }

  lemma {:induction false} QuantizedInputs(x: seq<seq<real>>, a: Acts, w: Weights, G: int, K: nat)
    requires AreQuantized(x, a, K) && (Supported(G, K) ==> AreWeights(w, G / 32, K / G))
    ensures Supported(G, K) ==> AreInputs(a, w, G / 32, K / G)
  {
    hide IsQuantized, AreWeights, AreI8, AreRunSums, Mul;
    if Supported(G, K) {
      Dims(G, K);
      forall m | 0 <= m < |a.q|
        ensures |a.q[m]| == K && AreI8(a.q[m]) && |a.xsum[m]| == K / 32 && AreRunSums(a.q[m], a.xsum[m])
      {
        QuantizedRuns(x[m], a.q[m], a.sx[m], a.xsum[m]);
        QuantizedCounts(x[m], a.q[m], a.sx[m], a.xsum[m]);
      }
    }
  }

  lemma {:induction false} QuantizedCounts(x: seq<real>, q: Vec, sx: real, xs: Vec)
    requires IsQuantized(x, Nibble, q, sx, Some(xs))
    ensures |q| == |x| && |xs| == |x| / 32 && IsAbsMax(x, 127.0 * sx)
  {
  }

  lemma {:induction false} StepIs(x: seq<real>, sx: real)
    requires IsAbsMax(x, 127.0 * sx)
    ensures sx >= 0.0 && forall k | 0 <= k < |x| :: -127.0 * sx <= x[k] <= 127.0 * sx
    ensures sx == 0.0 || exists k :: 0 <= k < |x| && (x[k] == 127.0 * sx || x[k] == -127.0 * sx)
  {
  }

  lemma {:induction false} OutputError(x: seq<seq<real>>, a: Acts, w: Weights, G: nat, K: nat, m: nat, n: nat,
                                       out: real)
    requires AreQuantized(x, a, K) && G > 0 && m < |x| && n < |w.packed| == |w.scales| == |w.zeros|
    requires var v := ColumnSum(w.packed[n], w.scales[n], w.zeros[n], G, a.q[m], K) * a.sx[m];
             && (w.bias.None? ==> out == v)
             && (w.bias.Some? && n < |w.bias.value| ==> out == v + w.bias.value[n])
    ensures var wp, s, z := w.packed[n], w.scales[n], w.zeros[n];
            var p, b := RealSum(wp, s, z, G, x[m], K), a.sx[m] / 2.0 * WeightMass(wp, s, z, G, K);
            && (w.bias.None? ==> -b <= out - p <= b)
            && (w.bias.Some? && n < |w.bias.value| ==> -b <= out - w.bias.value[n] - p <= b)
  {
    hide IsQuantized, ColumnSum, RealSum, WeightMass, IsAbsMax;
    RowError(w.packed[n], w.scales[n], w.zeros[n], G, x[m], a.q[m], a.sx[m], a.xsum[m]);
  }
}
