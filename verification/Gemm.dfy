/**
 The cache-blocked, packed matrix product behind the quantized linear layers (src/cpu/cpu_kernels.c), for group-wise
 4-bit weights: C = bias + A * W^T over the reals. `A` is a list of rows and `C` a two-dimensional array; the packed
 panels lie in one flat buffer, as in the source.
 */
module Gemm {
  import opened Common
  import opened Arith
  import opened Sums

  /** Packed 4-bit weights: two codes a byte, even columns in the high half; one scale and one minimum a group. */
  datatype Source = Source(w: seq<nat>, scales: seq<real>, mins: seq<real>, group: nat, K: nat)
  {
    predicate Valid(N: nat) {
      && group > 0 && group % 8 == 0 && K % group == 0
      && |w| == Mul(N, K / 2) && |scales| == |mins| == Mul(N, Groups())
    }

    function Groups(): int { if group > 0 then K / group else 0 }

    /** The byte and the group of weight `k` of row `n`. */
    function ByteOf(n: int, k: int): int { Mul(n, K / 2) + k / 2 }

    function GroupOf(n: int, k: int): int
      requires group > 0
    {
      Mul(n, Groups()) + k / group
    }

    function Code(b: int, k: int): int {
      if !(0 <= b < |w|) then 0 else if k % 2 == 0 then w[b] / 16 % 16 else w[b] % 16
    }

    function Decode(code: int, g: int): real {
      if 0 <= g < |scales| && g < |mins| then code as real * scales[g] + mins[g] else 0.0
    }

    /** The value of weight `k` of row `n`. */
    function At(n: int, k: int): real
      requires group > 0
    {
      Decode(Code(ByteOf(n, k), k), GroupOf(n, k))
    }
  }

  /** The first `k` terms of row `x` times weight row `n`. */
  ghost function Dot(x: seq<real>, s: Source, n: nat, k: nat): real
    requires s.group > 0 && k <= |x|
  {
    if k == 0 then 0.0 else Dot(x, s, n, k - 1) + x[k - 1] * s.At(n, k - 1)
  }

  /** The value of weight `k` of row `n`, from the stored bytes. */
  lemma {:induction false} WeightAt(s: Source, N: nat, n: nat, k: nat, b: int, g: int)
    requires s.Valid(N) && n < N && k < s.K && b == Mul(n, s.K / 2) + k / 2
             && g == Mul(n, Div(s.K, s.group)) + Div(k, s.group)
    ensures 0 <= b < |s.w| && 0 <= g < |s.scales| == |s.mins|
    ensures s.At(n, k) == (if k % 2 == 0 then s.w[b] / 16 % 16 else s.w[b] % 16) as real * s.scales[g] + s.mins[g]
  {
    hide Mul, Source.Valid;
    WeightPlaces(s, N, n, k, b, g);
  }

  lemma {:induction false} WeightPlaces(s: Source, N: nat, n: nat, k: nat, b: int, g: int)
    requires s.Valid(N) && n < N && k < s.K && b == Mul(n, s.K / 2) + k / 2
             && g == Mul(n, Div(s.K, s.group)) + Div(k, s.group)
    ensures s.group > 0 && 0 <= b < |s.w| && 0 <= g < |s.scales| == |s.mins|
  {
    EvenDivisible(s.K, s.group);
    GroupsHold(s.K, s.group, k);
    hide Mul;
    PlaceInside(s.K / 2, N, n, k / 2);
    PlaceInside(s.Groups(), N, n, k / s.group);
  }

  lemma {:induction false} GroupsHold(K: nat, group: nat, k: nat)
    requires group > 0 && K % group == 0 && k < K
    ensures 0 <= k / group < K / group
  {
    assert K == K / group * group;
    DivAtLeast(k, group, 0);
    DivAtMost(k, group, K / group - 1);
  }

  lemma {:induction false} PlaceInside(width: nat, N: nat, n: nat, c: nat)
    requires n < N && c < width
    ensures 0 <= Mul(n, width) + c < Mul(N, width)
  {
    InRow(n, N, width, c);
    MulMonotone(0, n, width);
  }

  lemma {:induction false} DotIsSum(x: seq<real>, s: Source, n: nat, k: nat, f: int -> real)
    requires s.group > 0 && k <= |x| && forall j | 0 <= j < k :: f(j) == x[j] * s.At(n, j)
    ensures Dot(x, s, n, k) == RSum(k, f)
  {
    hide Source.At;
    if k > 0 {
      DotIsSum(x, s, n, k - 1, f);
    }
  }

  predicate IsMatrix(a: seq<seq<real>>, M: nat, K: nat) {
    |a| == M && forall m | 0 <= m < M :: |a[m]| == K
  }

  // ----- Panels

  /** Where a panel of width `R` that starts at `off` keeps its entry `(k, r)`. */
  function Slot(off: nat, k: nat, R: nat, r: nat): int { off + Mul(k, R) + r }

  lemma {:induction false} SlotInside(off: nat, k: nat, kc: nat, R: nat, r: nat)
    requires k < kc && r < R
    ensures off <= Slot(off, k, R, r) < off + Mul(kc, R)
  {
    MulMonotone(k + 1, kc, R);
  }

  lemma {:induction false} SlotsInside(off: nat, kc: nat, R: nat)
    ensures forall k: nat, r: nat | k < kc && r < R :: off <= Slot(off, k, R, r) < off + Mul(kc, R)
  {
    hide Slot, Mul;
    forall k: nat, r: nat | k < kc && r < R {
      SlotInside(off, k, kc, R, r);
    }
  }

  lemma {:induction false} SlotInjective(off: nat, k: nat, R: nat, r: nat, k2: nat, r2: nat)
    requires r < R && r2 < R && Slot(off, k, R, r) == Slot(off, k2, R, r2)
    ensures k == k2 && r == r2
  {
    DivModOf(k, R, r);
    DivModOf(k2, R, r2);
  }

  /** Entry of the left operand, zero past the last row. */
  function Padded(a: seq<seq<real>>, row: nat, k: nat): real {
    if row < |a| && k < |a[row]| then a[row][k] else 0.0
  }

  /** The panel at `off` holds rows `row0..row0 + MR` of `a`, columns `kb..kb + kc`, column by column. */
  ghost predicate HoldsA(buf: array<real>, off: nat, a: seq<seq<real>>, row0: nat, kb: nat, kc: nat, MR: nat)
    reads buf
  {
    forall k: nat, r: nat | k < kc && r < MR && 0 <= Slot(off, k, MR, r) < buf.Length ::
      buf[Slot(off, k, MR, r)] == Padded(a, row0 + r, kb + k)
  }

  ghost predicate HoldsB(buf: array<real>, off: nat, s: Source, n0: nat, kb: nat, kc: nat, NR: nat)
    reads buf
    requires s.group > 0
  {
    forall k: nat, r: nat | k < kc && r < NR && 0 <= Slot(off, k, NR, r) < buf.Length ::
      buf[Slot(off, k, NR, r)] == s.At(n0 + r, kb + k)
  }

  /** Writes one entry of a panel and leaves every other alone. */
  method PutSlot(buf: array<real>, off: nat, k: nat, kc: nat, R: nat, r: nat, v: real)
    requires k < kc && r < R && off + Mul(kc, R) <= buf.Length
    modifies buf
    ensures 0 <= Slot(off, k, R, r) < buf.Length && buf[Slot(off, k, R, r)] == v
    ensures forall k2: nat, r2: nat | r2 < R && !(k2 == k && r2 == r) && 0 <= Slot(off, k2, R, r2) < buf.Length ::
              buf[Slot(off, k2, R, r2)] == old(buf[Slot(off, k2, R, r2)])
    ensures forall i | 0 <= i < buf.Length && !(off <= i < off + Mul(kc, R)) :: buf[i] == old(buf[i])
  {
    SlotInside(off, k, kc, R, r);
    var at := Slot(off, k, R, r);
    forall k2: nat, r2: nat | r2 < R && Slot(off, k2, R, r2) == at
      ensures k2 == k && r2 == r
    {
      SlotInjective(off, k, R, r, k2, r2);
    }
    hide Slot, Mul;
    buf[at] := v;
  }

  method PackA(a: seq<seq<real>>, M: nat, K: nat, row0: nat, kb: nat, kc: nat, MR: nat, buf: array<real>, off: nat)
    requires IsMatrix(a, M, K) && kb + kc <= K && off + Mul(kc, MR) <= buf.Length
    modifies buf
    ensures HoldsA(buf, off, a, row0, kb, kc, MR)
    ensures forall i | 0 <= i < buf.Length && !(off <= i < off + Mul(kc, MR)) :: buf[i] == old(buf[i])
  {
    hide Slot, Mul;
    for r := 0 to MR
      invariant HoldsRows(buf, off, a, row0, kb, kc, MR, r, 0)
      invariant forall i | 0 <= i < buf.Length && !(off <= i < off + Mul(kc, MR)) :: buf[i] == old(buf[i])
    {
      var row := row0 + r;
      for k := 0 to kc
        invariant HoldsRows(buf, off, a, row0, kb, kc, MR, r, k)
        invariant forall i | 0 <= i < buf.Length && !(off <= i < off + Mul(kc, MR)) :: buf[i] == old(buf[i])
      {
        PutSlot(buf, off, k, kc, MR, r, if row < M then a[row][kb + k] else 0.0);
      }
    }
  }

  /** As `HoldsA`, for the first `rows` rows and `ks` entries of the next. */
  ghost predicate HoldsRows(buf: array<real>, off: nat, a: seq<seq<real>>, row0: nat, kb: nat, kc: nat, MR: nat,
                            rows: nat, ks: nat)
    reads buf
  {
    forall k: nat, r: nat | k < kc && r < MR && (r < rows || (r == rows && k < ks))
      && 0 <= Slot(off, k, MR, r) < buf.Length ::
      buf[Slot(off, k, MR, r)] == Padded(a, row0 + r, kb + k)
  }

  // ----- Weights into a panel

  /** Column `kb + base + e` of a row, where `kb` starts group `gb` and `base` spans `g` more: its group. */
  lemma {:induction false} GroupPlace(s: Source, N: nat, n: nat, gb: nat, g: nat, kb: nat, base: nat, e: nat)
    requires s.Valid(N) && n < N && e < s.group && kb == Mul(gb, s.group) && base == Mul(g, s.group)
             && kb + base + s.group <= s.K
    ensures s.GroupOf(n, kb + base + e) == Mul(n, s.Groups()) + gb + g < |s.scales| == |s.mins|
  {
    var q := gb + g;
    assert kb + base + e == q * s.group + e && (q + 1) * s.group == q * s.group + s.group;
    DivModOf(q, s.group, e);
    DivAtLeast(s.K, s.group, q + 1);
    InRow(n, N, s.Groups(), q);
  }

  /** Its byte. */
  lemma {:induction false} BytePlace(s: Source, N: nat, n: nat, kb: nat, base: nat, e: nat)
    requires |s.w| == Mul(N, s.K / 2) && n < N && s.K % 2 == 0 && kb % 2 == 0 && base % 2 == 0 && kb + base + e < s.K
    ensures s.ByteOf(n, kb + base + e) == Mul(n, s.K / 2) + kb / 2 + base / 2 + e / 2 < |s.w|
  {
    assert (kb + base + e) / 2 == kb / 2 + base / 2 + e / 2;
    InRow(n, N, s.K / 2, (kb + base + e) / 2);
  }

  lemma {:induction false} EvenDivisible(K: nat, group: nat)
    requires group > 0 && group % 8 == 0 && K % group == 0
    ensures K % 2 == 0
  {
    assert K == (K / group) * group;
    EvenMultiple(K / group, group);
  }

  lemma {:induction false} InRow(n: nat, N: nat, width: nat, c: nat)
    requires n < N && c < width
    ensures Mul(n, width) + c < Mul(N, width)
  {
    MulMonotone(n + 1, N, width);
  }

  lemma {:induction false} EvenMultiple(q: nat, group: nat)
    requires group % 8 == 0
    ensures Mul(q, group) % 2 == 0
  {
    var h := group / 2;
    Doubled(q, h);
    assert group == 2 * h;
  }

  lemma {:induction false} Doubled(q: nat, h: nat)
    ensures q * (2 * h) % 2 == 0
  {
    assert q * (2 * h) == (q * h) * 2;
  }

  /** Byte `byte + j` holds columns `k + 2j` and `k + 2j + 1` of row `n`; their scale and minimum are at `scale`. */
  ghost predicate HoldsPair(s: Source, n: nat, k: nat, byte: int, scale: int, j: nat)
    requires s.group > 0
  {
    && 0 <= scale < |s.scales| && scale < |s.mins| && 0 <= byte + j < |s.w|
    && s.At(n, k + 2 * j) == s.Decode(s.w[byte + j] / 16 % 16, scale)
    && s.At(n, k + 2 * j + 1) == s.Decode(s.w[byte + j] % 16, scale)
  }

  lemma {:induction false} PairFrom(s: Source, n: nat, k: nat, byte: int, scale: int, j: nat)
    requires s.group > 0 && k % 2 == 0
    requires s.ByteOf(n, k + 2 * j) == s.ByteOf(n, k + 2 * j + 1) == byte + j && 0 <= byte + j < |s.w|
    requires s.GroupOf(n, k + 2 * j) == s.GroupOf(n, k + 2 * j + 1) == scale && 0 <= scale < |s.scales| == |s.mins|
    ensures HoldsPair(s, n, k, byte, scale, j)
  {
    hide Source.ByteOf, Source.GroupOf, Source.Decode;
  }

  lemma {:induction false} PairGroups(s: Source, N: nat, n: nat, gb: nat, g: nat, kb: nat, base: nat, j: nat,
                                      scale: int)
    requires s.Valid(N) && n < N && 2 * j + 1 < s.group && scale == Mul(n, s.Groups()) + gb + g
    requires kb == Mul(gb, s.group) && base == Mul(g, s.group) && kb + base + s.group <= s.K
    ensures s.GroupOf(n, kb + base + 2 * j) == s.GroupOf(n, kb + base + 2 * j + 1) == scale
    ensures 0 <= scale < |s.scales| == |s.mins|
  {
    hide Source.GroupOf;
    GroupPlace(s, N, n, gb, g, kb, base, 2 * j);
    GroupPlace(s, N, n, gb, g, kb, base, 2 * j + 1);
  }

  lemma {:induction false} PairBytes(s: Source, N: nat, n: nat, kb: nat, base: nat, j: nat, byte: int)
    requires |s.w| == Mul(N, s.K / 2) && n < N && s.K % 2 == 0 && kb % 2 == 0 && base % 2 == 0
    requires kb + base + 2 * j + 1 < s.K && byte == Mul(n, s.K / 2) + kb / 2 + base / 2
    ensures s.ByteOf(n, kb + base + 2 * j) == s.ByteOf(n, kb + base + 2 * j + 1) == byte + j && 0 <= byte + j < |s.w|
  {
    hide Source.ByteOf;
    BytePlace(s, N, n, kb, base, 2 * j);
    BytePlace(s, N, n, kb, base, 2 * j + 1);
  }

  lemma {:induction false} PairsOfGroup(s: Source, N: nat, n: nat, gb: nat, g: nat, kb: nat, base: nat, k0: nat,
                                        byte: int, scale: int)
    requires s.Valid(N) && n < N && k0 == kb + base && kb == Mul(gb, s.group) && base == Mul(g, s.group)
             && kb + base + s.group <= s.K
    requires byte == Mul(n, s.K / 2) + kb / 2 + base / 2 && scale == Mul(n, s.Groups()) + gb + g
    ensures forall j | 0 <= j < s.group / 2 :: HoldsPair(s, n, k0, byte, scale, j)
  {
    hide HoldsPair, Mul, Source.Groups;
    assert s.K % 2 == 0 && kb % 2 == 0 && base % 2 == 0 by {
      EvenDivisible(s.K, s.group);
      EvenMultiple(gb, s.group);
      EvenMultiple(g, s.group);
    }
    forall j | 0 <= j < s.group / 2
      ensures HoldsPair(s, n, k0, byte, scale, j)
    {
      OnePair(s, N, n, gb, g, kb, base, k0, byte, scale, j);
    }
  }

  lemma {:induction false} OnePair(s: Source, N: nat, n: nat, gb: nat, g: nat, kb: nat, base: nat, k0: nat, byte: int,
                                   scale: int, j: nat)
    requires s.Valid(N) && n < N && k0 == kb + base && kb == Mul(gb, s.group) && base == Mul(g, s.group)
             && k0 + s.group <= s.K
    requires byte == Mul(n, s.K / 2) + kb / 2 + base / 2 && scale == Mul(n, s.Groups()) + gb + g
    requires s.K % 2 == 0 && kb % 2 == 0 && base % 2 == 0 && 2 * j + 1 < s.group
    ensures HoldsPair(s, n, k0, byte, scale, j)
  {
    hide HoldsPair, Source.GroupOf, Source.ByteOf, Mul, Source.Groups, Source.Valid;
    PairGroups(s, N, n, gb, g, kb, base, j, scale);
    WeightBytes(s, N);
    PairBytes(s, N, n, kb, base, j, byte);
    EvenSum(kb, base);
    PairFrom(s, n, k0, byte, scale, j);
  }

  lemma {:induction false} WeightBytes(s: Source, N: nat)
    requires s.Valid(N)
    ensures |s.w| == Mul(N, s.K / 2) && s.group > 0 && |s.scales| == |s.mins|
  {
    hide Mul;
  }

  lemma {:induction false} EvenSum(a: nat, b: nat)
    requires a % 2 == 0 && b % 2 == 0
    ensures (a + b) % 2 == 0
  {
  }

  lemma {:induction false} ProductIsNat(a: nat, b: nat)
    ensures Mul(a, b) >= 0
  {
  }

  lemma {:induction false} GroupEdges(gb: nat, g: nat, groups: nat, group: nat)
    requires g < groups
    ensures Mul(g, group) + group == Mul(g + 1, group) <= Mul(groups, group)
    ensures Mul(gb, group) + Mul(g, group) + group <= Mul(gb + groups, group)
  {
    MulMonotone(g + 1, groups, group);
    MulMonotone(gb + g + 1, gb + groups, group);
  }

  lemma {:induction false} RowFromBytes(s: Source, N: nat, n: nat, gb: nat, groups: nat, buf: array<real>, off: nat)
    requires s.Valid(N) && n < N && Mul(gb + groups, s.group) <= s.K && off + Mul(groups, s.group) <= buf.Length
    requires forall i | off <= i < off + Mul(groups, s.group) :: buf[i] == s.At(n, Mul(gb, s.group) + (i - off))
    ensures forall i, b, g | off <= i < off + Mul(groups, s.group) && 0 <= b < |s.w| && 0 <= g < |s.scales|
              && b == Mul(n, s.K / 2) + (Mul(gb, s.group) + (i - off)) / 2
              && g == Mul(n, Div(s.K, s.group)) + Div(Mul(gb, s.group) + (i - off), s.group) ::
              buf[i] == (if (Mul(gb, s.group) + (i - off)) % 2 == 0 then s.w[b] / 16 % 16 else s.w[b] % 16) as real
                        * s.scales[g] + s.mins[g]
  {
    hide Source.At, Source.Valid, Mul, Div;
    assert s.group > 0 && |s.scales| == |s.mins| && Mul(gb + groups, s.group) == Mul(gb, s.group) + Mul(groups, s.group)
           && Mul(gb, s.group) >= 0 by {
      WeightBytes(s, N);
      GroupSpan(gb, groups, gb + groups, groups, s.group);
    }
    forall i, b, g | off <= i < off + Mul(groups, s.group) && 0 <= b < |s.w| && 0 <= g < |s.scales|
      && b == Mul(n, s.K / 2) + (Mul(gb, s.group) + (i - off)) / 2
      && g == Mul(n, Div(s.K, s.group)) + Div(Mul(gb, s.group) + (i - off), s.group)
      ensures buf[i] == (if (Mul(gb, s.group) + (i - off)) % 2 == 0 then s.w[b] / 16 % 16 else s.w[b] % 16) as real
                        * s.scales[g] + s.mins[g]
    {
      WeightAt(s, N, n, Mul(gb, s.group) + (i - off), b, g);
    }
  }

  /** `groups` groups of weight row `n`, from group `gb` on, into `buf` at `off`. */
  method DequantGroups(s: Source, N: nat, n: nat, gb: nat, groups: nat, buf: array<real>, off: nat)
    requires s.Valid(N) && n < N && Mul(gb + groups, s.group) <= s.K && off + Mul(groups, s.group) <= buf.Length
    modifies buf
    ensures forall i | 0 <= i < buf.Length ::
              buf[i] == if off <= i < off + Mul(groups, s.group) then s.At(n, Mul(gb, s.group) + (i - off))
                else old(buf[i])
  {
    assert Mul(0, s.group) == 0;
    ProductIsNat(gb, s.group);
    hide Source.At, HoldsPair, Mul, Source.Groups;
    var kb := Mul(gb, s.group);
    for g := 0 to groups
      invariant forall i | 0 <= i < buf.Length ::
                  buf[i] == if off <= i < off + Mul(g, s.group) then s.At(n, kb + (i - off)) else old(buf[i])
    {
      GroupEdges(gb, g, groups, s.group);
      var base := Mul(g, s.group);
      ProductIsNat(g, s.group);
      var byte, scale := Mul(n, s.K / 2) + kb / 2 + base / 2, Mul(n, s.Groups()) + gb + g;
      PairsOfGroup(s, N, n, gb, g, kb, base, kb + base, byte, scale);
      DequantGroup(s, n, kb + base, byte, scale, buf, off + base);
    }
  }

  /** Weight row `n`, from group `gb` on, into `buf` at `off`: group after group, two columns a byte. */
  method DequantRow(s: Source, N: nat, n: nat, gb: nat, groups: nat, buf: array<real>, off: nat)
    requires s.Valid(N) && n < N && Mul(gb + groups, s.group) <= s.K && off + Mul(groups, s.group) <= buf.Length
    modifies buf
    ensures forall i | 0 <= i < buf.Length ::
              buf[i] == if off <= i < off + Mul(groups, s.group) then s.At(n, Mul(gb, s.group) + (i - off))
                else old(buf[i])
    ensures forall i, b, g | off <= i < off + Mul(groups, s.group) && 0 <= b < |s.w| && 0 <= g < |s.scales|
              && b == Mul(n, s.K / 2) + (Mul(gb, s.group) + (i - off)) / 2
              && g == Mul(n, Div(s.K, s.group)) + Div(Mul(gb, s.group) + (i - off), s.group) ::
              buf[i] == (if (Mul(gb, s.group) + (i - off)) % 2 == 0 then s.w[b] / 16 % 16 else s.w[b] % 16) as real
                        * s.scales[g] + s.mins[g]
  {
    hide Mul, Div, Source.At, Source.Valid;
    DequantGroups(s, N, n, gb, groups, buf, off);
    RowFromBytes(s, N, n, gb, groups, buf, off);
  }

  lemma {:induction false} UsePair(s: Source, n: nat, k: nat, byte: int, scale: int, j: nat)
    requires s.group > 0 && HoldsPair(s, n, k, byte, scale, j)
    ensures 0 <= scale < |s.scales| && scale < |s.mins| && 0 <= byte + j < |s.w|
    ensures s.At(n, k + 2 * j) == s.Decode(s.w[byte + j] / 16 % 16, scale)
    ensures s.At(n, k + 2 * j + 1) == s.Decode(s.w[byte + j] % 16, scale)
  {
  }

  /** One group: columns `k0` on, into `buf` from `at` on. */
  method DequantGroup(s: Source, n: nat, k0: nat, byte: int, scale: int, buf: array<real>, at: nat)
    requires s.group > 0 && s.group % 8 == 0 && at + s.group <= buf.Length
    requires forall j | 0 <= j < s.group / 2 :: HoldsPair(s, n, k0, byte, scale, j)
    modifies buf
    ensures forall i | 0 <= i < buf.Length ::
              buf[i] == if at <= i < at + s.group then s.At(n, k0 + (i - at)) else old(buf[i])
  {
    hide Source.At, Source.Decode, HoldsPair;
    for j := 0 to s.group / 2
      invariant forall i | 0 <= i < buf.Length ::
                  buf[i] == if at <= i < at + 2 * j then s.At(n, k0 + (i - at)) else old(buf[i])
    {
      UsePair(s, n, k0, byte, scale, j);
      buf[at + 2 * j] := s.Decode(s.w[byte + j] / 16 % 16, scale);
      buf[at + 2 * j + 1] := s.Decode(s.w[byte + j] % 16, scale);
    }
  }

  /** As `HoldsB`, for the first `cols` weight rows and `ks` entries of the next. */
  ghost predicate HoldsCols(buf: array<real>, off: nat, s: Source, n0: nat, kb: nat, kc: nat, NR: nat, cols: nat,
                            ks: nat)
    reads buf
    requires s.group > 0
  {
    forall k: nat, r: nat | k < kc && r < NR && (r < cols || (r == cols && k < ks))
      && 0 <= Slot(off, k, NR, r) < buf.Length ::
      buf[Slot(off, k, NR, r)] == s.At(n0 + r, kb + k)
  }

  /** `NR` weight rows from `n0` on, `kc` columns from `kb` on, through the scratch row at `tmp`. */
  method PackB(s: Source, N: nat, n0: nat, gb: nat, groups: nat, kb: nat, kc: nat, NR: nat, buf: array<real>, off: nat,
               tmp: nat)
    requires s.Valid(N) && n0 + NR <= N && kb == Mul(gb, s.group) && kc == Mul(groups, s.group)
    requires Mul(gb + groups, s.group) <= s.K && off + Mul(kc, NR) <= tmp && off <= tmp && tmp + kc <= buf.Length
    modifies buf
    ensures HoldsB(buf, off, s, n0, kb, kc, NR)
    ensures forall i | 0 <= i < buf.Length && !(off <= i < tmp + kc) :: buf[i] == old(buf[i])
  {
    hide Slot, Mul, Div, Source.At;
    SlotsInside(off, kc, NR);
    for r := 0 to NR
      invariant HoldsCols(buf, off, s, n0, kb, kc, NR, r, 0)
      invariant forall i | 0 <= i < buf.Length && !(off <= i < tmp + kc) :: buf[i] == old(buf[i])
    {
      DequantRow(s, N, n0 + r, gb, groups, buf, tmp);
      for k := 0 to kc
        invariant HoldsCols(buf, off, s, n0, kb, kc, NR, r, k)
        invariant forall i | 0 <= i < buf.Length && !(off <= i < tmp + kc) :: buf[i] == old(buf[i])
        invariant forall i | tmp <= i < tmp + kc :: buf[i] == s.At(n0 + r, kb + (i - tmp))
      {
        PutSlot(buf, off, k, kc, NR, r, buf[tmp + k]);
      }
    }
  }

  // ----- The micro-kernel

  /** What cell `(m, n)` of the result holds once the first `k` columns are in. */
  ghost function Partial(a: seq<seq<real>>, s: Source, bias: Option<seq<real>>, m: nat, n: nat, k: nat): real
    requires s.group > 0
  {
    BiasAt(bias, n) + if m < |a| && k <= |a[m]| then Dot(a[m], s, n, k) else 0.0
  }

  /** One product, behind a name. */
  function Term(x: real, y: real): real { x * y }

  lemma {:induction false} PartialStep(a: seq<seq<real>>, s: Source, bias: Option<seq<real>>, m: nat, n: nat, k: nat,
                                       x: real, y: real)
    requires s.group > 0 && m < |a| && k < |a[m]| && x == Padded(a, m, k) && y == s.At(n, k)
    ensures Partial(a, s, bias, m, n, k + 1) == Partial(a, s, bias, m, n, k) + Term(x, y)
  {
  }

  /** Adds the product of column `k` of both panels to the tile. */
  method RankOne(buf: array<real>, aOff: nat, bOff: nat, k: nat, kc: nat, MR: nat, NR: nat, t: array2<real>)
    requires t.Length0 == MR && t.Length1 == NR && k < kc
    requires aOff + Mul(kc, MR) <= buf.Length && bOff + Mul(kc, NR) <= buf.Length
    modifies t
    ensures forall i: nat | i < MR :: 0 <= Slot(aOff, k, MR, i) < buf.Length
    ensures forall j: nat | j < NR :: 0 <= Slot(bOff, k, NR, j) < buf.Length
    ensures forall i, j | 0 <= i < MR && 0 <= j < NR ::
              t[i, j] == old(t[i, j]) + Term(buf[Slot(aOff, k, MR, i)], buf[Slot(bOff, k, NR, j)])
  {
    hide Slot, Mul, Term;
    SlotsInside(aOff, kc, MR);
    SlotsInside(bOff, kc, NR);
    for i := 0 to MR
      invariant forall x, y | 0 <= x < MR && 0 <= y < NR ::
                  t[x, y] == old(t[x, y]) + if x < i then Term(buf[Slot(aOff, k, MR, x)], buf[Slot(bOff, k, NR, y)])
                    else 0.0
    {
      var v := buf[Slot(aOff, k, MR, i)];
      for j := 0 to NR
        invariant forall x, y | 0 <= x < MR && 0 <= y < NR ::
                    t[x, y] == old(t[x, y]) + if x < i || (x == i && y < j)
                                              then Term(buf[Slot(aOff, k, MR, x)], buf[Slot(bOff, k, NR, y)]) else 0.0
      {
        t[i, j] := t[i, j] + Term(v, buf[Slot(bOff, k, NR, j)]);
      }
    }
  }

  /** The tile takes in `kc` more columns; rows past `mr` are padding. */
  method Accumulate(buf: array<real>, aOff: nat, bOff: nat, row0: nat, n0: nat, kc: nat, mr: nat, MR: nat, NR: nat,
                    t: array2<real>,
                    ghost a: seq<seq<real>>, ghost s: Source, ghost bias: Option<seq<real>>, ghost kb: nat)
    requires s.group > 0 && IsMatrix(a, |a|, s.K) && kb + kc <= s.K && mr <= MR && row0 + mr <= |a|
    requires t.Length0 == MR && t.Length1 == NR
    requires aOff + Mul(kc, MR) <= buf.Length && HoldsA(buf, aOff, a, row0, kb, kc, MR)
    requires bOff + Mul(kc, NR) <= buf.Length && HoldsB(buf, bOff, s, n0, kb, kc, NR)
    requires forall i, j | 0 <= i < mr && 0 <= j < NR :: t[i, j] == Partial(a, s, bias, row0 + i, n0 + j, kb)
    modifies t
    ensures forall i, j | 0 <= i < mr && 0 <= j < NR :: t[i, j] == Partial(a, s, bias, row0 + i, n0 + j, kb + kc)
  {
    hide Slot, Mul, Source.At, Partial, Padded, Term;
    SlotsInside(aOff, kc, MR);
    SlotsInside(bOff, kc, NR);
    for k := 0 to kc
      invariant forall i, j | 0 <= i < mr && 0 <= j < NR :: t[i, j] == Partial(a, s, bias, row0 + i, n0 + j, kb + k)
    {
      forall i, j | 0 <= i < mr && 0 <= j < NR
        ensures Partial(a, s, bias, row0 + i, n0 + j, kb + k + 1)
                == t[i, j] + Term(buf[Slot(aOff, k, MR, i)], buf[Slot(bOff, k, NR, j)])
      {
        PartialStep(a, s, bias, row0 + i, n0 + j, kb + k, buf[Slot(aOff, k, MR, i)], buf[Slot(bOff, k, NR, j)]);
      }
      RankOne(buf, aOff, bOff, k, kc, MR, NR, t);
    }
  }

  /** `mr` rows and `NR` columns of the result take in `kc` more columns. */
  method Micro(buf: array<real>, aOff: nat, bOff: nat, C: array2<real>, row0: nat, n0: nat, kc: nat, mr: nat, MR: nat,
               NR: nat,
               ghost a: seq<seq<real>>, ghost s: Source, ghost bias: Option<seq<real>>, ghost kb: nat)
    requires s.group > 0 && IsMatrix(a, C.Length0, s.K) && kb + kc <= s.K
    requires mr <= MR && row0 + mr <= C.Length0 && n0 + NR <= C.Length1
    requires aOff + Mul(kc, MR) <= buf.Length && HoldsA(buf, aOff, a, row0, kb, kc, MR)
    requires bOff + Mul(kc, NR) <= buf.Length && HoldsB(buf, bOff, s, n0, kb, kc, NR)
    requires forall m, n | row0 <= m < row0 + mr && n0 <= n < n0 + NR :: C[m, n] == Partial(a, s, bias, m, n, kb)
    modifies C
    ensures forall m, n | 0 <= m < C.Length0 && 0 <= n < C.Length1 ::
              C[m, n] == if row0 <= m < row0 + mr && n0 <= n < n0 + NR then Partial(a, s, bias, m, n, kb + kc)
                         else old(C[m, n])
  {
    hide Slot, Mul, Source.At, Partial;
    var t := new real[MR, NR];
    forall i, j | 0 <= i < MR && 0 <= j < NR {
      t[i, j] := if i < mr then C[row0 + i, n0 + j] else 0.0;
    }
    Accumulate(buf, aOff, bOff, row0, n0, kc, mr, MR, NR, t, a, s, bias, kb);
    forall m, n | row0 <= m < row0 + mr && n0 <= n < n0 + NR {
      C[m, n] := t[m - row0, n - n0];
    }
  }

  // ----- Blocking

  /** The panels of rows `mb` on: panel `p` starts at `p * stride` and holds rows `mb + p * MR` on. */
  ghost predicate BlockHeld(buf: array<real>, a: seq<seq<real>>, mb: nat, kb: nat, kc: nat, MR: nat, stride: nat,
                            panels: nat)
    reads buf
  {
    forall p: nat | p < panels :: PanelHeld(buf, a, mb, kb, kc, MR, stride, p)
  }

  ghost predicate PanelHeld(buf: array<real>, a: seq<seq<real>>, mb: nat, kb: nat, kc: nat, MR: nat, stride: nat,
                            p: nat)
    reads buf
  {
    && Mul(p, stride) >= 0 && Mul(p, MR) >= 0
    && Mul(p, stride) + Mul(kc, MR) <= buf.Length
    && HoldsA(buf, Mul(p, stride), a, mb + Mul(p, MR), kb, kc, MR)
  }

  lemma {:induction false} PanelPlace(p: nat, panels: nat, stride: nat, kc: nat, MR: nat)
    requires p < panels && Mul(kc, MR) <= stride
    ensures 0 <= Mul(p, stride) <= Mul(p + 1, stride) <= Mul(panels, stride) && 0 <= Mul(p, MR)
    ensures Mul(p, stride) + Mul(kc, MR) <= Mul(p + 1, stride)
  {
    MulMonotone(p + 1, panels, stride);
  }

  ghost function Undone(done: seq<bool>): nat {
    if done == [] then 0 else Undone(done[..|done| - 1]) + if done[|done| - 1] then 0 else 1
  }

  lemma {:induction false} OneDone(done: seq<bool>, i: nat)
    requires i < |done| && !done[i]
    ensures Undone(done[i := true]) < Undone(done)
  {
    var l := |done| - 1;
    if i < l {
      OneDone(done[..l], i);
      assert done[i := true][..l] == done[..l][i := true];
    } else {
      assert done[i := true][..l] == done[..l];
    }
  }

  /** Every row panel of a block, in whatever order the threads take them. */
  method PackBlock(a: seq<seq<real>>, M: nat, K: nat, mb: nat, kb: nat, kc: nat, MR: nat, stride: nat, panels: nat,
                   buf: array<real>)
    requires IsMatrix(a, M, K) && kb + kc <= K && Mul(kc, MR) <= stride && Mul(panels, stride) <= buf.Length
    modifies buf
    ensures BlockHeld(buf, a, mb, kb, kc, MR, stride, panels)
  {
    hide Slot, Mul, HoldsA, PanelHeld, PanelIn;
    var done := seq(panels, _ => false);
    while exists i | 0 <= i < panels :: !done[i]
      invariant |done| == panels && forall p: nat | p < panels && done[p] ::
                  PanelHeld(buf, a, mb, kb, kc, MR, stride, p)
      decreases Undone(done)
    {
      var i: nat :| i < panels && !done[i];
      OneDone(done, i);
      PanelPlace(i, panels, stride, kc, MR);
      ghost var v := buf[..];
      forall p: nat | p < panels && done[p]
        ensures PanelIn(v, a, mb, kb, kc, MR, stride, p)
      {
        SnapPanel(buf, a, mb, kb, kc, MR, stride, p);
      }
      PackA(a, M, K, mb + Mul(i, MR), kb, kc, MR, buf, Mul(i, stride));
      forall p: nat | p < panels && done[p]
        ensures PanelHeld(buf, a, mb, kb, kc, MR, stride, p)
      {
        PanelsApart(p, i, stride);
        KeepPanel(v, buf, a, mb, kb, kc, MR, stride, p, Mul(i, stride), Mul(i, stride) + Mul(kc, MR));
      }
      PanelIs(buf, a, mb, kb, kc, MR, stride, i);
      done := done[i := true];
    }
  }

  lemma {:induction false} PanelIs(buf: array<real>, a: seq<seq<real>>, mb: nat, kb: nat, kc: nat, MR: nat, stride: nat,
                                   i: nat)
    requires 0 <= Mul(i, stride) && 0 <= Mul(i, MR) && Mul(i, stride) + Mul(kc, MR) <= buf.Length
    requires HoldsA(buf, Mul(i, stride), a, mb + Mul(i, MR), kb, kc, MR)
    ensures PanelHeld(buf, a, mb, kb, kc, MR, stride, i)
  {
    hide HoldsA, Mul;
  }

  /** Two row panels do not overlap. */
  lemma {:induction false} PanelsApart(p: nat, i: nat, stride: nat)
    requires p != i
    ensures Mul(p, stride) + stride <= Mul(i, stride) || Mul(i, stride) + stride <= Mul(p, stride)
  {
    if p < i {
      MulMonotone(p + 1, i, stride);
    } else {
      MulMonotone(i + 1, p, stride);
    }
  }

  /** What `PanelHeld` says, of a snapshot of the buffer. */
  ghost predicate PanelIn(v: seq<real>, a: seq<seq<real>>, mb: nat, kb: nat, kc: nat, MR: nat, stride: nat, p: nat) {
    && Mul(p, stride) >= 0 && Mul(p, MR) >= 0
    && Mul(p, stride) + Mul(kc, MR) <= |v|
    && forall k: nat, r: nat | k < kc && r < MR && 0 <= Slot(Mul(p, stride), k, MR, r) < |v| ::
         v[Slot(Mul(p, stride), k, MR, r)] == Padded(a, mb + Mul(p, MR) + r, kb + k)
  }

  lemma {:induction false} SnapPanel(buf: array<real>, a: seq<seq<real>>, mb: nat, kb: nat, kc: nat, MR: nat,
                                     stride: nat, p: nat)
    requires PanelHeld(buf, a, mb, kb, kc, MR, stride, p)
    ensures PanelIn(buf[..], a, mb, kb, kc, MR, stride, p)
  {
    hide Slot, Mul, Padded;
  }

  /** A panel outlives writes to `lo..hi` beside it. */
  lemma {:induction false} KeepPanel(v: seq<real>, buf: array<real>, a: seq<seq<real>>, mb: nat, kb: nat, kc: nat,
                                     MR: nat,
                                     stride: nat, p: nat, lo: int, hi: int)
    requires |v| == buf.Length && forall i | 0 <= i < |v| && !(lo <= i < hi) :: buf[i] == v[i]
    requires PanelIn(v, a, mb, kb, kc, MR, stride, p)
    requires Mul(p, stride) + Mul(kc, MR) <= lo || hi <= Mul(p, stride)
    ensures PanelHeld(buf, a, mb, kb, kc, MR, stride, p)
  {
    hide Slot, Mul, Padded;
    SlotsInside(Mul(p, stride), kc, MR);
  }

  lemma {:induction false} SnapBlock(buf: array<real>, a: seq<seq<real>>, mb: nat, kb: nat, kc: nat, MR: nat,
                                     stride: nat, panels: nat)
    requires BlockHeld(buf, a, mb, kb, kc, MR, stride, panels)
    ensures forall p: nat | p < panels :: PanelIn(buf[..], a, mb, kb, kc, MR, stride, p)
  {
    hide PanelHeld, PanelIn;
    forall p: nat | p < panels
      ensures PanelIn(buf[..], a, mb, kb, kc, MR, stride, p)
    {
      SnapPanel(buf, a, mb, kb, kc, MR, stride, p);
    }
  }

  /** Panels below `end` outlive writes from `end` on. */
  lemma {:induction false} KeepBlock(v: seq<real>, buf: array<real>, a: seq<seq<real>>, mb: nat, kb: nat, kc: nat,
                                     MR: nat,
                                     stride: nat, panels: nat, end: nat)
    requires end <= |v| == buf.Length && forall i | 0 <= i < end :: buf[i] == v[i]
    requires Mul(kc, MR) <= stride && Mul(panels, stride) <= end
    requires forall p: nat | p < panels :: PanelIn(v, a, mb, kb, kc, MR, stride, p)
    ensures BlockHeld(buf, a, mb, kb, kc, MR, stride, panels)
  {
    hide PanelHeld, PanelIn, Mul;
    forall p: nat | p < panels
      ensures PanelHeld(buf, a, mb, kb, kc, MR, stride, p)
    {
      PanelPlace(p, panels, stride, kc, MR);
      KeepPanel(v, buf, a, mb, kb, kc, MR, stride, p, end, |v|);
    }
  }

  /** How many columns row `m` has taken in once block `mb..mEnd` has those below `kb`. */
  function Done(m: int, K: nat, mb: nat, mEnd: nat, kb: nat): nat { if m < mb then K else if m >= mEnd then 0 else kb }

  ghost predicate InPhase(C: array2<real>, a: seq<seq<real>>, s: Source, bias: Option<seq<real>>, nPacked: nat,
                          mb: nat, mEnd: nat, kb: nat)
    reads C
    requires s.group > 0
  {
    forall m, n | 0 <= m < C.Length0 && 0 <= n < C.Length1 ::
      C[m, n] == Partial(a, s, bias, m, n, if n < nPacked then Done(m, s.K, mb, mEnd, kb) else 0)
  }

  /** The sizes the driver chose, and that they fit the allocation. */
  datatype Plan = Plan(MR: nat, NR: nat, kcMax: nat, mc: nat, threads: nat)
  {
    function Stride(): int { Mul(kcMax, MR) }

    /** Cells of the block of left-operand panels. */
    function ApSize(): int { Mul(mc, kcMax) }

    /** Cells of one thread's weight panel and scratch row. */
    function PerThread(): int { Mul(kcMax, NR) + kcMax }

    function Total(): int { ApSize() + Mul(PerThread(), threads) }

    /** Where thread `tid`'s share begins. */
    function BPanel(tid: nat): int { ApSize() + Mul(PerThread(), tid) }
  }

  /** Thread `tid`'s panel and scratch row lie inside the allocation, past the shared block. */
  lemma {:induction false} ThreadPlace(pl: Plan, tid: nat, kc: nat)
    requires tid < pl.threads && kc <= pl.kcMax
    ensures 0 <= pl.ApSize() <= pl.BPanel(tid)
    ensures 0 <= Mul(kc, pl.NR) <= Mul(pl.kcMax, pl.NR)
    ensures pl.BPanel(tid) + Mul(pl.kcMax, pl.NR) + kc <= pl.BPanel(tid) + pl.PerThread() <= pl.Total()
  {
    var per := pl.PerThread();
    ProductIsNat(pl.mc, pl.kcMax);
    ProductIsNat(pl.kcMax, pl.NR);
    ProductIsNat(per, tid);
    NarrowPanel(kc, pl.kcMax, pl.NR);
    ProductIsNat(kc, pl.NR);
    SharesApart(per, tid, pl.threads);
    hide Mul;
  }

  /** The shares of two threads are disjoint. */
  lemma {:induction false} ThreadsApart(pl: Plan, t: nat, u: nat)
    requires t < u
    ensures pl.BPanel(t) + pl.PerThread() <= pl.BPanel(u)
  {
    ProductIsNat(pl.kcMax, pl.NR);
    SharesApart(pl.PerThread(), t, u);
    hide Mul;
  }

  lemma {:induction false} SharesApart(per: nat, t: nat, u: nat)
    requires t < u
    ensures Mul(per, t) + per <= Mul(per, u)
  {
    MulMonotone(t + 1, u, per);
  }

  // ----- One k-block of one row block

  /** Rows `mb` on, `mRows` of them in `panels` panels, and columns `kb` to `kb + kc`; `C` was seeded with `bias`. */
  datatype Phase = Phase(pl: Plan, a: seq<seq<real>>, s: Source, bias: Option<seq<real>>,
                         gb: nat, groups: nat, kb: nat, kc: nat, mb: nat, mRows: nat, panels: nat, np: nat,
                           nPacked: nat)
  {
    ghost predicate Fits(M: nat, N: nat, len: nat) {
      && s.Valid(N) && IsMatrix(a, M, s.K) && mb + mRows <= M && len == pl.Total()
      && kb == Mul(gb, s.group) && kc == Mul(groups, s.group) && Mul(gb + groups, s.group) <= s.K && kb + kc <= s.K
      && kc <= pl.kcMax && pl.Stride() >= 0 && Mul(kc, pl.MR) <= pl.Stride()
      && Mul(panels, pl.Stride()) <= pl.ApSize() <= pl.Total()
      && mRows <= Mul(panels, pl.MR) < mRows + pl.MR && pl.NR > 0 && nPacked == Mul(np, pl.NR) <= N
    }

    /** How many rows a column panel is through after `steps` steps: packing, then one row panel at a time. */
    function Through(steps: nat): int { if steps == 0 then 0 else Min(Mul(steps - 1, pl.MR), mRows) }
  }

  /** The panel of column `n`. */
  function PanelOf(n: int, NR: nat): int
    requires NR > 0
  {
    n / NR
  }

  lemma {:induction false} PanelColumns(np: nat, NR: nat)
    requires NR > 0
    ensures forall n | 0 <= n < Mul(np, NR) :: 0 <= PanelOf(n, NR) < np
    ensures forall n | 0 <= n :: Mul(PanelOf(n, NR), NR) <= n < Mul(PanelOf(n, NR), NR) + NR
  {
    forall n | 0 <= n
      ensures Mul(PanelOf(n, NR), NR) <= n < Mul(PanelOf(n, NR), NR) + NR && 0 <= PanelOf(n, NR)
      ensures n < Mul(np, NR) ==> PanelOf(n, NR) < np
    {
      PanelColumn(n, np, NR);
    }
  }

  lemma {:induction false} PanelColumn(n: nat, np: nat, NR: nat)
    requires NR > 0
    ensures Mul(PanelOf(n, NR), NR) <= n < Mul(PanelOf(n, NR), NR) + NR && 0 <= PanelOf(n, NR)
    ensures n < Mul(np, NR) ==> PanelOf(n, NR) < np
  {
    DivAtLeast(n, NR, 0);
    if n < Mul(np, NR) {
      DivAtMost(n, NR, np - 1);
    }
  }

  /** The columns of panel `i` are those from `i * NR` on. */
  lemma {:induction false} ColumnsOfPanel(i: nat, NR: nat)
    requires NR > 0
    ensures forall n | 0 <= n :: PanelOf(n, NR) == i <==> Mul(i, NR) <= n < Mul(i, NR) + NR
  {
    forall n | 0 <= n
      ensures PanelOf(n, NR) == i <==> Mul(i, NR) <= n < Mul(i, NR) + NR
    {
      PanelColumn(n, 0, NR);
      if Mul(i, NR) <= n < Mul(i, NR) + NR {
        DivModOf(i, NR, n - Mul(i, NR));
      }
    }
  }

  /** How many columns cell `(m, n)` has taken in, column panel `i` being `steps[i]` steps along. */
  ghost function Depth(f: Phase, steps: seq<nat>, m: int, n: int): nat
    requires f.pl.NR > 0
  {
    if n >= f.nPacked then 0
    else if m < f.mb then f.s.K
    else if m >= f.mb + f.mRows then 0
    else
      var i := PanelOf(n, f.pl.NR);
      if 0 <= i < |steps| && m < f.mb + f.Through(steps[i]) then f.kb + f.kc else f.kb
  }

  ghost predicate InTurn(C: array2<real>, f: Phase, steps: seq<nat>)
    reads C
    requires f.s.group > 0 && f.pl.NR > 0
  {
    forall m, n | 0 <= m < C.Length0 && 0 <= n < C.Length1 ::
      C[m, n] == Partial(f.a, f.s, f.bias, m, n, Depth(f, steps, m, n))
  }

  /** Column panel `i` is packed where thread `tid` keeps its own. */
  ghost predicate PanelReady(buf: array<real>, f: Phase, tid: nat, i: nat)
    reads buf
    requires f.s.group > 0
  {
    && 0 <= f.pl.BPanel(tid) && 0 <= Mul(i, f.pl.NR)
    && HoldsB(buf, f.pl.BPanel(tid), f.s, Mul(i, f.pl.NR), f.kb, f.kc, f.pl.NR)
  }

  /** A panel its thread is in the middle of. */
  predicate InHand(f: Phase, steps: seq<nat>, i: nat)
    requires i < |steps|
  {
    0 < steps[i] <= f.panels
  }

  ghost predicate AllReady(buf: array<real>, f: Phase, owner: nat -> nat, steps: seq<nat>)
    reads buf
    requires f.s.group > 0
  {
    forall i: nat | i < |steps| && InHand(f, steps, i) :: PanelReady(buf, f, owner(i), i)
  }

  /** A thread has one panel in hand at a time. */
  ghost predicate OneInHand(f: Phase, owner: nat -> nat, steps: seq<nat>) {
    forall i: nat, j: nat | i < |steps| && j < |steps| && i != j && InHand(f, steps, i) && InHand(f, steps, j) ::
      owner(i) != owner(j)
  }

  /** What `PanelReady` says, of a snapshot of the buffer. */
  ghost predicate ReadyIn(v: seq<real>, f: Phase, tid: nat, i: nat)
    requires f.s.group > 0
  {
    && 0 <= f.pl.BPanel(tid) && 0 <= Mul(i, f.pl.NR)
    && forall k: nat, r: nat | k < f.kc && r < f.pl.NR && 0 <= Slot(f.pl.BPanel(tid), k, f.pl.NR, r) < |v| ::
         v[Slot(f.pl.BPanel(tid), k, f.pl.NR, r)] == f.s.At(Mul(i, f.pl.NR) + r, f.kb + k)
  }

  lemma {:induction false} SnapReady(buf: array<real>, f: Phase, owner: nat -> nat, steps: seq<nat>)
    requires f.s.group > 0 && AllReady(buf, f, owner, steps)
    ensures forall i: nat | i < |steps| && InHand(f, steps, i) :: ReadyIn(buf[..], f, owner(i), i)
  {
    hide Slot, Mul, Source.At, Plan.BPanel, InHand;
    forall i: nat | i < |steps| && InHand(f, steps, i)
      ensures ReadyIn(buf[..], f, owner(i), i)
    {
      assert PanelReady(buf, f, owner(i), i);
    }
  }

  /** Panels of other threads outlive what thread `u` writes into its own share. */
  lemma {:induction false} KeepReady(v: seq<real>, buf: array<real>, f: Phase, owner: nat -> nat, steps: seq<nat>,
                                     u: nat)
    requires f.s.group > 0 && f.kc <= f.pl.kcMax && u < f.pl.threads && (forall i :: owner(i) < f.pl.threads)
    requires |v| == buf.Length && forall i | 0 <= i < |v|
             && !(f.pl.BPanel(u) <= i < f.pl.BPanel(u) + f.pl.PerThread()) :: buf[i] == v[i]
    requires forall i: nat | i < |steps| && InHand(f, steps, i) :: owner(i) != u && ReadyIn(v, f, owner(i), i)
    ensures AllReady(buf, f, owner, steps)
  {
    hide InHand, PanelReady, ReadyIn;
    forall i: nat | i < |steps| && InHand(f, steps, i)
      ensures PanelReady(buf, f, owner(i), i)
    {
      KeepOneReady(v, buf, f, owner(i), i, u);
    }
  }

  lemma {:induction false} KeepOneReady(v: seq<real>, buf: array<real>, f: Phase, t: nat, i: nat, u: nat)
    requires f.s.group > 0 && f.kc <= f.pl.kcMax && u < f.pl.threads && t < f.pl.threads && t != u
    requires |v| == buf.Length && forall i | 0 <= i < |v|
             && !(f.pl.BPanel(u) <= i < f.pl.BPanel(u) + f.pl.PerThread()) :: buf[i] == v[i]
    requires ReadyIn(v, f, t, i)
    ensures PanelReady(buf, f, t, i)
  {
    ThreadPlace(f.pl, t, f.kc);
    SlotsInside(f.pl.BPanel(t), f.kc, f.pl.NR);
    if t < u {
      ThreadsApart(f.pl, t, u);
    } else {
      ThreadsApart(f.pl, u, t);
    }
    hide Slot, Mul, Source.At, Plan.BPanel, Plan.PerThread, Plan.Total, Plan.ApSize;
    assert forall k: nat, r: nat | k < f.kc && r < f.pl.NR && 0 <= Slot(f.pl.BPanel(t), k, f.pl.NR, r) < |v| ::
        buf[Slot(f.pl.BPanel(t), k, f.pl.NR, r)] == v[Slot(f.pl.BPanel(t), k, f.pl.NR, r)];
  }

  /** The thread that owns column panel `i` packs it into its share; what the others hold stays. */
  method PackPanel(f: Phase, N: nat, buf: array<real>, owner: nat -> nat, i: nat, ghost M: nat, ghost steps: seq<nat>)
    requires f.Fits(M, N, buf.Length) && i < f.np == |steps| && steps[i] == 0 && forall j :: owner(j) < f.pl.threads
    requires forall j: nat | j < |steps| && InHand(f, steps, j) :: owner(j) != owner(i)
    requires BlockHeld(buf, f.a, f.mb, f.kb, f.kc, f.pl.MR, f.pl.Stride(), f.panels) && AllReady(buf, f, owner, steps)
    modifies buf
    ensures BlockHeld(buf, f.a, f.mb, f.kb, f.kc, f.pl.MR, f.pl.Stride(), f.panels)
            && AllReady(buf, f, owner, steps[i := 1])
  {
    hide Mul, HoldsA, HoldsB, Padded, BlockHeld, AllReady, ReadyIn, PanelIn, PanelReady;
    hide Plan.Stride, Plan.ApSize, Plan.BPanel, Plan.PerThread, Plan.Total, Source.At, Source.Groups;
    var pl, tid := f.pl, owner(i);
    ThreadPlace(pl, tid, f.kc);
    PanelEnd(i, f.np, pl.NR);
    MulNext(i, pl.NR);
    var bp := pl.BPanel(tid);
    var tmp := bp + Mul(pl.kcMax, pl.NR);
    ghost var v := buf[..];
    SnapBlock(buf, f.a, f.mb, f.kb, f.kc, pl.MR, pl.Stride(), f.panels);
    SnapReady(buf, f, owner, steps);
    PackB(f.s, N, Mul(i, pl.NR), f.gb, f.groups, f.kb, f.kc, pl.NR, buf, bp, tmp);
    KeepBlock(v, buf, f.a, f.mb, f.kb, f.kc, pl.MR, pl.Stride(), f.panels, pl.ApSize());
    KeepReady(v, buf, f, owner, steps, tid);
    OneMoreReady(buf, f, owner, steps, i);
  }

  lemma {:induction false} OneMoreReady(buf: array<real>, f: Phase, owner: nat -> nat, steps: seq<nat>, i: nat)
    requires f.s.group > 0 && i < |steps| && AllReady(buf, f, owner, steps)
    requires 0 <= f.pl.BPanel(owner(i)) && 0 <= Mul(i, f.pl.NR)
    requires HoldsB(buf, f.pl.BPanel(owner(i)), f.s, Mul(i, f.pl.NR), f.kb, f.kc, f.pl.NR)
    ensures AllReady(buf, f, owner, steps[i := 1])
  {
    hide HoldsB, Mul, Plan.BPanel;
    forall j: nat | j < |steps| && InHand(f, steps[i := 1], j)
      ensures PanelReady(buf, f, owner(j), j)
    {
      assert j != i ==> InHand(f, steps, j);
    }
  }

  /** Column panel `i` times its next row panel. */
  method MultiplyPanel(f: Phase, C: array2<real>, buf: array<real>, tid: nat, i: nat, steps: seq<nat>)
    requires f.Fits(C.Length0, C.Length1, buf.Length) && i < f.np == |steps| && InHand(f, steps, i)
             && tid < f.pl.threads
    requires BlockHeld(buf, f.a, f.mb, f.kb, f.kc, f.pl.MR, f.pl.Stride(), f.panels) && PanelReady(buf, f, tid, i)
    requires InTurn(C, f, steps)
    modifies C
    ensures InTurn(C, f, steps[i := steps[i] + 1])
  {
    hide Mul, HoldsA, HoldsB, Padded, Partial, Source.At, Source.Groups, PanelOf;
    hide Plan.Stride, Plan.ApSize, Plan.BPanel, Plan.PerThread, Plan.Total;
    var pl, p := f.pl, steps[i] - 1;
    ThreadPlace(pl, tid, f.kc);
    PanelPlace(p, f.panels, pl.Stride(), f.kc, pl.MR);
    MulNext(p, pl.MR);
    RowsLeft(p, f.panels, pl.MR, f.mRows);
    PanelEnd(i, f.np, pl.NR);
    MulNext(i, pl.NR);
    PanelColumns(f.np, pl.NR);
    ColumnsOfPanel(i, pl.NR);
    assert PanelHeld(buf, f.a, f.mb, f.kb, f.kc, pl.MR, pl.Stride(), p);
    var row0, left := f.mb + Mul(p, pl.MR), f.mRows - Mul(p, pl.MR);
    Micro(buf, Mul(p, pl.Stride()), pl.BPanel(tid), C, row0, Mul(i, pl.NR), f.kc, Min(left, pl.MR), pl.MR, pl.NR,
          f.a, f.s, f.bias, f.kb);
  }

  /** No panel of a block is empty. */
  lemma {:induction false} RowsLeft(p: nat, panels: nat, MR: nat, mRows: nat)
    requires p < panels && Mul(panels, MR) < mRows + MR
    ensures Mul(p, MR) < mRows
  {
    MulMonotone(p + 1, panels, MR);
  }

  lemma {:induction false} MulZero(b: int)
    ensures Mul(0, b) == 0
  {
  }

  lemma {:induction false} MulNext(a: int, b: int)
    ensures Mul(a + 1, b) == Mul(a, b) + b
  {
  }

  /** What a block and its panels need of the plan. */
  ghost predicate Sized(pl: Plan, s: Source, gMax: nat, pMax: nat) {
    && pl.MR > 0 && pl.NR > 0 && pl.threads > 0 && gMax > 0 && pMax > 0 && s.group > 0
    && pl.kcMax == Mul(gMax, s.group) && pl.mc == Mul(pMax, pl.MR)
  }

  /** Column panel `i` can take its next step: it is in its thread's hand, or that has none and it is not yet begun. */
  predicate CanMove(f: Phase, owner: nat -> nat, steps: seq<nat>, i: nat) {
    && i < |steps| && steps[i] <= f.panels
    && (steps[i] == 0 ==> forall j: nat | j < |steps| && InHand(f, steps, j) :: owner(j) != owner(i))
  }

  ghost function StepsLeft(f: Phase, steps: seq<nat>): nat {
    if steps == [] then 0
    else StepsLeft(f, steps[..|steps| - 1]) + if steps[|steps| - 1] <= f.panels then f.panels + 1 - steps[|steps| - 1]
      else 0
  }

  lemma {:induction false} StepTaken(f: Phase, steps: seq<nat>, i: nat)
    requires i < |steps| && steps[i] <= f.panels
    ensures StepsLeft(f, steps[i := steps[i] + 1]) < StepsLeft(f, steps)
  {
    var l := |steps| - 1;
    if i < l {
      StepTaken(f, steps[..l], i);
      assert steps[i := steps[i] + 1][..l] == steps[..l][i := steps[i] + 1];
    } else {
      assert steps[i := steps[i] + 1][..l] == steps[..l];
    }
  }

  /** While a panel is unfinished, one can move. */
  lemma {:induction false} SomeCanMove(f: Phase, owner: nat -> nat, steps: seq<nat>, i: nat)
    requires i < |steps| && steps[i] <= f.panels
    ensures exists j: nat :: CanMove(f, owner, steps, j)
  {
    if j: nat :| j < |steps| && InHand(f, steps, j) {
      assert CanMove(f, owner, steps, j);
    } else {
      assert CanMove(f, owner, steps, i);
    }
  }

  /**
   One k-block. The row panels are packed first; then the threads take their column panels in any interleaving: at each
   turn any panel that can move is packed or multiplied by one more row panel.
   */
  method KBlock(f: Phase, C: array2<real>, buf: array<real>, owner: nat -> nat)
    requires f.Fits(C.Length0, C.Length1, buf.Length) && forall i :: owner(i) < f.pl.threads
    requires InPhase(C, f.a, f.s, f.bias, f.nPacked, f.mb, f.mb + f.mRows, f.kb)
    modifies C, buf
    ensures InPhase(C, f.a, f.s, f.bias, f.nPacked, f.mb, f.mb + f.mRows, f.kb + f.kc)
  {
    FitsFacts(f, C.Length0, C.Length1, buf.Length);
    hide Phase.Fits, BlockHeld, AllReady, InTurn, InPhase, Plan.Stride;
    PackBlock(f.a, C.Length0, f.s.K, f.mb, f.kb, f.kc, f.pl.MR, f.pl.Stride(), f.panels, buf);
    var steps: seq<nat> := seq(f.np, _ => 0);
    NoneBegun(C, buf, f, owner, steps);
    while exists i | 0 <= i < |steps| :: steps[i] <= f.panels
      invariant |steps| == f.np && (forall i | 0 <= i < |steps| :: steps[i] <= f.panels + 1)
      invariant OneInHand(f, owner, steps) && AllReady(buf, f, owner, steps) && InTurn(C, f, steps)
      invariant BlockHeld(buf, f.a, f.mb, f.kb, f.kc, f.pl.MR, f.pl.Stride(), f.panels)
      decreases StepsLeft(f, steps)
    {
      ghost var u :| 0 <= u < |steps| && steps[u] <= f.panels;
      SomeCanMove(f, owner, steps, u);
      var i: nat :| CanMove(f, owner, steps, i);
      StepTaken(f, steps, i);
      Turn(f, C, buf, owner, steps, i);
      steps := steps[i := steps[i] + 1];
    }
    AllFinished(C, f, steps);
  }

  /** One turn of panel `i`. */
  method Turn(f: Phase, C: array2<real>, buf: array<real>, owner: nat -> nat, steps: seq<nat>, i: nat)
    requires f.Fits(C.Length0, C.Length1, buf.Length) && |steps| == f.np && (forall i :: owner(i) < f.pl.threads)
    requires CanMove(f, owner, steps, i) && OneInHand(f, owner, steps) && AllReady(buf, f, owner, steps)
             && InTurn(C, f, steps)
    requires BlockHeld(buf, f.a, f.mb, f.kb, f.kc, f.pl.MR, f.pl.Stride(), f.panels)
    modifies C, buf
    ensures OneInHand(f, owner, steps[i := steps[i] + 1]) && AllReady(buf, f, owner, steps[i := steps[i] + 1])
    ensures InTurn(C, f, steps[i := steps[i] + 1])
    ensures BlockHeld(buf, f.a, f.mb, f.kb, f.kc, f.pl.MR, f.pl.Stride(), f.panels)
  {
    FitsFacts(f, C.Length0, C.Length1, buf.Length);
    HandsApart(f, owner, steps, i);
    hide Phase.Fits, BlockHeld, PanelReady, InTurn, OneInHand, Plan.Stride;
    if steps[i] == 0 {
      PackPanel(f, C.Length1, buf, owner, i, C.Length0, steps);
      PackingCountsNothing(C, f, steps, i);
    } else {
      MultiplyPanel(f, C, buf, owner(i), i, steps);
      assert forall j: nat | j < |steps| && InHand(f, steps[i := steps[i] + 1], j) :: InHand(f, steps, j);
    }
  }

  lemma {:induction false} FitsFacts(f: Phase, M: nat, N: nat, len: nat)
    requires f.Fits(M, N, len)
    ensures f.s.group > 0 && f.pl.NR > 0 && IsMatrix(f.a, M, f.s.K) && f.kb + f.kc <= f.s.K
    ensures 0 <= f.pl.Stride() && Mul(f.kc, f.pl.MR) <= f.pl.Stride() && Mul(f.panels, f.pl.Stride()) <= len
  {
  }

  lemma {:induction false} HandsApart(f: Phase, owner: nat -> nat, steps: seq<nat>, i: nat)
    requires CanMove(f, owner, steps, i) && OneInHand(f, owner, steps)
    ensures OneInHand(f, owner, steps[i := steps[i] + 1])
  {
    var next := steps[i := steps[i] + 1];
    forall j: nat, l: nat | j < |next| && l < |next| && j != l && InHand(f, next, j) && InHand(f, next, l)
      ensures owner(j) != owner(l)
    {
      assert j != i ==> InHand(f, steps, j);
      assert l != i ==> InHand(f, steps, l);
    }
  }

  /** Packing a panel takes in no column yet. */
  lemma {:induction false} PackingCountsNothing(C: array2<real>, f: Phase, steps: seq<nat>, i: nat)
    requires f.s.group > 0 && f.pl.NR > 0 && i < |steps| && steps[i] == 0 && InTurn(C, f, steps)
    ensures InTurn(C, f, steps[i := 1])
  {
    MulZero(f.pl.MR);
    hide Partial, PanelOf, Mul;
  }

  lemma {:induction false} NoneBegun(C: array2<real>, buf: array<real>, f: Phase, owner: nat -> nat, steps: seq<nat>)
    requires f.s.group > 0 && f.pl.NR > 0 && (forall i | 0 <= i < |steps| :: steps[i] == 0)
    requires InPhase(C, f.a, f.s, f.bias, f.nPacked, f.mb, f.mb + f.mRows, f.kb)
    ensures OneInHand(f, owner, steps) && AllReady(buf, f, owner, steps) && InTurn(C, f, steps)
  {
    hide Partial, PanelOf, Mul;
  }

  lemma {:induction false} AllFinished(C: array2<real>, f: Phase, steps: seq<nat>)
    requires f.Fits(C.Length0, C.Length1, f.pl.Total()) && |steps| == f.np && InTurn(C, f, steps)
    requires forall i | 0 <= i < |steps| :: steps[i] == f.panels + 1
    ensures InPhase(C, f.a, f.s, f.bias, f.nPacked, f.mb, f.mb + f.mRows, f.kb + f.kc)
  {
    PanelColumns(f.np, f.pl.NR);
    hide Partial, PanelOf, Mul, Source.Valid, Plan.Stride, Plan.ApSize, Plan.Total;
  }

  lemma {:induction false} PanelEnd(i: nat, np: nat, NR: nat)
    requires i < np
    ensures 0 <= Mul(i, NR) && Mul(i + 1, NR) <= Mul(np, NR)
  {
    MulMonotone(i + 1, np, NR);
  }

  lemma {:induction false} GroupSpan(gb: nat, groups: nat, total: nat, gMax: nat, group: nat)
    requires gb + groups <= total && groups <= gMax
    ensures 0 <= Mul(gb, group) && 0 <= Mul(groups, group) <= Mul(gMax, group)
    ensures Mul(gb + groups, group) == Mul(gb, group) + Mul(groups, group) <= Mul(total, group)
  {
    MulMonotone(groups, gMax, group);
    MulMonotone(gb + groups, total, group);
  }

  /** The k-blocks of one block of rows. */
  method RowBlock(pl: Plan, a: seq<seq<real>>, s: Source, bias: Option<seq<real>>, C: array2<real>, buf: array<real>,
                  gMax: nat,
                  mb: nat, mRows: nat, panels: nat, np: nat, nPacked: nat, owner: nat -> nat)
    requires s.Valid(C.Length1) && IsMatrix(a, C.Length0, s.K) && mb + mRows <= C.Length0
    requires gMax > 0 && pl.kcMax == Mul(gMax, s.group) && s.K == Mul(s.Groups(), s.group)
    requires (forall i :: owner(i) < pl.threads) && buf.Length == pl.Total()
    requires 0 <= pl.Stride() && Mul(panels, pl.Stride()) <= pl.ApSize() <= pl.Total()
    requires mRows <= Mul(panels, pl.MR) < mRows + pl.MR
    requires nPacked == Mul(np, pl.NR) <= C.Length1
    requires InPhase(C, a, s, bias, nPacked, mb, mb, 0) && pl.NR > 0
    modifies C, buf
    ensures InPhase(C, a, s, bias, nPacked, mb + mRows, mb + mRows, 0)
  {
    hide Mul, Partial, Plan.ApSize, Plan.Total, Source.At, Source.Groups;
    MulZero(s.group);
    var gb := 0;
    while gb < s.Groups()
      invariant 0 <= gb <= Max(s.Groups(), 0) && 0 <= Mul(gb, s.group)
      invariant InPhase(C, a, s, bias, nPacked, mb, mb + mRows, Mul(gb, s.group))
      decreases s.Groups() - gb
    {
      var groups := Min(s.Groups() - gb, gMax);
      var kb, kc := Mul(gb, s.group), Mul(groups, s.group);
      GroupSpan(gb, groups, s.Groups(), gMax, s.group);
      NarrowPanel(kc, pl.kcMax, pl.MR);
      KBlock(Phase(pl, a, s, bias, gb, groups, kb, kc, mb, mRows, panels, np, nPacked), C, buf, owner);
      gb := gb + groups;
    }
    AllGroups(s, C.Length1);
  }

  lemma {:induction false} NarrowPanel(kc: nat, kcMax: nat, MR: nat)
    requires kc <= kcMax
    ensures Mul(kc, MR) <= Mul(kcMax, MR)
  {
    MulMonotone(kc, kcMax, MR);
  }

  lemma {:induction false} AllGroups(s: Source, N: nat)
    requires s.Valid(N)
    ensures s.Groups() >= 0 && s.K == Mul(s.Groups(), s.group) && (s.K > 0 ==> s.Groups() >= 1)
  {
  }

  const KC := 256
  const L2_A := 320 * 1024
  const PACK_MIN_M := 4

  /** Block sizes: whole groups, and as many whole row panels as the cache share holds but no more than there are. */
  method ChoosePlan(M: nat, s: Source, MR: nat, NR: nat, threads: nat) returns (pl: Plan, gMax: nat, ghost pMax: nat)
    requires M > 0 && MR > 0 && NR > 0 && threads > 0 && s.group > 0 && s.Groups() >= 1
             && s.K == Mul(s.Groups(), s.group)
    ensures Sized(pl, s, gMax, pMax) && pl.MR == MR && pl.NR == NR && pl.threads == threads
    ensures var kc := Mul((KC + s.group - 1) / s.group, s.group);
            pl.kcMax == if kc > s.K then s.K else kc
  {
    KcMaxAsWritten(s);
    gMax := Min((KC + s.group - 1) / s.group, s.Groups());
    var kcMax := Mul(gMax, s.group);
    AtLeastOne(KC + s.group - 1, s.group);
    PositiveProduct(gMax, s.group);
    var mc := L2_A / (kcMax * 4);
    if mc < MR {
      mc := MR;
    }
    AtLeastOne(mc, MR);
    pMax := mc / MR;
    mc := Mul(mc / MR, MR);
    var mPadded := Mul((M + MR - 1) / MR, MR);
    if mc > mPadded {
      AtLeastOne(M + MR - 1, MR);
      pMax := (M + MR - 1) / MR;
      mc := mPadded;
    }
    PositiveProduct(pMax, MR);
    pl := Plan(MR, NR, kcMax, mc, threads);
  }

  /** The k-block the source computes: rounded up to whole groups, and never more than `K`. */
  lemma {:induction false} KcMaxAsWritten(s: Source)
    requires s.group > 0 && s.K == Mul(s.Groups(), s.group)
    ensures var kc := Mul((KC + s.group - 1) / s.group, s.group);
            Mul(Min((KC + s.group - 1) / s.group, s.Groups()), s.group) == if kc > s.K then s.K else kc
  {
    var q := (KC + s.group - 1) / s.group;
    if q <= s.Groups() {
      MulMonotone(q, s.Groups(), s.group);
    } else {
      MulMonotone(s.Groups() + 1, q, s.group);
    }
  }

  lemma {:induction false} AtLeastOne(a: int, b: int)
    requires a >= b > 0
    ensures a / b >= 1
  {
    DivAtLeast(a, b, 1);
  }

  lemma {:induction false} PositiveProduct(a: nat, b: nat)
    requires a > 0 && b > 0
    ensures Mul(a, b) > 0
  {
  }

  lemma {:induction false} PanelsOf(mRows: nat, pMax: nat, MR: nat, kcMax: nat, panels: nat)
    requires MR > 0 && mRows <= Mul(pMax, MR) && panels == Div(mRows + MR - 1, MR)
    ensures mRows <= Mul(panels, MR) < mRows + MR
    ensures 0 <= Mul(kcMax, MR) && Mul(panels, Mul(kcMax, MR)) <= Mul(Mul(pMax, MR), kcMax)
  {
    DivAtMost(mRows + MR - 1, MR, pMax) by {
      assert (pMax + 1) * MR == Mul(pMax, MR) + MR;
    }
    MulMonotone(0, kcMax, MR);
    MulMonotone(panels, pMax, kcMax * MR);
    assert Mul(Mul(pMax, MR), kcMax) == pMax * (kcMax * MR);
  }

  lemma {:induction false} ApInsideTotal(pl: Plan)
    ensures 0 <= pl.ApSize() <= pl.Total()
  {
    MulMonotone(0, pl.mc, pl.kcMax);
    MulMonotone(0, pl.kcMax, pl.NR);
    MulMonotone(0, pl.PerThread(), pl.threads);
  }

  /** Adds the product to the first `nPacked` columns of `C`, which must hold the bias. */
  method GemmPacked(a: seq<seq<real>>, s: Source, bias: Option<seq<real>>, C: array2<real>, np: nat, nPacked: nat,
                    MR: nat, NR: nat, threads: nat, owner: nat -> nat)
    requires s.K > 0 && s.Valid(C.Length1) && IsMatrix(a, C.Length0, s.K) && C.Length0 > 0 && MR > 0 && NR > 0
             && threads > 0
    requires (forall i :: owner(i) < threads) && nPacked == Mul(np, NR) <= C.Length1
    requires InPhase(C, a, s, bias, nPacked, 0, 0, 0)
    modifies C
    ensures InPhase(C, a, s, bias, nPacked, C.Length0, C.Length0, 0)
  {
    AllGroups(s, C.Length1);
    hide Mul, Div, InPhase, Partial, Source.At, Source.Groups, Plan.Total, Plan.ApSize;
    var pl, gMax;
    ghost var pMax;
    pl, gMax, pMax := ChoosePlan(C.Length0, s, MR, NR, threads);
    ApInsideTotal(pl);
    var buf := new real[pl.Total()];
    var M, mb := C.Length0, 0;
    while mb < M
      invariant 0 <= mb <= M
      invariant InPhase(C, a, s, bias, nPacked, mb, mb, 0)
    {
      var mRows := Min(M - mb, pl.mc);
      var panels := Div(mRows + MR - 1, MR);
      PanelsOf(mRows, pMax, MR, pl.kcMax, panels);
      ApSizeIs(pl);
      PositiveProduct(pMax, MR);
      RowBlock(pl, a, s, bias, C, buf, gMax, mb, mRows, panels, np, nPacked, owner);
      mb := mb + mRows;
    }
  }

  lemma {:induction false} ApSizeIs(pl: Plan)
    ensures pl.ApSize() == Mul(pl.mc, pl.kcMax)
  {
  }

  // ----- The layer

  method FillBias(C: array2<real>, bias: Option<seq<real>>, ghost a: seq<seq<real>>, ghost s: Source,
                  ghost nPacked: nat)
    requires s.group > 0
    modifies C
    ensures forall m, n | 0 <= m < C.Length0 && 0 <= n < C.Length1 :: C[m, n] == BiasAt(bias, n)
    ensures InPhase(C, a, s, bias, nPacked, 0, 0, 0)
  {
    for m := 0 to C.Length0
      invariant forall x, n | 0 <= x < m && 0 <= n < C.Length1 :: C[x, n] == BiasAt(bias, n)
    {
      for n := 0 to C.Length1
        invariant forall x, y | 0 <= x < C.Length0 && 0 <= y < C.Length1 && (x < m || (x == m && y < n)) ::
                    C[x, y] == BiasAt(bias, y)
      {
        C[m, n] := BiasAt(bias, n);
      }
    }
    assert forall m, n | 0 <= m < C.Length0 && 0 <= n < C.Length1 :: Partial(a, s, bias, m, n, 0) == BiasAt(bias, n);
  }

  /** Runs the packed path over whole panels of columns; returns how many columns it computed. */
  method PackedTry(a: seq<seq<real>>, s: Source, bias: Option<seq<real>>, C: array2<real>, MR: nat, NR: nat,
                   threads: nat,
                   owner: nat -> nat, allocOk: bool)
    returns (nLo: nat)
    requires s.Valid(C.Length1) && IsMatrix(a, C.Length0, s.K) && MR > 0 && NR > 0 && threads > 0
    requires (forall i :: owner(i) < threads) && (s.K > 0 || C.Length0 < PACK_MIN_M || C.Length1 < NR)
    modifies C
    ensures nLo <= C.Length1 && nLo % NR == 0
    ensures forall m, n | 0 <= m < C.Length0 && 0 <= n < nLo :: C[m, n] == Partial(a, s, bias, m, n, s.K)
  {
    hide Mul, InPhase, Partial, Source.At, Source.Groups;
    WholePanels(C.Length1, NR);
    if C.Length0 < PACK_MIN_M || s.K % 8 != 0 {
      return 0;
    }
    var np := C.Length1 / NR;
    var nPacked := Mul(np, NR);
    if nPacked == 0 {
      return 0;
    }
    FillBias(C, bias, a, s, nPacked);
    if !allocOk {
      return 0;
    }
    GemmPacked(a, s, bias, C, np, nPacked, MR, NR, threads, owner);
    PackedColumns(a, s, bias, C, nPacked);
    nLo := nPacked;
  }

  lemma {:induction false} WholePanels(N: nat, NR: nat)
    requires NR > 0
    ensures 0 <= N / NR && 0 <= Mul(N / NR, NR) <= N && Mul(N / NR, NR) % NR == 0 && 0 % NR == 0
    ensures N < NR ==> Mul(N / NR, NR) == 0
  {
    DivAtLeast(N, NR, 0);
    DivModOf(N / NR, NR, 0);
    DivModOf(0, NR, 0);
    if N < NR {
      DivAtMost(N, NR, 0);
    }
  }

  lemma {:induction false} PackedColumns(a: seq<seq<real>>, s: Source, bias: Option<seq<real>>, C: array2<real>,
                                         nPacked: nat)
    requires s.group > 0 && nPacked <= C.Length1 && InPhase(C, a, s, bias, nPacked, C.Length0, C.Length0, 0)
    ensures forall m, n | 0 <= m < C.Length0 && 0 <= n < nPacked :: C[m, n] == Partial(a, s, bias, m, n, s.K)
  {
    hide Partial;
  }

  /** Columns `nLo` on, one weight row at a time. */
  method RowLoop(a: seq<seq<real>>, s: Source, bias: Option<seq<real>>, C: array2<real>, nLo: nat)
    requires s.Valid(C.Length1) && IsMatrix(a, C.Length0, s.K) && nLo <= C.Length1
    modifies C
    ensures forall m, n | 0 <= m < C.Length0 && 0 <= n < C.Length1 ::
              C[m, n] == if n < nLo then old(C[m, n]) else Partial(a, s, bias, m, n, s.K)
  {
    var row := new real[s.K];
    for n := nLo to C.Length1
      invariant forall m, y | 0 <= m < C.Length0 && 0 <= y < C.Length1 && y < n ::
                  C[m, y] == if y < nLo then old(C[m, y]) else Partial(a, s, bias, m, y, s.K)
      invariant forall m, y | 0 <= m < C.Length0 && n <= y < C.Length1 :: C[m, y] == old(C[m, y])
    {
      AllGroups(s, C.Length1);
      MulZero(s.group);
      hide Mul, Div, Source.At, Source.Groups, Dot;
      DequantRow(s, C.Length1, n, 0, s.Groups(), row, 0);
      OneColumn(a, s, bias, C, n, row);
    }
  }

  /** Column `n`, from its weight row. */
  method OneColumn(a: seq<seq<real>>, s: Source, bias: Option<seq<real>>, C: array2<real>, n: nat, row: array<real>)
    requires s.group > 0 && IsMatrix(a, C.Length0, s.K) && n < C.Length1 && row.Length == s.K
    requires forall k | 0 <= k < s.K :: row[k] == s.At(n, k)
    modifies C
    ensures forall m, y | 0 <= m < C.Length0 && 0 <= y < C.Length1 ::
              C[m, y] == if y == n then Partial(a, s, bias, m, n, s.K) else old(C[m, y])
  {
    hide Source.At, Dot, BiasAt;
    for m := 0 to C.Length0
      invariant forall x, y | 0 <= x < C.Length0 && 0 <= y < C.Length1 ::
                  C[x, y] == if y == n && x < m then Partial(a, s, bias, x, n, s.K) else old(C[x, y])
    {
      var d := RowDot(a[m], row, s, n);
      C[m, n] := d + BiasAt(bias, n);
    }
  }

  method RowDot(x: seq<real>, row: array<real>, ghost s: Source, ghost n: nat) returns (d: real)
    requires s.group > 0 && |x| == row.Length == s.K && forall k | 0 <= k < s.K :: row[k] == s.At(n, k)
    ensures d == Dot(x, s, n, s.K)
  {
    hide Source.At;
    d := 0.0;
    for k := 0 to |x|
      invariant d == Dot(x, s, n, k)
    {
      d := d + x[k] * row[k];
    }
  }

  /** All the weights, row by row. */
  ghost function WeightRows(s: Source, N: nat): (w: seq<seq<real>>)
    requires s.group > 0
    ensures IsMatrix(w, N, s.K)
    ensures forall n: nat, k: nat | n < N && k < s.K :: w[n][k] == s.At(n, k)
  {
    seq(N, n requires 0 <= n < N => seq(s.K, k requires 0 <= k < s.K => s.At(n, k)))
  }

  lemma {:induction false} RowsFromBytes(s: Source, N: nat, w: seq<seq<real>>)
    requires s.Valid(N) && w == WeightRows(s, N)
    ensures IsMatrix(w, N, s.K)
    ensures forall n, k, b, g | 0 <= n < N && 0 <= k < s.K
              && 0 <= b < |s.w| && b == Mul(n, s.K / 2) + k / 2
              && 0 <= g < |s.scales| && g == Mul(n, Div(s.K, s.group)) + Div(k, s.group) ::
              w[n][k] == (if k % 2 == 0 then s.w[b] / 16 % 16 else s.w[b] % 16) as real * s.scales[g] + s.mins[g]
  {
    hide Source.At, Source.Valid, WeightRows, Mul, Div;
    assert s.group > 0 && |s.scales| == |s.mins| by {
      WeightBytes(s, N);
    }
    forall n, k, b, g | 0 <= n < N && 0 <= k < s.K
      && 0 <= b < |s.w| && b == Mul(n, s.K / 2) + k / 2
      && 0 <= g < |s.scales| && g == Mul(n, Div(s.K, s.group)) + Div(k, s.group)
      ensures w[n][k] == (if k % 2 == 0 then s.w[b] / 16 % 16 else s.w[b] % 16) as real * s.scales[g] + s.mins[g]
    {
      WeightAt(s, N, n, k, b, g);
    }
  }

  lemma {:induction false} LayerIs(a: seq<seq<real>>, s: Source, bias: Option<seq<real>>, C: array2<real>,
                                   weights: seq<seq<real>>)
    requires s.Valid(C.Length1) && IsMatrix(a, C.Length0, s.K) && weights == WeightRows(s, C.Length1)
    requires forall m, n | 0 <= m < C.Length0 && 0 <= n < C.Length1 :: C[m, n] == Partial(a, s, bias, m, n, s.K)
    ensures forall m, n | 0 <= m < C.Length0 && 0 <= n < C.Length1 ::
              C[m, n] == BiasAt(bias, n) + RSum(s.K, k => if 0 <= k < s.K then a[m][k] * weights[n][k] else 0.0)
  {
    hide Source.At, RSum, Dot, BiasAt, WeightRows, Mul, Source.Groups;
    forall m, n | 0 <= m < C.Length0 && 0 <= n < C.Length1
      ensures C[m, n] == BiasAt(bias, n) + RSum(s.K, k => if 0 <= k < s.K then a[m][k] * weights[n][k] else 0.0)
    {
      DotIsSum(a[m], s, n, s.K, k => if 0 <= k < s.K then a[m][k] * weights[n][k] else 0.0);
    }
  }

  /**
   The whole layer. Whatever the tile shape, the thread count, the thread that takes each panel, how the threads
   interleave, and whether the panels could be allocated, every output is its bias plus the full dot product.
   */
  method Int4Gemm(a: seq<seq<real>>, s: Source, bias: Option<seq<real>>, C: array2<real>, MR: nat, NR: nat,
                  threads: nat,
                  owner: nat -> nat, allocOk: bool)
    returns (st: Status, ghost weights: seq<seq<real>>)
    requires IsMatrix(a, C.Length0, s.K) && MR > 0 && NR > 0 && threads > 0 && forall i :: owner(i) < threads
    requires s.K > 0 || C.Length0 < PACK_MIN_M || C.Length1 < NR  // the source divides by the length of a k-block
    requires |s.w| == Mul(C.Length1, s.K / 2) && |s.scales| == |s.mins| == Mul(C.Length1, s.Groups())
    modifies C
    ensures st == Ok <==> s.group > 0 && s.K % s.group == 0 && s.group % 8 == 0
    ensures st != Ok ==> unchanged(C)
    ensures st == Ok ==> IsMatrix(weights, C.Length1, s.K)
    ensures st == Ok ==> forall n, k, b, g | 0 <= n < C.Length1 && 0 <= k < s.K
              && 0 <= b < |s.w| && b == Mul(n, s.K / 2) + k / 2
              && 0 <= g < |s.scales| && g == Mul(n, Div(s.K, s.group)) + Div(k, s.group) ::
              weights[n][k] == (if k % 2 == 0 then s.w[b] / 16 % 16 else s.w[b] % 16) as real * s.scales[g] + s.mins[g]
    ensures st == Ok ==> forall m, n | 0 <= m < C.Length0 && 0 <= n < C.Length1 ::
              var dot := RSum(s.K, k => if 0 <= k < s.K then a[m][k] * weights[n][k] else 0.0);
              && (bias.None? ==> C[m, n] == dot)
              && (bias.Some? && n < |bias.value| ==> C[m, n] == bias.value[n] + dot)
  {
    if s.group == 0 || s.K % s.group != 0 || s.group % 8 != 0 {
      return Unsupported, [];
    }
    weights := WeightRows(s, C.Length1);
    hide Mul, Div, Source.At, Source.Groups, Dot, RSum, Partial, WeightRows;
    RowsFromBytes(s, C.Length1, weights);
    var nLo := PackedTry(a, s, bias, C, MR, NR, threads, owner, allocOk);
    if nLo < C.Length1 {
      RowLoop(a, s, bias, C, nLo);
    }
    LayerIs(a, s, bias, C, weights);
    st := Ok;
  }
}
