/**
 Int8 times int8 (src/cpu/bitnet_cpu.c): the tile that moves the activation's sign onto the weight so that an
 unsigned-by-signed multiply can be used, and the driver that spreads tiles over threads.
 */
module Int8 {
  import opened Common
  import opened Arith
  import opened Sums
  import opened Lanes

  /** The plain dot product. */
  ghost function Dot(x: Vec, w: Vec, K: nat): int { Sum(K, k => At(x, k) * At(w, k)) }

  /** Weights are clamped to -127 .. 127. */
  predicate AreWeights(w: Vec) { forall i | 0 <= i < |w| :: -127 <= w[i] <= 127 }

  /** abs_epi8: magnitudes as unsigned bytes; 128 is one. */
  function AbsBytes(x: Vec): (r: Vec)
    ensures |r| == |x|
  {
    seq(|x|, i requires 0 <= i < |x| => if x[i] < 0 then -x[i] else x[i])
  }

  /** sign_epi8: `w` with the sign of `x`, zero where `x` is zero; -128 has no opposite. */
  function SignBytes(w: Vec, x: Vec): (r: Vec)
    requires |w| == |x|
    ensures |r| == |w|
  {
    seq(|w|, i requires 0 <= i < |w| =>
      if x[i] > 0 then w[i] else if x[i] == 0 then 0 else if w[i] == -128 then -128 else -w[i])
  }

  // ----- Wrapping sums

  lemma {:induction false} WrapAdd(a: int, b: int)
    ensures Wrap32(Wrap32(a) + b) == Wrap32(a + b)
  {
    WrapIs(a);
    var q := (a + 0x8000_0000) / 0x1_0000_0000;
    WrapMultiple(a + b, -q);
  }

  lemma {:induction false} WrapIs(a: int)
    ensures Wrap32(a) == a - 0x1_0000_0000 * ((a + 0x8000_0000) / 0x1_0000_0000)
  {
  }

  lemma {:induction false} WrapMultiple(a: int, q: int)
    ensures Wrap32(a + 0x1_0000_0000 * q) == Wrap32(a)
  {
    var c := a + 0x8000_0000;
    DivModOf(c / 0x1_0000_0000 + q, 0x1_0000_0000, c % 0x1_0000_0000);
  }

  /** Adding lanes up wraps like adding up what they stand for. */
  lemma {:induction false} HSumWraps(v: Vec, f: int -> int)
    requires forall i | 0 <= i < |v| :: v[i] == Wrap32(f(i))
    ensures HSum(v) == Wrap32(Sum(|v|, f))
  {
    hide Wrap32;
    if v == [] {
      WrapSmall(0);
    } else {
      var n := |v| - 1;
      HSumWraps(v[..n], f);
      SumStep(n, f);
      WrapAdd(Sum(n, f), v[n]);
      WrapAdd(f(n), Sum(n, f));
    }
  }

  // ----- Lanes of the sign-trick tile

  /** What lane `i` gets from chunk `c`: four neighbouring products. */
  function QuadTerm(x: Vec, w: Vec, c: int, i: int): int {
    var k := 32 * c + 4 * i;
    At(x, k) * At(w, k) + At(x, k + 1) * At(w, k + 1) + At(x, k + 2) * At(w, k + 2) + At(x, k + 3) * At(w, k + 3)
  }

  ghost function QuadRun(x: Vec, w: Vec, n: nat, i: int): int {
    if n == 0 then 0 else QuadRun(x, w, n - 1, i) + QuadTerm(x, w, n - 1, i)
  }

  lemma {:induction false} ChunkFromQuads(x: Vec, w: Vec, c: int)
    ensures Sum(32, e => At(x, 32 * c + e) * At(w, 32 * c + e)) == Sum(8, i => QuadTerm(x, w, c, i))
  {
    hide Sum, At;
    var g := (e: int) => At(x, 32 * c + e) * At(w, 32 * c + e);
    SumPairs(16, g, l => g(2 * l) + g(2 * l + 1));
    SumPairs(8, l => g(2 * l) + g(2 * l + 1), i => QuadTerm(x, w, c, i));
  }

  lemma {:induction false} QuadsTotal(x: Vec, w: Vec, n: nat)
    ensures Sum(8, i => QuadRun(x, w, n, i)) == Dot(x, w, 32 * n)
  {
    hide Sum, QuadTerm, At;
    if n == 0 {
      SumTimes(8, 0, i => 0, i => QuadRun(x, w, 0, i));
      SumNone(k => At(x, k) * At(w, k));
    } else {
      var c := n - 1;
      QuadsTotal(x, w, c);
      ChunkFromQuads(x, w, c);
      SumPlus(8, i => QuadRun(x, w, c, i), i => QuadTerm(x, w, c, i), i => QuadRun(x, w, n, i));
      SumSplit(32 * c, 32, k => At(x, k) * At(w, k), e => At(x, 32 * c + e) * At(w, 32 * c + e));
    }
  }

  /** The sign trick: magnitude times signed weight is the product, and a pair never saturates. */
  lemma {:induction false} SignTrick(x: Vec, w: Vec, i: nat)
    requires |x| == |w| && i < |x| && AreI8(x) && AreWeights(w)
    ensures AbsBytes(x)[i] * SignBytes(w, x)[i] == x[i] * w[i] && -16256 <= x[i] * w[i] <= 16256
  {
    SmallProduct(x[i], w[i]);
    if x[i] < 0 {
      assert (-x[i]) * (-w[i]) == x[i] * w[i];
    }
  }

  lemma {:induction false} SmallProduct(a: int, b: int)
    requires IsI8(a) && -127 <= b <= 127
    ensures -16256 <= a * b <= 16256
  {
    if b >= 0 {
      ScaledByte(a, b);
    } else {
      ScaledByte(a, -b);
      Opposite(a, b);
    }
  }

  lemma {:induction false} ScaledByte(a: int, m: int)
    requires IsI8(a) && 0 <= m <= 127
    ensures -16256 <= a * m <= 16256
  {
    MulMonotone(-128, a, m);
    MulMonotone(a, 127, m);
  }

  lemma {:induction false} Opposite(a: int, b: int)
    ensures a * (-b) == -(a * b)
  {
  }

  /** One chunk of 32 columns onto the eight 32-bit lanes. */
  function ChunkStep(acc: Vec, x: Vec, w: Vec): (r: Vec)
    requires |acc| == 8 && |x| == |w| == 32
    ensures |r| == 8
  {
    Add32(acc, MaddOnes(MaddUBS(AbsBytes(x), SignBytes(w, x))))
  }

  lemma {:induction false} PairLane(x: Vec, w: Vec, l: nat)
    requires |x| == |w| == 32 && AreI8(x) && AreWeights(w) && l < 16
    ensures MaddUBS(AbsBytes(x), SignBytes(w, x))[l] == x[2 * l] * w[2 * l] + x[2 * l + 1] * w[2 * l + 1]
    ensures -32512 <= MaddUBS(AbsBytes(x), SignBytes(w, x))[l] <= 32512
  {
    hide AbsBytes, SignBytes;
    SignTrick(x, w, 2 * l);
    SignTrick(x, w, 2 * l + 1);
  }

  lemma {:induction false} ChunkLane(acc: Vec, x: Vec, w: Vec, i: nat)
    requires |acc| == 8 && |x| == |w| == 32 && AreI8(x) && AreWeights(w) && i < 8
    ensures ChunkStep(acc, x, w)[i] == Wrap32(acc[i] + QuadTerm(x, w, 0, i))
  {
    hide MaddUBS, AbsBytes, SignBytes, Wrap32;
    PairLane(x, w, 2 * i);
    PairLane(x, w, 2 * i + 1);
  }

  lemma {:induction false} QuadMoves(x: Vec, w: Vec, c: nat, i: nat)
    requires 32 * c + 32 <= |x| && 32 * c + 32 <= |w| && i < 8
    ensures QuadTerm(x[32 * c..32 * c + 32], w[32 * c..32 * c + 32], 0, i) == QuadTerm(x, w, c, i)
  {
  }

  lemma {:induction false} SliceWeights(w: Vec, lo: nat, hi: nat)
    requires AreWeights(w) && lo <= hi <= |w|
    ensures AreWeights(w[lo..hi])
  {
    forall i | 0 <= i < hi - lo
      ensures -127 <= w[lo..hi][i] <= 127
    {
      assert w[lo..hi][i] == w[lo + i];
    }
  }

  ghost predicate LanesHold(x: Vec, w: Vec, acc: Vec, n: nat) {
    |acc| == 8 && forall i | 0 <= i < 8 :: acc[i] == Wrap32(QuadRun(x, w, n, i))
  }

  lemma {:induction false} ChunkHolds(x: Vec, w: Vec, acc: Vec, c: nat)
    requires AreI8(x) && AreWeights(w) && 32 * c + 32 <= |x| && 32 * c + 32 <= |w| && LanesHold(x, w, acc, c)
    ensures LanesHold(x, w, ChunkStep(acc, x[32 * c..32 * c + 32], w[32 * c..32 * c + 32]), c + 1)
  {
    hide ChunkStep, QuadTerm, Wrap32, AreI8, AreWeights;
    SliceI8(x, 32 * c, 32 * c + 32);
    SliceWeights(w, 32 * c, 32 * c + 32);
    var r := ChunkStep(acc, x[32 * c..32 * c + 32], w[32 * c..32 * c + 32]);
    forall i | 0 <= i < 8
      ensures r[i] == Wrap32(QuadRun(x, w, c + 1, i))
    {
      ChunkLane(acc, x[32 * c..32 * c + 32], w[32 * c..32 * c + 32], i);
      QuadMoves(x, w, c, i);
      WrapAdd(QuadRun(x, w, c, i), QuadTerm(x, w, c, i));
    }
  }

  /** One activation row against one weight row: whole chunks in lanes, then the tail one column at a time. */
  method DotLanes(x: Vec, w: Vec, K: nat) returns (s: int)
    requires |x| == |w| == K && AreI8(x) && AreWeights(w)
    ensures s == Wrap32(Dot(x, w, K))
  {
    hide ChunkStep, LanesHold, HSum, Wrap32, Sum, AreI8, AreWeights, Dot;
    var acc := Zeros(8);
    LanesStart(x, w);
    var k, c := 0, 0;
    while k + 32 <= K
      invariant k == 32 * c <= K && |acc| == 8 && 0 <= c && LanesHold(x, w, acc, c)
    {
      ChunkHolds(x, w, acc, c);
      acc := ChunkStep(acc, x[k..k + 32], w[k..k + 32]);
      k, c := k + 32, c + 1;
    }
    s := HSum(acc);
    LanesEnd(x, w, acc, c);
    while k < K
      invariant k <= K && s == Wrap32(Dot(x, w, k))
    {
      DotStep(x, w, k);
      WrapAdd(Dot(x, w, k), x[k] * w[k]);
      s := Wrap32(s + x[k] * w[k]);
      k := k + 1;
    }
  }

  lemma {:induction false} DotStep(x: Vec, w: Vec, k: nat)
    requires k < |x| && k < |w|
    ensures Dot(x, w, k + 1) == Dot(x, w, k) + x[k] * w[k]
  {
    hide Sum;
    SumStep(k, k => At(x, k) * At(w, k));
  }

  lemma {:induction false} LanesStart(x: Vec, w: Vec)
    ensures LanesHold(x, w, Zeros(8), 0)
  {
    WrapSmall(0);
  }

  lemma {:induction false} LanesEnd(x: Vec, w: Vec, acc: Vec, c: nat)
    requires LanesHold(x, w, acc, c)
    ensures HSum(acc) == Wrap32(Dot(x, w, 32 * c))
  {
    hide Sum, HSum, Wrap32, QuadRun, Dot;
    HSumWraps(acc, i => QuadRun(x, w, c, i));
    QuadsTotal(x, w, c);
  }

  /** The reference. */
  method DotScalar(x: Vec, w: Vec, K: nat) returns (s: int)
    requires |x| == |w| == K
    ensures s == Wrap32(Dot(x, w, K))
  {
    hide Wrap32, Dot;
    s := 0;
    DotNone(x, w);
    for k := 0 to K
      invariant s == Wrap32(Dot(x, w, k))
    {
      DotStep(x, w, k);
      WrapAdd(Dot(x, w, k), x[k] * w[k]);
      s := Wrap32(s + x[k] * w[k]);
    }
  }

  lemma {:induction false} DotNone(x: Vec, w: Vec)
    ensures Dot(x, w, 0) == 0 && Wrap32(Dot(x, w, 0)) == 0
  {
  }

  /** Up to 132103 columns the 32-bit result is the dot product itself. */
  lemma {:induction false} DotFits(x: Vec, w: Vec, K: nat)
    requires AreI8(x) && AreWeights(w) && K <= 132103
    ensures Wrap32(Dot(x, w, K)) == Dot(x, w, K)
  {
    hide Sum;
    forall k | 0 <= k < K
      ensures -16256 <= At(x, k) * At(w, k) <= 16256
    {
      SmallProduct(At(x, k), At(w, k));
    }
    SumBound(K, k => At(x, k) * At(w, k), -16256, 16256);
    WrapSmall(Dot(x, w, K));
  }

  datatype Isa = Scalar | Avx2

  /** Up to two activation rows against up to four weight rows; result `(t, r)` at `4 t + r`. */
  method Tile(isa: Isa, a: seq<Vec>, w: seq<Vec>, K: nat) returns (out: seq<int>)
    requires |a| <= 2 && |w| <= 4
    requires forall t | 0 <= t < |a| :: |a[t]| == K && AreI8(a[t])
    requires forall r | 0 <= r < |w| :: |w[r]| == K && AreWeights(w[r])
    ensures |out| == 8
    ensures forall t, r | 0 <= t < |a| && 0 <= r < |w| :: out[4 * t + r] == Wrap32(Dot(a[t], w[r], K))
  {
    hide Wrap32, Dot, AreI8, AreWeights;
    out := Zeros(8);
    for t := 0 to |a|
      invariant |out| == 8
      invariant forall x, r | 0 <= x < t && 0 <= r < |w| :: out[4 * x + r] == Wrap32(Dot(a[x], w[r], K))
    {
      for r := 0 to |w|
        invariant |out| == 8
        invariant forall x, y | 0 <= x <= t && 0 <= y < |w| && (x < t || y < r) ::
                    out[4 * x + y] == Wrap32(Dot(a[x], w[y], K))
      {
        var s;
        if isa == Avx2 {
          s := DotLanes(a[t], w[r], K);
        } else {
          s := DotScalar(a[t], w[r], K);
        }
        out := out[4 * t + r := s];
      }
    }
  }

  // ----- Work items

  /** An output of `M` rows and `N` columns, cut into tiles of 2 by 4. */
  datatype Grid = Grid(M: nat, N: nat)
  {
    function Groups(): nat { (N + 3) / 4 }

    function Tiles(): nat { (M + 1) / 2 }

    function Work(): int { Mul(Groups(), Tiles()) }

    /** Row-tile and column-group of work item `it`: row-major for few columns, column-major for many. */
    function TileOf(it: int): (int, int)
      requires M > 0 && N > 0
    {
      if N <= 512 then (it / Groups(), it % Groups()) else (it % Tiles(), it / Tiles())
    }

    function ItemOf(mt: int, g: int): int { if N <= 512 then Mul(mt, Groups()) + g else Mul(g, Tiles()) + mt }

    /** The work item that writes cell `(m, n)`. */
    function CellItem(m: int, n: int): int { ItemOf(m / 2, n / 4) }
  }

  lemma {:induction false} Commutes(a: int, b: int)
    ensures Mul(a, b) == Mul(b, a)
  {
  }

  lemma {:induction false} JoinIndex(q: nat, n: nat, r: nat, d: nat)
    requires q < n && r < d
    ensures 0 <= Mul(q, d) + r < Mul(n, d) && (Mul(q, d) + r) / d == q && (Mul(q, d) + r) % d == r
  {
    DivModOf(q, d, r);
    MulMonotone(q + 1, n, d);
  }

  /** Work items and tiles correspond one to one, in both loop orders. */
  lemma {:induction false} ItemsAreTiles(z: Grid, mt: nat, g: nat)
    requires z.M > 0 && z.N > 0 && mt < z.Tiles() && g < z.Groups()
    ensures 0 <= z.ItemOf(mt, g) < z.Work() && z.TileOf(z.ItemOf(mt, g)) == (mt, g)
  {
    hide Mul, Grid.Groups, Grid.Tiles;
    var g4, t2 := z.Groups(), z.Tiles();
    Commutes(g4, t2);
    if z.N <= 512 {
      JoinIndex(mt, t2, g, g4);
    } else {
      JoinIndex(g, g4, mt, t2);
    }
  }

  lemma {:induction false} TilesAreItems(z: Grid, it: nat)
    requires z.M > 0 && z.N > 0 && it < z.Work()
    ensures var (mt, g) := z.TileOf(it);
            0 <= mt < z.Tiles() && 0 <= g < z.Groups() && z.ItemOf(mt, g) == it
  {
    assert z.Groups() > 0 && z.Tiles() > 0;
    var g, t := z.Groups(), z.Tiles();
    assert Mul(g, t) == Mul(t, g);
    hide Mul, Grid.Groups, Grid.Tiles;
    if z.N <= 512 {
      SplitIndex(it, t, g);
    } else {
      SplitIndex(it, g, t);
    }
  }

  lemma {:induction false} SplitIndex(it: nat, q: nat, d: nat)
    requires d > 0 && it < Mul(q, d)
    ensures 0 <= it / d < q && 0 <= it % d < d && Mul(it / d, d) + it % d == it
  {
    DivAtMost(it, d, q - 1);
  }

  /** Every cell belongs to exactly one work item: the one whose tile it lies in. */
  lemma {:induction false} CellOfItem(z: Grid, it: nat, m: nat, n: nat)
    requires z.M > 0 && z.N > 0 && it < z.Work() && m < z.M && n < z.N
    ensures var (mt, g) := z.TileOf(it);
            z.CellItem(m, n) == it <==> (2 * mt <= m < 2 * mt + 2 && 4 * g <= n < 4 * g + 4)
    ensures 0 <= z.CellItem(m, n) < z.Work()
  {
    hide Mul;
    TilesAreItems(z, it);
    ItemsAreTiles(z, m / 2, n / 4);
  }

  /** An order in which the work items are finished, whatever the threads do: each of them once. */
  ghost predicate IsSchedule(order: seq<nat>, work: int) {
    && (forall i | 0 <= i < |order| :: order[i] < work)
    && (forall it: nat | it < work :: it in order)
    && (forall i, j | 0 <= i < j < |order| :: order[i] != order[j])
  }

  /** `a` times `w`, scaled by `d`, plus a bias. */
  datatype Job = Job(a: seq<Vec>, w: seq<Vec>, K: nat, d: real, bias: Option<seq<real>>)
  {
    function Size(): Grid { Grid(|a|, |w|) }

    ghost predicate Valid() {
      && (forall m | 0 <= m < |a| :: |a[m]| == K && AreI8(a[m]))
      && (forall n | 0 <= n < |w| :: |w[n]| == K && AreWeights(w[n]))
    }

    /** The sum in cell `(m, n)`, and its value. */
    ghost function Cell(m: nat, n: nat): int
      requires m < |a| && n < |w|
    {
      Wrap32(Dot(a[m], w[n], K))
    }

    function Scaled(sum: int, n: nat): real { sum as real * d + BiasAt(bias, n) }

    ghost function Value(m: nat, n: nat): real
      requires m < |a| && n < |w|
    {
      Scaled(Cell(m, n), n)
    }

    /** Either output may be absent. */
    predicate Fits(acc: array2?<int>, y: array2?<real>) {
      && (acc != null ==> acc.Length0 == |a| && acc.Length1 == |w|)
      && (y != null ==> y.Length0 == |a| && y.Length1 == |w|)
    }
  }

  /** One row of a tile into whichever outputs there are; the running maximum is kept for the scaled one. */
  method WriteRow(job: Job, o: seq<int>, m: nat, n0: nat, acc: array2?<int>, y: array2?<real>, amax0: real)
    returns (amax: real)
    requires job.Fits(acc, y) && m < |job.a| && n0 + |o| <= |job.w|
    modifies acc, y
    ensures acc != null ==> forall i, n | 0 <= i < acc.Length0 && 0 <= n < acc.Length1 ::
              acc[i, n] == if i == m && n0 <= n < n0 + |o| then o[n - n0] else old(acc[i, n])
    ensures y != null ==> forall i, n | 0 <= i < y.Length0 && 0 <= n < y.Length1 ::
              y[i, n] == if i == m && n0 <= n < n0 + |o| then job.Scaled(o[n - n0], n) else old(y[i, n])
    ensures IsMaxOf(job, o, n0, y != null, amax0, amax)
  {
    hide Job.Scaled, Abs;
    amax := amax0;
    for r := 0 to |o|
      invariant acc != null ==> forall i, n | 0 <= i < acc.Length0 && 0 <= n < acc.Length1 ::
                  acc[i, n] == if i == m && n0 <= n < n0 + r then o[n - n0] else old(acc[i, n])
      invariant y != null ==> forall i, n | 0 <= i < y.Length0 && 0 <= n < y.Length1 ::
                  y[i, n] == if i == m && n0 <= n < n0 + r then job.Scaled(o[n - n0], n) else old(y[i, n])
      invariant IsMaxOf(job, o[..r], n0, y != null, amax0, amax)
    {
      if acc != null {
        acc[m, n0 + r] := o[r];
      }
      var v := job.Scaled(o[r], n0 + r);
      MaxStep(job, o[..r], o[r], n0, y != null, amax0, amax);
      assert o[..r + 1] == o[..r] + [o[r]];
      if y != null {
        y[m, n0 + r] := v;
        var av := Abs(v);
        if av > amax {
          amax := av;
        }
      }
    }
    assert o[..|o|] == o;
  }

  /** `amax` is the largest of `amax0` and, where they count, of the magnitudes of the scaled sums from `n0` on. */
  ghost predicate IsMaxOf(job: Job, o: seq<int>, n0: nat, counts: bool, amax0: real, amax: real) {
    && amax >= amax0 && (!counts ==> amax == amax0)
    && (counts ==> forall r | 0 <= r < |o| :: Abs(job.Scaled(o[r], n0 + r)) <= amax)
    && (amax == amax0 || exists r :: 0 <= r < |o| && Abs(job.Scaled(o[r], n0 + r)) == amax)
  }

  lemma {:induction false} MaxStep(job: Job, o: seq<int>, x: int, n0: nat, counts: bool, amax0: real, amax: real)
    requires IsMaxOf(job, o, n0, counts, amax0, amax)
    ensures var av := Abs(job.Scaled(x, n0 + |o|));
            IsMaxOf(job, o + [x], n0, counts, amax0, if counts && av > amax then av else amax)
  {
    hide Job.Scaled, Abs;
    var p := o + [x];
    assert p[|o|] == x;
    if amax != amax0 {
      var r :| 0 <= r < |o| && Abs(job.Scaled(o[r], n0 + r)) == amax;
      assert p[r] == o[r];
    }
  }

  /** A tile of `nt` by `nr` results, row by row. */
  method WriteTile(job: Job, o: seq<int>, m0: nat, nt: nat, n0: nat, nr: nat, acc: array2?<int>, y: array2?<real>,
                   amax0: real)
    returns (amax: real)
    requires |o| == 8 && nt <= 2 && nr <= 4 && job.Fits(acc, y) && m0 + nt <= |job.a| && n0 + nr <= |job.w|
    requires forall m, n | m0 <= m < m0 + nt && n0 <= n < n0 + nr :: job.Cell(m, n) == o[4 * (m - m0) + (n - n0)]
    modifies acc, y
    ensures acc != null ==> forall m, n | 0 <= m < acc.Length0 && 0 <= n < acc.Length1 ::
              acc[m, n] == if m0 <= m < m0 + nt && n0 <= n < n0 + nr then job.Cell(m, n) else old(acc[m, n])
    ensures y != null ==> forall m, n | 0 <= m < y.Length0 && 0 <= n < y.Length1 ::
              y[m, n] == if m0 <= m < m0 + nt && n0 <= n < n0 + nr then job.Value(m, n) else old(y[m, n])
    ensures amax >= amax0 && (y == null ==> amax == amax0)
    ensures y != null ==> forall m, n | m0 <= m < m0 + nt && n0 <= n < n0 + nr :: Abs(job.Value(m, n)) <= amax
    ensures amax == amax0 || exists m, n :: m0 <= m < m0 + nt && n0 <= n < n0 + nr && Abs(job.Value(m, n)) == amax
  {
    hide Job.Scaled, Job.Cell, Abs, IsMaxOf;
    amax := amax0;
    ghost var wm, wn := m0, n0;  // where the maximum was found
    for t := 0 to nt
      invariant acc != null ==> forall m, n | 0 <= m < acc.Length0 && 0 <= n < acc.Length1 ::
                  acc[m, n] == if m0 <= m < m0 + t && n0 <= n < n0 + nr then job.Cell(m, n) else old(acc[m, n])
      invariant y != null ==> forall m, n | 0 <= m < y.Length0 && 0 <= n < y.Length1 ::
                  y[m, n] == if m0 <= m < m0 + t && n0 <= n < n0 + nr then job.Value(m, n) else old(y[m, n])
      invariant amax >= amax0 && (y == null ==> amax == amax0)
      invariant y != null ==> forall m, n | m0 <= m < m0 + t && n0 <= n < n0 + nr :: Abs(job.Value(m, n)) <= amax
      invariant amax == amax0 || (m0 <= wm < m0 + t && n0 <= wn < n0 + nr && Abs(job.Value(wm, wn)) == amax)
    {
      ghost var was := amax;
      var row := o[4 * t..4 * t + nr];
      forall r | 0 <= r < nr
        ensures row[r] == job.Cell(m0 + t, n0 + r)
      {
        assert job.Cell(m0 + t, n0 + r) == o[4 * t + r];
      }
      amax := WriteRow(job, row, m0 + t, n0, acc, y, amax);
      RowMax(job, row, m0 + t, n0, y != null, was, amax);
      if amax != was {
        ghost var n :| n0 <= n < n0 + nr && Abs(job.Value(m0 + t, n)) == amax;
        wm, wn := m0 + t, n;
      }
    }
  }

  /** `IsMaxOf` of a row of cells, said of their values. */
  lemma {:induction false} RowMax(job: Job, o: seq<int>, m: nat, n0: nat, counts: bool, amax0: real, amax: real)
    requires m < |job.a| && n0 + |o| <= |job.w| && IsMaxOf(job, o, n0, counts, amax0, amax)
    requires forall r | 0 <= r < |o| :: o[r] == job.Cell(m, n0 + r)
    ensures amax >= amax0 && (!counts ==> amax == amax0)
    ensures counts ==> forall n | n0 <= n < n0 + |o| :: Abs(job.Value(m, n)) <= amax
    ensures amax == amax0 || exists n :: n0 <= n < n0 + |o| && Abs(job.Value(m, n)) == amax
  {
    hide Job.Scaled, Job.Cell, Abs;
    forall n | n0 <= n < n0 + |o|
      ensures job.Value(m, n) == job.Scaled(o[n - n0], n)
    {
      assert o[n - n0] == job.Cell(m, n0 + (n - n0));
    }
    if amax != amax0 {
      var r :| 0 <= r < |o| && Abs(job.Scaled(o[r], n0 + r)) == amax;
      assert job.Value(m, n0 + r) == job.Scaled(o[r], n0 + r);
    }
  }

  /** The cells of a work item are those of its tile. */
  lemma {:induction false} TileCells(z: Grid, it: nat, m0: nat, nt: nat, n0: nat, nr: nat)
    requires z.M > 0 && z.N > 0 && it < z.Work() && m0 < z.M && n0 < z.N
    requires z.TileOf(it) == (m0 / 2, n0 / 4) && m0 % 2 == 0 && n0 % 4 == 0
    requires nt == Min(z.M - m0, 2) && nr == Min(z.N - n0, 4)
    ensures forall m: nat, n: nat | m < z.M && n < z.N ::
              z.CellItem(m, n) == it <==> m0 <= m < m0 + nt && n0 <= n < n0 + nr
  {
    hide Grid.CellItem, Grid.Work, Grid.TileOf;
    forall m: nat, n: nat | m < z.M && n < z.N
      ensures z.CellItem(m, n) == it <==> m0 <= m < m0 + nt && n0 <= n < n0 + nr
    {
      CellOfItem(z, it, m, n);
    }
  }

  /** One work item: computes its tile and writes it; `amax` is the running maximum of its thread. */
  method DoItem(isa: Isa, job: Job, it: nat, acc: array2?<int>, y: array2?<real>, amax0: real) returns (amax: real)
    requires job.Valid() && |job.a| > 0 && |job.w| > 0 && job.Fits(acc, y) && it < job.Size().Work()
    modifies acc, y
    ensures acc != null ==> forall m, n | 0 <= m < acc.Length0 && 0 <= n < acc.Length1 ::
              acc[m, n] == if job.Size().CellItem(m, n) == it then job.Cell(m, n) else old(acc[m, n])
    ensures y != null ==> forall m, n | 0 <= m < y.Length0 && 0 <= n < y.Length1 ::
              y[m, n] == if job.Size().CellItem(m, n) == it then job.Value(m, n) else old(y[m, n])
    ensures ItemMax(job, it, y != null, amax0, amax)
  {
    hide Mul, Wrap32, Dot, AreI8, AreWeights, Job.Scaled;
    var z := job.Size();
    var (mt, g) := z.TileOf(it);
    TilesAreItems(z, it);
    var m0, n0 := 2 * mt, 4 * g;
    var nt, nr := Min(z.M - m0, 2), Min(z.N - n0, 4);
    var o := Tile(isa, job.a[m0..m0 + nt], job.w[n0..n0 + nr], job.K);
    TileCells(z, it, m0, nt, n0, nr);
    hide Grid.CellItem, Grid.Work, Grid.TileOf, Job.Valid, Abs;
    forall m, n | m0 <= m < m0 + nt && n0 <= n < n0 + nr
      ensures job.Cell(m, n) == o[4 * (m - m0) + (n - n0)]
    {
      var t, r := m - m0, n - n0;
      assert job.a[m0..m0 + nt][t] == job.a[m] && job.w[n0..n0 + nr][r] == job.w[n];
      assert o[4 * t + r] == Wrap32(Dot(job.a[m0..m0 + nt][t], job.w[n0..n0 + nr][r], job.K));
    }
    amax := WriteTile(job, o, m0, nt, n0, nr, acc, y, amax0);
  }

  /** `amax` is the largest of `amax0` and, where they count, the magnitudes of the cells of work item `it`. */
  ghost predicate ItemMax(job: Job, it: nat, counts: bool, amax0: real, amax: real) {
    && amax >= amax0 && (!counts ==> amax == amax0)
    && (counts ==> forall m, n | 0 <= m < |job.a| && 0 <= n < |job.w| && job.Size().CellItem(m, n) == it ::
          Abs(job.Value(m, n)) <= amax)
    && (amax == amax0
        || exists m, n ::
             0 <= m < |job.a| && 0 <= n < |job.w| && job.Size().CellItem(m, n) == it && Abs(job.Value(m, n)) == amax)
  }

  /** The cells whose work items are among the first `i` of the schedule. */
  ghost predicate Finished(z: Grid, order: seq<nat>, i: nat, m: nat, n: nat)
    requires i <= |order|
  {
    exists j :: 0 <= j < i && order[j] == z.CellItem(m, n)
  }

  ghost predicate CellsHold(job: Job, acc: array2?<int>, y: array2?<real>, order: seq<nat>, i: nat)
    reads acc, y
    requires job.Fits(acc, y) && i <= |order|
  {
    && (acc != null ==> forall m, n | 0 <= m < acc.Length0 && 0 <= n < acc.Length1 ::
          Finished(job.Size(), order, i, m, n) ==> acc[m, n] == job.Cell(m, n))
    && (y != null ==> forall m, n | 0 <= m < y.Length0 && 0 <= n < y.Length1 ::
          Finished(job.Size(), order, i, m, n) ==> y[m, n] == job.Value(m, n))
  }

  /** The largest magnitude thread `t` has written so far, where magnitudes count. */
  ghost predicate ThreadMax(job: Job, counts: bool, order: seq<nat>, owner: nat -> nat, i: nat, t: nat, amax: real)
    requires i <= |order|
  {
    && amax >= 0.0 && (!counts ==> amax == 0.0)
    && (counts ==> forall j, m, n | 0 <= j < i && 0 <= m < |job.a| && 0 <= n < |job.w| ::
          order[j] == job.Size().CellItem(m, n) && owner(order[j]) == t ==> Abs(job.Value(m, n)) <= amax)
    && (amax == 0.0 || exists m, n :: 0 <= m < |job.a| && 0 <= n < |job.w| && Abs(job.Value(m, n)) == amax)
  }

  method DriveItems(isa: Isa, job: Job, acc: array2?<int>, y: array2?<real>, order: seq<nat>, owner: nat -> nat,
                    threads: nat)
    returns (tmax: seq<real>)
    requires job.Valid() && |job.a| > 0 && |job.w| > 0 && job.Fits(acc, y) && forall it :: owner(it) < threads
    requires IsSchedule(order, job.Size().Work())
    modifies acc, y
    ensures |tmax| == threads && CellsHold(job, acc, y, order, |order|)
    ensures forall t | 0 <= t < threads :: ThreadMax(job, y != null, order, owner, |order|, t, tmax[t])
  {
    hide Job.Valid, Grid.Work, Grid.CellItem, Job.Cell, Job.Value, ThreadMax, ItemMax;
    tmax := seq(threads, _ => 0.0);
    forall t | 0 <= t < threads
      ensures ThreadMax(job, y != null, order, owner, 0, t, tmax[t])
    {
      NothingWritten(job, y != null, order, owner, t);
    }
    for i := 0 to |order|
      invariant |tmax| == threads && CellsHold(job, acc, y, order, i)
      invariant forall t | 0 <= t < threads :: ThreadMax(job, y != null, order, owner, i, t, tmax[t])
    {
      var it := order[i];
      var t := owner(it);
      var amax := DoItem(isa, job, it, acc, y, tmax[t]);
      forall u | 0 <= u < threads {
        ThreadStep(job, y != null, order, owner, i, u, tmax[u], amax);
      }
      tmax := tmax[t := amax];
    }
  }

  lemma {:induction false} NothingWritten(job: Job, counts: bool, order: seq<nat>, owner: nat -> nat, t: nat)
    ensures ThreadMax(job, counts, order, owner, 0, t, 0.0)
  {
  }

  lemma {:induction false} ThreadStep(job: Job, counts: bool, order: seq<nat>, owner: nat -> nat, i: nat, t: nat,
                                      was: real, amax: real)
    requires i < |order| && ThreadMax(job, counts, order, owner, i, t, was)
    requires owner(order[i]) == t ==> ItemMax(job, order[i], counts, was, amax)
    ensures ThreadMax(job, counts, order, owner, i + 1, t, if owner(order[i]) == t then amax else was)
  {
    hide Job.Value, Grid.CellItem, Abs;
  }

  method MaxOf(tmax: seq<real>) returns (m: real)
    ensures m >= 0.0 && (forall t | 0 <= t < |tmax| :: tmax[t] <= m)
    ensures m == 0.0 || exists t :: 0 <= t < |tmax| && tmax[t] == m
  {
    m := 0.0;
    for t := 0 to |tmax|
      invariant m >= 0.0 && (forall u | 0 <= u < t :: tmax[u] <= m)
      invariant m == 0.0 || exists u :: 0 <= u < t && tmax[u] == m
    {
      if tmax[t] > m {
        m := tmax[t];
      }
    }
  }

  /**
   Every output is its dot product, scaled, whatever thread takes which item and in whatever order they finish; and the
   maxima of the threads combine to the largest magnitude written. Either output may be absent.
   */
  method Drive(isa: Isa, job: Job, acc: array2?<int>, y: array2?<real>, order: seq<nat>, owner: nat -> nat,
               threads: nat)
    returns (st: Status, absmax: real)
    requires job.Valid() && threads > 0 && (forall it :: owner(it) < threads) && job.Fits(acc, y)
    requires IsSchedule(order, job.Size().Work())
    modifies acc, y
    ensures st == Ok <==> |job.a| > 0 && |job.w| > 0 && job.K > 0
    ensures st != Ok ==> (acc != null ==> unchanged(acc)) && (y != null ==> unchanged(y))
    ensures st == Ok && acc != null ==> forall m, n | 0 <= m < acc.Length0 && 0 <= n < acc.Length1 ::
              acc[m, n] == Wrap32(Dot(job.a[m], job.w[n], job.K))
    ensures st == Ok && y != null ==> forall m, n | 0 <= m < y.Length0 && 0 <= n < y.Length1 ::
              var v := Wrap32(Dot(job.a[m], job.w[n], job.K)) as real * job.d;
              && (job.bias.None? ==> y[m, n] == v)
              && (job.bias.Some? && n < |job.bias.value| ==> y[m, n] == v + job.bias.value[n])
    ensures st == Ok && y != null ==>
              absmax >= 0.0 && forall m, n | 0 <= m < y.Length0 && 0 <= n < y.Length1 ::
                -absmax <= y[m, n] <= absmax
    ensures st == Ok && y != null ==>
              absmax == 0.0
              || exists m, n ::
                   0 <= m < y.Length0 && 0 <= n < y.Length1 && (y[m, n] == absmax || y[m, n] == -absmax)
    ensures y == null ==> absmax == 0.0
  {
    hide Job.Valid, Grid.Work, Job.Cell, Job.Value, CellsHold, ThreadMax, IsSchedule, Abs;
    if |job.a| == 0 || |job.w| == 0 || job.K == 0 {
      return InvalidArg, 0.0;
    }
    var tmax := DriveItems(isa, job, acc, y, order, owner, threads);
    absmax := MaxOf(tmax);
    OutputsHold(job, acc, y, order);
    MaximaCombine(job, y != null, order, owner, tmax, absmax);
    MagnitudesAre(job, y != null, absmax);
    ValuesAre(job);
    st := Ok;
  }

  lemma {:induction false} ValuesAre(job: Job)
    ensures forall m: nat, n: nat | m < |job.a| && n < |job.w| ::
              var s := Wrap32(Dot(job.a[m], job.w[n], job.K));
              && job.Cell(m, n) == s
              && (job.bias.None? ==> job.Value(m, n) == s as real * job.d)
              && (job.bias.Some? && n < |job.bias.value| ==>
                    job.Value(m, n) == s as real * job.d + job.bias.value[n])
  {
    hide Wrap32, Dot, BiasAt;
  }

  lemma {:induction false} MagnitudesAre(job: Job, counts: bool, absmax: real)
    requires counts ==> forall m: nat, n: nat | m < |job.a| && n < |job.w| :: Abs(job.Value(m, n)) <= absmax
    requires absmax == 0.0 || exists m: nat, n: nat :: m < |job.a| && n < |job.w| && Abs(job.Value(m, n)) == absmax
    ensures counts ==>
              forall m: nat, n: nat | m < |job.a| && n < |job.w| :: -absmax <= job.Value(m, n) <= absmax
    ensures absmax == 0.0
            || exists m: nat, n: nat ::
                 m < |job.a| && n < |job.w| && (job.Value(m, n) == absmax || job.Value(m, n) == -absmax)
  {
    hide Job.Value;
  }

  lemma {:induction false} OutputsHold(job: Job, acc: array2?<int>, y: array2?<real>, order: seq<nat>)
    requires |job.a| > 0 && |job.w| > 0 && job.Fits(acc, y) && IsSchedule(order, job.Size().Work())
    requires CellsHold(job, acc, y, order, |order|)
    ensures acc != null ==> forall m, n | 0 <= m < acc.Length0 && 0 <= n < acc.Length1 :: acc[m, n] == job.Cell(m, n)
    ensures y != null ==> forall m, n | 0 <= m < y.Length0 && 0 <= n < y.Length1 :: y[m, n] == job.Value(m, n)
  {
    hide Job.Cell, Job.Value, Grid.Work, Grid.CellItem, IsSchedule;
    AllFinished(job.Size(), order);
    hide Finished;
  }

  lemma {:induction false} MaximaCombine(job: Job, counts: bool, order: seq<nat>, owner: nat -> nat, tmax: seq<real>,
                                         absmax: real)
    requires |job.a| > 0 && |job.w| > 0 && IsSchedule(order, job.Size().Work()) && (forall it :: owner(it) < |tmax|)
    requires forall t | 0 <= t < |tmax| ::
               ThreadMax(job, counts, order, owner, |order|, t, tmax[t]) && tmax[t] <= absmax
    requires absmax == 0.0 || exists t :: 0 <= t < |tmax| && tmax[t] == absmax
    ensures counts ==> forall m: nat, n: nat | m < |job.a| && n < |job.w| :: Abs(job.Value(m, n)) <= absmax
    ensures absmax == 0.0 || exists m: nat, n: nat :: m < |job.a| && n < |job.w| && Abs(job.Value(m, n)) == absmax
    ensures !counts ==> absmax == 0.0
  {
    hide Job.Value, Grid.Work, Grid.CellItem, IsSchedule, Abs;
    AllFinished(job.Size(), order);
    if counts {
      forall m: nat, n: nat | m < |job.a| && n < |job.w|
        ensures Abs(job.Value(m, n)) <= absmax
      {
        assert Finished(job.Size(), order, |order|, m, n);
        var j :| 0 <= j < |order| && order[j] == job.Size().CellItem(m, n);
        assert ThreadMax(job, counts, order, owner, |order|, owner(order[j]), tmax[owner(order[j])]);
      }
    }
  }

  lemma {:induction false} AllFinished(z: Grid, order: seq<nat>)
    requires z.M > 0 && z.N > 0 && IsSchedule(order, z.Work())
    ensures forall m: nat, n: nat | m < z.M && n < z.N :: Finished(z, order, |order|, m, n)
  {
    forall m: nat, n: nat | m < z.M && n < z.N
      ensures Finished(z, order, |order|, m, n)
    {
      ItemsAreTiles(z, m / 2, n / 4);
      assert z.CellItem(m, n) in order;
    }
  }
}
