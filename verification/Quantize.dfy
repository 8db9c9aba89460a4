/** Activations to int8, one scale a row (src/cpu/cpu_int8.c): codes in a chosen order, and their sums by runs of 32. */
module Quantize {
  import opened Common
  import opened Arith
  import opened Sums
  import opened Bits
  import opened Q8

  /** The largest magnitude of a row. */
  ghost predicate IsAbsMax(x: seq<real>, amax: real) {
    && amax >= 0.0
    && (forall k | 0 <= k < |x| :: Abs(x[k]) <= amax)
    && (amax == 0.0 || exists k :: 0 <= k < |x| && Abs(x[k]) == amax)
  }

  function Inverse(amax: real): real { if amax > 0.0 then 127.0 / amax else 0.0 }

  function Clamp(v: int): int { if v > 127 then 127 else if v < -127 then -127 else v }

  /** The code of `v` in a row whose largest magnitude is `amax`. */
  function QuantOf(v: real, amax: real): int { CodeOf(v, Inverse(amax)) }

  function CodeOf(v: real, inv: real): int { Clamp(Rounded(v, inv)) }

  function Rounded(v: real, inv: real): int { RoundEven(v * inv) }

  lemma {:induction false} Scaled(v: real, amax: real, u: real)
    requires Abs(v) <= amax && amax > 0.0 && u == v * Inverse(amax)
    ensures -127.0 <= u <= 127.0 && amax / 127.0 * u == v
  {
    var i := Inverse(amax);
    assert i * amax == 127.0 && i > 0.0;
    Bounds(v, amax, i);
    Cancel(amax, v, i, u);
  }

  lemma {:induction false} Bounds(v: real, m: real, i: real)
    requires -m <= v <= m && i > 0.0 && i * m == 127.0
    ensures -127.0 <= v * i <= 127.0
  {
    NotNegative(m - v, i);
    NotNegative(m + v, i);
    assert (m - v) * i == i * m - v * i && (m + v) * i == i * m + v * i;
  }

  lemma {:induction false} Cancel(m: real, v: real, i: real, u: real)
    requires i * m == 127.0 && u == v * i
    ensures m / 127.0 * u == v
  {
    var w := m / 127.0;
    assert m == 127.0 * w;
    assert i * (127.0 * w) == 127.0 * (i * w);
    Swap(w, v, i);
  }

  lemma {:induction false} Swap(w: real, v: real, i: real)
    requires i * w == 1.0
    ensures w * (v * i) == v
  {
    assert w * (v * i) == v * (i * w);
  }

  /** The clamp never acts, and a code stands for its value to within half a step. */
  lemma {:induction false} QuantClose(v: real, amax: real)
    requires Abs(v) <= amax
    ensures QuantOf(v, amax) == Rounded(v, Inverse(amax)) && -127 <= QuantOf(v, amax) <= 127
    ensures Abs(v - amax / 127.0 * QuantOf(v, amax) as real) <= amax / 127.0 / 2.0
  {
    if amax > 0.0 {
      QuantCloseAt(v, amax, v * Inverse(amax));
    } else {
      assert v * Inverse(amax) == 0.0;
      RoundInteger(0);
    }
  }

  lemma {:induction false} QuantIs(v: real, amax: real, u: real)
    requires u == v * Inverse(amax)
    ensures Rounded(v, Inverse(amax)) == RoundEven(u) && QuantOf(v, amax) == Clamp(RoundEven(u))
  {
    hide Inverse, RoundEven;
  }

  lemma {:induction false} QuantCloseAt(v: real, amax: real, u: real)
    requires Abs(v) <= amax && amax > 0.0 && u == v * Inverse(amax)
    ensures QuantOf(v, amax) == Rounded(v, Inverse(amax)) == RoundEven(u) && -127 <= QuantOf(v, amax) <= 127
    ensures Abs(v - amax / 127.0 * QuantOf(v, amax) as real) <= amax / 127.0 / 2.0
  {
    QuantIs(v, amax, u);
    Scaled(v, amax, u);
    hide Inverse, RoundEven, Rounded, QuantOf;
    RoundedWithin(u);
    var r := RoundEven(u);
    StepError(amax / 127.0, u, r as real);
  }

  lemma {:induction false} RoundedWithin(u: real)
    requires -127.0 <= u <= 127.0
    ensures -127 <= RoundEven(u) <= 127 && -0.5 <= u - RoundEven(u) as real <= 0.5
  {
    hide RoundEven;
    RoundMonotone(-127.0, u);
    RoundInteger(-127);
    RoundMonotone(u, 127.0);
    RoundInteger(127);
    RoundClose(u);
  }

  lemma {:induction false} StepError(s: real, u: real, r: real)
    requires s > 0.0 && -0.5 <= u - r <= 0.5
    ensures Abs(s * u - s * r) <= s / 2.0
  {
    NotNegative(s, 0.5 - (u - r));
    NotNegative(s, 0.5 + (u - r));
  }

  // ----- Places

  /** Where column `k` of a row is stored. */
  function Slot(layout: Layout, k: int): int { 32 * (k / 32) + Pos(layout, k % 32) }

  /** Columns stay in their run, and no two share a place. */
  lemma {:induction false} SlotInRun(layout: Layout, k: int)
    ensures 32 * (k / 32) <= Slot(layout, k) < 32 * (k / 32) + 32 && Slot(layout, k) / 32 == k / 32
  {
    hide Pos;
    PosIsBijective(layout, k % 32);
  }

  lemma {:induction false} SlotIsInjective(layout: Layout, k: int, l: int)
    requires k != l
    ensures Slot(layout, k) != Slot(layout, l)
  {
    hide Pos, Column;
    PosIsBijective(layout, k % 32);
    PosIsBijective(layout, l % 32);
    if Slot(layout, k) == Slot(layout, l) {
      SlotInRun(layout, k);
      SlotInRun(layout, l);
    }
  }

  /** Every place of a row of whole runs belongs to a column. */
  lemma {:induction false} SlotIsOnto(layout: Layout, p: nat, n: nat) returns (k: nat)
    requires p < n && n % 32 == 0
    ensures k < n && Slot(layout, k) == p
  {
    hide Pos, Column;
    PosIsBijective(layout, p % 32);
    k := 32 * (p / 32) + Column(layout, p % 32);
    assert k / 32 == p / 32 && k % 32 == Column(layout, p % 32);
  }

  // ----- The quantizer

  function RowOf(a: array2<int>, m: nat): (r: seq<int>)
    requires m < a.Length0
    reads a
    ensures |r| == a.Length1 && forall k | 0 <= k < |r| :: r[k] == a[m, k]
  {
    seq(a.Length1, k requires 0 <= k < a.Length1 reads a => a[m, k])
  }

  function RealAt(x: seq<real>, k: int): real { if 0 <= k < |x| then x[k] else 0.0 }

  /**
   `q` holds the codes of `x` in the order of `layout`, `sx` the value of a step and `xsum`, where it is asked for,
   the sum of the codes of each run.
   */
  ghost predicate IsQuantized(x: seq<real>, layout: Layout, q: seq<int>, sx: real, xsum: Option<seq<int>>) {
    && |q| == |x| && |x| % 32 == 0
    && IsAbsMax(x, 127.0 * sx)
    && (forall k | 0 <= k < |x| :: 0 <= Slot(layout, k) < |q| && q[Slot(layout, k)] == QuantOf(x[k], 127.0 * sx))
    && (xsum.Some? ==> AreSums(x, 127.0 * sx, xsum.value))
  }

  ghost predicate AreSums(x: seq<real>, amax: real, xsum: seq<int>) {
    |xsum| == |x| / 32 && forall c | 0 <= c < |xsum| :: xsum[c] == RunSum(x, amax, c)
  }

  /** Row `m` of the sums, if there are any. */
  function SumsOf(a: array2?<int>, m: nat): Option<seq<int>>
    requires a != null ==> m < a.Length0
    reads a
  {
    if a == null then None else Some(RowOf(a, m))
  }

  /** The codes of the first `n` columns of run `c`, added up. */
  ghost function CodeSum(x: seq<real>, amax: real, c: int, n: nat): int {
    Sum(n, j => QuantOf(RealAt(x, 32 * c + j), amax))
  }

  ghost function RunSum(x: seq<real>, amax: real, c: int): int { CodeSum(x, amax, c, 32) }

  lemma {:induction false} CodeSumStep(x: seq<real>, amax: real, c: nat, n: nat)
    requires 32 * c + n < |x|
    ensures CodeSum(x, amax, c, 0) == 0 && CodeSum(x, amax, c, n + 1)
            == CodeSum(x, amax, c, n) + QuantOf(x[32 * c + n], amax)
  {
    hide QuantOf;
  }

  method AbsMax(x: seq<real>) returns (amax: real)
    ensures IsAbsMax(x, amax)
  {
    amax := 0.0;
    for k := 0 to |x|
      invariant amax >= 0.0
      invariant forall i | 0 <= i < k :: Abs(x[i]) <= amax
      invariant amax == 0.0 || exists i :: 0 <= i < k && Abs(x[i]) == amax
    {
      var a := Abs(x[k]);
      amax := if a > amax then a else amax;
    }
  }

  ghost predicate StoredTo(x: seq<real>, amax: real, layout: Layout, q: array2<int>, m: nat, n: nat)
    reads q
    requires m < q.Length0 && n <= |x| == q.Length1 && |x| % 32 == 0
  {
    forall k | 0 <= k < n :: 0 <= Slot(layout, k) < |x| && q[m, Slot(layout, k)] == QuantOf(x[k], amax)
  }

  /** One run of 32 columns. */
  method QuantRun(x: seq<real>, amax: real, inv: real, layout: Layout, pos: seq<int>, c: nat, q: array2<int>, m: nat)
    returns (s: int)
    requires |x| % 32 == 0 && 32 * c + 32 <= |x| == q.Length1 && m < q.Length0 && inv == Inverse(amax)
    requires |pos| == 32 && forall j | 0 <= j < 32 :: pos[j] == Pos(layout, j)
    requires StoredTo(x, amax, layout, q, m, 32 * c)
    modifies q
    ensures StoredTo(x, amax, layout, q, m, 32 * c + 32)
    ensures s == RunSum(x, amax, c)
    ensures forall i, k | 0 <= i < q.Length0 && 0 <= k < q.Length1 && i != m :: q[i, k] == old(q[i, k])
  {
    hide Slot, Pos, CodeOf, Inverse, CodeSum;
    s := 0;
    CodeSumStep(x, amax, c, 0);
    for j := 0 to 32
      invariant StoredTo(x, amax, layout, q, m, 32 * c + j)
      invariant s == CodeSum(x, amax, c, j)
      invariant forall i, k | 0 <= i < q.Length0 && 0 <= k < q.Length1 && i != m :: q[i, k] == old(q[i, k])
    {
      SlotIs(layout, c, j);
      OthersApart(layout, 32 * c + j);
      CodeSumStep(x, amax, c, j);
      var qi := CodeOf(x[32 * c + j], inv);
      s := s + qi;
      label write:
      q[m, 32 * c + pos[j]] := qi;
      forall k | 0 <= k < 32 * c + j + 1
        ensures 0 <= Slot(layout, k) < |x| && q[m, Slot(layout, k)] == QuantOf(x[k], amax)
      {
        assert k < 32 * c + j ==> q[m, Slot(layout, k)] == old@write(q[m, Slot(layout, k)]);
      }
    }
  }

  lemma {:induction false} SlotIs(layout: Layout, c: int, j: int)
    requires 0 <= j < 32
    ensures Slot(layout, 32 * c + j) == 32 * c + Pos(layout, j) && 32 * c <= Slot(layout, 32 * c + j) < 32 * c + 32
  {
    SlotInRun(layout, 32 * c + j);
    hide Pos;
    assert (32 * c + j) / 32 == c && (32 * c + j) % 32 == j;
  }

  lemma {:induction false} OthersApart(layout: Layout, k: nat)
    ensures forall l | 0 <= l < k :: Slot(layout, l) != Slot(layout, k)
  {
    forall l | 0 <= l < k
      ensures Slot(layout, l) != Slot(layout, k)
    {
      SlotIsInjective(layout, l, k);
    }
  }

  /** One row. */
  method QuantRow(x: seq<real>, layout: Layout, q: array2<int>, xsum: array2?<int>, m: nat) returns (sx: real)
    requires |x| % 32 == 0 && q != xsum && q.Length1 == |x| && m < q.Length0
    requires xsum != null ==> xsum.Length1 == |x| / 32 && m < xsum.Length0
    modifies q, xsum
    ensures IsQuantized(x, layout, RowOf(q, m), sx, SumsOf(xsum, m))
    ensures forall i, k | 0 <= i < q.Length0 && 0 <= k < q.Length1 && i != m :: q[i, k] == old(q[i, k])
    ensures xsum != null ==>
              forall i, c | 0 <= i < xsum.Length0 && 0 <= c < xsum.Length1 && i != m :: xsum[i, c] == old(xsum[i, c])
  {
    hide Pos, Slot, QuantOf, RunSum, Inverse, IsAbsMax;
    var amax := AbsMax(x);
    var inv := Inverse(amax);
    sx := amax / 127.0;
    var pos := seq(32, j => Pos(layout, j));
    for c := 0 to |x| / 32
      invariant StoredTo(x, amax, layout, q, m, 32 * c)
      invariant xsum != null ==> forall b | 0 <= b < c :: xsum[m, b] == RunSum(x, amax, b)
      invariant forall i, k | 0 <= i < q.Length0 && 0 <= k < q.Length1 && i != m :: q[i, k] == old(q[i, k])
      invariant xsum != null ==>
                  forall i, b | 0 <= i < xsum.Length0 && 0 <= b < xsum.Length1 && i != m ::
                    xsum[i, b] == old(xsum[i, b])
    {
      var s := QuantRun(x, amax, inv, layout, pos, c, q, m);
      if xsum != null {
        xsum[m, c] := s;
      }
    }
  }

  /** All rows; the sums by run only where there is room for them. */
  method QuantAct(x: seq<seq<real>>, K: nat, layout: Layout, xq: array2<int>, sx: array<real>, xsum: array2?<int>)
    returns (st: Status)
    requires forall m | 0 <= m < |x| :: |x[m]| == K
    requires xq != xsum && xq.Length0 == sx.Length == |x| && xq.Length1 == K
    requires xsum != null ==> xsum.Length0 == |x| && xsum.Length1 == K / 32
    modifies xq, sx, xsum
    ensures st == Ok <==> |x| > 0 && K > 0 && K % 32 == 0
    ensures st != Ok ==> unchanged(xq, sx) && (xsum != null ==> unchanged(xsum))
    ensures st == Ok ==> forall m | 0 <= m < |x| :: IsQuantized(x[m], layout, RowOf(xq, m), sx[m], SumsOf(xsum, m))
  {
    if |x| == 0 || K == 0 || K % 32 != 0 {
      return InvalidArg;
    }
    hide IsQuantized, RowOf, SumsOf;
    for m := 0 to |x|
      invariant forall i | 0 <= i < m :: IsQuantized(x[i], layout, RowOf(xq, i), sx[i], SumsOf(xsum, i))
    {
      ghost var q0, s0 := RowsOf(xq, m), SumRowsOf(xsum, m);
      sx[m] := QuantRow(x[m], layout, xq, xsum, m);
      RowsKept(xq, m, q0);
      SumsKept(xsum, m, s0);
    }
    st := Ok;
  }

  ghost function RowsOf(a: array2<int>, m: nat): (r: seq<seq<int>>)
    requires m <= a.Length0
    reads a
    ensures |r| == m && forall i | 0 <= i < m :: r[i] == RowOf(a, i)
  {
    seq(m, i requires 0 <= i < m reads a => RowOf(a, i))
  }

  lemma {:induction false} RowsKept(a: array2<int>, m: nat, rows: seq<seq<int>>)
    requires |rows| == m <= a.Length0
    requires forall i | 0 <= i < m :: |rows[i]| == a.Length1 && forall k | 0 <= k < a.Length1 :: a[i, k] == rows[i][k]
    ensures forall i | 0 <= i < m :: RowOf(a, i) == rows[i]
  {
  }

  ghost function SumRowsOf(a: array2?<int>, m: nat): (r: seq<Option<seq<int>>>)
    requires a != null ==> m <= a.Length0
    reads a
    ensures |r| == m && forall i | 0 <= i < m :: r[i] == SumsOf(a, i) && (a == null <==> r[i] == None)
    ensures a != null ==> forall i | 0 <= i < m :: r[i].Some? && r[i].value == RowOf(a, i)
  {
    seq(m, i requires 0 <= i < m reads a => SumsOf(a, i))
  }

  lemma {:induction false} SumsKept(a: array2?<int>, m: nat, rows: seq<Option<seq<int>>>)
    requires |rows| == m && (a == null ==> forall i | 0 <= i < m :: rows[i] == None)
    requires a != null ==> m <= a.Length0
    requires a != null ==> forall i | 0 <= i < m :: rows[i].Some? && |rows[i].value| == a.Length1
    requires a != null ==> forall i, k | 0 <= i < m && 0 <= k < a.Length1 :: a[i, k] == rows[i].value[k]
    ensures forall i | 0 <= i < m :: SumsOf(a, i) == rows[i]
  {
    if a != null {
      forall i | 0 <= i < m
        ensures RowOf(a, i) == rows[i].value
      {
      }
    }
  }

  /** Every byte stored is a code within 127. */
  lemma {:induction false} CodesAreSmall(x: seq<real>, layout: Layout, q: seq<int>, sx: real, xsum: Option<seq<int>>)
    requires IsQuantized(x, layout, q, sx, xsum)
    ensures forall p | 0 <= p < |q| :: -127 <= q[p] <= 127
  {
    hide Slot, QuantOf;
    forall p | 0 <= p < |q|
      ensures -127 <= q[p] <= 127
    {
      var k := SlotIsOnto(layout, p, |q|);
      QuantClose(x[k], 127.0 * sx);
    }
  }

  lemma {:induction false} StepsOf(v: real, amax: real) returns (u: real)
    requires amax > 0.0 && -amax <= v <= amax
    ensures amax / 127.0 * u == v && QuantOf(v, amax) == RoundEven(u) && -127 <= RoundEven(u) <= 127
  {
    hide Inverse, RoundEven, QuantOf, Rounded;
    u := v * Inverse(amax);
    Scaled(v, amax, u);
    QuantCloseAt(v, amax, u);
  }

  lemma {:induction false} SameStep(s: real, amax: real, u: real, v: real)
    requires amax == 127.0 * s && amax / 127.0 * u == v
    ensures s * u == v
  {
    assert amax / 127.0 == s;
  }

  /** A code is the number of steps in `v`, rounded. */
  lemma {:induction false} StepsIn(v: real, s: real) returns (u: real)
    requires s > 0.0 && -127.0 * s <= v <= 127.0 * s
    ensures s * u == v && QuantOf(v, 127.0 * s) == RoundEven(u) && -127 <= RoundEven(u) <= 127
  {
    hide Inverse, RoundEven, QuantOf, Rounded;
    u := StepsOf(v, 127.0 * s);
    SameStep(s, 127.0 * s, u, v);
  }

  /** `r` steps, which make `x`, are as near to `v` as rounding allows. */
  lemma {:induction false} NearestSteps(v: real, s: real, u: real, r: int, x: real)
    requires s > 0.0 && s * u == v && r == RoundEven(u) && x == s * r as real
    ensures -s / 2.0 <= v - x <= s / 2.0
    ensures v - x == s / 2.0 || v - x == -s / 2.0 ==> r % 2 == 0
  {
    RoundClose(u);
    hide RoundEven;
    HalfStep(s, u, r as real, v, x);
    if u - r as real == 0.5 || u - r as real == -0.5 {
      RoundTie(u);
    }
  }

  lemma {:induction false} HalfStep(s: real, u: real, r: real, v: real, x: real)
    requires s > 0.0 && s * u == v && x == s * r && -0.5 <= u - r <= 0.5
    ensures -s / 2.0 <= v - x <= s / 2.0
    ensures v - x == s / 2.0 ==> u - r == 0.5
    ensures v - x == -s / 2.0 ==> u - r == -0.5
  {
    var d := u - r;
    assert s * d == v - x;
    if d < 0.5 {
      Grows(0.5, d, s);
    }
    if d > -0.5 {
      Grows(d, -0.5, s);
    }
  }

  /**
   What the quantizer stores: column `k` of a run at place `Pos` of the run, as the code nearest to it in steps of `sx`,
   the even one if two are as near; and with each run the sum of its 32 bytes.
   */
  lemma {:induction false} StoredCodes(x: seq<real>, layout: Layout, q: seq<int>, sx: real, xsum: Option<seq<int>>,
                                       k: nat, p: nat, c: nat)
    requires IsQuantized(x, layout, q, sx, xsum) && k < |x|
    requires p / 32 == k / 32 && p % 32 == Pos(layout, k % 32)
    ensures sx >= 0.0 && p < |q| == |x| && -127 <= q[p] <= 127
    ensures -sx / 2.0 <= x[k] - sx * q[p] as real <= sx / 2.0
    ensures sx > 0.0 && (x[k] - sx * q[p] as real == sx / 2.0 || x[k] - sx * q[p] as real == -sx / 2.0) ==>
              q[p] % 2 == 0
    ensures sx == 0.0 ==> q[p] == 0
    ensures xsum.Some? ==>
              && |xsum.value| == |x| / 32
              && (c < |xsum.value| ==>
                    xsum.value[c] == Sum(32, i => if 0 <= 32 * c + i < |q| then q[32 * c + i] else 0))
  {
    hide Pos, QuantOf, Sum, Slot, IsQuantized;
    CodeAt(x, layout, q, sx, xsum, k, p);
    CodeIs(x[k], sx, q[p], sx * q[p] as real);
    if xsum.Some? {
      SumsCount(x, layout, q, sx, xsum.value);
      if c < |xsum.value| {
        StoredSum(x, layout, q, sx, xsum.value, c);
      }
    }
  }

  lemma {:induction false} CodeAt(x: seq<real>, layout: Layout, q: seq<int>, sx: real, xsum: Option<seq<int>>, k: nat,
                                  p: nat)
    requires IsQuantized(x, layout, q, sx, xsum) && k < |x|
    requires p / 32 == k / 32 && p % 32 == Pos(layout, k % 32)
    ensures sx >= 0.0 && p < |q| == |x| && q[p] == QuantOf(x[k], 127.0 * sx) && -127.0 * sx <= x[k] <= 127.0 * sx
  {
    hide Pos, QuantOf;
    assert p == Slot(layout, k);
  }

  lemma {:induction false} PlaceOf(layout: Layout, k: nat)
    ensures 0 <= Slot(layout, k) && Slot(layout, k) / 32 == k / 32 && Slot(layout, k) % 32 == Pos(layout, k % 32)
  {
    hide Pos, Column;
    PosIsBijective(layout, k % 32);
    DivModOf(k / 32, 32, Pos(layout, k % 32));
  }

  lemma {:induction false} SumsCount(x: seq<real>, layout: Layout, q: seq<int>, sx: real, xsum: seq<int>)
    requires IsQuantized(x, layout, q, sx, Some(xsum))
    ensures |q| == |x| && |xsum| == |x| / 32 && |x| % 32 == 0
  {
    hide Slot, QuantOf;
  }

  lemma {:induction false} RunSumOf(x: seq<real>, layout: Layout, q: seq<int>, sx: real, xsum: seq<int>, c: nat)
    requires IsQuantized(x, layout, q, sx, Some(xsum)) && c < |xsum|
    ensures xsum[c] == Sum(32, j => QuantOf(RealAt(x, 32 * c + j), 127.0 * sx))
  {
    hide Slot, QuantOf, Sum;
  }

  lemma {:induction false} CodeIs(v: real, sx: real, r: int, x: real)
    requires sx >= 0.0 && -127.0 * sx <= v <= 127.0 * sx && r == QuantOf(v, 127.0 * sx) && x == sx * r as real
    ensures -127 <= r <= 127 && -sx / 2.0 <= v - x <= sx / 2.0
    ensures sx > 0.0 && (v - x == sx / 2.0 || v - x == -sx / 2.0) ==> r % 2 == 0
    ensures sx == 0.0 ==> r == 0
  {
    hide QuantOf, RoundEven;
    if sx > 0.0 {
      var u := StepsIn(v, sx);
      NearestSteps(v, sx, u, r, x);
    } else {
      ZeroCode(v);
    }
  }

  lemma {:induction false} ZeroCode(v: real)
    ensures QuantOf(v, 127.0 * 0.0) == 0
  {
    assert v * Inverse(127.0 * 0.0) == 0.0;
    RoundInteger(0);
  }

  lemma {:induction false} StoredSum(x: seq<real>, layout: Layout, q: seq<int>, sx: real, xsum: seq<int>, c: nat)
    requires IsQuantized(x, layout, q, sx, Some(xsum)) && c < |xsum|
    ensures xsum[c] == Sum(32, i => if 0 <= 32 * c + i < |q| then q[32 * c + i] else 0)
  {
    hide Pos, QuantOf, Sum, IsQuantized, Slot;
    SumsCount(x, layout, q, sx, xsum);
    var f := (i: int) => if 0 <= 32 * c + i < |q| then q[32 * c + i] else 0;
    RunSumInAnyLayout(layout, f);
    forall j | 0 <= j < 32
      ensures f(Pos(layout, j)) == QuantOf(RealAt(x, 32 * c + j), 127.0 * sx)
    {
      SlotIs(layout, c, j);
      PlaceOf(layout, 32 * c + j);
      CodeAt(x, layout, q, sx, Some(xsum), 32 * c + j, Slot(layout, 32 * c + j));
    }
    SumSame(32, j => f(Pos(layout, j)), j => QuantOf(RealAt(x, 32 * c + j), 127.0 * sx));
    SumSame(32, f, i => if 0 <= 32 * c + i < |q| then q[32 * c + i] else 0);
    RunSumOf(x, layout, q, sx, xsum, c);
  }
}
