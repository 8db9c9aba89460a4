/**
 The windowed-sinc resampler: the whole-signal form and the form fed piece by piece
 (src/audio/resample.c). The weight of tap `j` for output `i` is a parameter `w(i, j)`, so
 every statement holds for any filter.
 */
module Resample {
  import opened Common
  import opened Arith
  import opened Sums

  const HALF_W := 16
  const TAPS := 2 * HALF_W + 1

  type Filter = (int, int) -> real

  /** The input sample under output `i`: the integer part of `i / ratio`. */
  function Center(i: nat, inSr: nat, outSr: nat): nat
    requires outSr > 0
  {
    i * inSr / outSr
  }

  function CeilRatio(inSr: nat, outSr: nat): nat
    requires outSr > 0
  {
    (inSr + outSr - 1) / outSr
  }

  /** How many outputs a signal of `len` samples gives. */
  function Total(len: nat, inSr: nat, outSr: nat): nat
    requires inSr > 0
  {
    len * outSr / inSr + 1
  }

  /** Weighted sum of the first `n` taps of output `i`, whose centre is `c`, over the whole signal. */
  ghost function Numerator(x: seq<real>, w: Filter, i: nat, c: int, n: nat): real {
    if n == 0 then 0.0
    else
      var idx := c + n - 1 - HALF_W;
      Numerator(x, w, i, c, n - 1) + if 0 <= idx < |x| then x[idx] * w(i, n - 1 - HALF_W) else 0.0
  }

  /** Sum of the weights of those taps. */
  ghost function Denominator(len: nat, w: Filter, i: nat, c: int, n: nat): real {
    if n == 0 then 0.0
    else
      var idx := c + n - 1 - HALF_W;
      Denominator(len, w, i, c, n - 1) + if 0 <= idx < len then w(i, n - 1 - HALF_W) else 0.0
  }

  /** Output `i` of the whole signal `x`. */
  ghost function OutputAt(x: seq<real>, w: Filter, i: nat, inSr: nat, outSr: nat): real
    requires outSr > 0
  {
    var c := Center(i, inSr, outSr);
    var d := Denominator(|x|, w, i, c, TAPS);
    if d > 0.00000001 then Numerator(x, w, i, c, TAPS) / d else 0.0
  }

  /** What the whole signal resamples to. */
  ghost function Batch(x: seq<real>, w: Filter, inSr: nat, outSr: nat): seq<real>
    requires inSr > 0 && outSr > 0
  {
    if inSr == outSr then x else seq(Total(|x|, inSr, outSr), i requires 0 <= i => OutputAt(x, w, i, inSr, outSr))
  }

  lemma {:induction false} TapsAreSums(x: seq<real>, w: Filter, i: nat, c: int, n: nat, num: int -> real,
                                       den: int -> real)
    requires n <= 33 && forall k | 0 <= k < 33 ::
               && num(k) == (if 0 <= c + k - 16 < |x| then x[c + k - 16] * w(i, k - 16) else 0.0)
               && den(k) == (if 0 <= c + k - 16 < |x| then w(i, k - 16) else 0.0)
    ensures Numerator(x, w, i, c, n) == RSum(n, num) && Denominator(|x|, w, i, c, n) == RSum(n, den)
  {
    if n > 0 {
      TapsAreSums(x, w, i, c, n - 1, num, den);
    }
  }

  lemma {:induction false} CenterIs(i: nat, c: nat, inSr: nat, outSr: nat)
    requires outSr > 0 && c * outSr <= i * inSr < (c + 1) * outSr
    ensures Center(i, inSr, outSr) == c
  {
    DivAtLeast(i * inSr, outSr, c);
    DivAtMost(i * inSr, outSr, c);
  }

  lemma {:induction false} TotalIs(len: nat, n: nat, inSr: nat, outSr: nat)
    requires inSr > 0 && n == Total(len, inSr, outSr)
    ensures (n - 1) * inSr <= len * outSr < n * inSr
  {
  }

  /**
   The whole-signal result. Equal rates copy. Otherwise output `i` is the weighted mean of the 33 samples around `c`,
   the integer part of `i * inSr / outSr`, as far as they exist, or zero where the weights do not add up to 1e-8; and
   there are as many outputs as fit the length, and one.
   */
  lemma {:induction false} BatchIs(x: seq<real>, w: Filter, inSr: nat, outSr: nat, i: nat, c: nat, num: int -> real,
                                   den: int -> real)
    requires inSr > 0 && outSr > 0 && c * outSr <= i * inSr < (c + 1) * outSr
    requires forall k | 0 <= k < 33 ::
               && num(k) == (if 0 <= c + k - 16 < |x| then x[c + k - 16] * w(i, k - 16) else 0.0)
               && den(k) == (if 0 <= c + k - 16 < |x| then w(i, k - 16) else 0.0)
    ensures inSr == outSr ==> Batch(x, w, inSr, outSr) == x
    ensures var y := Batch(x, w, inSr, outSr);
            inSr != outSr ==>
              && (|y| - 1) * inSr <= |x| * outSr < |y| * inSr
              && (i < |y| && RSum(33, den) > 0.00000001 ==> y[i] == RSum(33, num) / RSum(33, den))
              && (i < |y| && RSum(33, den) <= 0.00000001 ==> y[i] == 0.0)
  {
    hide Center, Total, Numerator, Denominator, RSum;
    CenterIs(i, c, inSr, outSr);
    TapsAreSums(x, w, i, c, 33, num, den);
    TotalIs(|x|, Total(|x|, inSr, outSr), inSr, outSr);
  }

  // ----- Arithmetic of centres

  lemma {:induction false} CenterMonotone(i: nat, k: nat, inSr: nat, outSr: nat)
    requires i <= k && outSr > 0
    ensures Center(i, inSr, outSr) <= Center(k, inSr, outSr)
  {
    MulMonotone(i, k, inSr);
    DivAtLeast(k * inSr, outSr, Center(i, inSr, outSr));
  }

  /** Successive centres are at most `ceil(inSr / outSr)` apart. */
  lemma {:induction false} CenterStep(i: nat, inSr: nat, outSr: nat)
    requires outSr > 0
    ensures Center(i + 1, inSr, outSr) - Center(i, inSr, outSr) <= CeilRatio(inSr, outSr)
  {
    var a, q := Center(i, inSr, outSr), CeilRatio(inSr, outSr);
    assert (i + 1) * inSr == i * inSr + inSr < (a + 1) * outSr + inSr;
    assert inSr <= q * outSr;
    assert (a + q + 1) * outSr == (a + 1) * outSr + q * outSr;
    DivAtMost((i + 1) * inSr, outSr, a + q);
  }

  /** The ratio of the rates, rounded up. */
  lemma {:induction false} CeilRatioIs(inSr: nat, outSr: nat)
    requires outSr > 0
    ensures var q := CeilRatio(inSr, outSr);
            (q - 1) * outSr < inSr <= q * outSr
  {
    var q := CeilRatio(inSr, outSr);
    assert q * outSr <= inSr + outSr - 1 < (q + 1) * outSr;
    assert (q - 1) * outSr == q * outSr - outSr && (q + 1) * outSr == q * outSr + outSr;
  }

  /** An output whose centre lies inside the signal is one of its `Total` outputs. */
  lemma {:induction false} CenterBelowTotal(i: nat, len: nat, inSr: nat, outSr: nat)
    requires inSr > 0 && outSr > 0
    requires Center(i, inSr, outSr) < len
    ensures i < Total(len, inSr, outSr)
  {
    MulMonotone(Center(i, inSr, outSr) + 1, len, outSr);
    DivAtLeast(len * outSr, inSr, i);
  }

  // ----- An output is settled once every tap has arrived

  lemma {:induction false} TapsSettled(x: seq<real>, y: seq<real>, w: Filter, i: nat, c: int, n: nat)
    requires n <= TAPS && c + HALF_W < |x|
    ensures Numerator(x + y, w, i, c, n) == Numerator(x, w, i, c, n)
    ensures Denominator(|x + y|, w, i, c, n) == Denominator(|x|, w, i, c, n)
  {
    if n > 0 {
      TapsSettled(x, y, w, i, c, n - 1);
    }
  }

  /** More input never changes an output whose last tap has arrived. */
  lemma {:induction false} OutputSettled(x: seq<real>, y: seq<real>, w: Filter, i: nat, inSr: nat, outSr: nat)
    requires outSr > 0 && Center(i, inSr, outSr) + HALF_W < |x|
    ensures OutputAt(x + y, w, i, inSr, outSr) == OutputAt(x, w, i, inSr, outSr)
  {
    TapsSettled(x, y, w, i, Center(i, inSr, outSr), TAPS);
  }

  // ----- The code

  /** One output from the samples `buf` that start at absolute position `base` of the signal `x`. */
  method ResampleOne(buf: seq<real>, base: nat, inLen: nat, i: nat, w: Filter, inSr: nat, outSr: nat,
                     ghost x: seq<real>)
    returns (r: real)
    requires outSr > 0
    requires inLen == |x| == base + |buf| && buf == x[base..]
    // every tap the filter reads is still held
    requires base == 0 || base + HALF_W <= Center(i, inSr, outSr)
    ensures r == OutputAt(x, w, i, inSr, outSr)
  {
    var center := i * inSr / outSr;
    var sum, weightSum := 0.0, 0.0;
    for j := -HALF_W to HALF_W + 1
      invariant sum == Numerator(x, w, i, center, j + HALF_W)
      invariant weightSum == Denominator(inLen, w, i, center, j + HALF_W)
    {
      var idx := center + j;
      if 0 <= idx < inLen {
        assert buf[idx - base] == x[idx];
        sum := sum + buf[idx - base] * w(i, j);
        weightSum := weightSum + w(i, j);
      }
    }
    r := if weightSum > 0.00000001 then sum / weightSum else 0.0;
  }

  /** The whole-signal resampler. */
  method AudioResample(x: seq<real>, inSr: int, targetSr: int, w: Filter) returns (s: Status, out: seq<real>)
    ensures s == InvalidArg <==> inSr <= 0 || targetSr <= 0 || |x| == 0
    ensures s == Ok ==> out == Batch(x, w, inSr, targetSr)
  {
    if inSr <= 0 || targetSr <= 0 || |x| == 0 {
      return InvalidArg, [];
    }
    if inSr == targetSr {
      return Ok, x;
    }
    var nOut := |x| * targetSr / inSr + 1;
    out := [];
    for i := 0 to nOut
      invariant |out| == i
      invariant forall k | 0 <= k < i :: out[k] == OutputAt(x, w, k, inSr, targetSr)
    {
      var r := ResampleOne(x, 0, |x|, i, w, inSr, targetSr, x);
      out := out + [r];
    }
    s := Ok;
  }

  /** Outputs `from` up to (not including) `limit`. */
  method EmitRange(buf: seq<real>, base: nat, inLen: nat, from: nat, limit: nat, w: Filter, inSr: nat, outSr: nat,
                   ghost x: seq<real>)
    returns (out: seq<real>)
    requires outSr > 0 && from <= limit
    requires inLen == |x| == base + |buf| && buf == x[base..]
    requires base == 0 || base + HALF_W < Center(from, inSr, outSr)
    ensures |out| == limit - from
    ensures forall i | from <= i < limit :: out[i - from] == OutputAt(x, w, i, inSr, outSr)
  {
    hide Center, OutputAt;
    out := [];
    for i := from to limit
      invariant |out| == i - from
      invariant forall k | from <= k < i :: out[k - from] == OutputAt(x, w, k, inSr, outSr)
    {
      CenterMonotone(from, i, inSr, outSr);
      var r := ResampleOne(buf, base, inLen, i, w, inSr, outSr, x);
      out := out + [r];
    }
  }

  /** The first output from `next` on that still waits for a tap beyond the `have` samples so far. */
  method FirstPending(next: nat, have: nat, inSr: nat, outSr: nat) returns (limit: nat)
    requires inSr > 0 && outSr > 0
    ensures limit >= next && have <= Center(limit, inSr, outSr) + HALF_W
    ensures forall i | next <= i < limit :: Center(i, inSr, outSr) + HALF_W < have
  {
    hide Center, Total;
    limit := next;
    while Center(limit, inSr, outSr) + HALF_W < have
      invariant next <= limit
      invariant forall i | next <= i < limit :: Center(i, inSr, outSr) + HALF_W < have
      decreases Total(have, inSr, outSr) - limit
    {
      CenterBelowTotal(limit, have, inSr, outSr);
      limit := limit + 1;
    }
  }

  class Resampler {
    const inSr: nat
    const outSr: nat
    const w: Filter
    var buf: seq<real>  // input samples from `base` on
    var base: nat
    var next: nat       // next output index
    var finished: bool

    ghost var fed: seq<real>      // every sample pushed so far
    ghost var emitted: seq<real>  // every output handed out so far

    /** The buffer holds a suffix of the input that every future output stays inside. */
    ghost predicate Held()
      reads this
    {
      && inSr > 0 && outSr > 0
      && base + |buf| == |fed| && buf == fed[base..]
      && |emitted| == next
      && (base == 0 || base + HALF_W < Center(next, inSr, outSr))
    }

    /** Every output whose taps have all arrived has been handed out, and no other. */
    ghost predicate UpToDate()
      reads this
      requires outSr > 0
    {
      && |fed| <= Center(next, inSr, outSr) + HALF_W
      && (next > 0 ==> Center(next - 1, inSr, outSr) + HALF_W < |fed|)
      && (base + HALF_W + 1 >= Center(next, inSr, outSr)
          || (next > 0 && Center(next - 1, inSr, outSr) + HALF_W < base))
    }

    ghost predicate Valid()
      reads this
    {
      && inSr > 0 && outSr > 0
      && if inSr == outSr then emitted == fed
         else
           && Held()
           && (forall i | 0 <= i < next :: emitted[i] == OutputAt(fed, w, i, inSr, outSr))
           && (!finished ==> UpToDate())
           && (finished ==> emitted == if fed == [] then [] else Batch(fed, w, inSr, outSr))
    }

    constructor (inSr: nat, outSr: nat, w: Filter)
      requires inSr > 0 && outSr > 0
      ensures Valid() && fed == [] && emitted == [] && !finished
      ensures this.inSr == inSr && this.outSr == outSr && this.w == w
    {
      this.inSr, this.outSr, this.w := inSr, outSr, w;
      buf, base, next, finished := [], 0, 0, false;
      fed, emitted := [], [];
    }

    /** Outputs up to (not including) `limit`; then drops the input no future output reaches. */
    method Emit(limit: nat, inLen: nat) returns (out: seq<real>)
      requires Held() && inLen == |fed|
      modifies this`buf, this`base, this`next, this`emitted
      ensures Held()
      ensures next == Max(limit, old(next)) && emitted == old(emitted) + out
      ensures forall i | old(next) <= i < next :: emitted[i] == OutputAt(fed, w, i, inSr, outSr)
      ensures if limit <= old(next) then base == old(base)
              else base + HALF_W + 1 >= Center(next, inSr, outSr) || base == |fed|
    {
      hide Center, OutputAt;
      out := [];
      if limit <= next {
        return;
      }
      out := EmitRange(buf, base, inLen, next, limit, w, inSr, outSr, fed);
      CenterMonotone(next, limit, inSr, outSr);
      next := limit;
      emitted := emitted + out;
      var keepFrom := Center(next, inSr, outSr) - HALF_W - 1;
      if keepFrom > base {
        var drop := Min(keepFrom - base, |buf|);
        buf := buf[drop..];
        base := base + drop;
      }
    }

    /** Adds input; returns the outputs that became final. */
    method Push(x: seq<real>) returns (s: Status, out: seq<real>)
      requires Valid()
      modifies this
      ensures Valid() && finished == old(finished)
      ensures s == if finished then InvalidArg else Ok
      ensures fed == if finished then old(fed) else old(fed) + x
      ensures emitted == old(emitted) + out
      ensures !finished && inSr != outSr ==> |buf| <= Max(TAPS, CeilRatio(inSr, outSr) - 1)
    {
      hide Center, OutputAt, CeilRatio, Total;
      if finished {
        return InvalidArg, [];
      }
      if inSr == outSr {
        fed, emitted := fed + x, emitted + x;
        return Ok, x;
      }
      forall i | 0 <= i < next
        ensures emitted[i] == OutputAt(fed + x, w, i, inSr, outSr)
      {
        CenterMonotone(i, next - 1, inSr, outSr);
        OutputSettled(fed, x, w, i, inSr, outSr);
      }
      buf, fed := buf + x, fed + x;
      var have := base + |buf|;
      var limit := FirstPending(next, have, inSr, outSr);
      out := Emit(limit, have);
      s := Ok;
      if next > 0 {
        CenterStep(next - 1, inSr, outSr);
      }
    }

    /** End of input: the remaining outputs. */
    method Finish() returns (out: seq<real>)
      requires Valid()
      modifies this
      ensures Valid() && finished && fed == old(fed) && emitted == old(emitted) + out
      ensures emitted == if fed == [] then [] else Batch(fed, w, inSr, outSr)
    {
      hide Center, OutputAt, Total;
      out := [];
      if finished {
        return;
      }
      finished := true;
      if inSr == outSr {
        return;
      }
      var inLen := base + |buf|;
      if inLen <= 0 {
        return;
      }
      var total := Total(inLen, inSr, outSr);
      if next > 0 {
        CenterBelowTotal(next - 1, inLen, inSr, outSr);
      }
      out := Emit(total, inLen);
    }

    /** Before the end of input is known: what has been handed out starts the output of every possible whole signal. */
    lemma {:induction false} EmittedStartsEveryBatch(rest: seq<real>)
      requires Valid() && !finished
      ensures emitted <= Batch(fed + rest, w, inSr, outSr)
    {
      hide Center, OutputAt, Total;
      var whole := Batch(fed + rest, w, inSr, outSr);
      if inSr != outSr {
        forall i | 0 <= i < next
          ensures i < |whole| && emitted[i] == whole[i]
        {
          CenterMonotone(i, next - 1, inSr, outSr);
          CenterBelowTotal(i, |fed + rest|, inSr, outSr);
          OutputSettled(fed, rest, w, i, inSr, outSr);
        }
        if next > 0 {
          CenterBelowTotal(next - 1, |fed + rest|, inSr, outSr);
        }
      }
    }
  }

  /** Any split, empty pieces included, gives the whole-signal output sample for sample. */
  method ResampleInPieces(pieces: seq<seq<real>>, inSr: nat, outSr: nat, w: Filter) returns (out: seq<real>)
    requires inSr > 0 && outSr > 0
    ensures out == if Flatten(pieces) == [] then [] else Batch(Flatten(pieces), w, inSr, outSr)
  {
    hide OutputAt, Center, Total, Batch, CeilRatio;
    var r := new Resampler(inSr, outSr, w);
    out := [];
    for i := 0 to |pieces|
      invariant r.Valid() && !r.finished && r.fed == Flatten(pieces[..i]) && r.emitted == out
      invariant r.inSr == inSr && r.outSr == outSr && r.w == w
    {
      var _, o := r.Push(pieces[i]);
      out := out + o;
      assert pieces[..i + 1][..i] == pieces[..i];
    }
    assert pieces[..|pieces|] == pieces;
    var o := r.Finish();
    out := out + o;
  }
}
