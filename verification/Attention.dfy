/**
 One-pass (online) softmax attention (src/cpu/cpu_kernels.c). Arithmetic is over the reals; the exponential is any
 positive function that turns sums into products.
 */
module Attention {
  import opened Arith
  import opened Sums

  ghost predicate IsExp(exp: real -> real) {
    && (forall x :: exp(x) > 0.0)
    && (forall x, y :: exp(x + y) == exp(x) * exp(y))
  }

  // ----- The definition

  /** Total weight of the first `t` positions, with scores measured from `m`. */
  ghost function Weight(exp: real -> real, s: int -> real, m: real, t: nat): real {
    RSum(t, j => exp(s(j) - m))
  }

  /** The first `t` values, each times its weight. */
  ghost function Weighted(exp: real -> real, s: int -> real, v: int -> real, m: real, t: nat): real {
    RSum(t, j => exp(s(j) - m) * v(j))
  }

  /** The softmax average of the first `t` values; with nothing visible it is zero. */
  ghost function Softmax(exp: real -> real, s: int -> real, v: int -> real, t: nat): real {
    var w := Weight(exp, s, 0.0, t);
    if w == 0.0 then 0.0 else Weighted(exp, s, v, 0.0, t) / w
  }

  lemma {:induction false} ExpShift(exp: real -> real, s: real, m: real, n: real)
    requires IsExp(exp)
    ensures exp(s - n) == exp(m - n) * exp(s - m)
  {
    assert s - n == (m - n) + (s - m);
  }

  /** Moving the base multiplies every weight by the same factor. */
  lemma {:induction false} Rebase(exp: real -> real, s: int -> real, v: int -> real, m: real, n: real, t: nat)
    requires IsExp(exp)
    ensures Weight(exp, s, n, t) == exp(m - n) * Weight(exp, s, m, t)
    ensures Weighted(exp, s, v, n, t) == exp(m - n) * Weighted(exp, s, v, m, t)
  {
    hide IsExp, RSum;
    forall j | 0 <= j < t
      ensures exp(s(j) - n) == exp(m - n) * exp(s(j) - m)
      ensures exp(s(j) - n) * v(j) == exp(m - n) * (exp(s(j) - m) * v(j))
    {
      ExpShift(exp, s(j), m, n);
    }
    RSumTimes(t, exp(m - n), j => exp(s(j) - m), j => exp(s(j) - n));
    RSumTimes(t, exp(m - n), j => exp(s(j) - m) * v(j), j => exp(s(j) - n) * v(j));
  }

  lemma {:induction false} WeightPositive(exp: real -> real, s: int -> real, m: real, t: nat)
    requires IsExp(exp) && t > 0
    ensures Weight(exp, s, m, t) > 0.0
  {
    RSumPositive(t, j => exp(s(j) - m));
  }

  /** The two-pass form: the softmax may be taken relative to any base, the running maximum included. */
  lemma {:induction false} AnyBase(exp: real -> real, s: int -> real, v: int -> real, m: real, t: nat)
    requires IsExp(exp) && t > 0
    ensures Weight(exp, s, m, t) > 0.0
    ensures Softmax(exp, s, v, t) == Weighted(exp, s, v, m, t) / Weight(exp, s, m, t)
  {
    hide IsExp, RSum, Weight, Weighted;
    ExpPositive(exp, m - 0.0);
    WeightPositive(exp, s, m, t);
    WeightPositive(exp, s, 0.0, t);
    Rebase(exp, s, v, m, 0.0, t);
    CancelFactor(exp(m - 0.0), Weighted(exp, s, v, m, t), Weight(exp, s, m, t));
  }

  lemma {:induction false} CancelFactor(c: real, a: real, b: real)
    requires c > 0.0 && b > 0.0
    ensures c * b > 0.0 && c * a / (c * b) == a / b
  {
    var q := a / b;
    assert a == q * b;
    assert c * a == q * (c * b);
  }

  lemma {:induction false} NothingVisible(exp: real -> real, s: int -> real, v: int -> real)
    ensures Softmax(exp, s, v, 0) == 0.0
  {
  }

  lemma {:induction false} ExpPositive(exp: real -> real, x: real)
    requires IsExp(exp)
    ensures exp(x) > 0.0
  {
  }

  // ----- What it means

  /** Adding the same amount to every score changes nothing. */
  lemma {:induction false} ShiftInvariant(exp: real -> real, s: int -> real, v: int -> real, c: real, t: nat)
    requires IsExp(exp)
    ensures Softmax(exp, j => s(j) + c, v, t) == Softmax(exp, s, v, t)
  {
    hide IsExp, RSum;
    if t > 0 {
      var s' := j => s(j) + c;
      AnyBase(exp, s', v, c, t);
      AnyBase(exp, s, v, 0.0, t);
      assert forall j :: s'(j) - c == s(j) - 0.0;
      RSumSame(t, j => exp(s'(j) - c), j => exp(s(j) - 0.0));
      RSumSame(t, j => exp(s'(j) - c) * v(j), j => exp(s(j) - 0.0) * v(j));
    } else {
      NothingVisible(exp, s, v);
      NothingVisible(exp, j => s(j) + c, v);
    }
  }

  /** The part of position `j` in the softmax of the first `t`. */
  ghost function Share(exp: real -> real, s: int -> real, t: nat, j: int): real {
    var w := Weight(exp, s, 0.0, t);
    if w == 0.0 then 0.0 else exp(s(j) - 0.0) / w
  }

  /** The result is a convex combination of the visible values; its weights depend on the scores alone. */
  lemma {:induction false} ConvexCombination(exp: real -> real, s: int -> real, v: int -> real, t: nat)
    requires IsExp(exp) && t > 0
    ensures forall j :: Share(exp, s, t, j) > 0.0
    ensures RSum(t, j => Share(exp, s, t, j)) == 1.0
    ensures Softmax(exp, s, v, t) == RSum(t, j => Share(exp, s, t, j) * v(j))
  {
    hide RSum, Share;
    WeightPositive(exp, s, 0.0, t);
    forall j
      ensures Share(exp, s, t, j) > 0.0
    {
      ShareOf(exp, s, t, j, 0.0);
    }
    SharesAreWhole(exp, s, t);
    SharesAddUp(exp, s, v, t);
    PartOf(Weight(exp, s, 0.0, t), RSum(t, j => Share(exp, s, t, j) * v(j)), Weighted(exp, s, v, 0.0, t));
  }

  lemma {:induction false} SharesAreWhole(exp: real -> real, s: int -> real, t: nat)
    requires IsExp(exp) && t > 0
    ensures RSum(t, j => Share(exp, s, t, j)) == 1.0
  {
    hide RSum, Share, IsExp;
    WeightPositive(exp, s, 0.0, t);
    var ones := (j: int) => 1.0;
    SharesAddUp(exp, s, ones, t);
    RSumSame(t, j => exp(s(j) - 0.0) * ones(j), j => exp(s(j) - 0.0));
    WholeOf(Weight(exp, s, 0.0, t), RSum(t, j => Share(exp, s, t, j) * ones(j)));
    RSumSame(t, j => Share(exp, s, t, j) * ones(j), j => Share(exp, s, t, j));
  }

  lemma {:induction false} ShareOf(exp: real -> real, s: int -> real, t: nat, j: int, x: real)
    requires IsExp(exp) && t > 0
    ensures Share(exp, s, t, j) > 0.0 && Weight(exp, s, 0.0, t) * (Share(exp, s, t, j) * x) == exp(s(j) - 0.0) * x
  {
    hide RSum;
    WeightPositive(exp, s, 0.0, t);
    ExpPositive(exp, s(j) - 0.0);
    hide Weight, IsExp;
    PositivePart(exp(s(j) - 0.0), Weight(exp, s, 0.0, t), x);
  }

  lemma {:induction false} SharesAddUp(exp: real -> real, s: int -> real, v: int -> real, t: nat)
    requires IsExp(exp) && t > 0
    ensures Weighted(exp, s, v, 0.0, t) == Weight(exp, s, 0.0, t) * RSum(t, j => Share(exp, s, t, j) * v(j))
  {
    hide RSum, Share, IsExp, Weight;
    var w := Weight(exp, s, 0.0, t);
    var part, whole := j => Share(exp, s, t, j) * v(j), j => exp(s(j) - 0.0) * v(j);
    forall j | 0 <= j < t
      ensures whole(j) == w * part(j)
    {
      ShareOf(exp, s, t, j, v(j));
    }
    RSumTimes(t, w, part, whole);
    RSumSame(t, part, j => Share(exp, s, t, j) * v(j));
    RSumSame(t, whole, j => exp(s(j) - 0.0) * v(j));
  }

  lemma {:induction false} PositivePart(e: real, w: real, x: real)
    requires e > 0.0 && w > 0.0
    ensures e / w > 0.0 && w * (e / w) == e && w * (e / w * x) == e * x
  {
    var q := e / w;
    assert w * q == e;
    assert w * (q * x) == w * q * x;
  }

  lemma {:induction false} WholeOf(w: real, r: real)
    requires w > 0.0 && w == w * r
    ensures r == 1.0
  {
  }

  lemma {:induction false} PartOf(w: real, r: real, a: real)
    requires w > 0.0 && a == w * r
    ensures a / w == r
  {
  }

  /** The result is an average: it lies between any bounds on the visible values. */
  lemma {:induction false} BetweenValues(exp: real -> real, s: int -> real, v: int -> real, t: nat, lo: real, hi: real)
    requires IsExp(exp) && t > 0 && forall j | 0 <= j < t :: lo <= v(j) <= hi
    ensures lo <= Softmax(exp, s, v, t) <= hi
  {
    hide IsExp, RSum;
    var w := j => exp(s(j) - 0.0);
    WeightPositive(exp, s, 0.0, t);
    forall j | 0 <= j < t
      ensures w(j) > 0.0
    {
      ExpPositive(exp, s(j) - 0.0);
    }
    AverageBounds(t, w, v, lo, hi);
    RSumSame(t, j => w(j) * v(j), j => exp(s(j) - 0.0) * v(j));
    QuotientBounds(RSum(t, w), RSum(t, j => w(j) * v(j)), lo, hi);
  }

  lemma {:induction false} AverageBounds(t: nat, w: int -> real, v: int -> real, lo: real, hi: real)
    requires forall j | 0 <= j < t :: w(j) > 0.0 && lo <= v(j) <= hi
    ensures lo * RSum(t, w) <= RSum(t, j => w(j) * v(j)) <= hi * RSum(t, w)
  {
    AboveMultiple(t, w, v, lo);
    BelowMultiple(t, w, v, hi);
  }

  lemma {:induction false} AboveMultiple(t: nat, w: int -> real, v: int -> real, lo: real)
    requires forall j | 0 <= j < t :: w(j) > 0.0 && lo <= v(j)
    ensures lo * RSum(t, w) <= RSum(t, j => w(j) * v(j))
  {
    hide RSum;
    var wv, low := j => w(j) * v(j), j => lo * w(j);
    forall j | 0 <= j < t
      ensures low(j) <= wv(j)
    {
      ProductBounds(w(j), v(j), lo, v(j));
    }
    RSumMonotone(t, low, wv);
    RSumTimes(t, lo, w, low);
    RSumSame(t, wv, j => w(j) * v(j));
  }

  lemma {:induction false} BelowMultiple(t: nat, w: int -> real, v: int -> real, hi: real)
    requires forall j | 0 <= j < t :: w(j) > 0.0 && v(j) <= hi
    ensures RSum(t, j => w(j) * v(j)) <= hi * RSum(t, w)
  {
    hide RSum;
    var wv, high := j => w(j) * v(j), j => hi * w(j);
    forall j | 0 <= j < t
      ensures wv(j) <= high(j)
    {
      ProductBounds(w(j), v(j), v(j), hi);
    }
    RSumMonotone(t, wv, high);
    RSumTimes(t, hi, w, high);
    RSumSame(t, wv, j => w(j) * v(j));
  }

  lemma {:induction false} ProductBounds(w: real, v: real, lo: real, hi: real)
    requires w > 0.0 && lo <= v <= hi
    ensures lo * w <= w * v <= hi * w
  {
  }

  lemma {:induction false} QuotientBounds(w: real, a: real, lo: real, hi: real)
    requires w > 0.0 && lo * w <= a <= hi * w
    ensures lo <= a / w <= hi
  {
    var q := a / w;
    assert q * w == a;
  }

  /** Equal values come back unchanged, so the weights add up to one. */
  lemma {:induction false} ConstantValues(exp: real -> real, s: int -> real, c: real, t: nat)
    requires IsExp(exp) && t > 0
    ensures Softmax(exp, s, _ => c, t) == c
  {
    BetweenValues(exp, s, _ => c, t, c, c);
  }

  /** Only the first `t` positions matter. */
  lemma {:induction false} IgnoresTheRest(exp: real -> real, s: int -> real, v: int -> real, s2: int -> real,
                                          v2: int -> real, t: nat)
    requires forall j | 0 <= j < t :: s(j) == s2(j) && v(j) == v2(j)
    ensures Softmax(exp, s, v, t) == Softmax(exp, s2, v2, t)
  {
    RSumSame(t, j => exp(s(j) - 0.0), j => exp(s2(j) - 0.0));
    RSumSame(t, j => exp(s(j) - 0.0) * v(j), j => exp(s2(j) - 0.0) * v2(j));
  }

  // ----- The code

  datatype Extended = NegInf | Fin(value: real)

  function At(s: seq<real>, i: int): (x: real)
    ensures 0 <= i < |s| ==> x == s[i]
  {
    if 0 <= i < |s| then s[i] else 0.0
  }

  ghost function DotOf(a: seq<real>, ao: int, b: seq<real>, bo: int, n: nat): real {
    if n == 0 then 0.0 else DotOf(a, ao, b, bo, n - 1) + At(a, ao + n - 1) * At(b, bo + n - 1)
  }

  /** One query head against one key and value head: position `j` of both starts at `j * stride + off`. */
  datatype Head = Head(q: seq<real>, k: seq<real>, v: seq<real>, qo: nat, stride: nat, off: nat, hd: nat, scale: real,
                       exp: real -> real)
  {
    /** Where the head's part of position `j` begins. */
    function Place(j: int): int { j * stride + off }

    /** The scaled score of position `j`. */
    ghost function Score(j: int): real {
      DotOf(q, qo, k, Place(j), hd) * scale
    }

    /** Component `d` of the value at position `j`. */
    function Value(j: int, d: int): real {
      At(v, Place(j) + d)
    }

    /** Component `d` of the output: the softmax average over the first `limit` positions. */
    ghost function Out(limit: int, d: int): real {
      Softmax(exp, j => Score(j), j => Value(j, d), Max(limit, 0))
    }

    /** The running sums after `t` positions, relative to `m`. */
    ghost function Partial(m: Extended, t: nat, d: int): real {
      Weighted(exp, j => Score(j), j => Value(j, d), Base(m), t)
    }

    ghost function PartialWeight(m: Extended, t: nat): real {
      Weight(exp, j => Score(j), Base(m), t)
    }
  }

  method Dot(a: seq<real>, ao: nat, b: seq<real>, bo: nat, n: nat) returns (r: real)
    requires ao + n <= |a| && bo + n <= |b|
    ensures r == DotOf(a, ao, b, bo, n)
  {
    r := 0.0;
    for d := 0 to n
      invariant r == DotOf(a, ao, b, bo, d)
    {
      r := r + a[ao + d] * b[bo + d];
    }
  }

  /** A running sum rescaled by `a`, plus `p` times what is new. */
  function Mix(x: real, a: real, p: real, v: real): real { x * a + p * v }

  function Fade(l: real, a: real, p: real): real { l * a + p }

  /** `out[o + d] = out[o + d] * a + p * v[vo + d]` for every `d`. */
  method Blend(out: array<real>, o: nat, a: real, p: real, v: seq<real>, vo: nat, hd: nat)
    requires o + hd <= out.Length && vo + hd <= |v|
    modifies out
    ensures forall i | 0 <= i < out.Length ::
              out[i] == if o <= i < o + hd then Mix(old(out[i]), a, p, v[vo + i - o]) else old(out[i])
  {
    for d := 0 to hd
      invariant forall i | 0 <= i < out.Length ::
                  out[i] == if o <= i < o + d then Mix(old(out[i]), a, p, v[vo + i - o]) else old(out[i])
    {
      out[o + d] := Mix(out[o + d], a, p, v[vo + d]);
    }
  }

  method ScaleBy(out: array<real>, o: nat, c: real, hd: nat)
    requires o + hd <= out.Length
    modifies out
    ensures forall i | 0 <= i < out.Length :: out[i] == if o <= i < o + hd then old(out[i]) * c else old(out[i])
  {
    for d := 0 to hd
      invariant forall i | 0 <= i < out.Length :: out[i] == if o <= i < o + d then old(out[i]) * c else old(out[i])
    {
      out[o + d] := out[o + d] * c;
    }
  }

  ghost function Base(m: Extended): real { if m.Fin? then m.value else 0.0 }

  lemma {:induction false} SumsOfNone(exp: real -> real, s: int -> real, v: int -> real, m: real)
    ensures Weight(exp, s, m, 0) == 0.0 && Weighted(exp, s, v, m, 0) == 0.0
  {
  }

  /** What one more position does to the running sums when the maximum moves from `m` to `n`. */
  lemma {:induction false} OnlineStep(exp: real -> real, s: int -> real, v: int -> real, m: Extended, n: real, t: nat)
    requires IsExp(exp) && (m.NegInf? ==> t == 0)
    ensures var a := if m.NegInf? then 0.0 else exp(m.value - n);
            && Weight(exp, s, n, t + 1) == Weight(exp, s, Base(m), t) * a + exp(s(t) - n)
            && Weighted(exp, s, v, n, t + 1) == Weighted(exp, s, v, Base(m), t) * a + exp(s(t) - n) * v(t)
  {
    hide IsExp, RSum;
    RSumStep(t, j => exp(s(j) - n));
    RSumStep(t, j => exp(s(j) - n) * v(j));
    if m.Fin? {
      Rebase(exp, s, v, m.value, n, t);
    } else {
      SumsOfNone(exp, s, v, n);
      SumsOfNone(exp, s, v, 0.0);
    }
  }

  lemma {:induction false} PartialStep(h: Head, m: Extended, n: real, t: nat, d: int)
    requires IsExp(h.exp) && (m.NegInf? ==> t == 0)
    ensures var a := if m.NegInf? then 0.0 else h.exp(m.value - n);
            var p := h.exp(h.Score(t) - n);
            && h.PartialWeight(Fin(n), t + 1) == Fade(h.PartialWeight(m, t), a, p)
            && h.Partial(Fin(n), t + 1, d) == Mix(h.Partial(m, t, d), a, p, h.Value(t, d))
  {
    hide IsExp, RSum, Weight, Weighted;
    OnlineStep(h.exp, j => h.Score(j), j => h.Value(j, d), m, n, t);
  }

  lemma {:induction false} Reciprocal(a: real, b: real)
    requires b > 0.0
    ensures a / b == a * (1.0 / b)
  {
  }

  lemma {:induction false} PartialEnd(h: Head, m: Extended, limit: int, d: int)
    requires IsExp(h.exp)
    ensures var l := h.PartialWeight(m, Max(limit, 0));
            h.Out(limit, d) == h.Partial(m, Max(limit, 0), d) * if l > 0.0 then 1.0 / l else 0.0
  {
    var s, x := j => h.Score(j), j => h.Value(j, d);
    hide IsExp, RSum, Weight, Weighted, Softmax;
    if limit > 0 {
      AnyBase(h.exp, s, x, Base(m), limit);
      Reciprocal(Weighted(h.exp, s, x, Base(m), limit), Weight(h.exp, s, Base(m), limit));
    } else {
      NothingVisible(h.exp, s, x);
      SumsOfNone(h.exp, s, x, Base(m));
    }
  }

  /** The running maximum `m`, weight `l` and output after the first `t` positions. */
  ghost predicate Running(h: Head, m: Extended, l: real, t: nat, out: seq<real>, start: seq<real>)
  {
    && (m.NegInf? <==> t == 0) && l == h.PartialWeight(m, t) && |out| == |start|
    && forall i | 0 <= i < |out| :: out[i] == if h.qo <= i < h.qo + h.hd then h.Partial(m, t, i - h.qo) else start[i]
  }

  /** One query head: a single pass over the visible positions. */
  method OneHead(h: Head, out: array<real>, limit: int)
    requires IsExp(h.exp) && h.qo + h.hd <= |h.q| && h.qo + h.hd <= out.Length
    requires forall j | 0 <= j < limit :: j * h.stride + h.off + h.hd <= Min(|h.k|, |h.v|)
    modifies out
    ensures forall i | 0 <= i < out.Length ::
              out[i] == if h.qo <= i < h.qo + h.hd then h.Out(limit, i - h.qo) else old(out[i])
  {
    hide IsExp, Head.Out, Head.Partial, Head.PartialWeight, Head.Score;
    var m, l := NegInf, 0.0;
    for d := 0 to h.hd
      invariant forall i | 0 <= i < out.Length :: out[i] == if h.qo <= i < h.qo + d then 0.0 else old(out[i])
    {
      out[h.qo + d] := 0.0;
    }
    PartialStart(h);
    var t := 0;
    while t < limit
      invariant 0 <= t <= Max(limit, 0) && Running(h, m, l, t, out[..], old(out[..]))
    {
      m, l := Visit(h, out, m, l, t, old(out[..]));
      t := t + 1;
    }
    forall d {
      PartialEnd(h, m, limit, d);
    }
    ScaleBy(out, h.qo, if l > 0.0 then 1.0 / l else 0.0, h.hd);
  }

  /** One more position. */
  method Visit(h: Head, out: array<real>, m0: Extended, l0: real, t: nat, ghost start: seq<real>)
    returns (m: Extended, l: real)
    requires IsExp(h.exp) && h.qo + h.hd <= |h.q| && h.qo + h.hd <= out.Length && 0 <= h.Place(t)
             && h.Place(t) + h.hd <= Min(|h.k|, |h.v|)
    requires Running(h, m0, l0, t, out[..], start)
    modifies out
    ensures Running(h, m, l, t + 1, out[..], start)
  {
    hide IsExp, Head.Partial, Head.PartialWeight, Head.Score, Head.Place, Mix, Fade;
    var sc := ScoreAt(h, t);
    var mNew := if m0.Fin? && m0.value >= sc then m0.value else sc;
    var a := if m0.NegInf? then 0.0 else h.exp(m0.value - mNew);
    var p := h.exp(sc - mNew);
    PartialStep(h, m0, mNew, t, 0);
    forall d {
      PartialStep(h, m0, mNew, t, d);
    }
    Blend(out, h.qo, a, p, h.v, h.Place(t), h.hd);
    l := Fade(l0, a, p);
    m := Fin(mNew);
  }

  method ScoreAt(h: Head, t: nat) returns (sc: real)
    requires h.qo + h.hd <= |h.q| && 0 <= h.Place(t) && h.Place(t) + h.hd <= |h.k|
    ensures sc == h.Score(t)
  {
    hide Head.Place;
    var dot := Dot(h.q, h.qo, h.k, h.Place(t), h.hd);
    sc := dot * h.scale;
  }

  lemma {:induction false} PartialStart(h: Head)
    ensures h.PartialWeight(NegInf, 0) == 0.0 && forall d :: h.Partial(NegInf, 0, d) == 0.0
  {
    SumsOfNone(h.exp, j => h.Score(j), j => 0.0, 0.0);
    forall d
      ensures h.Partial(NegInf, 0, d) == 0.0
    {
      SumsOfNone(h.exp, j => h.Score(j), j => h.Value(j, d), 0.0);
    }
  }

  // ----- Every row and head

  datatype Shape = Shape(nq: nat, nkv: nat, hd: nat, rows: nat, qOffset: int, kvLen: int, causal: bool)
  {
    /** Every key head has a query head. */
    predicate Valid() { 0 < nkv <= nq && hd > 0 }

    /** How many key heads the query heads reach, `nq / nkv` of them to each. */
    function KeyHeads(): int
      requires Valid()
    {
      DivAtLeast(nq, nkv, 1);
      (nq - 1) / (nq / nkv) + 1
    }

    /** How many positions row `r` may see. */
    function Limit(r: nat): int {
      if causal then Min(qOffset + r + 1, kvLen) else kvLen
    }
  }

  /** Query head `h` of row `r`. */
  function HeadOf(z: Shape, q: seq<real>, k: seq<real>, v: seq<real>, scale: real, exp: real -> real, r: nat,
                  h: nat): Head
    requires z.Valid()
  {
    GroupPositive(z);
    Head(q, k, v, (r * z.nq + h) * z.hd, z.nkv * z.hd, h / (z.nq / z.nkv) * z.hd, z.hd, scale, exp)
  }

  lemma {:induction false} GroupPositive(z: Shape)
    requires z.Valid()
    ensures z.nq / z.nkv > 0
  {
    DivAtLeast(z.nq, z.nkv, 1);
  }

  /** In equal groups they reach exactly the key heads there are. */
  lemma {:induction false} EqualGroups(z: Shape)
    requires z.Valid() && z.nq % z.nkv == 0
    ensures z.KeyHeads() == z.nkv
  {
    GroupPositive(z);
    var g := z.nq / z.nkv;
    assert z.nq - 1 == (z.nkv - 1) * g + (g - 1);
    DivModOf(z.nkv - 1, g, g - 1);
  }

  /** What cell `i` of the output holds: component `i % hd` of head `i / hd % nq` of row `i / hd / nq`. */
  ghost function Expected(z: Shape, q: seq<real>, k: seq<real>, v: seq<real>, scale: real, exp: real -> real,
                          i: nat): real
    requires z.Valid()
  {
    DivAtLeast(i, z.hd, 0);
    DivAtLeast(i / z.hd, z.nq, 0);
    var r, h := i / z.hd / z.nq, i / z.hd % z.nq;
    HeadOf(z, q, k, v, scale, exp, r, h).Out(z.Limit(r), i % z.hd)
  }

  /** The caller's buffers are large enough. */
  predicate Fits(z: Shape, q: seq<real>, k: seq<real>, v: seq<real>, outLen: nat)
    requires z.Valid()
  {
    && |q| >= z.rows * z.nq * z.hd && outLen >= z.rows * z.nq * z.hd
    && (z.kvLen > 0 ==> Min(|k|, |v|) >= (z.kvLen - 1) * (z.nkv * z.hd) + z.KeyHeads() * z.hd)
  }

  lemma {:induction false} CellInside(z: Shape, r: nat, h: nat)
    requires z.Valid() && r < z.rows && h < z.nq
    ensures (r * z.nq + h) * z.hd + z.hd == (r * z.nq + h + 1) * z.hd <= z.rows * z.nq * z.hd
  {
    assert r * z.nq + h + 1 <= z.rows * z.nq by {
      MulMonotone(r + 1, z.rows, z.nq);
    }
    MulMonotone(r * z.nq + h + 1, z.rows * z.nq, z.hd);
  }

  lemma {:induction false} KeyHeadInside(z: Shape, h: nat)
    requires z.Valid() && h < z.nq
    ensures z.nq / z.nkv > 0 && 0 <= h / (z.nq / z.nkv) < z.KeyHeads()
    ensures h / (z.nq / z.nkv) * z.hd + z.hd <= z.KeyHeads() * z.hd
  {
    GroupPositive(z);
    var g := z.nq / z.nkv;
    DivAtLeast(h, g, 0);
    QuotientsAscend(h, z.nq - 1, g);
    MulMonotone(h / g + 1, z.KeyHeads(), z.hd);
  }

  lemma {:induction false} QuotientsAscend(a: int, b: int, g: int)
    requires a <= b && g > 0
    ensures a / g <= b / g
  {
    DivAtLeast(b, g, a / g);
  }

  lemma {:induction false} KeyInside(z: Shape, off: nat, j: nat)
    requires z.Valid() && j < z.kvLen && off + z.hd <= z.KeyHeads() * z.hd
    ensures j * (z.nkv * z.hd) + off + z.hd <= (z.kvLen - 1) * (z.nkv * z.hd) + z.KeyHeads() * z.hd
  {
    MulMonotone(j, z.kvLen - 1, z.nkv * z.hd);
  }

  lemma {:induction false} CellOf(z: Shape, r: nat, h: nat, d: nat)
    requires z.Valid() && h < z.nq && d < z.hd
    ensures var i := (r * z.nq + h) * z.hd + d;
            i / z.hd / z.nq == r && i / z.hd % z.nq == h && i % z.hd == d
  {
    DivModOf(r * z.nq + h, z.hd, d);
    DivModOf(r, z.nq, h);
  }

  lemma {:induction false} ExpectedOf(z: Shape, q: seq<real>, k: seq<real>, v: seq<real>, scale: real,
                                      exp: real -> real,
                                      r: nat, h: nat, i: nat)
    requires z.Valid() && h < z.nq && (r * z.nq + h) * z.hd <= i < (r * z.nq + h) * z.hd + z.hd
    ensures Expected(z, q, k, v, scale, exp, i)
         == HeadOf(z, q, k, v, scale, exp, r, h).Out(z.Limit(r), i - (r * z.nq + h) * z.hd)
  {
    hide Head.Out, HeadOf;
    CellOf(z, r, h, i - (r * z.nq + h) * z.hd);
  }

  /** One row and head. */
  method Cell(z: Shape, q: seq<real>, k: seq<real>, v: seq<real>, out: array<real>, scale: real, exp: real -> real,
              r: nat, h: nat)
    requires z.Valid() && IsExp(exp) && Fits(z, q, k, v, out.Length) && r < z.rows && h < z.nq
    modifies out
    ensures forall i | 0 <= i < out.Length ::
              out[i] == if (r * z.nq + h) * z.hd <= i < (r * z.nq + h) * z.hd + z.hd
                        then Expected(z, q, k, v, scale, exp, i) else old(out[i])
  {
    hide IsExp, Expected, Head.Out;
    var c := (r * z.nq + h) * z.hd;
    CellInside(z, r, h);
    KeyHeadInside(z, h);
    var head := HeadOf(z, q, k, v, scale, exp, r, h);
    forall j | 0 <= j < z.Limit(r)
      ensures j * head.stride + head.off + head.hd <= Min(|k|, |v|)
    {
      KeyInside(z, head.off, j);
    }
    OneHead(head, out, z.Limit(r));
    forall i | c <= i < c + z.hd
      ensures out[i] == Expected(z, q, k, v, scale, exp, i)
    {
      ExpectedOf(z, q, k, v, scale, exp, r, h, i);
    }
  }

  method Prefill(z: Shape, q: seq<real>, k: seq<real>, v: seq<real>, out: array<real>, scale: real, exp: real -> real)
    requires z.Valid() && IsExp(exp) && Fits(z, q, k, v, out.Length)
    modifies out
    ensures forall i | 0 <= i < out.Length ::
              out[i] == if i < z.rows * z.nq * z.hd then Expected(z, q, k, v, scale, exp, i) else old(out[i])
  {
    hide IsExp, Expected, Fits;
    for r := 0 to z.rows
      invariant forall i | 0 <= i < out.Length ::
                  out[i] == if i < r * z.nq * z.hd then Expected(z, q, k, v, scale, exp, i) else old(out[i])
    {
      assert (r * z.nq + 0) * z.hd == r * z.nq * z.hd;
      for h := 0 to z.nq
        invariant forall i | 0 <= i < out.Length ::
                    out[i] == if i < (r * z.nq + h) * z.hd then Expected(z, q, k, v, scale, exp, i) else old(out[i])
      {
        CellInside(z, r, h);
        Cell(z, q, k, v, out, scale, exp, r, h);
      }
      assert r * z.nq + z.nq == (r + 1) * z.nq;
    }
  }

  function DecodeShape(nq: nat, nkv: nat, hd: nat, cacheLen: int): Shape {
    Shape(nq, nkv, hd, 1, cacheLen - 1, cacheLen, true)
  }

  method Decode(q: seq<real>, k: seq<real>, v: seq<real>, out: array<real>, nq: nat, nkv: nat, hd: nat, cacheLen: int,
                scale: real, exp: real -> real)
    requires var z := DecodeShape(nq, nkv, hd, cacheLen); z.Valid() && IsExp(exp) && Fits(z, q, k, v, out.Length)
    modifies out
    ensures forall i | 0 <= i < nq * hd ::
              out[i] == Expected(DecodeShape(nq, nkv, hd, cacheLen), q, k, v, scale, exp, i)
  {
    hide Expected, IsExp;
    Prefill(DecodeShape(nq, nkv, hd, cacheLen), q, k, v, out, scale, exp);
    assert 1 * nq * hd == nq * hd;
  }

  lemma {:induction false} DotOfSuffix(a: seq<real>, from: nat, ao: nat, b: seq<real>, bo: int, n: nat)
    requires from <= |a|
    ensures DotOf(a, from + ao, b, bo, n) == DotOf(a[from..], ao, b, bo, n)
  {
    if n > 0 {
      DotOfSuffix(a, from, ao, b, bo, n - 1);
    }
  }

  /** Cutting the rows before it off the queries does not change a head's output. */
  lemma {:induction false} OutOfSuffix(h: Head, from: nat, limit: int, d: int)
    requires from <= h.qo && from <= |h.q|
    ensures h.Out(limit, d) == h.(q := h.q[from..], qo := h.qo - from).Out(limit, d)
  {
    hide Softmax;
    var h2 := h.(q := h.q[from..], qo := h.qo - from);
    forall j
      ensures h.Score(j) == h2.Score(j)
    {
      DotOfSuffix(h.q, from, h.qo - from, h.k, j * h.stride + h.off, h.hd);
    }
    IgnoresTheRest(h.exp, j => h.Score(j), j => h.Value(j, d), j => h2.Score(j), j => h2.Value(j, d), Max(limit, 0));
  }

  lemma {:induction false} LastRow(z: Shape, h: nat)
    requires z.rows > 0
    ensures (z.rows - 1) * z.nq * z.hd <= z.rows * z.nq * z.hd
    ensures ((z.rows - 1) * z.nq + h) * z.hd == (z.rows - 1) * z.nq * z.hd + h * z.hd
    ensures (0 * z.nq + h) * z.hd == h * z.hd
  {
    MulMonotone(z.rows - 1, z.rows, z.nq);
    MulMonotone((z.rows - 1) * z.nq, z.rows * z.nq, z.hd);
  }

  /** Decoding a token gives the last row that a prefill of the whole sequence gives. */
  lemma {:induction false} DecodeIsLastPrefillRow(z: Shape, q: seq<real>, k: seq<real>, v: seq<real>, scale: real,
                                                  exp: real -> real, h: nat, d: nat)
    requires z.Valid() && z.causal && z.rows > 0 && z.qOffset + z.rows == z.kvLen
    requires h < z.nq && d < z.hd && |q| == z.rows * z.nq * z.hd
    ensures (z.rows - 1) * z.nq * z.hd <= |q|
    ensures Expected(DecodeShape(z.nq, z.nkv, z.hd, z.kvLen), q[(z.rows - 1) * z.nq * z.hd..], k, v, scale, exp,
                     h * z.hd + d)
         == Expected(z, q, k, v, scale, exp, ((z.rows - 1) * z.nq + h) * z.hd + d)
  {
    hide Expected, Head.Out;
    LastRow(z, h);
    var last, one := z.rows - 1, DecodeShape(z.nq, z.nkv, z.hd, z.kvLen);
    var from := last * z.nq * z.hd;
    ExpectedOf(one, q[from..], k, v, scale, exp, 0, h, h * z.hd + d);
    ExpectedOf(z, q, k, v, scale, exp, last, h, (last * z.nq + h) * z.hd + d);
    OutOfSuffix(HeadOf(z, q, k, v, scale, exp, last, h), from, z.kvLen, d);
  }

  // ----- What a row sees

  lemma {:induction false} DotIsSum(a: seq<real>, ao: int, b: seq<real>, bo: int, n: nat, f: int -> real)
    requires forall e | 0 <= e < n :: f(e) == At(a, ao + e) * At(b, bo + e)
    ensures DotOf(a, ao, b, bo, n) == RSum(n, f)
  {
    hide At;
    if n > 0 {
      DotIsSum(a, ao, b, bo, n - 1, f);
    }
  }

  /** A query head reads the key head of its group; that head's part of position `j` starts at `(j * nkv + g) * hd`. */
  lemma {:induction false} ReadsItsGroup(z: Shape, q: seq<real>, k: seq<real>, v: seq<real>, scale: real,
                                         exp: real -> real, r: nat, h: nat, g: nat, j: int)
    requires z.Valid() && h < z.nq && g * (z.nq / z.nkv) <= h < (g + 1) * (z.nq / z.nkv)
    ensures HeadOf(z, q, k, v, scale, exp, r, h).Place(j) == (j * z.nkv + g) * z.hd
  {
    GroupPositive(z);
    var w := z.nq / z.nkv;
    DivAtLeast(h, w, g);
    DivAtMost(h, w, g);
    assert j * (z.nkv * z.hd) == j * z.nkv * z.hd;
  }

  /** The number of positions seen: position `t - 1` is in the cache and, if causal, not after the row; `t` is not. */
  lemma {:induction false} LimitIs(z: Shape, r: nat, t: nat)
    requires t > 0 ==> t - 1 < z.kvLen && (!z.causal || t - 1 <= z.qOffset + r)
    requires !(t < z.kvLen && (!z.causal || t <= z.qOffset + r))
    ensures t == Max(z.Limit(r), 0)
  {
  }

  /**
   Component `d` of head `h` in row `r` is the softmax average of the values at exactly the positions `0 .. t` the row
   may see, the last one included: with weights `exp` of the scaled dot product of the query with the keys.
   */
  lemma {:induction false} RowIsSoftmax(z: Shape, q: seq<real>, k: seq<real>, v: seq<real>, scale: real,
                                        exp: real -> real, r: nat, h: nat, d: nat, g: nat, qo: nat, t: nat,
                                        s: int -> real, x: int -> real)
    requires z.Valid() && IsExp(exp) && h < z.nq && d < z.hd && qo == (r * z.nq + h) * z.hd
    requires g * (z.nq / z.nkv) <= h < (g + 1) * (z.nq / z.nkv)
    requires t > 0 ==> t - 1 < z.kvLen && (!z.causal || t - 1 <= z.qOffset + r)
    requires !(t < z.kvLen && (!z.causal || t <= z.qOffset + r))
    requires forall j | 0 <= j < t ::
               && s(j) == RSum(z.hd, e => At(q, qo + e) * At(k, (j * z.nkv + g) * z.hd + e)) * scale
               && x(j) == At(v, (j * z.nkv + g) * z.hd + d)
    ensures t > 0 ==> RSum(t, j => exp(s(j))) > 0.0
    ensures Expected(z, q, k, v, scale, exp, qo + d)
         == if t == 0 then 0.0 else RSum(t, j => exp(s(j)) * x(j)) / RSum(t, j => exp(s(j)))
  {
    hide RSum, Expected, HeadOf, At, IsExp, DotOf, Shape.Limit, Head.Score, Head.Value, Head.Out;
    var head := HeadOf(z, q, k, v, scale, exp, r, h);
    LimitIs(z, r, t);
    ExpectedOf(z, q, k, v, scale, exp, r, h, qo + d);
    HeadFields(z, q, k, v, scale, exp, r, h);
    forall j | 0 <= j < t
      ensures s(j) == head.Score(j) && x(j) == head.Value(j, d)
    {
      PositionIs(z, q, k, v, scale, exp, r, h, d, g, qo, j);
    }
    OutIsSoftmax(head, z.Limit(r), d, t, s, x);
  }

  lemma {:induction false} OutIsSoftmax(head: Head, limit: int, d: nat, t: nat, s: int -> real, x: int -> real)
    requires IsExp(head.exp) && t == Max(limit, 0)
    requires forall j | 0 <= j < t :: s(j) == head.Score(j) && x(j) == head.Value(j, d)
    ensures t > 0 ==> RSum(t, j => head.exp(s(j))) > 0.0
    ensures head.Out(limit, d)
         == if t == 0 then 0.0 else RSum(t, j => head.exp(s(j)) * x(j)) / RSum(t, j => head.exp(s(j)))
  {
    hide RSum, IsExp, Softmax, Head.Score, Head.Value;
    IgnoresTheRest(head.exp, j => head.Score(j), j => head.Value(j, d), s, x, t);
    SoftmaxIs(head.exp, s, x, t);
  }

  lemma {:induction false} PositionIs(z: Shape, q: seq<real>, k: seq<real>, v: seq<real>, scale: real,
                                      exp: real -> real, r: nat, h: nat, d: nat, g: nat, qo: nat, j: int)
    requires z.Valid() && h < z.nq && d < z.hd && qo == (r * z.nq + h) * z.hd
    requires g * (z.nq / z.nkv) <= h < (g + 1) * (z.nq / z.nkv)
    ensures var head := HeadOf(z, q, k, v, scale, exp, r, h);
            && head.Score(j) == RSum(z.hd, e => At(q, qo + e) * At(k, (j * z.nkv + g) * z.hd + e)) * scale
            && head.Value(j, d) == At(v, (j * z.nkv + g) * z.hd + d)
  {
    hide RSum, HeadOf, At, DotOf, Head.Place;
    HeadFields(z, q, k, v, scale, exp, r, h);
    ReadsItsGroup(z, q, k, v, scale, exp, r, h, g, j);
    DotIsSum(q, qo, k, (j * z.nkv + g) * z.hd, z.hd, e => At(q, qo + e) * At(k, (j * z.nkv + g) * z.hd + e));
  }

  lemma {:induction false} HeadFields(z: Shape, q: seq<real>, k: seq<real>, v: seq<real>, scale: real,
                                      exp: real -> real, r: nat, h: nat)
    requires z.Valid()
    ensures var head := HeadOf(z, q, k, v, scale, exp, r, h);
            && head.q == q && head.k == k && head.v == v && head.scale == scale && head.exp == exp && head.hd == z.hd
            && head.qo == (r * z.nq + h) * z.hd
  {
  }

  lemma {:induction false} SoftmaxIs(exp: real -> real, s: int -> real, x: int -> real, t: nat)
    requires IsExp(exp)
    ensures t > 0 ==> RSum(t, j => exp(s(j))) > 0.0
    ensures Softmax(exp, s, x, t)
         == if t == 0 then 0.0 else RSum(t, j => exp(s(j)) * x(j)) / RSum(t, j => exp(s(j)))
  {
    hide RSum, IsExp;
    if t > 0 {
      WeightPositive(exp, s, 0.0, t);
      RSumSame(t, j => exp(s(j) - 0.0), j => exp(s(j)));
      RSumSame(t, j => exp(s(j) - 0.0) * x(j), j => exp(s(j)) * x(j));
    } else {
      NothingVisible(exp, s, x);
    }
  }

  /** Cell `e` of key head `g` at position `j` of a cache. */
  function CacheCell(z: Shape, c: seq<real>, g: nat, j: nat, e: nat): (x: real)
    ensures (j * z.nkv + g) * z.hd + e < |c| ==> x == c[(j * z.nkv + g) * z.hd + e]
  {
    At(c, (j * z.nkv + g) * z.hd + e)
  }

  lemma {:induction false} SameCell(z: Shape, c: seq<real>, c2: seq<real>, g: nat, j: nat, e: nat)
    requires CacheCell(z, c, g, j, e) == CacheCell(z, c2, g, j, e)
    ensures At(c, (j * z.nkv + g) * z.hd + e) == At(c2, (j * z.nkv + g) * z.hd + e)
  {
  }

  lemma {:induction false} SameDots(z: Shape, q: seq<real>, qo: nat, k: seq<real>, k2: seq<real>, g: nat, j: nat,
                                    n: nat)
    requires forall e: nat | e < n :: CacheCell(z, k, g, j, e) == CacheCell(z, k2, g, j, e)
    ensures DotOf(q, qo, k, (j * z.nkv + g) * z.hd, n) == DotOf(q, qo, k2, (j * z.nkv + g) * z.hd, n)
  {
    hide At, CacheCell;
    if n > 0 {
      SameDots(z, q, qo, k, k2, g, j, n - 1);
      SameCell(z, k, k2, g, j, n - 1);
    }
  }

  lemma {:induction false} SamePosition(z: Shape, q: seq<real>, k: seq<real>, v: seq<real>, k2: seq<real>,
                                        v2: seq<real>, scale: real, exp: real -> real, r: nat, h: nat, d: nat,
                                        g: nat, j: nat)
    requires z.Valid() && h < z.nq && d < z.hd && g * (z.nq / z.nkv) <= h < (g + 1) * (z.nq / z.nkv)
    requires forall e: nat | e < z.hd :: CacheCell(z, k, g, j, e) == CacheCell(z, k2, g, j, e)
    requires CacheCell(z, v, g, j, d) == CacheCell(z, v2, g, j, d)
    ensures var one, two := HeadOf(z, q, k, v, scale, exp, r, h), HeadOf(z, q, k2, v2, scale, exp, r, h);
            one.Score(j) == two.Score(j) && one.Value(j, d) == two.Value(j, d)
  {
    hide HeadOf, DotOf, At, CacheCell, Head.Place;
    HeadFields(z, q, k, v, scale, exp, r, h);
    HeadFields(z, q, k2, v2, scale, exp, r, h);
    ReadsItsGroup(z, q, k, v, scale, exp, r, h, g, j);
    ReadsItsGroup(z, q, k2, v2, scale, exp, r, h, g, j);
    SameDots(z, q, (r * z.nq + h) * z.hd, k, k2, g, j, z.hd);
    SameCell(z, v, v2, g, j, d);
  }

  lemma {:induction false} SameOut(one: Head, two: Head, limit: int, d: int)
    requires one.exp == two.exp
    requires forall j: nat | j < limit :: one.Score(j) == two.Score(j) && one.Value(j, d) == two.Value(j, d)
    ensures one.Out(limit, d) == two.Out(limit, d)
  {
    hide Softmax, Head.Score, Head.Value;
    IgnoresTheRest(one.exp, j => one.Score(j), j => one.Value(j, d), j => two.Score(j), j => two.Value(j, d),
                   Max(limit, 0));
  }

  /** A causal row does not look ahead: two caches that agree on what the row may see give it the same output. */
  lemma {:induction false} NeverLooksAhead(z: Shape, q: seq<real>, k: seq<real>, v: seq<real>, k2: seq<real>,
                                           v2: seq<real>, scale: real, exp: real -> real, r: nat, h: nat, d: nat,
                                           g: nat, i: nat)
    requires z.Valid() && h < z.nq && d < z.hd && i == (r * z.nq + h) * z.hd + d
    requires g * (z.nq / z.nkv) <= h < (g + 1) * (z.nq / z.nkv)
    requires forall j: nat, e: nat | j < z.kvLen && (!z.causal || j <= z.qOffset + r) && e < z.hd ::
               && CacheCell(z, k, g, j, e) == CacheCell(z, k2, g, j, e)
               && CacheCell(z, v, g, j, e) == CacheCell(z, v2, g, j, e)
    ensures Expected(z, q, k, v, scale, exp, i)
         == Expected(z, q, k2, v2, scale, exp, i)
  {
    hide Expected, Head.Out, Head.Score, Head.Value, HeadOf, CacheCell;
    var one, two := HeadOf(z, q, k, v, scale, exp, r, h), HeadOf(z, q, k2, v2, scale, exp, r, h);
    ExpectedOf(z, q, k, v, scale, exp, r, h, i);
    ExpectedOf(z, q, k2, v2, scale, exp, r, h, i);
    HeadFields(z, q, k, v, scale, exp, r, h);
    HeadFields(z, q, k2, v2, scale, exp, r, h);
    forall j: nat | j < z.Limit(r)
      ensures one.Score(j) == two.Score(j) && one.Value(j, d) == two.Value(j, d)
    {
      SamePosition(z, q, k, v, k2, v2, scale, exp, r, h, d, g, j);
    }
    SameOut(one, two, z.Limit(r), d);
  }
}
