/**
 The token with the largest logit, found by several threads: the int8 head (src/cpu/bitnet_cpu.c), which merges in
 thread order and breaks ties by index, and the FP16 head (src/cpu/cpu_kernels.c), which merges in order of arrival.
 */
module Argmax {
  import opened Common
  import opened Arith
  import opened Lanes
  import opened Sums
  import Int8

  // ----- What is asked for

  ghost predicate IsMax(logits: seq<real>, i: int) {
    0 <= i < |logits| && forall k | 0 <= k < |logits| :: logits[k] <= logits[i]
  }

  /** The lowest index that attains the maximum. */
  ghost predicate IsFirstMax(logits: seq<real>, i: int) {
    IsMax(logits, i) && forall k | 0 <= k < i :: logits[k] < logits[i]
  }

  lemma {:induction false} FirstMaxIsUnique(logits: seq<real>, i: int, j: int)
    requires IsFirstMax(logits, i) && IsFirstMax(logits, j)
    ensures i == j
  {
    assert logits[i] <= logits[j] <= logits[i];
  }

  // ----- The int8 head

  const INT32_MAX := 0x7fff_ffff

  /** The best over the indices seen: the lowest that attains their maximum. */
  ghost predicate BestOf(logits: seq<real>, seen: set<int>, low: real, bv: real, bi: int) {
    && (forall k | k in seen :: 0 <= k < |logits|)
    && if seen == {} then bv == low && bi == INT32_MAX
       else
         && bi in seen && bv == logits[bi]
         && forall k | k in seen :: logits[k] < bv || (logits[k] == bv && bi <= k)
  }

  /** Taking one more index in, as both loops do it. */
  lemma {:induction false} BestStep(logits: seq<real>, seen: set<int>, low: real, bv: real, bi: int, k: int)
    requires BestOf(logits, seen, low, bv, bi) && 0 <= k < |logits| < INT32_MAX && low <= logits[k]
    ensures if logits[k] > bv || (logits[k] == bv && k < bi) then BestOf(logits, seen + {k}, low, logits[k], k)
            else BestOf(logits, seen + {k}, low, bv, bi)
  {
  }

  /** The logit the head computes for row `i`. */
  function Logit(dot: int, wScale: real, scale: real): real
    requires scale > 0.0
  {
    dot as real * wScale / scale
  }

  ghost predicate HeadInputs(q: Vec, w: seq<Vec>, wScale: seq<real>, K: nat) {
    && |q| == K && AreI8(q) && |wScale| == |w| < INT32_MAX
    && forall n | 0 <= n < |w| :: |w[n]| == K && Int8.AreWeights(w[n])
  }

  ghost predicate AreLogits(q: Vec, scale: real, w: seq<Vec>, wScale: seq<real>, K: nat, logits: seq<real>)
    requires scale > 0.0
  {
    && |logits| == |w| == |wScale|
    && forall i | 0 <= i < |w| :: logits[i] == Logit(Wrap32(Int8.Dot(q, w[i], K)), wScale[i], scale)
  }

  /** The indices `n` .. `n + r - 1`. */
  function Run(n: int, r: nat): (s: set<int>)
    ensures forall k :: k in s <==> n <= k < n + r
  {
    if r == 0 then {} else Run(n, r - 1) + {n + r - 1}
  }

  /** The indices of group `g`. */
  function Members(g: nat, V: nat): set<int>
    requires 4 * g < V
  {
    Run(4 * g, Min(V - 4 * g, 4))
  }

  /** One group of up to four rows, into a thread's best. */
  method Group(isa: Int8.Isa, q: Vec, scale: real, w: seq<Vec>, wScale: seq<real>, K: nat, g: nat, v0: real, i0: int,
               ghost logits: seq<real>, ghost low: real, ghost seen: set<int>)
    returns (bv: real, bi: int)
    requires scale > 0.0 && HeadInputs(q, w, wScale, K) && AreLogits(q, scale, w, wScale, K, logits) && 4 * g < |w|
    requires (forall i | 0 <= i < |logits| :: low <= logits[i]) && BestOf(logits, seen, low, v0, i0)
    ensures BestOf(logits, seen + Members(g, |w|), low, bv, bi)
  {
    hide Wrap32, Int8.Dot, Logit, AreI8, Int8.AreWeights, BestOf;
    bv, bi := v0, i0;
    var n0 := 4 * g;
    var nr := Min(|w| - n0, 4);
    var o := Int8.Tile(isa, [q], w[n0..n0 + nr], K);
    ghost var now := seen;
    for r := 0 to nr
      invariant now == seen + Run(n0, r)
      invariant BestOf(logits, now, low, bv, bi)
    {
      assert w[n0..n0 + nr][r] == w[n0 + r];
      assert o[4 * 0 + r] == Wrap32(Int8.Dot([q][0], w[n0..n0 + nr][r], K));
      var v := Logit(o[r], wScale[n0 + r], scale);
      assert v == logits[n0 + r];
      BestStep(logits, now, low, bv, bi, n0 + r);
      if v > bv || (v == bv && n0 + r < bi) {
        bv, bi := v, n0 + r;
      }
      now := now + {n0 + r};
    }
    assert now == seen + Members(g, |w|);
  }

  /** The indices thread `tid` has seen after its groups below `g`. */
  ghost function SeenBy(owner: nat -> nat, tid: nat, g: nat, V: nat): set<int> {
    set k | 0 <= k < V && k / 4 < g && owner(k / 4) == tid
  }

  /** One thread's share: its groups, in order. */
  method Thread(isa: Int8.Isa, q: Vec, scale: real, w: seq<Vec>, wScale: seq<real>, K: nat, owner: nat -> nat, tid: nat,
                low: real, ghost logits: seq<real>)
    returns (bv: real, bi: int)
    requires scale > 0.0 && HeadInputs(q, w, wScale, K) && AreLogits(q, scale, w, wScale, K, logits)
    requires forall i | 0 <= i < |logits| :: low <= logits[i]
    ensures BestOf(logits, SeenBy(owner, tid, (|w| + 3) / 4, |w|), low, bv, bi)
  {
    hide BestOf, AreLogits, HeadInputs;
    bv, bi := low, INT32_MAX;
    BestOfNone(logits, low);
    assert SeenBy(owner, tid, 0, |w|) == {};
    for g := 0 to (|w| + 3) / 4
      invariant BestOf(logits, SeenBy(owner, tid, g, |w|), low, bv, bi)
    {
      SeenNext(owner, tid, g, |w|);
      if owner(g) == tid {
        bv, bi := Group(isa, q, scale, w, wScale, K, g, bv, bi, logits, low, SeenBy(owner, tid, g, |w|));
      }
    }
  }

  lemma {:induction false} BestOfNone(logits: seq<real>, low: real)
    ensures BestOf(logits, {}, low, low, INT32_MAX)
  {
  }

  lemma {:induction false} SeenNext(owner: nat -> nat, tid: nat, g: nat, V: nat)
    requires 4 * g < V
    ensures SeenBy(owner, tid, g + 1, V) == if owner(g) == tid then SeenBy(owner, tid, g, V) + Members(g, V)
            else SeenBy(owner, tid, g, V)
  {
    assert forall k | 0 <= k < V :: k / 4 == g <==> 4 * g <= k < 4 * g + 4;
  }

  /** What the merge of the first `t` threads has found. */
  ghost predicate Merged(best: seq<(real, int)>, t: nat, have: bool, bv: real, bi: int)
    requires t <= |best|
  {
    if have then
      && (exists u :: 0 <= u < t && best[u] == (bv, bi) && bi != INT32_MAX)
      && forall u | 0 <= u < t && best[u].1 != INT32_MAX :: best[u].0 < bv || (best[u].0 == bv && bi <= best[u].1)
    else bi == 0 && forall u | 0 <= u < t :: best[u].1 == INT32_MAX
  }

  /** Merges in thread order; ties go to the lower index. */
  method Merge(best: seq<(real, int)>, low: real) returns (have: bool, bv: real, bi: int)
    ensures Merged(best, |best|, have, bv, bi)
  {
    have, bv, bi := false, low, 0;
    for t := 0 to |best|
      invariant Merged(best, t, have, bv, bi)
    {
      var (v, i) := best[t];
      if i != INT32_MAX && (!have || v > bv || (v == bv && i < bi)) {
        have, bv, bi := true, v, i;
        assert best[t] == (bv, bi);
      }
    }
  }

  /** Whatever groups each thread gets, the head returns the lowest token whose logit is largest. */
  method HeadArgmax(isa: Int8.Isa, q: Vec, scale: real, w: seq<Vec>, wScale: seq<real>, K: nat, owner: nat -> nat,
                    threads: nat,
                    fltMax: real, ghost logits: seq<real>)
    returns (st: Status, token: int, value: real)
    requires HeadInputs(q, w, wScale, K) && threads > 0 && forall g :: owner(g) < threads
    requires scale > 0.0 ==>
               && |logits| == |w| && (forall i | 0 <= i < |logits| :: -fltMax <= logits[i])
               && forall i | 0 <= i < |w| ::
                    logits[i] == Wrap32(Int8.Dot(q, w[i], K)) as real * wScale[i] / scale
    ensures st == Ok <==> |w| > 0 && K > 0 && scale > 0.0
    ensures st == Ok ==> 0 <= token < |logits| && value == logits[token]
    ensures st == Ok ==> forall k | 0 <= k < |logits| :: logits[k] <= logits[token]
    ensures st == Ok ==> forall k | 0 <= k < token :: logits[k] < logits[token]
  {
    if |w| == 0 || K == 0 || scale <= 0.0 {
      return InvalidArg, 0, 0.0;
    }
    LogitsAre(q, scale, w, wScale, K, logits);
    hide BestOf, AreLogits, HeadInputs, IsFirstMax, Wrap32, Int8.Dot;
    var best: seq<(real, int)> := [];
    for t := 0 to threads
      invariant |best| == t
      invariant forall u | 0 <= u < t :: BestOf(logits, SeenBy(owner, u, (|w| + 3) / 4, |w|), -fltMax, best[u].0,
                                                best[u].1)
    {
      var bv, bi := Thread(isa, q, scale, w, wScale, K, owner, t, -fltMax, logits);
      best := best + [(bv, bi)];
    }
    var have;
    have, value, token := Merge(best, -fltMax);
    LogitCount(q, scale, w, wScale, K, logits);
    MergedIsFirstMax(logits, best, owner, threads, -fltMax, have, value, token);
    FirstMaxIs(logits, token);
    st := Ok;
  }

  lemma {:induction false} LogitsAre(q: Vec, scale: real, w: seq<Vec>, wScale: seq<real>, K: nat, logits: seq<real>)
    requires scale > 0.0 && |logits| == |w| == |wScale|
    requires forall i | 0 <= i < |w| :: logits[i] == Wrap32(Int8.Dot(q, w[i], K)) as real * wScale[i] / scale
    ensures AreLogits(q, scale, w, wScale, K, logits)
  {
    hide Wrap32, Int8.Dot;
  }

  lemma {:induction false} FirstMaxIs(logits: seq<real>, i: int)
    ensures IsFirstMax(logits, i) <==>
              && 0 <= i < |logits| && (forall k | 0 <= k < |logits| :: logits[k] <= logits[i])
              && forall k | 0 <= k < i :: logits[k] < logits[i]
  {
  }

  lemma {:induction false} LogitCount(q: Vec, scale: real, w: seq<Vec>, wScale: seq<real>, K: nat, logits: seq<real>)
    requires scale > 0.0 && AreLogits(q, scale, w, wScale, K, logits) && HeadInputs(q, w, wScale, K)
    ensures |logits| == |w| < INT32_MAX
  {
  }

  /** A thread's best is at least as good as index `k`. */
  ghost predicate Beaten(logits: seq<real>, b: (real, int), k: int)
    requires 0 <= k < |logits|
  {
    b.1 != INT32_MAX && (logits[k] < b.0 || (logits[k] == b.0 && b.1 <= k))
  }

  lemma {:induction false} MergedIsFirstMax(logits: seq<real>, best: seq<(real, int)>, owner: nat -> nat, threads: nat,
                                            low: real,
                                            have: bool, bv: real, bi: int)
    requires 0 < |logits| < INT32_MAX && |best| == threads && (forall g :: owner(g) < threads)
    requires forall u | 0 <= u < threads :: BestOf(logits, SeenBy(owner, u, (|logits| + 3) / 4, |logits|), low,
                                                   best[u].0, best[u].1)
    requires Merged(best, threads, have, bv, bi)
    ensures IsFirstMax(logits, bi) && bv == logits[bi]
  {
    forall k | 0 <= k < |logits|
      ensures Beaten(logits, best[owner(k / 4)], k)
    {
      var u := owner(k / 4);
      var seen := SeenBy(owner, u, (|logits| + 3) / 4, |logits|);
      assert k in seen;
      assert BestOf(logits, seen, low, best[u].0, best[u].1);
    }
    assert have by {
      assert Beaten(logits, best[owner(0 / 4)], 0);
    }
    var u :| 0 <= u < threads && best[u] == (bv, bi) && bi != INT32_MAX;
    assert BestOf(logits, SeenBy(owner, u, (|logits| + 3) / 4, |logits|), low, bv, bi);
    forall k | 0 <= k < |logits|
      ensures logits[k] < bv || (logits[k] == bv && bi <= k)
    {
      assert Beaten(logits, best[owner(k / 4)], k);
    }
  }

  // ----- The FP16 head

  /** A running maximum that starts at minus infinity. */
  datatype Level = NegInf | Level(value: real)
  {
    predicate Below(v: real) { NegInf? || value < v }
  }

  function Pos(order: seq<nat>, t: nat): (i: nat)
    ensures i <= |order| && (t in order <==> i < |order|) && (i < |order| ==> order[i] == t)
  {
    if order == [] then 0 else if order[0] == t then 0 else 1 + Pos(order[1..], t)
  }

  lemma {:induction false} PosOf(order: seq<nat>, i: nat)
    requires i < |order| && forall x, y | 0 <= x < y < |order| :: order[x] != order[y]
    ensures Pos(order, order[i]) == i
  {
    var j := Pos(order, order[i]);
    assert order[j] == order[i];
  }

  /**
   How one call went: which thread took which row, which threads got their row buffer, and in which order the threads
   reached the critical section.
   */
  datatype Call = Call(owner: nat -> nat, rowOk: nat -> bool, order: seq<nat>)
  {
    ghost predicate Valid() {
      && (forall t :: owner(t) in order)
      && (forall x, y | 0 <= x < y < |order| :: order[x] != order[y])
    }

    /** Rows that are looked at: those whose thread has a buffer. */
    predicate Seen(k: nat) { rowOk(owner(k)) }

    function Arrival(k: nat): nat { Pos(order, owner(k)) }
  }

  /** `b` loses to `a`: smaller, or equal and merged later, or equal, of the same thread and of higher index. */
  ghost predicate Beats(c: Call, logits: seq<real>, a: nat, b: nat)
    requires a < |logits| && b < |logits|
  {
    logits[b] < logits[a] || (logits[b] == logits[a]
                              && (c.Arrival(a) < c.Arrival(b) || (c.Arrival(a) == c.Arrival(b) && a <= b)))
  }

  /** The best among the rows seen that `among` picks out. */
  ghost predicate Leads(c: Call, logits: seq<real>, among: nat -> bool, token: nat, value: Level) {
    if forall k: nat | k < |logits| && c.Seen(k) :: !among(k) then token == 0 && value == NegInf
    else
      && token < |logits| && c.Seen(token) && among(token) && value == Level(logits[token])
      && forall k: nat | k < |logits| && c.Seen(k) && among(k) :: Beats(c, logits, token, k)
  }

  ghost function LogitF16(x: seq<real>, w: seq<seq<real>>, K: nat): (r: seq<real>)
    requires |x| == K && forall t | 0 <= t < |w| :: |w[t]| == K
    ensures |r| == |w|
  {
    seq(|w|, t requires 0 <= t < |w| => RowDot(x, w[t], K))
  }

  ghost function RowDot(x: seq<real>, row: seq<real>, K: nat): real
    requires K <= |x| && K <= |row|
  {
    if K == 0 then 0.0 else RowDot(x, row, K - 1) + x[K - 1] * row[K - 1]
  }

  /** The logits of the FP16 head are the dot products. */
  lemma {:induction false} LogitF16Is(x: seq<real>, w: seq<seq<real>>, K: nat, t: nat, f: int -> real)
    requires |x| == K && (forall t | 0 <= t < |w| :: |w[t]| == K) && t < |w|
    requires forall k | 0 <= k < K :: f(k) == x[k] * w[t][k]
    ensures LogitF16(x, w, K)[t] == RSum(K, f)
  {
    RowDotIs(x, w[t], K, f);
  }

  lemma {:induction false} RowDotIs(x: seq<real>, row: seq<real>, K: nat, f: int -> real)
    requires K <= |x| && K <= |row| && forall k | 0 <= k < K :: f(k) == x[k] * row[k]
    ensures RowDot(x, row, K) == RSum(K, f)
  {
    if K > 0 {
      RowDotIs(x, row, K - 1, f);
    }
  }

  method DotF32(x: seq<real>, row: seq<real>, K: nat) returns (s: real)
    requires |x| == |row| == K
    ensures s == RowDot(x, row, K)
  {
    s := 0.0;
    for k := 0 to K
      invariant s == RowDot(x, row, k)
    {
      s := s + x[k] * row[k];
    }
  }

  /** The best among the rows below `t` of thread `tid`. */
  ghost predicate LeadsOwn(c: Call, logits: seq<real>, tid: nat, t: nat, token: nat, value: Level) {
    Leads(c, logits, (k: nat) => c.owner(k) == tid && k < t, token, value)
  }

  /** The best among the rows of the first `i` threads to arrive. */
  ghost predicate LeadsArrived(c: Call, logits: seq<real>, i: nat, token: nat, value: Level) {
    Leads(c, logits, (k: nat) => c.Arrival(k) < i, token, value)
  }

  /** One thread's rows, in order; `lb` stays 0 and `lv` minus infinity when it sees none. */
  method LocalBest(c: Call, x: seq<real>, w: seq<seq<real>>, K: nat, tid: nat) returns (lv: Level, lb: nat)
    requires |x| == K && (forall t | 0 <= t < |w| :: |w[t]| == K) && c.Valid()
    ensures LeadsOwn(c, LogitF16(x, w, K), tid, |w|, lb, lv)
  {
    lb, lv := 0, NegInf;
    ghost var logits := LogitF16(x, w, K);
    NoneSeen(c, logits, tid);
    hide LeadsOwn;
    if c.rowOk(tid) {
      for t := 0 to |w|
        invariant LeadsOwn(c, logits, tid, t, lb, lv)
      {
        LocalStep(c, logits, tid, t, lb, lv);
        if c.owner(t) == tid {
          var s := DotF32(x, w[t], K);
          if lv.Below(s) {
            lv, lb := Level(s), t;
          }
        }
      }
    }
  }

  /** Nothing is seen before the first row, or at all without a buffer. */
  lemma {:induction false} NoneSeen(c: Call, logits: seq<real>, tid: nat)
    ensures LeadsOwn(c, logits, tid, 0, 0, NegInf) && (!c.rowOk(tid) ==> LeadsOwn(c, logits, tid, |logits|, 0, NegInf))
  {
    hide Pos, Call.Arrival;
  }

  lemma {:induction false} LocalStep(c: Call, logits: seq<real>, tid: nat, t: nat, lb: nat, lv: Level)
    requires t < |logits| && c.rowOk(tid) && LeadsOwn(c, logits, tid, t, lb, lv)
    ensures if c.owner(t) == tid && lv.Below(logits[t]) then LeadsOwn(c, logits, tid, t + 1, t, Level(logits[t]))
            else LeadsOwn(c, logits, tid, t + 1, lb, lv)
  {
    hide Pos;
    if c.owner(t) == tid {
      assert c.Seen(t);
    }
  }

  /**
   For every sharing of the rows, every order of arrival and every set of threads left without a buffer: the value is
   the maximum over the rows seen, and ties go to the thread that arrived first, within it to the lowest row.
   */
  method LmHeadArgmax(c: Call, x: seq<real>, w: seq<seq<real>>, K: nat) returns (token: nat, value: Level)
    requires |x| == K && (forall t | 0 <= t < |w| :: |w[t]| == K) && c.Valid()
    ensures IsHeadResult(c, LogitF16(x, w, K), token, value)
  {
    token, value := 0, NegInf;
    ghost var logits := LogitF16(x, w, K);
    NoneArrived(c, logits);
    hide LeadsOwn, LeadsArrived, IsHeadResult, Call.Valid;
    for i := 0 to |c.order|
      invariant LeadsArrived(c, logits, i, token, value)
    {
      var lv, lb := LocalBest(c, x, w, K, c.order[i]);
      LeadsJoin(c, logits, i, token, value, lb, lv);
      if lv.Level? && value.Below(lv.value) {
        value, token := lv, lb;
      }
    }
    AllArrived(c, logits, token, value);
  }

  lemma {:induction false} NoneArrived(c: Call, logits: seq<real>)
    ensures LeadsArrived(c, logits, 0, 0, NegInf)
  {
    hide Pos;
  }

  lemma {:induction false} LeadsSame(c: Call, logits: seq<real>, some: nat -> bool, same: nat -> bool, token: nat,
                                     value: Level)
    requires Leads(c, logits, some, token, value) && forall k: nat | k < |logits| :: some(k) <==> same(k)
    ensures Leads(c, logits, same, token, value)
  {
    hide Pos, Call.Arrival, Call.Seen;
  }

  lemma {:induction false} AllArrived(c: Call, logits: seq<real>, token: nat, value: Level)
    requires c.Valid() && LeadsArrived(c, logits, |c.order|, token, value)
    ensures IsHeadResult(c, logits, token, value)
  {
    forall k: nat
      ensures c.Arrival(k) < |c.order|
    {
      assert c.owner(k) in c.order;
    }
    hide Leads, Pos, Call.Arrival;
    LeadsSame(c, logits, (k: nat) => c.Arrival(k) < |c.order|, (k: nat) => true, token, value);
  }

  lemma {:induction false} LeadsJoin(c: Call, logits: seq<real>, i: nat, token: nat, value: Level, lb: nat, lv: Level)
    requires c.Valid() && i < |c.order| && LeadsArrived(c, logits, i, token, value)
    requires LeadsOwn(c, logits, c.order[i], |logits|, lb, lv)
    ensures if lv.Level? && value.Below(lv.value) then LeadsArrived(c, logits, i + 1, lb, lv)
            else LeadsArrived(c, logits, i + 1, token, value)
  {
    PosOf(c.order, i);
    forall k: nat
      ensures c.owner(k) == c.order[i] <==> c.Arrival(k) == i
    {
      assert c.owner(k) in c.order;
    }
    hide Leads, Pos, Call.Arrival, Call.Valid;
    LeadsSame(c, logits, (k: nat) => c.owner(k) == c.order[i] && k < |logits|,
              (k: nat) => c.owner(k) == c.order[i], lb, lv);
    LaterJoins(c, logits, (k: nat) => c.Arrival(k) < i, (k: nat) => c.owner(k) == c.order[i],
               (k: nat) => c.Arrival(k) < i + 1, token, value, lb, lv);
  }

  /** The best of two sets of rows, the second of which arrives later. */
  lemma {:induction false} LaterJoins(c: Call, logits: seq<real>, first: nat -> bool, second: nat -> bool,
                                      all: nat -> bool,
                                      token: nat, value: Level, lb: nat, lv: Level)
    requires Leads(c, logits, first, token, value) && Leads(c, logits, second, lb, lv)
    requires forall k: nat :: all(k) <==> first(k) || second(k)
    requires forall a: nat, b: nat | first(a) && second(b) :: c.Arrival(a) < c.Arrival(b)
    ensures if lv.Level? && value.Below(lv.value) then Leads(c, logits, all, lb, lv)
            else Leads(c, logits, all, token, value)
  {
    hide Pos, Call.Arrival, Call.Seen;
  }

  ghost predicate IsHeadResult(c: Call, logits: seq<real>, token: nat, value: Level) {
    Leads(c, logits, (k: nat) => true, token, value)
  }

  /** Whatever threads lack a buffer: the value is the maximum over the rows of the others, and the token attains it. */
  lemma {:induction false} BestOfRowsSeen(c: Call, logits: seq<real>, token: nat, value: Level)
    requires IsHeadResult(c, logits, token, value)
    ensures if exists k: nat :: k < |logits| && c.rowOk(c.owner(k)) then
              && token < |logits| && c.rowOk(c.owner(token)) && value == Level(logits[token])
              && forall k: nat | k < |logits| && c.rowOk(c.owner(k)) :: logits[k] <= logits[token]
            else token == 0 && value == NegInf
  {
    hide Pos, Call.Arrival;
    assert forall k: nat :: c.Seen(k) <==> c.rowOk(c.owner(k));
    forall k: nat | k < |logits| && c.rowOk(c.owner(k))
      ensures token < |logits| && logits[k] <= logits[token]
    {
      assert c.Seen(k);
      assert Beats(c, logits, token, k);
    }
  }

  /** With every buffer allocated the value is the maximum logit and the token attains it, in every order of arrival. */
  lemma {:induction false} HeadAttainsMax(c: Call, logits: seq<real>, token: nat, value: Level)
    requires IsHeadResult(c, logits, token, value) && |logits| > 0 && forall k: nat | k < |logits| :: c.Seen(k)
    ensures IsMax(logits, token) && value == Level(logits[token])
  {
    assert c.Seen(0);
    forall k: nat | k < |logits|
      ensures logits[k] <= logits[token]
    {
      assert c.Seen(k);
      assert Beats(c, logits, token, k);
    }
  }

  /** The token is the lowest one exactly when the thread that owns the lowest arrives before every other with a tie. */
  lemma {:induction false} LowestTokenIff(c: Call, logits: seq<real>, token: nat, value: Level, low: nat)
    requires IsHeadResult(c, logits, token, value) && (forall k: nat | k < |logits| :: c.Seen(k))
             && IsFirstMax(logits, low)
    ensures token == low <==> forall k: nat | k < |logits| && logits[k] == logits[low] :: c.Arrival(low) <= c.Arrival(k)
  {
    HeadAttainsMax(c, logits, token, value);
    assert logits[token] == logits[low];
    assert c.Seen(low) && c.Seen(token);
    assert Beats(c, logits, token, low);
    if token == low {
      forall k: nat | k < |logits| && logits[k] == logits[low]
        ensures c.Arrival(low) <= c.Arrival(k)
      {
        assert c.Seen(k);
        assert Beats(c, logits, token, k);
      }
    }
  }

  /** One of any two rows beats the other, and what beats the winner of some rows beats them all. */
  lemma {:induction false} BestOfFirst(c: Call, logits: seq<real>, n: nat) returns (token: nat)
    requires 0 < n <= |logits|
    ensures token < n && forall k: nat | k < n :: Beats(c, logits, token, k)
  {
    hide Pos, Call.Arrival;
    token := 0;
    if n > 1 {
      token := BestOfFirst(c, logits, n - 1);
      var last := n - 1;
      if !Beats(c, logits, token, last) {
        forall k: nat | k < n
          ensures Beats(c, logits, last, k)
        {
          assert k < last ==> Beats(c, logits, token, k);
        }
        token := last;
      }
    }
  }

  /** Every call has a result. */
  lemma {:induction false} ResultExists(c: Call, logits: seq<real>) returns (token: nat, value: Level)
    requires |logits| > 0 && forall k: nat | k < |logits| :: c.Seen(k)
    ensures IsHeadResult(c, logits, token, value)
  {
    hide Pos, Call.Arrival, Beats;
    token := BestOfFirst(c, logits, |logits|);
    value := Level(logits[token]);
    assert c.Seen(token);
  }

  /** The order in which the thread at `i` comes first and the others stay as they were. */
  function First(order: seq<nat>, i: nat): (r: seq<nat>)
    requires i < |order|
    ensures |r| == |order| && r[0] == order[i]
  {
    [order[i]] + order[..i] + order[i + 1..]
  }

  lemma {:induction false} FirstAt(o: seq<nat>, i: nat)
    requires i < |o|
    ensures forall j | 0 <= j < |o| :: First(o, i)[j] == if j == 0 then o[i] else if j <= i then o[j - 1] else o[j]
    ensures forall j | 0 <= j < |o| :: o[j] in First(o, i)
  {
    forall j | 0 <= j < |o|
      ensures o[j] in First(o, i)
    {
      assert First(o, i)[if j == i then 0 else if j < i then j + 1 else j] == o[j];
    }
  }

  lemma {:induction false} FirstIsValid(c: Call, i: nat)
    requires c.Valid() && i < |c.order|
    ensures c.(order := First(c.order, i)).Valid()
  {
    var o, r := c.order, First(c.order, i);
    FirstAt(o, i);
    hide First;
    forall t
      ensures c.owner(t) in r
    {
      assert c.owner(t) in o;
      var j :| 0 <= j < |o| && o[j] == c.owner(t);
      assert o[j] in r;
    }
  }

  /** `token` is a result in some order of arrival. */
  ghost predicate MayReturn(c: Call, logits: seq<real>, order: seq<nat>, token: nat, value: Level) {
    c.(order := order).Valid() && IsHeadResult(c.(order := order), logits, token, value)
  }

  /** The token is the lowest in every order of arrival if and only if one thread owns every maximal row. */
  lemma {:induction false} AlwaysLowestIff(c: Call, logits: seq<real>, low: nat)
    requires c.Valid() && IsFirstMax(logits, low) && forall k: nat | k < |logits| :: c.Seen(k)
    ensures (forall order, token, value | MayReturn(c, logits, order, token, value) :: token == low)
            <==> forall k: nat | k < |logits| && logits[k] == logits[low] :: c.owner(k) == c.owner(low)
  {
    if k: nat :| k < |logits| && logits[k] == logits[low] && c.owner(k) != c.owner(low) {
      var order, token, value := OtherReturned(c, logits, low, k);
    } else {
      forall order, token, value | MayReturn(c, logits, order, token, value)
        ensures token == low
      {
        OneOwnerIsSafe(c, logits, order, token, value, low);
      }
    }
  }

  /** If one thread owns all the maximal rows, the token is the lowest. */
  lemma {:induction false} OneOwnerIsSafe(c: Call, logits: seq<real>, order: seq<nat>, token: nat, value: Level,
                                          low: nat)
    requires MayReturn(c, logits, order, token, value) && IsFirstMax(logits, low)
             && forall k: nat | k < |logits| :: c.Seen(k)
    requires forall k: nat | k < |logits| && logits[k] == logits[low] :: c.owner(k) == c.owner(low)
    ensures token == low
  {
    var d := c.(order := order);
    SeenInAnyOrder(c, logits, order);
    LowestTokenIff(d, logits, token, value, low);
  }

  lemma {:induction false} SeenInAnyOrder(c: Call, logits: seq<real>, order: seq<nat>)
    requires forall k: nat | k < |logits| :: c.Seen(k)
    ensures forall k: nat | k < |logits| :: c.(order := order).Seen(k)
  {
    forall k: nat | k < |logits|
      ensures c.(order := order).Seen(k)
    {
      assert c.Seen(k);
    }
  }

  /** If another thread owns one too, it may arrive first, and then another token is returned. */
  lemma {:induction false} OtherReturned(c: Call, logits: seq<real>, low: nat, other: nat)
    returns (order: seq<nat>, token: nat, value: Level)
    requires c.Valid() && IsFirstMax(logits, low) && forall k: nat | k < |logits| :: c.Seen(k)
    requires other < |logits| && logits[other] == logits[low] && c.owner(other) != c.owner(low)
    ensures MayReturn(c, logits, order, token, value) && token != low
  {
    var i :| 0 <= i < |c.order| && c.order[i] == c.owner(other);
    order := First(c.order, i);
    FirstIsValid(c, i);
    var d := c.(order := order);
    SeenInAnyOrder(c, logits, order);
    token, value := ResultExists(d, logits);
    LowestTokenIff(d, logits, token, value, low);
    PosOf(order, 0);
    assert d.Arrival(other) == 0;
    assert Pos(order, c.owner(low)) != 0;
  }

  /** Two rows of equal logits, one thread each: the token is that of the thread that arrives first. */
  lemma {:induction false} ArrivalDecides(order: seq<nat>, token: nat)
    requires order == [0, 1] || order == [1, 0]
    ensures var c := Call(k => k % 2, t => true, order);
            c.Valid() && (IsHeadResult(c, [1.0, 1.0], token, Level(1.0)) <==> token == order[0])
  {
    var c := Call(k => k % 2, t => true, order);
    PosOf(order, 0);
    PosOf(order, 1);
    var first, second := order[0], order[1];
    assert first < 2 && second < 2 && c.Arrival(first) == 0 && c.Arrival(second) == 1;
    assert c.Seen(first) && c.Seen(second);
    hide Pos, Call.Arrival;
    assert !Beats(c, [1.0, 1.0], second, first) && Beats(c, [1.0, 1.0], first, second)
           && Beats(c, [1.0, 1.0], first, first);
  }
}
