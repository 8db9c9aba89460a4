/**
 The energy-gated voice segmenter (src/audio/vad.c): a pure detector that takes one sample at a time, and the buffered
 one of the source, fed in arbitrary pieces. The level of a frame is a parameter `db`.
 */
module Vad {
  import opened Common
  import opened Arith

  /** Parameters, with the durations in samples. */
  datatype Params = Params(
    frame: nat, preCap: nat, minSpeech: int, hangover: int, maxSeg: int,
    startDb: real, stopDb: real, marginDb: real, adapt: bool, db: seq<real> -> real)

  const FRAME_MS := 20

  function FrameLength(sampleRate: nat): nat { sampleRate * FRAME_MS / 1000 }

  // ----- The detector as a value

  datatype Detector = Detector(
    acc: seq<real>,  // partial frame
    pre: seq<real>,  // pre-roll, oldest first
    seg: seq<real>,  // the segment being built
    active: bool, silence: int, speech: int, level: real, floor: real, seeded: bool)

  const FRESH := Detector([], [], [], false, 0, 0, -120.0, -90.0, false)

  function StartThreshold(p: Params, floor: real): real {
    if p.adapt && floor + p.marginDb > p.startDb then floor + p.marginDb else p.startDb
  }

  function StopThreshold(p: Params, floor: real): real {
    var gap := p.startDb - p.stopDb;
    StartThreshold(p, floor) - if gap > 0.0 then gap else 0.0
  }

  /** The last `cap` elements. */
  function Keep<T>(cap: nat, s: seq<T>): (r: seq<T>)
    ensures |r| == Min(cap, |s|)
  {
    if |s| <= cap then s else s[|s| - cap..]
  }

  /** The noise floor after a frame of level `db`. */
  function Learn(p: Params, d: Detector, db: real): real {
    var f := if !d.seeded then db
             else if !d.active && db < StartThreshold(p, d.floor) then
               d.floor + (if db < d.floor then 0.5 else 0.05) * (db - d.floor)
             else d.floor;
    if f < -90.0 then -90.0 else f
  }

  /** Hands over the segment. */
  function Emit(d: Detector): (Detector, Option<seq<real>>) {
    if |d.seg| == 0 then (d.(active := false), None)
    else (d.(seg := [], active := false, silence := 0, speech := 0), Some(d.seg))
  }

  /** A frame while no segment is open: it may open one. */
  function WhenIdle(p: Params, d: Detector, f: seq<real>, db: real): Detector {
    var pre := Keep(p.preCap, d.pre + f);
    if db > StartThreshold(p, d.floor) then
      if d.speech + |f| >= p.minSpeech then
        d.(pre := [], seg := d.seg + pre + f, active := true, silence := 0, speech := d.speech + |f|)
      else d.(pre := pre, speech := d.speech + |f|)
    else d.(pre := pre, speech := 0)
  }

  /** A frame while a segment is open: it may close it. */
  function WhenActive(p: Params, d: Detector, f: seq<real>, db: real): (Detector, Option<seq<real>>) {
    var quiet := db < StopThreshold(p, d.floor);
    var d := d.(seg := d.seg + f, silence := if quiet then d.silence + |f| else 0);
    if (quiet && d.silence >= p.hangover) || |d.seg| >= p.maxSeg then Emit(d) else (d, None)
  }

  /** One whole frame. */
  function OnFrame(p: Params, d: Detector, f: seq<real>): (Detector, Option<seq<real>>) {
    var db := p.db(f);
    var d := d.(level := db, floor := Learn(p, d, db), seeded := true);
    if d.active then WhenActive(p, d, f, db) else (WhenIdle(p, d, f, db), None)
  }

  /** One sample. */
  function OnSample(p: Params, d: Detector, x: real): (Detector, Option<seq<real>>) {
    var acc := d.acc + [x];
    if |acc| < p.frame then (d.(acc := acc), None) else OnFrame(p, d.(acc := []), acc)
  }

  function Segments(o: Option<seq<real>>): seq<seq<real>> {
    if o.Some? then [o.value] else []
  }

  /** A stream of samples: the detector afterwards and the segments on the way. */
  function Run(p: Params, d: Detector, x: seq<real>): (Detector, seq<seq<real>>) {
    if x == [] then (d, [])
    else
      var (d1, segs) := Run(p, d, x[..|x| - 1]);
      var (d2, o) := OnSample(p, d1, x[|x| - 1]);
      (d2, segs + Segments(o))
  }

  /** The end of the stream. */
  function Flush(d: Detector): (Detector, Option<seq<real>>) {
    var d := if d.active then d.(seg := d.seg + d.acc, acc := []) else d.(acc := []);
    if |d.seg| == 0 then (d, None) else Emit(d)
  }

  lemma {:induction false} RunAppend(p: Params, d: Detector, a: seq<real>, b: seq<real>)
    ensures Run(p, d, a + b) ==
            (Run(p, Run(p, d, a).0, b).0, Run(p, d, a).1 + Run(p, Run(p, d, a).0, b).1)
  {
    hide OnSample;
    if b == [] {
      assert a + b == a && Run(p, d, a).1 + [] == Run(p, d, a).1;
    } else {
      var l := |b| - 1;
      assert (a + b)[..|a + b| - 1] == a + b[..l];
      RunAppend(p, d, a, b[..l]);
      assert (a + b)[|a + b| - 1] == b[l];
      var o := OnSample(p, Run(p, d, a + b[..l]).0, b[l]).1;
      assert Run(p, d, a).1 + Run(p, Run(p, d, a).0, b[..l]).1 + Segments(o)
          == Run(p, d, a).1 + (Run(p, Run(p, d, a).0, b[..l]).1 + Segments(o));
    }
  }

  /** Samples that stay inside the current frame only gather. */
  lemma {:induction false} RunGathers(p: Params, d: Detector, x: seq<real>)
    requires |d.acc| + |x| < p.frame
    ensures Run(p, d, x) == (d.(acc := d.acc + x), [])
  {
    hide OnFrame;
    if x != [] {
      RunGathers(p, d, x[..|x| - 1]);
      assert d.acc + x[..|x| - 1] + [x[|x| - 1]] == d.acc + x;
      assert [] + Segments(None) == [];
    } else {
      assert d.acc + x == d.acc;
    }
  }

  /** Samples that just complete the current frame process it. */
  lemma {:induction false} RunCompletes(p: Params, d: Detector, x: seq<real>)
    requires x != [] && |d.acc| + |x| == p.frame
    ensures var (d', o) := OnFrame(p, d.(acc := []), d.acc + x);
            Run(p, d, x) == (d', Segments(o))
  {
    hide OnFrame;
    var l := |x| - 1;
    RunGathers(p, d, x[..l]);
    assert d.acc + x[..l] + [x[l]] == d.acc + x;
    assert d.(acc := d.acc + x[..l]).(acc := []) == d.(acc := []);
    var o := OnFrame(p, d.(acc := []), d.acc + x).1;
    assert [] + Segments(o) == Segments(o);
  }

  // ----- Segments are slices of the input

  /** Where a segment lies: from `s` to `e`, opened by the frame that ends at `t`. */
  datatype Cut = Cut(s: nat, t: nat, e: nat)

  /** The segment is the slice from `s` to `e` with the frame before `t` in it twice. */
  ghost predicate IsSlice(p: Params, x: seq<real>, seg: seq<real>, c: Cut) {
    && c.s <= c.t <= c.e <= |x| && p.frame <= c.t
    && seg == x[c.s..c.t] + x[c.t - p.frame..c.e]
  }

  /** It starts with as much of the input before `t` as the pre-roll holds, back to the end `last` of the one before. */
  ghost predicate HasPreRoll(p: Params, c: Cut, last: nat) { c.t - c.s == Min(p.preCap, c.t - last) }

  /** The longest a segment can be before a further frame is added to it. */
  function OpenBound(p: Params): int { Max(p.preCap + p.frame, p.maxSeg - 1) }

  /** The segments so far are slices in order, none overlapping the one before it. */
  ghost predicate AreSlices(p: Params, x: seq<real>, segs: seq<seq<real>>, cuts: seq<Cut>) {
    && |segs| == |cuts|
    && (forall i | 0 <= i < |segs| :: IsSlice(p, x, segs[i], cuts[i]) && |segs[i]| <= OpenBound(p) + p.frame)
    && (forall i | 0 <= i < |cuts| - 1 :: cuts[i].e <= cuts[i + 1].s)
    && (forall i | 0 <= i < |cuts| :: HasPreRoll(p, cuts[i], LastEnd(cuts[..i])))
  }

  function LastEnd(cuts: seq<Cut>): nat { if cuts == [] then 0 else cuts[|cuts| - 1].e }

  /** What the detector holds of the input `x` it has seen; `last` ends the last segment. */
  ghost predicate Holds(p: Params, x: seq<real>, d: Detector, last: nat, open: Cut) {
    && |d.acc| < p.frame && |d.acc| <= |x|
    && var q := |x| - |d.acc|;
       && d.acc == x[q..] && last <= q
       && if d.active then
            && d.pre == [] && open.e == q && last <= open.s && |d.seg| <= OpenBound(p)
            && IsSlice(p, x, d.seg, open) && HasPreRoll(p, open, last)
          else
            && d.seg == [] && |d.pre| == Min(p.preCap, q - last) && d.pre == x[q - |d.pre|..q]
  }

  lemma {:induction false} SliceExtends(p: Params, x: seq<real>, y: seq<real>, seg: seq<real>, c: Cut)
    requires IsSlice(p, x, seg, c)
    ensures IsSlice(p, x + y, seg, c)
  {
    assert (x + y)[c.s..c.t] == x[c.s..c.t] && (x + y)[c.t - p.frame..c.e] == x[c.t - p.frame..c.e];
  }

  /** A frame `f` that follows `x` keeps what the detector holds, or closes a segment that ends with it. */
  lemma {:induction false} FrameHolds(p: Params, x: seq<real>, f: seq<real>, d: Detector, last: nat, open: Cut)
    returns (open': Cut)
    requires |f| == p.frame >= 1 && d.acc == [] && Holds(p, x, d, last, open)
    ensures var (d', o) := OnFrame(p, d, f);
            && (o.None? ==> Holds(p, x + f, d', last, open'))
            && (o.Some? ==> last <= open'.s && HasPreRoll(p, open', last) && open'.e == |x + f|
                            && IsSlice(p, x + f, o.value, open') && |o.value| <= OpenBound(p) + p.frame
                            && Holds(p, x + f, d', |x + f|, open'))
  {
    if d.active {
      open' := GrowHolds(p, x, f, d, last, open);
    } else {
      open' := IdleHolds(p, x, f, d, last, open);
    }
  }

  lemma {:induction false} GrowHolds(p: Params, x: seq<real>, f: seq<real>, d: Detector, last: nat, open: Cut)
    returns (open': Cut)
    requires |f| == p.frame >= 1 && d.acc == [] && Holds(p, x, d, last, open) && d.active
    ensures var (d', o) := OnFrame(p, d, f);
            && (o.None? ==> Holds(p, x + f, d', last, open'))
            && (o.Some? ==> last <= open'.s && HasPreRoll(p, open', last) && open'.e == |x + f|
                            && IsSlice(p, x + f, o.value, open') && |o.value| <= OpenBound(p) + p.frame
                            && Holds(p, x + f, d', |x + f|, open'))
  {
    hide Learn, StartThreshold, StopThreshold;
    var y := x + f;
    open' := Cut(open.s, open.t, |y|);
    SliceGrows(p, x, f, d.seg, open);
  }

  lemma {:induction false} Regroup(a: seq<real>, b: seq<real>, c: seq<real>)
    ensures a + b + c == a + (b + c)
  {
  }

  lemma {:induction false} SliceGrows(p: Params, x: seq<real>, f: seq<real>, seg: seq<real>, c: Cut)
    requires IsSlice(p, x, seg, c) && c.e == |x|
    ensures IsSlice(p, x + f, seg + f, Cut(c.s, c.t, |x + f|))
  {
    var a, b := x[c.s..c.t], x[c.t - p.frame..c.e];
    assert (x + f)[c.s..c.t] == a;
    assert (x + f)[c.t - p.frame..|x + f|] == b + f;
    Regroup(a, b, f);
  }

  lemma {:induction false} IdleHolds(p: Params, x: seq<real>, f: seq<real>, d: Detector, last: nat, open: Cut)
    returns (open': Cut)
    requires |f| == p.frame >= 1 && d.acc == [] && Holds(p, x, d, last, open) && !d.active
    ensures var (d', o) := OnFrame(p, d, f);
            o.None? && Holds(p, x + f, d', last, open')
  {
    hide OnFrame, Keep, IsSlice;
    PreRoll(p, x, f, d, last);
    IdleResult(p, d, f);
    var pre := Keep(p.preCap, d.pre + f);
    open' := OpeningSlice(p, x, f, pre);
    assert d.seg + pre == pre && (x + f)[|x + f|..] == [];
  }

  /** A frame while no segment is open only adds to the pre-roll, or opens one with it. */
  lemma {:induction false} IdleResult(p: Params, d: Detector, f: seq<real>)
    requires !d.active
    ensures var (d', o) := OnFrame(p, d, f);
            var pre := Keep(p.preCap, d.pre + f);
            && o.None? && d'.acc == d.acc
            && if d'.active then d'.pre == [] && d'.seg == d.seg + pre + f else d'.pre == pre && d'.seg == d.seg
  {
    hide Learn, StartThreshold, StopThreshold, Keep;
  }

  lemma {:induction false} OpeningSlice(p: Params, x: seq<real>, f: seq<real>, pre: seq<real>) returns (c: Cut)
    requires |f| == p.frame && |pre| <= |x + f| && pre == (x + f)[|x + f| - |pre|..]
    ensures c == Cut(|x + f| - |pre|, |x + f|, |x + f|) && IsSlice(p, x + f, pre + f, c)
  {
    var y := x + f;
    c := Cut(|y| - |pre|, |y|, |y|);
    assert pre == y[c.s..c.t] && f == y[c.t - p.frame..c.e];
  }

  lemma {:induction false} PreRoll(p: Params, x: seq<real>, f: seq<real>, d: Detector, last: nat)
    requires last <= |x| && |d.pre| == Min(p.preCap, |x| - last) && d.pre == x[|x| - |d.pre|..]
    ensures var pre := Keep(p.preCap, d.pre + f);
            |pre| == Min(p.preCap, |x + f| - last) && pre == (x + f)[|x + f| - |pre|..]
  {
    assert d.pre + f == (x + f)[|x| - |d.pre|..];
  }

  /** Every segment of every stream is a slice of it, in order, with its opening frame twice. */
  lemma {:induction false} SegmentsAreSlices(p: Params, x: seq<real>) returns (cuts: seq<Cut>, open: Cut)
    requires p.frame >= 1
    ensures AreSlices(p, x, Run(p, FRESH, x).1, cuts)
    ensures Holds(p, x, Run(p, FRESH, x).0, LastEnd(cuts), open)
  {
    cuts, open := [], Cut(0, 0, 0);
    if x != [] {
      var y, v := x[..|x| - 1], x[|x| - 1];
      assert x == y + [v];
      cuts, open := SegmentsAreSlices(p, y);
      var (d, segs) := Run(p, FRESH, y);
      SlicesExtend(p, y, v, segs, cuts);
      hide AreSlices, Holds;
      cuts, open := SampleHolds(p, y, v, d, segs, cuts, open);
    }
  }

  lemma {:induction false} SlicesExtend(p: Params, y: seq<real>, v: real, segs: seq<seq<real>>, cuts: seq<Cut>)
    requires AreSlices(p, y, segs, cuts)
    ensures AreSlices(p, y + [v], segs, cuts)
  {
    hide IsSlice;
    forall i | 0 <= i < |segs|
      ensures IsSlice(p, y + [v], segs[i], cuts[i])
    {
      SliceExtends(p, y, [v], segs[i], cuts[i]);
    }
  }

  lemma {:induction false} SampleHolds(p: Params, y: seq<real>, v: real, d: Detector, segs: seq<seq<real>>,
                                       cuts: seq<Cut>, open: Cut)
    returns (cuts': seq<Cut>, open': Cut)
    requires p.frame >= 1 && Holds(p, y, d, LastEnd(cuts), open)
    requires AreSlices(p, y + [v], segs, cuts)
    ensures AreSlices(p, y + [v], segs + Segments(OnSample(p, d, v).1), cuts')
    ensures Holds(p, y + [v], OnSample(p, d, v).0, LastEnd(cuts'), open')
  {
    hide OnFrame, Holds, AreSlices, IsSlice;
    var x := y + [v];
    cuts', open' := cuts, open;
    if |d.acc + [v]| < p.frame {
      GatherHolds(p, y, v, d, LastEnd(cuts), open);
      assert segs + Segments(None) == segs;
    } else {
      var f, d0 := d.acc + [v], d.(acc := []);
      CompleteFrame(p, y, v, d, LastEnd(cuts), open);
      open' := FrameHolds(p, y[..|y| - |d.acc|], f, d0, LastEnd(cuts), open);
      var o := OnFrame(p, d0, f).1;
      if o.Some? {
        cuts' := cuts + [open'];
        AddCut(p, x, segs, cuts, o.value, open');
      } else {
        assert segs + Segments(None) == segs;
      }
    }
  }

  lemma {:induction false} GatherHolds(p: Params, y: seq<real>, v: real, d: Detector, last: nat, open: Cut)
    requires |d.acc| + 1 < p.frame && Holds(p, y, d, last, open)
    ensures Holds(p, y + [v], d.(acc := d.acc + [v]), last, open)
  {
    var x, q := y + [v], |y| - |d.acc|;
    assert d.acc + [v] == x[q..];
    if d.active {
      SliceExtends(p, y, [v], d.seg, open);
    } else {
      assert d.pre == x[q - |d.pre|..q];
    }
  }

  lemma {:induction false} CompleteFrame(p: Params, y: seq<real>, v: real, d: Detector, last: nat, open: Cut)
    requires p.frame >= 1 && Holds(p, y, d, last, open) && |d.acc| + 1 >= p.frame
    ensures |d.acc| <= |y| && |d.acc + [v]| == p.frame
    ensures Holds(p, y[..|y| - |d.acc|], d.(acc := []), last, open)
    ensures y[..|y| - |d.acc|] + (d.acc + [v]) == y + [v]
  {
    HoldsBefore(p, y, d, last, open);
  }

  lemma {:induction false} AddCut(p: Params, x: seq<real>, segs: seq<seq<real>>, cuts: seq<Cut>, seg: seq<real>, c: Cut)
    requires AreSlices(p, x, segs, cuts) && IsSlice(p, x, seg, c) && LastEnd(cuts) <= c.s
             && HasPreRoll(p, c, LastEnd(cuts))
    requires |seg| <= OpenBound(p) + p.frame
    ensures AreSlices(p, x, segs + [seg], cuts + [c])
  {
    hide IsSlice, HasPreRoll, OpenBound;
    AddPreRoll(p, cuts, c);
    AddOrdered(cuts, c);
    hide LastEnd;
  }

  lemma {:induction false} AddOrdered(cuts: seq<Cut>, c: Cut)
    requires LastEnd(cuts) <= c.s && forall i | 0 <= i < |cuts| - 1 :: cuts[i].e <= cuts[i + 1].s
    ensures forall i | 0 <= i < |cuts + [c]| - 1 :: (cuts + [c])[i].e <= (cuts + [c])[i + 1].s
  {
  }

  lemma {:induction false} AddPreRoll(p: Params, cuts: seq<Cut>, c: Cut)
    requires HasPreRoll(p, c, LastEnd(cuts)) && forall i | 0 <= i < |cuts| :: HasPreRoll(p, cuts[i], LastEnd(cuts[..i]))
    ensures forall i | 0 <= i < |cuts + [c]| :: HasPreRoll(p, (cuts + [c])[i], LastEnd((cuts + [c])[..i]))
  {
    hide HasPreRoll, LastEnd;
    var all := cuts + [c];
    forall i | 0 <= i < |all|
      ensures HasPreRoll(p, all[i], LastEnd(all[..i]))
    {
      assert all[..i] == cuts[..i] && cuts[..|cuts|] == cuts;
    }
  }

  lemma {:induction false} SliceBefore(p: Params, y: seq<real>, seg: seq<real>, c: Cut, q: nat)
    requires IsSlice(p, y, seg, c) && c.e == q <= |y|
    ensures IsSlice(p, y[..q], seg, c)
  {
    assert y[..q][c.s..c.t] == y[c.s..c.t] && y[..q][c.t - p.frame..c.e] == y[c.t - p.frame..c.e];
  }

  /** The same without the partial frame. */
  lemma {:induction false} HoldsBefore(p: Params, y: seq<real>, d: Detector, last: nat, open: Cut)
    requires p.frame >= 1 && Holds(p, y, d, last, open)
    ensures Holds(p, y[..|y| - |d.acc|], d.(acc := []), last, open)
  {
    hide HasPreRoll, OpenBound;
    var q := |y| - |d.acc|;
    var z := y[..q];
    if d.active {
      SliceBefore(p, y, d.seg, open, q);
      hide IsSlice;
    } else {
      assert z[q - |d.pre|..] == y[q - |d.pre|..q];
    }
  }

  /** The segment that the end of the stream closes is a slice too, after all the others. */
  lemma {:induction false} FlushIsSlice(p: Params, x: seq<real>) returns (cuts: seq<Cut>)
    requires p.frame >= 1
    ensures var (d, segs) := Run(p, FRESH, x);
            AreSlices(p, x, segs + Segments(Flush(d).1), cuts)
  {
    hide Run, Flush, Holds, AreSlices;
    var open;
    cuts, open := SegmentsAreSlices(p, x);
    var (d, segs) := Run(p, FRESH, x);
    cuts := FlushHolds(p, x, d, segs, cuts, open);
  }

  lemma {:induction false} FlushHolds(p: Params, x: seq<real>, d: Detector, segs: seq<seq<real>>, cuts: seq<Cut>,
                                      open: Cut)
    returns (cuts': seq<Cut>)
    requires p.frame >= 1 && Holds(p, x, d, LastEnd(cuts), open) && AreSlices(p, x, segs, cuts)
    ensures AreSlices(p, x, segs + Segments(Flush(d).1), cuts')
  {
    cuts' := cuts;
    if d.active {
      var c := Cut(open.s, open.t, |x|);
      FlushedSlice(p, x, d, LastEnd(cuts), open);
      hide Holds, IsSlice, AreSlices;
      AddCut(p, x, segs, cuts, d.seg + d.acc, c);
      cuts' := cuts + [c];
    } else {
      assert segs + Segments(None) == segs;
    }
  }

  lemma {:induction false} FlushedSlice(p: Params, x: seq<real>, d: Detector, last: nat, open: Cut)
    requires p.frame >= 1 && Holds(p, x, d, last, open) && d.active
    ensures last <= open.s && HasPreRoll(p, open, last) && IsSlice(p, x, d.seg + d.acc, Cut(open.s, open.t, |x|))
    ensures |d.seg + d.acc| <= OpenBound(p) + p.frame && d.seg + d.acc != []
  {
    var q := |x| - |d.acc|;
    HoldsBefore(p, x, d, last, open);
    SliceGrows(p, x[..q], d.acc, d.seg, open);
    assert x[..q] + d.acc == x;
  }

  /** Without the second copy of its opening frame, a segment is exactly the input from `s` to `e`. */
  lemma {:induction false} SliceIsContiguous(p: Params, x: seq<real>, seg: seq<real>, c: Cut)
    requires IsSlice(p, x, seg, c)
    ensures seg[..c.t - c.s] + seg[c.t - c.s + p.frame..] == x[c.s..c.e]
    ensures seg[c.t - c.s..][..p.frame] == x[c.t - p.frame..c.t]
  {
  }

  // ----- When segments open and close

  /** The detector after the first `i` frames of a stream. */
  ghost function AfterFrames(p: Params, fs: seq<seq<real>>, i: nat): Detector
    requires i <= |fs|
  {
    Run(p, FRESH, Flatten(fs[..i])).0
  }

  /** The segments that have come out by then. */
  ghost function SegmentsBy(p: Params, fs: seq<seq<real>>, i: nat): seq<seq<real>>
    requires i <= |fs|
  {
    Run(p, FRESH, Flatten(fs[..i])).1
  }

  ghost predicate AreFrames(p: Params, fs: seq<seq<real>>) {
    p.frame >= 1 && forall i | 0 <= i < |fs| :: |fs[i]| == p.frame
  }

  lemma {:induction false} NextFrame(p: Params, fs: seq<seq<real>>, i: nat)
    requires AreFrames(p, fs) && i < |fs|
    ensures var d := AfterFrames(p, fs, i);
            && d.acc == [] && AfterFrames(p, fs, i + 1) == OnFrame(p, d, fs[i]).0
            && SegmentsBy(p, fs, i + 1) == SegmentsBy(p, fs, i) + Segments(OnFrame(p, d, fs[i]).1)
    decreases i, 1
  {
    hide Run, OnFrame;
    NothingGathered(p, fs, i);
    var d := AfterFrames(p, fs, i);
    assert fs[..i + 1][..i] == fs[..i];
    RunAppend(p, FRESH, Flatten(fs[..i]), fs[i]);
    RunCompletes(p, d, fs[i]);
    assert d.acc + fs[i] == fs[i] && d.(acc := []) == d;
  }

  lemma {:induction false} NothingGathered(p: Params, fs: seq<seq<real>>, i: nat)
    requires AreFrames(p, fs) && i <= |fs|
    ensures AfterFrames(p, fs, i).acc == []
    decreases i, 0
  {
    hide OnFrame;
    if i == 0 {
      RunNothing(p, FRESH, []);
    } else {
      NextFrame(p, fs, i - 1);
      FrameLeavesNothing(p, AfterFrames(p, fs, i - 1), fs[i - 1]);
    }
  }

  lemma {:induction false} FrameLeavesNothing(p: Params, d: Detector, f: seq<real>)
    ensures OnFrame(p, d, f).0.acc == d.acc && OnFrame(p, d, f).0.seeded
  {
    hide Learn, StartThreshold, StopThreshold, Keep;
  }

  /** What the level of a frame must exceed for it to count as speech, and fall below to count as a pause. */
  lemma {:induction false} ThresholdsAre(p: Params, floor: real)
    ensures var (start, stop) := (StartThreshold(p, floor), StopThreshold(p, floor));
            && start >= p.startDb && (p.adapt ==> start >= floor + p.marginDb)
            && (start == p.startDb || (p.adapt && start == floor + p.marginDb))
            && stop <= start && stop <= start - (p.startDb - p.stopDb)
            && (stop == start || stop == start - (p.startDb - p.stopDb))
  {
  }

  /** Frame `n` is above the start level, or below the stop level, at the floor that takes it into account. */
  ghost predicate IsLoud(p: Params, fs: seq<seq<real>>, n: nat)
    requires n < |fs|
  {
    var db, floor := p.db(fs[n]), AfterFrames(p, fs, n + 1).floor;
    db > p.startDb && (p.adapt ==> db > floor + p.marginDb)
  }

  ghost predicate IsQuiet(p: Params, fs: seq<seq<real>>, n: nat)
    requires n < |fs|
  {
    var db, floor := p.db(fs[n]), AfterFrames(p, fs, n + 1).floor;
    && (db < p.startDb || (p.adapt && db < floor + p.marginDb))
    && (db < p.stopDb || (p.adapt && db + (p.startDb - p.stopDb) < floor + p.marginDb))
  }

  /** No segment was open before frames `j` to `i`, and each is above the start level. */
  ghost predicate LoudFrom(p: Params, fs: seq<seq<real>>, j: nat, i: nat)
    requires i < |fs|
  {
    forall n: nat | j <= n <= i :: !AfterFrames(p, fs, n).active && IsLoud(p, fs, n)
  }

  /** A segment was open before frames `j` to `i`, and each is below the stop level. */
  ghost predicate QuietFrom(p: Params, fs: seq<seq<real>>, j: nat, i: nat)
    requires i < |fs|
  {
    forall n: nat | j <= n <= i :: AfterFrames(p, fs, n).active && IsQuiet(p, fs, n)
  }

  /** How many frames before frame `i`, without a break, would have opened a segment, or closed one. */
  ghost function LoudRun(p: Params, fs: seq<seq<real>>, i: nat): (r: nat)
    requires i <= |fs|
    ensures r <= i
  {
    if i > 0 && !AfterFrames(p, fs, i - 1).active && IsLoud(p, fs, i - 1) then LoudRun(p, fs, i - 1) + 1 else 0
  }

  ghost function QuietRun(p: Params, fs: seq<seq<real>>, i: nat): (r: nat)
    requires i <= |fs|
    ensures r <= i
  {
    if i > 0 && AfterFrames(p, fs, i - 1).active && IsQuiet(p, fs, i - 1) then QuietRun(p, fs, i - 1) + 1 else 0
  }

  /** The counters of the detector are those runs, in samples. */
  ghost predicate Counts(p: Params, fs: seq<seq<real>>, i: nat)
    requires i <= |fs|
  {
    var d := AfterFrames(p, fs, i);
    && (!d.active ==> d.seg == [] && d.speech == Mul(LoudRun(p, fs, i), p.frame))
    && (d.active ==> d.silence == Mul(QuietRun(p, fs, i), p.frame))
  }

  /** What a frame does to the detector, in the words of its level and the counters. */
  lemma {:induction false} FrameDecides(p: Params, d: Detector, f: seq<real>, d': Detector, o: Option<seq<real>>)
    requires p.frame >= 1 && |f| == p.frame && (d', o) == OnFrame(p, d, f) && (!d.active ==> d.seg == [])
    ensures var db := p.db(f);
            var loud := db > p.startDb && (p.adapt ==> db > d'.floor + p.marginDb);
            var quiet := && (db < p.startDb || (p.adapt && db < d'.floor + p.marginDb))
                         && (db < p.stopDb || (p.adapt && db + (p.startDb - p.stopDb) < d'.floor + p.marginDb));
            var closes := (quiet && d.silence + p.frame >= p.hangover) || |d.seg| + p.frame >= p.maxSeg;
            && (!d.active ==> o == None && (d'.active <==> loud && d.speech + p.frame >= p.minSpeech))
            && (!d.active && !d'.active ==> d'.seg == [] && d'.speech == if loud then d.speech + p.frame else 0)
            && (!d.active && d'.active ==> d'.silence == 0)
            && (d.active ==> (!d'.active <==> closes) && o == if closes then Some(d.seg + f) else None)
            && (d.active && d'.active ==> d'.silence == if quiet then d.silence + p.frame else 0)
            && (d.active && !d'.active ==> d'.seg == [] && d'.speech == 0)
  {
    hide Learn, Keep, StartThreshold, StopThreshold;
    var floor := Learn(p, d, p.db(f));
    ThresholdsAre(p, floor);
  }

  lemma {:induction false} CountersAreRuns(p: Params, fs: seq<seq<real>>, i: nat)
    requires AreFrames(p, fs) && i <= |fs|
    ensures Counts(p, fs, i)
  {
    hide OnFrame, Run, Mul, AfterFrames, IsLoud, IsQuiet;
    if i == 0 {
      StartsFresh(p, fs);
      NoRun(p.frame);
    } else {
      CountersAreRuns(p, fs, i - 1);
      FrameCounts(p, fs, i - 1);
    }
  }

  lemma {:induction false} StartsFresh(p: Params, fs: seq<seq<real>>)
    ensures AfterFrames(p, fs, 0) == FRESH && SegmentsBy(p, fs, 0) == []
  {
  }

  lemma {:induction false} NoRun(frame: nat)
    ensures Mul(0, frame) == 0
  {
  }

  lemma {:induction false} OneMoreFrame(r: nat, frame: nat)
    ensures Mul(r + 1, frame) == Mul(r, frame) + frame && Mul(0, frame) == 0
  {
  }

  /** One frame on, the counters are still the runs; and what the frame does is decided by them. */
  lemma {:induction false} FrameCounts(p: Params, fs: seq<seq<real>>, i: nat)
    requires AreFrames(p, fs) && i < |fs| && Counts(p, fs, i)
    ensures Counts(p, fs, i + 1)
    ensures var (d, d') := (AfterFrames(p, fs, i), AfterFrames(p, fs, i + 1));
            var (loud, quiet) := (Mul(LoudRun(p, fs, i + 1), p.frame), Mul(QuietRun(p, fs, i + 1), p.frame));
            && (!d.active ==> (d'.active <==> LoudRun(p, fs, i + 1) > 0 && loud >= p.minSpeech))
            && (d.active ==> (!d'.active <==> (QuietRun(p, fs, i + 1) > 0 && quiet >= p.hangover)
                                              || |d.seg| + p.frame >= p.maxSeg))
            && SegmentsBy(p, fs, i + 1)
               == SegmentsBy(p, fs, i) + if d.active && !d'.active then [d.seg + fs[i]] else []
  {
    hide OnFrame, Run, Mul, AfterFrames, SegmentsBy;
    NextFrame(p, fs, i);
    var d := AfterFrames(p, fs, i);
    var (d', o) := OnFrame(p, d, fs[i]);
    FrameDecides(p, d, fs[i], d', o);
    OneMoreFrame(LoudRun(p, fs, i), p.frame);
    OneMoreFrame(QuietRun(p, fs, i), p.frame);
  }

  /**
   With no segment open a frame opens one if and only if the unbroken run of frames above the start level that ends with
   it has `minSpeech` samples; nothing comes out.
   */
  lemma {:induction false} OpensIff(p: Params, fs: seq<seq<real>>, i: nat)
    requires AreFrames(p, fs) && i < |fs| && !AfterFrames(p, fs, i).active
    ensures AfterFrames(p, fs, i + 1).active
        <==> exists j: nat :: j <= i && LoudFrom(p, fs, j, i) && (i - j + 1) * p.frame >= p.minSpeech
    ensures SegmentsBy(p, fs, i + 1) == SegmentsBy(p, fs, i)
  {
    hide AfterFrames, SegmentsBy, Mul, LoudFrom, LoudRun, QuietRun;
    CountersAreRuns(p, fs, i);
    FrameCounts(p, fs, i);
    var r := LoudRun(p, fs, i + 1);
    forall j: nat | j <= i
      ensures LoudFrom(p, fs, j, i) <==> i - j + 1 <= r
      ensures LoudFrom(p, fs, j, i) ==> (i - j + 1) * p.frame <= Mul(r, p.frame)
    {
      LoudRunIs(p, fs, j, i);
      if LoudFrom(p, fs, j, i) {
        InSamples(i - j + 1, r, p.frame);
      }
    }
    if r > 0 && Mul(r, p.frame) >= p.minSpeech {
      InSamples(r, r, p.frame);
      assert LoudFrom(p, fs, i + 1 - r, i);
    }
    assert SegmentsBy(p, fs, i) + [] == SegmentsBy(p, fs, i);
  }

  /**
   An open segment closes at a frame if and only if it reaches `maxSeg` samples with it, or the unbroken run of frames
   below the stop level that ends with it has `hangover` samples; the segment comes out whole, that frame included.
   */
  lemma {:induction false} ClosesIff(p: Params, fs: seq<seq<real>>, i: nat)
    requires AreFrames(p, fs) && i < |fs| && AfterFrames(p, fs, i).active
    ensures !AfterFrames(p, fs, i + 1).active
        <==> || |AfterFrames(p, fs, i).seg| + p.frame >= p.maxSeg
             || exists j: nat :: j <= i && QuietFrom(p, fs, j, i) && (i - j + 1) * p.frame >= p.hangover
    ensures SegmentsBy(p, fs, i + 1) == SegmentsBy(p, fs, i)
              + if AfterFrames(p, fs, i + 1).active then [] else [AfterFrames(p, fs, i).seg + fs[i]]
  {
    hide AfterFrames, SegmentsBy, Mul, QuietFrom, LoudRun, QuietRun;
    CountersAreRuns(p, fs, i);
    FrameCounts(p, fs, i);
    var r := QuietRun(p, fs, i + 1);
    forall j: nat | j <= i
      ensures QuietFrom(p, fs, j, i) <==> i - j + 1 <= r
      ensures QuietFrom(p, fs, j, i) ==> (i - j + 1) * p.frame <= Mul(r, p.frame)
    {
      QuietRunIs(p, fs, j, i);
      if QuietFrom(p, fs, j, i) {
        InSamples(i - j + 1, r, p.frame);
      }
    }
    if r > 0 && Mul(r, p.frame) >= p.hangover {
      InSamples(r, r, p.frame);
      assert QuietFrom(p, fs, i + 1 - r, i);
    }
  }

  lemma {:induction false} InSamples(n: nat, r: nat, frame: nat)
    requires n <= r
    ensures n * frame <= Mul(r, frame) && Mul(n, frame) == n * frame
  {
    MulMonotone(n, r, frame);
  }

  lemma {:induction false} LoudRunIs(p: Params, fs: seq<seq<real>>, j: nat, i: nat)
    requires i < |fs| && j <= i
    ensures LoudFrom(p, fs, j, i) <==> i - j + 1 <= LoudRun(p, fs, i + 1)
  {
    hide AfterFrames, IsLoud;
    if j < i {
      LoudRunIs(p, fs, j, i - 1);
    }
  }

  lemma {:induction false} QuietRunIs(p: Params, fs: seq<seq<real>>, j: nat, i: nat)
    requires i < |fs| && j <= i
    ensures QuietFrom(p, fs, j, i) <==> i - j + 1 <= QuietRun(p, fs, i + 1)
  {
    hide AfterFrames, IsQuiet;
    if j < i {
      QuietRunIs(p, fs, j, i - 1);
    }
  }

  /**
   The noise floor: the level of the first frame, then only frames that come with no segment open and stay below the
   start level move it, half way down or a twentieth of the way up; it is never below -90.
   */
  lemma {:induction false} FloorFollows(p: Params, fs: seq<seq<real>>, i: nat)
    requires AreFrames(p, fs) && i < |fs|
    ensures var (d, d', db) := (AfterFrames(p, fs, i), AfterFrames(p, fs, i + 1), p.db(fs[i]));
            var below := db < p.startDb || (p.adapt && db < d.floor + p.marginDb);
            var half := d.floor + 0.5 * (db - d.floor);
            && d.floor >= -90.0 && d'.level == db
            && (i == 0 ==> d'.floor == if db >= -90.0 then db else -90.0)
            && (i > 0 && (d.active || !below) ==> d'.floor == d.floor)
            && (i > 0 && !d.active && below && db >= d.floor ==> d'.floor == d.floor + 0.05 * (db - d.floor))
            && (i > 0 && !d.active && below && db < d.floor ==>
                  d'.floor == if half >= -90.0 then half else -90.0)
  {
    hide OnFrame, Run, AfterFrames, Learn;
    NextFrame(p, fs, i);
    Seeded(p, fs, i);
    var d := AfterFrames(p, fs, i);
    FloorAfter(p, d, fs[i]);
    LearnIs(p, d, p.db(fs[i]));
  }

  lemma {:induction false} FloorAfter(p: Params, d: Detector, f: seq<real>)
    ensures var d' := OnFrame(p, d, f).0;
            d'.level == p.db(f) && d'.floor == Learn(p, d, p.db(f)) && d'.seeded
  {
    hide Learn, Keep, StartThreshold, StopThreshold;
  }

  lemma {:induction false} Seeded(p: Params, fs: seq<seq<real>>, i: nat)
    requires AreFrames(p, fs) && i <= |fs|
    ensures var d := AfterFrames(p, fs, i);
            d.floor >= -90.0 && (d.seeded <==> i > 0)
  {
    hide OnFrame, Run, AfterFrames, Learn;
    if i == 0 {
      StartsFresh(p, fs);
    } else {
      NextFrame(p, fs, i - 1);
      FloorAfter(p, AfterFrames(p, fs, i - 1), fs[i - 1]);
      NotBelow(p, AfterFrames(p, fs, i - 1), p.db(fs[i - 1]));
    }
  }

  lemma {:induction false} NotBelow(p: Params, d: Detector, db: real)
    ensures Learn(p, d, db) >= -90.0
  {
    hide StartThreshold;
  }

  lemma {:induction false} LearnIs(p: Params, d: Detector, db: real)
    requires d.floor >= -90.0
    ensures var (below, floor) := (db < p.startDb || (p.adapt && db < d.floor + p.marginDb), Learn(p, d, db));
            var half := d.floor + 0.5 * (db - d.floor);
            && (!d.seeded ==> floor == if db >= -90.0 then db else -90.0)
            && (d.seeded && (d.active || !below) ==> floor == d.floor)
            && (d.seeded && !d.active && below && db >= d.floor ==> floor == d.floor + 0.05 * (db - d.floor))
            && (d.seeded && !d.active && below && db < d.floor ==>
                  floor == if half >= -90.0 then half else -90.0)
  {
    ThresholdsAre(p, d.floor);
    hide StartThreshold;
  }

  /** A stream that ends inside a frame: what is left over opens and closes nothing. */
  lemma {:induction false} RestOnlyGathers(p: Params, fs: seq<seq<real>>, rest: seq<real>)
    requires AreFrames(p, fs) && |rest| < p.frame
    ensures Run(p, FRESH, Flatten(fs) + rest)
         == (AfterFrames(p, fs, |fs|).(acc := rest), SegmentsBy(p, fs, |fs|))
  {
    hide Run, OnFrame;
    assert fs[..|fs|] == fs;
    NothingGathered(p, fs, |fs|);
    RunAppend(p, FRESH, Flatten(fs), rest);
    RunGathers(p, AfterFrames(p, fs, |fs|), rest);
    assert [] + rest == rest;
    assert SegmentsBy(p, fs, |fs|) + [] == SegmentsBy(p, fs, |fs|);
  }

  /** The end of a stream closes the open segment, the partial frame included; with none open nothing comes out. */
  lemma {:induction false} FlushIff(p: Params, x: seq<real>)
    requires p.frame >= 1
    ensures var d := Run(p, FRESH, x).0;
            && (d.active ==> Flush(d).1 == Some(d.seg + d.acc))
            && (!d.active ==> Flush(d).1 == None)
  {
    hide Run;
    var cuts, open := SegmentsAreSlices(p, x);
    if Run(p, FRESH, x).0.active {
      FlushedSlice(p, x, Run(p, FRESH, x).0, LastEnd(cuts), open);
    }
  }

  // ----- The code

  /** Position `i` of a ring of `cap` cells. */
  function Wrap(i: nat, cap: nat): (r: nat)
    requires cap > 0
    ensures r < cap
  {
    i % cap
  }

  lemma {:induction false} WrapOnce(i: nat, cap: nat)
    requires i < 2 * cap
    ensures Wrap(i, cap) == if i < cap then i else i - cap
  {
    if i < cap {
      DivModOf(0, cap, i);
    } else {
      DivModOf(1, cap, i - cap);
    }
  }

  /** Where the `i`-th oldest of the `len` newest cells lies when the next write goes to `head`. */
  function RingIndex(cap: nat, head: nat, len: nat, i: nat): int {
    if len <= head + i then head - len + i else head - len + i + cap
  }

  /** The `len` newest cells, oldest first. */
  ghost function RingOf(cells: seq<real>, head: nat, len: nat): (r: seq<real>)
    requires head < |cells| && len <= |cells|
    ensures |r| == len
  {
    seq(len, i requires 0 <= i < len => cells[RingIndex(|cells|, head, len, i)])
  }

  lemma {:induction false} RingPush(cells: seq<real>, head: nat, len: nat, x: real)
    requires head < |cells| && len <= |cells|
    ensures RingOf(cells[head := x], Wrap(head + 1, |cells|), Min(len + 1, |cells|))
         == Keep(|cells|, RingOf(cells, head, len) + [x])
  {
    hide Wrap;
    WrapOnce(head + 1, |cells|);
    var r := RingOf(cells[head := x], Wrap(head + 1, |cells|), Min(len + 1, |cells|));
    var was := RingOf(cells, head, len);
    if len < |cells| {
      assert r == was + [x];
    } else {
      assert r == (was + [x])[1..];
    }
  }

  lemma {:induction false} RingAt(cells: seq<real>, head: nat, len: nat, i: nat)
    requires head < |cells| && i < len <= |cells|
    ensures RingOf(cells, head, len)[i] == cells[Wrap(Wrap(head - len + |cells|, |cells|) + i, |cells|)]
  {
    hide Wrap;
    var cap := |cells|;
    WrapOnce(head - len + cap, cap);
    WrapOnce(Wrap(head - len + cap, cap) + i, cap);
  }

  class Segmenter {
    const p: Params
    const acc: array<real>
    var accLen: nat
    var fifo: seq<real>   // samples pushed and not compacted away
    var fifoPos: nat      // how many of them are consumed
    const pre: array<real>
    var preLen: nat
    var preHead: nat
    var seg: seq<real>
    var active: bool
    var silence: int
    var speech: int
    var level: real
    var floor: real
    var seeded: bool

    ghost predicate Valid()
      reads this, acc, pre
    {
      && p.frame >= 1 && p.preCap >= 1 && acc != pre
      && acc.Length == p.frame && accLen < p.frame
      && fifoPos <= |fifo|
      && pre.Length == p.preCap && preLen <= p.preCap && preHead < p.preCap
    }

    ghost function Value(): Detector
      reads this, acc, pre
      requires Valid()
    {
      Detector(acc[..accLen], RingOf(pre[..], preHead, preLen), seg, active, silence, speech, level, floor, seeded)
    }

    ghost function Pending(): seq<real>
      reads this
      requires fifoPos <= |fifo|
    {
      fifo[fifoPos..]
    }

    constructor (p: Params)
      requires p.frame >= 1 && p.preCap >= 1
      ensures Valid() && Value() == FRESH && Pending() == [] && this.p == p && fresh(acc) && fresh(pre)
      ensures !active && level == -120.0 && floor == -90.0
    {
      this.p := p;
      acc, accLen := new real[p.frame], 0;
      pre, preLen, preHead := new real[p.preCap], 0, 0;
      fifo, fifoPos, seg := [], 0, [];
      active, silence, speech, level, floor, seeded := false, 0, 0, -120.0, -90.0, false;
    }

    method PrePushOne(x: real)
      requires Valid()
      modifies this`preHead, this`preLen, pre
      ensures Valid() && RingOf(pre[..], preHead, preLen) == Keep(p.preCap, old(RingOf(pre[..], preHead, preLen)) + [x])
    {
      hide RingOf, Keep, Wrap;
      RingPush(pre[..], preHead, preLen, x);
      WrapOnce(preHead + 1, p.preCap);
      ghost var cells := pre[..];
      pre[preHead] := x;
      assert pre[..] == cells[preHead := x];
      preHead := Wrap(preHead + 1, p.preCap);
      if preLen < p.preCap {
        preLen := preLen + 1;
      }
    }

    /** A frame into the pre-roll ring. */
    method PrePush(x: seq<real>)
      requires Valid()
      modifies this`preHead, this`preLen, pre
      ensures Valid() && RingOf(pre[..], preHead, preLen) == Keep(p.preCap, old(RingOf(pre[..], preHead, preLen)) + x)
    {
      hide RingOf;
      ghost var was := RingOf(pre[..], preHead, preLen);
      assert was + x[..0] == was;
      for i := 0 to |x|
        invariant Valid() && RingOf(pre[..], preHead, preLen) == Keep(p.preCap, was + x[..i])
      {
        KeepOne(p.preCap, was, x, i);
        PrePushOne(x[i]);
      }
      assert x[..|x|] == x;
    }

    /** The pre-roll ring into the segment, oldest first. */
    method PreDrain()
      requires Valid()
      modifies this`seg, this`preLen
      ensures Valid() && preLen == 0 && seg == old(seg) + old(RingOf(pre[..], preHead, preLen))
    {
      hide RingOf, Wrap;
      ghost var ring := RingOf(pre[..], preHead, preLen);
      var start := Wrap(preHead - preLen + p.preCap, p.preCap);
      var out := [];
      for i := 0 to preLen
        invariant out == ring[..i]
        modifies {}
      {
        RingAt(pre[..], preHead, preLen, i);
        out := out + [pre[Wrap(start + i, p.preCap)]];
      }
      assert out == ring;
      seg := seg + out;
      preLen := 0;
    }

    method EmitSegment() returns (o: Option<seq<real>>)
      requires Valid()
      modifies this`seg, this`active, this`silence, this`speech
      ensures Valid() && (Value(), o) == Emit(old(Value()))
    {
      if |seg| == 0 {
        active := false;
        return None;
      }
      o := Some(seg);
      seg, active, silence, speech := [], false, 0, 0;
    }

    /** Level and noise floor. */
    method Hear(f: seq<real>) returns (db: real)
      requires Valid()
      modifies this`level, this`floor, this`seeded
      ensures Valid() && db == p.db(f)
      ensures Value() == old(Value()).(level := db, floor := Learn(p, old(Value()), db), seeded := true)
    {
      hide StartThreshold, RingOf;
      db := p.db(f);
      level := db;
      if !seeded {
        floor, seeded := db, true;
      } else if !active && db < StartThreshold(p, floor) {
        var rate := if db < floor then 0.5 else 0.05;
        floor := floor + rate * (db - floor);
      }
      if floor < -90.0 {
        floor := -90.0;
      }
    }

    method Idle(f: seq<real>, db: real)
      requires Valid() && |f| == p.frame
      modifies this`preHead, this`preLen, pre, this`seg, this`active, this`silence, this`speech
      ensures Valid() && Value() == WhenIdle(p, old(Value()), f, db)
    {
      hide RingOf, Keep, StartThreshold;
      PrePush(f);
      if db > StartThreshold(p, floor) {
        speech := speech + |f|;
        if speech >= p.minSpeech {
          active, silence := true, 0;
          PreDrain();
          seg := seg + f;
          RingEmpty(pre[..], preHead);
        }
      } else {
        speech := 0;
      }
    }

    method Speaking(f: seq<real>, db: real) returns (o: Option<seq<real>>)
      requires Valid() && |f| == p.frame
      modifies this`seg, this`active, this`silence, this`speech
      ensures Valid() && (Value(), o) == WhenActive(p, old(Value()), f, db)
    {
      hide RingOf, StopThreshold;
      o := None;
      seg := seg + f;
      if db < StopThreshold(p, floor) {
        silence := silence + |f|;
        if silence >= p.hangover {
          o := EmitSegment();
          return;
        }
      } else {
        silence := 0;
      }
      if |seg| >= p.maxSeg {
        o := EmitSegment();
      }
    }

    method ProcessFrame(f: seq<real>) returns (o: Option<seq<real>>)
      requires Valid() && |f| == p.frame
      modifies this`preHead, this`preLen, pre, this`seg, this`active, this`silence, this`speech, this`level, this`floor,
               this`seeded
      ensures Valid() && (Value(), o) == OnFrame(p, old(Value()), f)
    {
      hide RingOf, WhenIdle, WhenActive, Learn;
      o := None;
      var db := Hear(f);
      if active {
        o := Speaking(f, db);
      } else {
        Idle(f, db);
      }
    }

    /** Samples into the FIFO, compacting what has been consumed. */
    method FifoPush(x: seq<real>)
      requires Valid()
      modifies this`fifo, this`fifoPos
      ensures Valid() && Value() == old(Value()) && Pending() == old(Pending()) + x
    {
      if fifoPos > 0 {
        fifo, fifoPos := fifo[fifoPos..], 0;
      }
      fifo := fifo + x;
    }

    /** One turn of the drain loop: tops up the partial frame and, once it is whole, processes it. */
    method DrainOnce() returns (o: Option<seq<real>>, full: bool, ghost used: nat)
      requires Valid() && fifoPos < |fifo|
      modifies this, acc, pre
      ensures Valid() && 0 < used <= |old(Pending())| && Pending() == old(Pending())[used..]
      ensures fifo == old(fifo) && fifoPos == old(fifoPos) + used
      ensures (Value(), Segments(o)) == Run(p, old(Value()), old(Pending())[..used])
      ensures (Value(), Pending(), o) == Turn(p, old(Value()), old(Pending()))
      ensures !full ==> o.None? && Pending() == []
    {
      hide RingOf, OnFrame, Run;
      o := None;
      var take := Min(|fifo| - fifoPos, p.frame - accLen);
      used := take;
      ghost var d, x := Value(), Pending()[..take];
      TurnIs(p, d, Pending(), take);
      TopUp(take);
      full := accLen == p.frame;
      if full {
        RunCompletes(p, d, x);
        accLen := 0;
        assert acc[..] == d.acc + x && acc[..0] == [];
        assert Value() == d.(acc := []);
        o := ProcessFrame(acc[..]);
      } else {
        RunGathers(p, d, x);
      }
    }

    /** `take` samples from the FIFO to the partial frame. */
    method TopUp(take: nat)
      requires Valid() && fifoPos + take <= |fifo| && accLen + take <= p.frame
      modifies this`accLen, this`fifoPos, acc
      ensures accLen == old(accLen) + take && fifoPos == old(fifoPos) + take && pre[..] == old(pre[..])
      ensures acc[..accLen] == old(acc[..accLen]) + old(Pending())[..take]
    {
      forall i | 0 <= i < take {
        acc[accLen + i] := fifo[fifoPos + i];
      }
      accLen, fifoPos := accLen + take, fifoPos + take;
    }

    /** Whole frames out of the FIFO until one closes a segment: exactly what the detector makes of those samples. */
    method Drain() returns (o: Option<seq<real>>, ghost used: nat)
      requires Valid()
      modifies this, acc, pre
      ensures Valid() && used <= |old(Pending())| && Pending() == old(Pending())[used..]
      ensures (Value(), Segments(o)) == Run(p, old(Value()), old(Pending())[..used])
      ensures o.None? ==> Pending() == []
    {
      hide RingOf, Run, Value;
      o, used := None, 0;
      ghost var was, pending := Value(), Pending();
      RunNothing(p, was, pending);
      while fifoPos < |fifo|
        invariant Valid() && used <= |pending| && Pending() == pending[used..] && o.None?
        invariant Run(p, was, pending[..used]) == (Value(), [])
        decreases |fifo| - fifoPos
      {
        var full;
        ghost var n;
        ghost var d := Value();
        o, full, n := DrainOnce();
        RunFurther(p, was, pending, used, n, d, Value(), [], o);
        assert [] + Segments(o) == Segments(o);
        assert pending[used..][n..] == pending[used + n..];
        used := used + n;
        if !full || o.Some? {
          return;
        }
      }
    }

    /** Adds samples and drains; at most one segment comes back. */
    method Push(x: seq<real>) returns (o: Option<seq<real>>, ghost used: nat)
      requires Valid()
      modifies this, acc, pre
      ensures Valid() && used <= |old(Pending()) + x| && Pending() == (old(Pending()) + x)[used..]
      ensures (Value(), Segments(o)) == Run(p, old(Value()), (old(Pending()) + x)[..used])
      ensures o.None? && x != [] ==> Pending() == []
    {
      hide RingOf, Run, Value;
      if |x| == 0 {
        RunNothing(p, Value(), Pending() + x);
        return None, 0;
      }
      FifoPush(x);
      o, used := Drain();
    }

    /** The end of the stream. */
    method EndOfStream() returns (o: Option<seq<real>>)
      requires Valid()
      modifies this
      ensures Valid() && (Value(), o) == Flush(old(Value())) && Pending() == old(Pending())
    {
      hide RingOf;
      assert accLen == 0 ==> seg + acc[..accLen] == seg;
      if accLen > 0 && active {
        seg := seg + acc[..accLen];
      }
      accLen := 0;
      if |seg| == 0 {
        return None;
      }
      o := EmitSegment();
    }

    /** Pushes one piece and drains until nothing more closes. */
    method Feed(x: seq<real>) returns (segs: seq<seq<real>>)
      requires Valid() && Pending() == []
      modifies this, acc, pre
      ensures Valid() && Pending() == [] && (Value(), segs) == Run(p, old(Value()), x)
    {
      hide RingOf, Run, Value;
      ghost var was := Value();
      var o;
      ghost var used: nat;
      assert Pending() + x == x;
      o, used := Push(x);
      segs := Segments(o);
      while o.Some?
        invariant Valid() && used <= |x| && Pending() == x[used..]
        invariant (Value(), segs) == Run(p, was, x[..used])
        invariant o.None? ==> Pending() == []
        decreases |Pending()|, o.Some?
      {
        ghost var n;
        ghost var d := Value();
        o, n := Drain();
        RunFurther(p, was, x, used, n, d, Value(), segs, o);
        segs := segs + Segments(o);
        assert x[used..][n..] == x[used + n..];
        used := used + n;
      }
      assert used == |x| && x[..|x|] == x;
    }
  }

  /** Any split of a stream gives the same segments. */
  method SegmentInPieces(p: Params, pieces: seq<seq<real>>) returns (segs: seq<seq<real>>)
    requires p.frame >= 1 && p.preCap >= 1
    ensures var (d, during) := Run(p, FRESH, Flatten(pieces));
            segs == during + Segments(Flush(d).1)
  {
    hide Run, RingOf, Flush;
    var v := new Segmenter(p);
    segs := [];
    RunNothing(p, FRESH, []);
    for i := 0 to |pieces|
      invariant v.Valid() && v.p == p && v.Pending() == [] && fresh(v) && fresh(v.acc) && fresh(v.pre)
      invariant (v.Value(), segs) == Run(p, FRESH, Flatten(pieces[..i]))
    {
      var more := v.Feed(pieces[i]);
      RunAppend(p, FRESH, Flatten(pieces[..i]), pieces[i]);
      assert pieces[..i + 1][..i] == pieces[..i];
      segs := segs + more;
    }
    assert pieces[..|pieces|] == pieces;
    var o := v.EndOfStream();
    segs := segs + Segments(o);
  }

  lemma {:induction false} RunFurther(p: Params, was: Detector, x: seq<real>, used: nat, n: nat, d: Detector,
                                      d': Detector, segs: seq<seq<real>>, o: Option<seq<real>>)
    requires used + n <= |x|
    requires Run(p, was, x[..used]) == (d, segs) && Run(p, d, x[used..][..n]) == (d', Segments(o))
    ensures Run(p, was, x[..used + n]) == (d', segs + Segments(o))
    ensures o.Some? ==> n > 0
  {
    hide Run;
    RunAppend(p, was, x[..used], x[used..][..n]);
    assert x[..used] + x[used..][..n] == x[..used + n];
    if n == 0 {
      RunNothing(p, d, x[used..]);
    }
  }

  // ----- When the drain loop ends

  /** One turn of the drain loop on a detector and a nonempty FIFO, for any frame length. */
  function Turn(p: Params, d: Detector, fifo: seq<real>): (Detector, seq<real>, Option<seq<real>>) {
    var take := Max(Min(|fifo|, p.frame - |d.acc|), 0);  // a partial frame is never longer than a frame
    var acc := d.acc + fifo[..take];
    if |acc| < p.frame then (d.(acc := acc), fifo[take..], None)
    else
      var (d', o) := OnFrame(p, d.(acc := []), acc);
      (d', fifo[take..], o)
  }

  function Turns(p: Params, d: Detector, fifo: seq<real>, n: nat): (Detector, seq<real>) {
    if n == 0 then (d, fifo)
    else
      var (d1, fifo1) := Turns(p, d, fifo, n - 1);
      var (d2, fifo2, _) := Turn(p, d1, fifo1);
      (d2, fifo2)
  }

  /** A turn on a nonempty FIFO consumes exactly when the frame has room, which an empty one never has. */
  lemma {:induction false} TurnConsumes(p: Params, d: Detector, fifo: seq<real>)
    requires |d.acc| <= p.frame && fifo != []
    ensures |Turn(p, d, fifo).1| < |fifo| <==> |d.acc| < p.frame
  {
    hide OnFrame;
  }

  /** With an empty frame a new detector spins: after any number of turns the FIFO is as full as at first. */
  lemma {:induction false} EmptyFrameSpins(p: Params, fifo: seq<real>, n: nat)
    requires p.frame == 0 && fifo != []
    ensures var (d, rest) := Turns(p, FRESH, fifo, n);
            rest == fifo && d.acc == [] && d.seg == [] && d.pre == [] && Turn(p, d, rest).2.None?
  {
    hide Turn;
    if n > 0 {
      EmptyFrameSpins(p, fifo, n - 1);
      TurnSpins(p, Turns(p, FRESH, fifo, n - 1).0, fifo);
    }
    TurnSpins(p, Turns(p, FRESH, fifo, n).0, fifo);
  }

  lemma {:induction false} TurnSpins(p: Params, d: Detector, fifo: seq<real>)
    requires p.frame == 0 && d.acc == [] && d.seg == [] && d.pre == []
    ensures var (d', rest, o) := Turn(p, d, fifo);
            rest == fifo && o.None? && d'.acc == [] && d'.seg == [] && d'.pre == []
  {
    hide Learn, StartThreshold, StopThreshold;
    assert d.acc + fifo[..0] == [] && fifo[0..] == fifo;
    assert d.seg + [] == [] && d.pre + [] == [];
  }

  /** The sample rates whose frames have a sample. */
  lemma {:induction false} FrameHasSample(sampleRate: nat)
    ensures FrameLength(sampleRate) >= 1 <==> sampleRate >= 50
    ensures 50 * FrameLength(sampleRate) <= sampleRate < 50 * (FrameLength(sampleRate) + 1)
  {
  }

  lemma {:induction false} TurnIs(p: Params, d: Detector, fifo: seq<real>, take: nat)
    requires |d.acc| <= p.frame && take == Min(|fifo|, p.frame - |d.acc|)
    ensures Turn(p, d, fifo) ==
            if |d.acc| + take < p.frame then (d.(acc := d.acc + fifo[..take]), fifo[take..], None)
            else
              var (d', o) := OnFrame(p, d.(acc := []), d.acc + fifo[..take]);
              (d', fifo[take..], o)
  {
    hide OnFrame;
  }

  lemma {:induction false} RingEmpty(cells: seq<real>, head: nat)
    requires head < |cells|
    ensures RingOf(cells, head, 0) == []
  {
  }

  lemma {:induction false} RunNothing(p: Params, d: Detector, pending: seq<real>)
    ensures Run(p, d, pending[..0]) == (d, [])
  {
  }

  lemma {:induction false} KeepAppend(cap: nat, s: seq<real>, v: real)
    ensures Keep(cap, Keep(cap, s) + [v]) == Keep(cap, s + [v])
  {
    if |s| >= cap {
      var k := s[|s| - cap..];
      assert Keep(cap, s) == k;
      assert (k + [v])[1..] == (s + [v])[|s| + 1 - cap..];
    }
  }

  lemma {:induction false} KeepOne(cap: nat, was: seq<real>, x: seq<real>, i: nat)
    requires i < |x|
    ensures Keep(cap, Keep(cap, was + x[..i]) + [x[i]]) == Keep(cap, was + x[..i + 1])
  {
    assert was + x[..i] + [x[i]] == was + x[..i + 1];
    KeepAppend(cap, was + x[..i], x[i]);
  }
}
