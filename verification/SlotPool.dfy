/**
 The slot pool of the engine (src/engine/engine.c): any number of threads acquire and release slots under one
 mutex and one condition variable. Every point where another thread can run is a step of a transition system:
 taking the lock, one look at a flag, falling asleep, waking (signalled, timed out or spuriously), clearing a
 flag, signalling.
 */
module SlotPool {
  import opened Common

  /** Where a thread is. Scanning, Clearing and Signalling run with the lock held. */
  datatype Pc =
    | Idle
    | Entering(timed: bool)          // called acquire, wants the lock
    | Scanning(timed: bool, i: nat)  // about to look at flag i
    | Sleeping(timed: bool)          // inside the condition wait
    | Woken(timed: bool)             // back from the wait, wants the lock again
    | Holding(slot: nat)             // acquire returned this slot
    | Leaving(slot: nat)             // called release, wants the lock
    | Clearing(slot: nat)            // about to clear the flag
    | Signalling                     // flag cleared, signal and unlock to come
    | TimedOut                       // acquire returned -1

  datatype State = State(busy: seq<bool>, nBusy: int, lock: Option<nat>, threads: seq<Pc>)

  datatype Step =
    | Call(t: nat, timed: bool)
    | Lock(t: nat)
    | Look(t: nat)
    | Sleep(t: nat)
    | Expire(t: nat)
    | Wake(t: nat)
    | Leave(t: nat)
    | LockToLeave(t: nat)
    | Clear(t: nat)
    | Signal(t: nat, woken: Option<nat>)
    | Return(t: nat)

  predicate IsSleeping(p: Pc) { p.Sleeping? }

  /** Back from the wait and yet to look at the flags again. */
  predicate IsWoken(p: Pc) { p.Woken? }

  /** Will look at the flags, or signal someone who will, before it can sleep. */
  predicate IsPending(p: Pc) { p.Woken? || p.Scanning? || p.Signalling? }

  predicate HasLock(p: Pc) { p.Scanning? || p.Clearing? || p.Signalling? }

  predicate HasSlot(p: Pc) { p.Holding? || p.Leaving? || p.Clearing? }

  predicate Owns(p: Pc, k: nat) { HasSlot(p) && p.slot == k }

  predicate IsFree(b: bool) { !b }

  function Count<T>(s: seq<T>, p: T -> bool): nat {
    if s == [] then 0 else Count(s[..|s| - 1], p) + if p(s[|s| - 1]) then 1 else 0
  }

  predicate Enabled(s: State, step: Step) {
    && step.t < |s.threads|
    && var p := s.threads[step.t];
       match step
       case Call(_, _) => p.Idle?
       case Lock(_) => (p.Entering? || p.Woken?) && s.lock == None
       case Look(_) => p.Scanning? && p.i < |s.busy|
       case Sleep(_) => p.Scanning? && p.i >= |s.busy|
       case Expire(_) => p.Scanning? && p.i >= |s.busy| && p.timed
       case Wake(_) => p.Sleeping?
       case Leave(_) => p.Holding?
       case LockToLeave(_) => p.Leaving? && s.lock == None
       case Clear(_) => p.Clearing? && p.slot < |s.busy|
       case Signal(_, None) => p.Signalling? && forall u | 0 <= u < |s.threads| :: !s.threads[u].Sleeping?
       case Signal(_, Some(u)) => p.Signalling? && u < |s.threads| && s.threads[u].Sleeping?
       case Return(_) => p.TimedOut?
  }

  function Goto(s: State, t: nat, p: Pc): State
    requires t < |s.threads|
  {
    s.(threads := s.threads[t := p])
  }

  function Do(s: State, step: Step): State
    requires Enabled(s, step)
  {
    var t := step.t;
    var p := s.threads[t];
    match step
    case Call(_, timed) => Goto(s, t, Entering(timed))
    case Lock(_) => Goto(s, t, Scanning(p.timed, 0)).(lock := Some(t))
    case Look(_) =>
      if s.busy[p.i] then Goto(s, t, Scanning(p.timed, p.i + 1))
      else Goto(s, t, Holding(p.i)).(busy := s.busy[p.i := true], nBusy := s.nBusy + 1, lock := None)
    case Sleep(_) => Goto(s, t, Sleeping(p.timed)).(lock := None)
    case Expire(_) => Goto(s, t, TimedOut).(lock := None)
    case Wake(_) => Goto(s, t, Woken(p.timed))
    case Leave(_) => Goto(s, t, Leaving(p.slot))
    case LockToLeave(_) => Goto(s, t, Clearing(p.slot)).(lock := Some(t))
    case Clear(_) =>
      Goto(s, t, Signalling).(busy := s.busy[p.slot := false], nBusy := s.nBusy - 1)
    case Signal(_, woken) =>
      var s' := Goto(s, t, Idle).(lock := None);
      if woken.Some? then Goto(s', woken.value, Woken(s.threads[woken.value].timed)) else s'
    case Return(_) => Goto(s, t, Idle)
  }

  // ----- Runs

  predicate Initial(s: State) {
    && s.nBusy == 0 && s.lock == None
    && (forall k | 0 <= k < |s.busy| :: !s.busy[k])
    && (forall t | 0 <= t < |s.threads| :: s.threads[t] == Idle)
  }

  ghost predicate Follows(s: State, s': State) {
    exists step :: Enabled(s, step) && Do(s, step) == s'
  }

  /** `run` is what some interleaving goes through, from an unused pool on. */
  ghost predicate IsRun(run: seq<State>) {
    && |run| > 0 && Initial(run[0])
    && forall i | 0 <= i < |run| - 1 :: Follows(run[i], run[i + 1])
  }

  ghost predicate Reachable(s: State) {
    exists run :: IsRun(run) && run[|run| - 1] == s
  }

  // ----- What every step keeps

  ghost predicate LockInv(s: State) {
    && (forall t | 0 <= t < |s.threads| :: HasLock(s.threads[t]) <==> s.lock == Some(t))
    && (s.lock.Some? ==> s.lock.value < |s.threads|)
  }

  /** A thread that owns a slot owns one that is marked busy, and no two own the same. */
  ghost predicate OwnerInv(s: State) {
    && (forall t | 0 <= t < |s.threads| && HasSlot(s.threads[t]) ::
          s.threads[t].slot < |s.busy| && s.busy[s.threads[t].slot])
    && (forall t, u | 0 <= t < u < |s.threads| && HasSlot(s.threads[t]) && HasSlot(s.threads[u]) ::
          s.threads[t].slot != s.threads[u].slot)
  }

  /** No slot stays marked busy without an owner. */
  ghost predicate NoLeakInv(s: State) {
    forall k: nat | k < |s.busy| && s.busy[k] :: exists t: nat :: t < |s.threads| && Owns(s.threads[t], k)
  }

  ghost predicate ScanInv(s: State) {
    forall t | 0 <= t < |s.threads| && s.threads[t].Scanning? ::
      s.threads[t].i <= |s.busy| && forall k | 0 <= k < s.threads[t].i :: s.busy[k]
  }

  ghost predicate CountInv(s: State) {
    s.nBusy + Count(s.busy, IsFree) == |s.busy|
  }

  ghost predicate WakeInv(s: State) {
    Count(s.threads, IsSleeping) > 0 ==> Count(s.busy, IsFree) <= Count(s.threads, IsPending)
  }

  ghost predicate Inv(s: State) {
    LockInv(s) && OwnerInv(s) && NoLeakInv(s) && ScanInv(s) && CountInv(s) && WakeInv(s)
  }

  // ----- Counting

  lemma {:induction false} CountUpdate<T>(s: seq<T>, p: T -> bool, i: nat, v: T)
    requires i < |s|
    ensures Count(s[i := v], p) == Count(s, p) - (if p(s[i]) then 1 else 0) + (if p(v) then 1 else 0)
  {
    var l := |s| - 1;
    if i < l {
      assert s[i := v][..l] == s[..l][i := v];
      CountUpdate(s[..l], p, i, v);
    } else {
      assert s[i := v][..l] == s[..l];
    }
  }

  lemma {:induction false} CountNone<T>(s: seq<T>, p: T -> bool)
    ensures Count(s, p) == 0 <==> forall i | 0 <= i < |s| :: !p(s[i])
  {
    if s != [] {
      CountNone(s[..|s| - 1], p);
    }
  }

  lemma {:induction false} CountAll<T>(s: seq<T>, p: T -> bool)
    ensures Count(s, p) <= |s|
    ensures Count(s, p) == |s| <==> forall i | 0 <= i < |s| :: p(s[i])
  {
    if s != [] {
      CountAll(s[..|s| - 1], p);
    }
  }

  lemma {:induction false} InitialKeeps(s: State)
    requires Initial(s)
    ensures Inv(s)
  {
    CountNone(s.threads, IsSleeping);
    CountAll(s.busy, IsFree);
  }

  lemma {:induction false} StepKeepsCount(s: State, step: Step)
    requires OwnerInv(s) && CountInv(s) && Enabled(s, step)
    ensures CountInv(Do(s, step))
  {
    var p := s.threads[step.t];
    if step.Look? && !s.busy[p.i] {
      CountUpdate(s.busy, IsFree, p.i, true);
    } else if step.Clear? {
      CountUpdate(s.busy, IsFree, p.slot, false);
    }
  }

  /** How a step moves the two counts that a lost wakeup would set apart. */
  lemma {:induction false} StepKeepsWake(s: State, step: Step)
    requires ScanInv(s) && WakeInv(s) && Enabled(s, step)
    ensures WakeInv(Do(s, step))
  {
    var t, p, s' := step.t, s.threads[step.t], Do(s, step);
    match step
    case Look(_) =>
      CountUpdate(s.threads, IsSleeping, t, s'.threads[t]);
      CountUpdate(s.threads, IsPending, t, s'.threads[t]);
      if !s.busy[p.i] {
        CountUpdate(s.busy, IsFree, p.i, true);
      }
    case Clear(_) =>
      CountUpdate(s.threads, IsSleeping, t, s'.threads[t]);
      CountUpdate(s.threads, IsPending, t, s'.threads[t]);
      CountUpdate(s.busy, IsFree, p.slot, false);
    case Signal(_, _) =>
      SignalKeepsWake(s, step);
    case _ =>
      CountUpdate(s.threads, IsSleeping, t, s'.threads[t]);
      CountUpdate(s.threads, IsPending, t, s'.threads[t]);
      if step.Sleep? || step.Expire? {
        CountNone(s.busy, IsFree);
      }
  }

  lemma {:induction false} SignalKeepsWake(s: State, step: Step)
    requires ScanInv(s) && WakeInv(s) && Enabled(s, step) && step.Signal?
    ensures WakeInv(Do(s, step))
  {
    var t, woken, s' := step.t, step.woken, Do(s, step);
    var m := s.threads[t := Idle];
    CountUpdate(s.threads, IsSleeping, t, Idle);
    CountUpdate(s.threads, IsPending, t, Idle);
    if woken.Some? {
      CountUpdate(m, IsSleeping, woken.value, s'.threads[woken.value]);
      CountUpdate(m, IsPending, woken.value, s'.threads[woken.value]);
    } else {
      CountNone(s.threads, IsSleeping);
    }
  }

  lemma {:induction false} StepKeepsLock(s: State, step: Step)
    requires LockInv(s) && Enabled(s, step)
    ensures LockInv(Do(s, step))
  {
  }

  lemma {:induction false} StepKeepsScan(s: State, step: Step)
    requires LockInv(s) && ScanInv(s) && Enabled(s, step)
    ensures ScanInv(Do(s, step))
  {
  }

  /** A thread that owns a slot after a step owned it before, or has just found it free. */
  lemma {:induction false} SlotAfter(s: State, step: Step, u: nat)
    requires Enabled(s, step) && u < |s.threads| && HasSlot(Do(s, step).threads[u])
    ensures var k := Do(s, step).threads[u].slot;
            if step.Look? && u == step.t then k < |s.busy| && !s.busy[k] && Do(s, step).busy == s.busy[k := true]
            else HasSlot(s.threads[u]) && s.threads[u].slot == k && !(step.Clear? && u == step.t)
  {
  }

  lemma {:induction false} BusyAfter(s: State, step: Step, k: nat)
    requires Enabled(s, step) && k < |s.busy| && s.busy[k] && (step.Clear? ==> s.threads[step.t].slot != k)
    ensures k < |Do(s, step).busy| && Do(s, step).busy[k]
  {
  }

  lemma {:induction false} StepKeepsOwner(s: State, step: Step)
    requires OwnerInv(s) && Enabled(s, step)
    ensures OwnerInv(Do(s, step))
  {
    var s' := Do(s, step);
    assert |s'.threads| == |s.threads|;
    hide Do;
    forall u: nat | u < |s'.threads| && HasSlot(s'.threads[u])
      ensures s'.threads[u].slot < |s'.busy| && s'.busy[s'.threads[u].slot]
    {
      SlotAfter(s, step, u);
      if !(step.Look? && u == step.t) {
        BusyAfter(s, step, s'.threads[u].slot);
      }
    }
    forall u: nat, v: nat | u < v < |s'.threads| && HasSlot(s'.threads[u]) && HasSlot(s'.threads[v])
      ensures s'.threads[u].slot != s'.threads[v].slot
    {
      SlotAfter(s, step, u);
      SlotAfter(s, step, v);
    }
  }

  lemma {:induction false} StepKeepsNoLeak(s: State, step: Step)
    requires NoLeakInv(s) && OwnerInv(s) && Enabled(s, step)
    ensures NoLeakInv(Do(s, step))
  {
    var t, p, s' := step.t, s.threads[step.t], Do(s, step);
    forall k: nat | k < |s'.busy| && s'.busy[k]
      ensures exists u: nat :: u < |s'.threads| && Owns(s'.threads[u], k)
    {
      if step.Look? && !s.busy[p.i] && k == p.i {
        assert Owns(s'.threads[t], k);
      } else {
        var u: nat :| u < |s.threads| && Owns(s.threads[u], k);
        assert Owns(s'.threads[u], k);
      }
    }
  }

  lemma {:induction false} RunKeeps(run: seq<State>, i: nat)
    requires IsRun(run) && i < |run|
    ensures Inv(run[i])
  {
    if i == 0 {
      InitialKeeps(run[0]);
    } else {
      RunKeeps(run, i - 1);
      var s := run[i - 1];
      assert Follows(run[i - 1], run[i - 1 + 1]);
      var step :| Enabled(s, step) && Do(s, step) == run[i];
      StepKeepsLock(s, step);
      StepKeepsScan(s, step);
      StepKeepsOwner(s, step);
      StepKeepsNoLeak(s, step);
      StepKeepsCount(s, step);
      StepKeepsWake(s, step);
    }
  }

  // ----- What holds in every reachable state

  lemma {:induction false} ReachableKeeps(s: State)
    requires Reachable(s)
    ensures Inv(s)
  {
    hide Inv;
    var run :| IsRun(run) && run[|run| - 1] == s;
    RunKeeps(run, |run| - 1);
  }

  /** No slot has two holders, no busy slot is without one, and the counter counts the flags. */
  lemma {:induction false} SlotsAreExclusive(s: State)
    requires Reachable(s)
    ensures forall t: nat, u: nat, k: nat | t < |s.threads| && u < |s.threads| ::
              s.threads[t] == Holding(k) && s.threads[u] == Holding(k) ==> t == u
    ensures forall k: nat | k < |s.busy| ::
              s.busy[k] <==> exists t: nat :: t < |s.threads| && Owns(s.threads[t], k)
    ensures s.nBusy == |s.busy| - Count(s.busy, IsFree)
  {
    ReachableKeeps(s);
    hide Reachable;
  }

  /** With the lock free, sleeping threads leave no more slots free than woken threads are about to look at. */
  lemma {:induction false} NoLostWakeup(s: State)
    requires Reachable(s) && s.lock == None
    requires Count(s.threads, IsSleeping) > 0
    ensures Count(s.busy, IsFree) <= Count(s.threads, IsWoken)
  {
    ReachableKeeps(s);
    hide Reachable;
    PendingIsWoken(s.threads);
  }

  lemma {:induction false} PendingIsWoken(threads: seq<Pc>)
    requires forall t | 0 <= t < |threads| :: !HasLock(threads[t])
    ensures Count(threads, IsPending) == Count(threads, IsWoken)
  {
    if threads != [] {
      PendingIsWoken(threads[..|threads| - 1]);
    }
  }

  /** Acquire gives up only when it found, and still has, every slot taken, and never when it may wait for ever. */
  lemma {:induction false} GivesUpOnlyWhenFull(s: State, step: Step)
    requires Reachable(s) && Enabled(s, step) && Do(s, step).threads[step.t].TimedOut? && !s.threads[step.t].TimedOut?
    ensures step.Expire? && s.threads[step.t].timed
    ensures forall k | 0 <= k < |s.busy| :: s.busy[k]
  {
    ReachableKeeps(s);
    hide Reachable;
  }

  /** The slot acquire returns was free and every lower one was taken. */
  lemma {:induction false} AcquireTakesLowest(s: State, step: Step, k: nat)
    requires Reachable(s) && Enabled(s, step)
    requires Do(s, step).threads[step.t] == Holding(k) && !s.threads[step.t].Holding?
    ensures k < |s.busy| && !s.busy[k] && forall j | 0 <= j < k :: s.busy[j]
  {
    ReachableKeeps(s);
    hide Reachable, LockInv, OwnerInv, NoLeakInv, CountInv, WakeInv;
    OnlyLookTakes(s, step, k);
  }

  lemma {:induction false} OnlyLookTakes(s: State, step: Step, k: nat)
    requires Enabled(s, step) && Do(s, step).threads[step.t] == Holding(k) && !s.threads[step.t].Holding?
    ensures step.Look? && s.threads[step.t] == Scanning(s.threads[step.t].timed, k) && k < |s.busy| && !s.busy[k]
  {
  }

  /** A step the pool takes by itself: not a new call, a return of a slot, or a chance wakeup. */
  predicate Internal(step: Step) {
    !step.Call? && !step.Leave? && !step.Wake? && !step.Return?
  }

  predicate AtRest(p: Pc) { p.Idle? || p.Sleeping? || p.Holding? || p.TimedOut? }

  /**
   The pool never jams: when no internal step is possible and some thread still sleeps, every slot is in use by a
   thread that has yet to return it.
   */
  lemma {:induction false} StuckOnlyWhenAllInUse(s: State)
    requires Reachable(s)
    requires forall step | Enabled(s, step) :: !Internal(step)
    ensures s.lock == None
    ensures forall t: nat | t < |s.threads| :: AtRest(s.threads[t])
    ensures Count(s.threads, IsSleeping) > 0 ==>
              forall k: nat | k < |s.busy| :: exists t: nat :: t < |s.threads| && s.threads[t] == Holding(k)
  {
    ReachableKeeps(s);
    hide Reachable;
    StuckThreads(s);
    if Count(s.threads, IsSleeping) > 0 {
      AtRestMeansFull(s);
    }
  }

  lemma {:induction false} AtRestMeansFull(s: State)
    requires NoLeakInv(s) && WakeInv(s) && Count(s.threads, IsSleeping) > 0
    requires forall t: nat | t < |s.threads| :: AtRest(s.threads[t])
    ensures forall k: nat | k < |s.busy| :: exists t: nat :: t < |s.threads| && s.threads[t] == Holding(k)
  {
    CountNone(s.threads, IsPending);
    CountNone(s.busy, IsFree);
    forall k: nat | k < |s.busy|
      ensures exists t: nat :: t < |s.threads| && s.threads[t] == Holding(k)
    {
      assert !IsFree(s.busy[k]);
      var t: nat :| t < |s.threads| && Owns(s.threads[t], k);
      assert s.threads[t] == Holding(k);
    }
  }

  lemma {:induction false} StuckThreads(s: State)
    requires LockInv(s) && OwnerInv(s)
    requires forall step | Enabled(s, step) :: !Internal(step)
    ensures s.lock == None && forall t: nat | t < |s.threads| :: AtRest(s.threads[t])
  {
    StuckLock(s);
    forall t: nat | t < |s.threads|
      ensures AtRest(s.threads[t])
    {
      assert !Enabled(s, Lock(t)) && !Enabled(s, LockToLeave(t));
    }
  }

  lemma {:induction false} StuckLock(s: State)
    requires LockInv(s) && OwnerInv(s)
    requires forall step | Enabled(s, step) :: !Internal(step)
    ensures s.lock == None && forall t: nat | t < |s.threads| :: !HasLock(s.threads[t])
  {
    forall t: nat | t < |s.threads| && HasLock(s.threads[t])
      ensures false
    {
      var step := LockHolderCanGoOn(s, t);
    }
  }

  lemma {:induction false} LockHolderCanGoOn(s: State, t: nat) returns (step: Step)
    requires OwnerInv(s) && t < |s.threads| && HasLock(s.threads[t])
    ensures Enabled(s, step) && Internal(step)
  {
    match s.threads[t]
    case Scanning(_, i) =>
      step := if i < |s.busy| then Look(t) else Sleep(t);
    case Clearing(_) =>
      step := Clear(t);
    case Signalling =>
      if u: nat :| u < |s.threads| && s.threads[u].Sleeping? {
        step := Signal(t, Some(u));
      } else {
        step := Signal(t, None);
      }
  }

  // ----- Runs by their steps

  /** Where the steps lead from `s`, if each is enabled in its turn. */
  ghost function After(s: State, steps: seq<Step>): Option<State> {
    if steps == [] then Some(s)
    else
      var m, step := After(s, steps[..|steps| - 1]), steps[|steps| - 1];
      if m.Some? && Enabled(m.value, step) then Some(Do(m.value, step)) else None
  }

  lemma {:induction false} AfterOne(s: State, step: Step)
    requires Enabled(s, step)
    ensures After(s, [step]) == Some(Do(s, step))
  {
    assert [step][..0] == [];
    hide Enabled, Do;
    assert After(s, []) == Some(s);
  }

  lemma {:induction false} AfterAppend(s: State, a: seq<Step>, m: State, b: seq<Step>)
    requires After(s, a) == Some(m)
    ensures After(s, a + b) == After(m, b)
  {
    hide Enabled, Do;
    if b == [] {
      assert a + b == a;
    } else {
      var l := |b| - 1;
      AfterAppend(s, a, m, b[..l]);
      assert (a + b)[..|a + b| - 1] == a + b[..l];
    }
  }

  lemma {:induction false} FollowsBy(s: State, step: Step)
    requires Enabled(s, step)
    ensures Follows(s, Do(s, step))
  {
    hide Enabled, Do;
  }

  /** The states of a run are those that steps lead to from an unused pool. */
  lemma {:induction false} StepsReach(s0: State, steps: seq<Step>, s: State) returns (run: seq<State>)
    requires Initial(s0) && After(s0, steps) == Some(s)
    ensures IsRun(run) && run[0] == s0 && run[|run| - 1] == s && Reachable(s)
  {
    hide Enabled, Do, Initial, Follows;
    if steps == [] {
      run := [s0];
    } else {
      var l := |steps| - 1;
      var m := After(s0, steps[..l]).value;
      var part := StepsReach(s0, steps[..l], m);
      FollowsBy(m, steps[l]);
      run := part + [s];
    }
  }

  lemma {:induction false} StepBetween(s: State, s': State) returns (step: Step)
    requires Follows(s, s')
    ensures Enabled(s, step) && Do(s, step) == s'
  {
    hide Enabled, Do;
    step :| Enabled(s, step) && Do(s, step) == s';
  }

  lemma {:induction false} ReachedBySteps(run: seq<State>) returns (steps: seq<Step>)
    requires IsRun(run)
    ensures Initial(run[0]) && After(run[0], steps) == Some(run[|run| - 1])
  {
    hide Enabled, Do, Initial, Follows;
    var l := |run| - 1;
    if l == 0 {
      steps := [];
    } else {
      var part := run[..l];
      forall i | 0 <= i < |part| - 1
        ensures Follows(part[i], part[i + 1])
      {
        assert Follows(run[i], run[i + 1]);
      }
      var most := ReachedBySteps(part);
      assert Follows(run[l - 1], run[l - 1 + 1]);
      var step := StepBetween(run[l - 1], run[l]);
      AfterOne(run[l - 1], step);
      AfterAppend(run[0], most, run[l - 1], [step]);
      steps := most + [step];
    }
  }

  /** Whether the last acquire of thread `t` set a deadline. */
  function LastCall(steps: seq<Step>, t: nat): Option<bool> {
    if steps == [] then None
    else
      var step := steps[|steps| - 1];
      if step.Call? && step.t == t then Some(step.timed) else LastCall(steps[..|steps| - 1], t)
  }

  /** A thread that waits, and one that gave up, goes by the deadline of its last call, whatever it went through. */
  lemma {:induction false} WaitsByItsLastCall(s0: State, steps: seq<Step>, s: State, t: nat)
    requires Initial(s0) && After(s0, steps) == Some(s) && t < |s.threads|
    ensures var p := s.threads[t];
            && (p.Entering? || p.Scanning? || p.Sleeping? || p.Woken? ==> LastCall(steps, t) == Some(p.timed))
            && (p.TimedOut? ==> LastCall(steps, t) == Some(true))
  {
    if steps == [] {
    } else {
      var l := |steps| - 1;
      var m := After(s0, steps[..l]).value;
      SameThreads(m, steps[l]);
      WaitsByItsLastCall(s0, steps[..l], m, t);
      DeadlineAfter(m, steps[l], t);
      hide Enabled, Do, Initial;
    }
  }

  lemma {:induction false} SameThreads(m: State, step: Step)
    requires Enabled(m, step)
    ensures |Do(m, step).threads| == |m.threads|
  {
  }

  lemma {:induction false} DeadlineAfter(m: State, step: Step, t: nat)
    requires Enabled(m, step) && t < |m.threads|
    ensures t < |Do(m, step).threads|
    ensures var (was, p) := (m.threads[t], Do(m, step).threads[t]);
            && (p.Entering? || p.Scanning? || p.Sleeping? || p.Woken? ==>
                  if step.Call? && step.t == t then p.timed == step.timed
                  else (was.Entering? || was.Scanning? || was.Sleeping? || was.Woken?) && was.timed == p.timed)
            && (p.TimedOut? ==> !(step.Call? && step.t == t) && (was.TimedOut? || (was.Scanning? && was.timed)))
  {
  }

  /** Thread `t` alone, without a new call. */
  ghost predicate OwnSteps(steps: seq<Step>, t: nat) {
    forall i | 0 <= i < |steps| :: steps[i].t == t && !steps[i].Call?
  }

  /** Over flags `i` to `j`, all set, the scan goes on. */
  lemma {:induction false} ScanOn(s: State, t: nat, timed: bool, i: nat, j: nat) returns (steps: seq<Step>)
    requires t < |s.threads| && s.threads[t] == Scanning(timed, i) && i <= j <= |s.busy|
    requires forall k | i <= k < j :: s.busy[k]
    ensures OwnSteps(steps, t) && After(s, steps) == Some(Goto(s, t, Scanning(timed, j)))
    decreases j - i
  {
    if i == j {
      steps := [];
      assert s.threads[t := Scanning(timed, i)] == s.threads;
    } else {
      var next := Goto(s, t, Scanning(timed, i + 1));
      AfterOne(s, Look(t));
      var rest := ScanOn(next, t, timed, i + 1, j);
      AfterAppend(s, [Look(t)], next, rest);
      assert next.threads[t := Scanning(timed, j)] == s.threads[t := Scanning(timed, j)];
      steps := [Look(t)] + rest;
    }
  }

  /** With the lock free a thread that wants a slot can look past `j` set flags. */
  lemma {:induction false} LockAndScan(s: State, t: nat, j: nat) returns (steps: seq<Step>)
    requires t < |s.threads| && (s.threads[t].Entering? || s.threads[t].Woken?) && s.lock == None && j <= |s.busy|
    requires forall k | 0 <= k < j :: s.busy[k]
    ensures OwnSteps(steps, t)
    ensures After(s, steps) == Some(Goto(s, t, Scanning(s.threads[t].timed, j)).(lock := Some(t)))
  {
    var timed := s.threads[t].timed;
    var held := Goto(s, t, Scanning(timed, 0)).(lock := Some(t));
    AfterOne(s, Lock(t));
    var rest := ScanOn(held, t, timed, 0, j);
    AfterAppend(s, [Lock(t)], held, rest);
    assert held.threads[t := Scanning(timed, j)] == s.threads[t := Scanning(timed, j)];
    steps := [Lock(t)] + rest;
  }

  lemma {:induction false} OneMoreStep(s: State, steps: seq<Step>, m: State, step: Step, t: nat)
    requires After(s, steps) == Some(m) && Enabled(m, step) && OwnSteps(steps, t) && step.t == t && !step.Call?
    ensures OwnSteps(steps + [step], t) && After(s, steps + [step]) == Some(Do(m, step))
  {
    hide Enabled, Do;
    AfterOne(m, step);
    AfterAppend(s, steps, m, [step]);
  }

  /** With every slot taken a thread whose deadline is set can give up by itself: nobody needs to let it. */
  lemma {:induction false} CanGiveUp(s: State, t: nat) returns (steps: seq<Step>)
    requires t < |s.threads| && (s.threads[t].Entering? || s.threads[t].Woken?) && s.threads[t].timed
    requires s.lock == None && forall k | 0 <= k < |s.busy| :: s.busy[k]
    ensures OwnSteps(steps, t) && After(s, steps) == Some(Goto(s, t, TimedOut))
  {
    var scan := LockAndScan(s, t, |s.busy|);
    var m := Goto(s, t, Scanning(true, |s.busy|)).(lock := Some(t));
    OneMoreStep(s, scan, m, Expire(t), t);
    assert m.threads[t := TimedOut] == s.threads[t := TimedOut];
    steps := scan + [Expire(t)];
  }

  /** With every slot taken it can also go (back) to sleep. */
  lemma {:induction false} CanSleep(s: State, t: nat) returns (steps: seq<Step>)
    requires t < |s.threads| && (s.threads[t].Entering? || s.threads[t].Woken?)
    requires s.lock == None && forall k | 0 <= k < |s.busy| :: s.busy[k]
    ensures OwnSteps(steps, t) && After(s, steps) == Some(Goto(s, t, Sleeping(s.threads[t].timed)))
  {
    var timed := s.threads[t].timed;
    var scan := LockAndScan(s, t, |s.busy|);
    var m := Goto(s, t, Scanning(timed, |s.busy|)).(lock := Some(t));
    OneMoreStep(s, scan, m, Sleep(t), t);
    assert m.threads[t := Sleeping(timed)] == s.threads[t := Sleeping(timed)];
    steps := scan + [Sleep(t)];
  }

  /** With a slot free it takes the lowest. */
  lemma {:induction false} CanTake(s: State, t: nat, k: nat) returns (steps: seq<Step>)
    requires t < |s.threads| && (s.threads[t].Entering? || s.threads[t].Woken?) && s.lock == None
    requires k < |s.busy| && !s.busy[k] && forall j | 0 <= j < k :: s.busy[j]
    ensures OwnSteps(steps, t)
    ensures After(s, steps)
         == Some(Goto(s, t, Holding(k)).(busy := s.busy[k := true], nBusy := s.nBusy + 1))
  {
    var timed := s.threads[t].timed;
    var scan := LockAndScan(s, t, k);
    var m := Goto(s, t, Scanning(timed, k)).(lock := Some(t));
    OneMoreStep(s, scan, m, Look(t), t);
    assert m.threads[t := Holding(k)] == s.threads[t := Holding(k)];
    steps := scan + [Look(t)];
  }

  lemma {:induction false} FourSteps(s: State, a: State, b: State, c: State, one: Step, two: Step, three: Step,
                                     four: Step, t: nat)
    returns (steps: seq<Step>)
    requires one.t == two.t == three.t == four.t == t && !one.Call? && !two.Call? && !three.Call? && !four.Call?
    requires Enabled(s, one) && Do(s, one) == a && Enabled(a, two) && Do(a, two) == b
    requires Enabled(b, three) && Do(b, three) == c && Enabled(c, four)
    ensures OwnSteps(steps, t) && After(s, steps) == Some(Do(c, four))
  {
    hide Enabled, Do;
    assert After(s, []) == Some(s);
    OneMoreStep(s, [], s, one, t);
    OneMoreStep(s, [] + [one], a, two, t);
    OneMoreStep(s, [] + [one] + [two], b, three, t);
    OneMoreStep(s, [] + [one] + [two] + [three], c, four, t);
    steps := [] + [one] + [two] + [three] + [four];
  }

  /** A sleeping thread can always wake, and a thread that holds a slot can give it back, waking one that sleeps. */
  lemma {:induction false} CanWake(s: State, t: nat)
    requires t < |s.threads| && s.threads[t].Sleeping?
    ensures OwnSteps([Wake(t)], t) && After(s, [Wake(t)]) == Some(Goto(s, t, Woken(s.threads[t].timed)))
  {
    AfterOne(s, Wake(t));
  }

  lemma {:induction false} CanReturn(s: State, t: nat, k: nat, woken: Option<nat>) returns (steps: seq<Step>)
    requires t < |s.threads| && s.threads[t] == Holding(k) && k < |s.busy| && s.lock == None
    requires woken.None? ==> forall u | 0 <= u < |s.threads| :: !s.threads[u].Sleeping?
    requires woken.Some? ==> woken.value < |s.threads| && s.threads[woken.value].Sleeping?
    ensures OwnSteps(steps, t)
    ensures var s' := Goto(s, t, Idle).(busy := s.busy[k := false], nBusy := s.nBusy - 1);
            After(s, steps)
            == Some(if woken.None? then s' else Goto(s', woken.value, Woken(s.threads[woken.value].timed)))
  {
    var a := Goto(s, t, Leaving(k));
    var b := Goto(s, t, Clearing(k)).(lock := Some(t));
    var c := Goto(s, t, Signalling).(busy := s.busy[k := false], nBusy := s.nBusy - 1, lock := Some(t));
    assert a.threads[t := Clearing(k)] == b.threads && b.threads[t := Signalling] == c.threads;
    assert c.threads[t := Idle] == s.threads[t := Idle];
    assert Enabled(s, Leave(t)) && Do(s, Leave(t)) == a;
    assert Enabled(a, LockToLeave(t)) && Do(a, LockToLeave(t)) == b;
    assert Enabled(b, Clear(t)) && Do(b, Clear(t)) == c;
    assert Enabled(c, Signal(t, woken));
    steps := FourSteps(s, a, b, c, Leave(t), LockToLeave(t), Clear(t), Signal(t, woken), t);
  }

  lemma {:induction false} CanCall(s: State, t: nat, timed: bool)
    requires t < |s.threads| && s.threads[t] == Idle
    ensures After(s, [Call(t, timed)]) == Some(Goto(s, t, Entering(timed)))
    ensures LastCall([Call(t, timed)], t) == Some(timed)
  {
    AfterOne(s, Call(t, timed));
  }

  lemma {:induction false} InThreeParts(s: State, a: State, b: State, first: seq<Step>, more: seq<Step>,
                                        last: seq<Step>, t: nat)
    returns (steps: seq<Step>)
    requires After(s, first) == Some(a) && After(a, more) == Some(b)
    requires OwnSteps(more, t) && OwnSteps(last, t)
    ensures After(s, steps) == After(b, last) && LastCall(steps, t) == LastCall(first, t)
  {
    hide Enabled, Do, After, LastCall, OwnSteps;
    AfterAppend(s, first, a, more);
    AfterAppend(s, first + more, b, last);
    LastCallOwn(first, more, t);
    LastCallOwn(first + more, last, t);
    steps := first + more + last;
  }

  /** Taking a slot and giving it back leaves the pool as it was. */
  lemma {:induction false} TakeAndReturn(s: State, t: nat, timed: bool, k: nat) returns (steps: seq<Step>)
    requires t < |s.threads| && s.threads[t] == Idle && s.lock == None
    requires forall u | 0 <= u < |s.threads| :: !s.threads[u].Sleeping?
    requires k < |s.busy| && !s.busy[k] && forall j | 0 <= j < k :: s.busy[j]
    ensures LastCall(steps, t) == Some(timed) && After(s, steps) == Some(s)
  {
    hide Enabled, Do, After, LastCall, OwnSteps;
    var a := Goto(s, t, Entering(timed));
    CanCall(s, t, timed);
    var take := CanTake(a, t, k);
    var b := Goto(s, t, Holding(k)).(busy := s.busy[k := true], nBusy := s.nBusy + 1);
    assert a.threads[t := Holding(k)] == s.threads[t := Holding(k)];
    var give := CanReturn(b, t, k, None);
    assert b.threads[t := Idle] == s.threads && b.busy[k := false] == s.busy;
    steps := InThreeParts(s, a, b, [Call(t, timed)], take, give, t);
  }

  lemma {:induction false} LastCallOwn(steps: seq<Step>, more: seq<Step>, t: nat)
    requires OwnSteps(more, t)
    ensures LastCall(steps + more, t) == LastCall(steps, t)
  {
    if more == [] {
      assert steps + more == steps;
    } else {
      var l := |more| - 1;
      LastCallOwn(steps, more[..l], t);
      assert (steps + more)[..|steps + more| - 1] == steps + more[..l];
    }
  }

  /** Thread `t` can come to give up without any other thread taking a step. */
  ghost predicate CanTimeOut(s: State, t: nat) {
    exists more :: OwnSteps(more, t) && TimesOutAt(After(s, more), t)
  }

  predicate TimesOutAt(s: Option<State>, t: nat) { s.Some? && t < |s.value.threads| && s.value.threads[t].TimedOut? }

  /** Between the start of a look and the next call, with slot `k` free and the lower ones taken. */
  ghost predicate OnItsWay(s: State, s': State, t: nat, k: nat)
    requires t < |s.threads|
  {
    && |s'.threads| == |s.threads|
    && var p := s'.threads[t];
       || ((p.Entering? || p.Woken? || p.Sleeping? || (p.Scanning? && p.i <= k)) && s'.busy == s.busy)
       || p.Holding? || p.Leaving? || p.Clearing? || p.Signalling? || p.Idle?
  }

  lemma {:induction false} FreeSlotIsTaken(s: State, t: nat, k: nat, more: seq<Step>)
    requires t < |s.threads| && (s.threads[t].Entering? || s.threads[t].Woken? || s.threads[t].Sleeping?)
    requires k < |s.busy| && !s.busy[k] && OwnSteps(more, t) && After(s, more).Some?
    ensures OnItsWay(s, After(s, more).value, t, k)
  {
    if more != [] {
      var l := |more| - 1;
      FreeSlotIsTaken(s, t, k, more[..l]);
      StaysOnItsWay(s, After(s, more[..l]).value, t, k, more[l]);
    }
  }

  lemma {:induction false} StaysOnItsWay(s: State, m: State, t: nat, k: nat, step: Step)
    requires t < |s.threads| && k < |s.busy| && !s.busy[k] && OnItsWay(s, m, t, k)
    requires Enabled(m, step) && step.t == t && !step.Call?
    ensures OnItsWay(s, Do(m, step), t, k)
  {
  }

  /**
   A waiting thread can give up by itself, the lock being free, exactly if its last call set a deadline and every slot
   is taken.
   */
  lemma {:induction false} GivesUpIff(s0: State, steps: seq<Step>, s: State, t: nat)
    requires Initial(s0) && After(s0, steps) == Some(s) && s.lock == None
    requires t < |s.threads| && (s.threads[t].Entering? || s.threads[t].Woken? || s.threads[t].Sleeping?)
    ensures CanTimeOut(s, t) <==> LastCall(steps, t) == Some(true) && forall k | 0 <= k < |s.busy| :: s.busy[k]
  {
    hide Enabled, Do, Initial;
    WaitsByItsLastCall(s0, steps, s, t);
    if CanTimeOut(s, t) {
      var more :| OwnSteps(more, t) && TimesOutAt(After(s, more), t);
      AfterAppend(s0, steps, s, more);
      WaitsByItsLastCall(s0, steps + more, After(s, more).value, t);
      LastCallOwn(steps, more, t);
      if k: nat :| k < |s.busy| && !s.busy[k] {
        FreeSlotIsTaken(s, t, k, more);
      }
    }
    if LastCall(steps, t) == Some(true) && forall k | 0 <= k < |s.busy| :: s.busy[k] {
      var more := GiveUp(s, t);
      assert TimesOutAt(After(s, more), t);
    }
  }

  lemma {:induction false} GiveUp(s: State, t: nat) returns (steps: seq<Step>)
    requires t < |s.threads| && s.lock == None && forall k | 0 <= k < |s.busy| :: s.busy[k]
    requires (s.threads[t].Entering? || s.threads[t].Woken? || s.threads[t].Sleeping?) && s.threads[t].timed
    ensures OwnSteps(steps, t) && After(s, steps) == Some(Goto(s, t, TimedOut))
  {
    if s.threads[t].Sleeping? {
      CanWake(s, t);
      var m := Goto(s, t, Woken(true));
      var rest := CanGiveUp(m, t);
      AfterAppend(s, [Wake(t)], m, rest);
      assert m.threads[t := TimedOut] == s.threads[t := TimedOut];
      steps := [Wake(t)] + rest;
    } else {
      steps := CanGiveUp(s, t);
    }
  }

  /** And what it then returns to its caller leaves it free to call again. */
  lemma {:induction false} ReturnsToItsCaller(s: State, t: nat)
    requires t < |s.threads| && s.threads[t].TimedOut?
    ensures After(s, [Return(t)]) == Some(Goto(s, t, Idle))
  {
    AfterOne(s, Return(t));
  }
}
