/**
 Placing inference slots on devices when an engine is created, and releasing them (src/engine/engine.c). Whether the
 `t`-th attempt to make a context succeeds is a parameter `ok(t)`, so every pattern of failures is covered.
 */
module Placement {
  import opened Arith

  /** A context that owns the weights on device `dev`, or one that borrows those of slot `owner`. */
  datatype Slot = Empty | Owner(dev: nat) | Clone(owner: nat)

  datatype Split = Auto | Replica | Layer

  // ----- What a good placement is

  /** The first `m` slots are taken and the others are not. */
  ghost predicate Dense(s: seq<Slot>, m: nat) { m <= |s| && forall i | 0 <= i < |s| :: s[i] == Empty <==> i >= m }

  /** Every clone follows its owner, with nothing but clones of that owner between them. */
  ghost predicate OwnersFirst(s: seq<Slot>, m: nat)
    requires m <= |s|
  {
    forall i | 0 <= i < m && s[i].Clone? ::
      s[i].owner < i && s[s[i].owner].Owner? && forall k | s[i].owner < k <= i :: s[k] == s[i]
  }

  /** No device is used twice; all are below `d`. */
  ghost predicate DevicesAscend(s: seq<Slot>, m: nat, d: nat)
    requires m <= |s|
  {
    && (forall i | 0 <= i < m && s[i].Owner? :: s[i].dev < d)
    && (forall i, j | 0 <= i < j < m && s[i].Owner? && s[j].Owner? :: s[i].dev < s[j].dev)
  }

  ghost function Owners(s: seq<Slot>, m: nat): nat
    requires m <= |s|
  {
    if m == 0 then 0 else Owners(s, m - 1) + if s[m - 1].Owner? then 1 else 0
  }

  ghost predicate WellPlaced(s: seq<Slot>, m: nat, d: nat, replicas: nat) {
    Dense(s, m) && OwnersFirst(s, m) && DevicesAscend(s, m, d) && Owners(s, m) == replicas
  }

  // ----- One device

  /** How many attempts in a row succeed from the `t`-th on, out of `want`. */
  function Made(ok: nat -> bool, t: nat, want: nat): (r: nat)
    ensures r <= want && (r < want ==> !ok(t + r)) && forall i | t <= i < t + r :: ok(i)
    decreases want
  {
    if want == 0 || !ok(t) then 0 else 1 + Made(ok, t + 1, want - 1)
  }

  /** `s` with an owner and its clones written over slots `base` .. `base + made - 1`. */
  function Filled(s: seq<Slot>, base: nat, made: nat, dev: nat): (r: seq<Slot>)
    ensures |r| == |s|
  {
    seq(|s|, i requires 0 <= i < |s| =>
      if base <= i < base + made then (if i == base then Owner(dev) else Clone(base)) else s[i])
  }

  lemma {:induction false} FilledStep(s: seq<Slot>, base: nat, i: nat, dev: nat)
    requires base + i < |s|
    ensures Filled(s, base, 0, dev) == s
    ensures var next := if i == 0 then Owner(dev) else Clone(base);
            Filled(s, base, i + 1, dev) == Filled(s, base, i, dev)[base + i := next]
  {
  }

  lemma {:induction false} FilledKeeps(s: seq<Slot>, base: nat, made: nat, dev: nat, replicas: nat)
    requires WellPlaced(s, base, dev, replicas) && base + made <= |s|
    ensures WellPlaced(Filled(s, base, made, dev), base + made, dev + 1, replicas + if made > 0 then 1 else 0)
  {
    var r := Filled(s, base, made, dev);
    OwnersSame(s, r, base);
    FilledOwners(r, base, made, dev);
    assert forall i | 0 <= i < base :: r[i] == s[i];
  }

  lemma {:induction false} OwnersSame(s: seq<Slot>, r: seq<Slot>, m: nat)
    requires m <= |s| == |r| && forall i | 0 <= i < m :: r[i] == s[i]
    ensures Owners(r, m) == Owners(s, m)
  {
    if m > 0 {
      OwnersSame(s, r, m - 1);
    }
  }

  lemma {:induction false} FilledOwners(r: seq<Slot>, base: nat, made: nat, dev: nat)
    requires base + made <= |r| && forall i | base <= i < base + made ::
               r[i] == if i == base then Owner(dev) else Clone(base)
    ensures Owners(r, base + made) == Owners(r, base) + if made > 0 then 1 else 0
  {
    if made > 0 {
      FilledOwners(r, base, made - 1, dev);
    }
  }

  class Engine {
    var slots: array<Slot>
    var nSlots: nat
    var nReplicas: nat
    var calls: nat  // attempts so far
    ghost var live: set<nat>  // contexts not yet released

    constructor (n: nat)
      ensures fresh(slots) && slots.Length == n && nSlots == nReplicas == calls == 0 && live == {}
      ensures forall i | 0 <= i < n :: slots[i] == Empty
    {
      slots := new Slot[n](_ => Empty);
      nSlots, nReplicas, calls, live := 0, 0, 0, {};
    }

    /** `want` slots on one device, the first owning the weights; stops at the first failure. */
    method FillDevice(dev: nat, want: nat, ok: nat -> bool) returns (made: nat)
      requires want > 0 && nSlots + want <= slots.Length
      modifies this`nSlots, this`calls, slots
      ensures made == Made(ok, old(calls), want) && nSlots == old(nSlots) + made
      ensures slots[..] == Filled(old(slots[..]), old(nSlots), made, dev)
      ensures calls == old(calls) + Min(made + 1, want)
    {
      hide Filled, Made;
      var base := nSlots;
      calls := calls + 1;
      FilledStep(slots[..], base, 0, dev);
      if !ok(calls - 1) {
        MadeIs(ok, old(calls), want, 0);
        return 0;
      }
      slots[base] := Owner(dev);
      nSlots := base + 1;
      made := want;
      var i := 1;
      while i < want
        invariant 1 <= i <= want && made == want && nSlots == base + i && calls == old(calls) + i
        invariant forall t | old(calls) <= t < old(calls) + i :: ok(t)
        invariant slots[..] == Filled(old(slots[..]), base, i, dev)
      {
        calls := calls + 1;
        if !ok(calls - 1) {
          made := i;
          break;
        }
        FilledStep(old(slots[..]), base, i, dev);
        slots[base + i] := Clone(base);
        nSlots := base + i + 1;
        i := i + 1;
      }
      MadeIs(ok, old(calls), want, made);
    }

    /** Releases one context: nothing that is still in use may borrow from it. */
    method FreeContext(i: nat)
      requires i < slots.Length && i in live && forall j | j in live :: j < slots.Length && slots[j] != Clone(i)
      modifies this`live
      ensures live == old(live) - {i}
    {
      live := live - {i};
    }

    /** Releases every context once, in an order in which no clone outlives its owner. */
    method Free()
      requires Dense(slots[..], nSlots) && OwnersFirst(slots[..], nSlots) && live == Below(nSlots)
      modifies this`live
      ensures live == {}
    {
      var i := nSlots;
      while i > 0
        invariant 0 <= i <= nSlots && live == Below(i)
      {
        i := i - 1;
        assert slots[..][i] != Empty;
        if slots[i] != Empty {
          forall j | j in live
            ensures j < slots.Length && slots[j] != Clone(i)
          {
            assert slots[..][j] == slots[j];
          }
          FreeContext(i);
          assert live == Below(i);
        }
      }
    }

    /** One model over every device; all slots but the first borrow it. */
    method Shard(n: nat, ok: nat -> bool)
      requires n > 0 && slots.Length == n && nSlots == nReplicas == calls == 0
               && forall i | 0 <= i < n :: slots[i] == Empty
      modifies this`nSlots, this`nReplicas, this`calls, slots
      ensures WellPlaced(slots[..], nSlots, 1, nReplicas)
      ensures (forall t :: ok(t)) ==> nSlots == n && Spread(slots[..], n, 1, 1)
      ensures nSlots == 0 <==> forall t: nat | t < Min(1, n) :: !ok(t)
    {
      hide WellPlaced, Spread, Filled;
      OneDevice(slots[..], n, Made(ok, 0, n));
      var made := FillDevice(0, n, ok);
      if made > 0 {
        nReplicas := 1;
      }
    }

    /** Spreads `n` slots over `devices` replicas, the remainder over the first of them. */
    method Replicate(n: nat, devices: nat, ok: nat -> bool)
      requires devices > 0 && slots.Length == n && nSlots == nReplicas == calls == 0
               && forall i | 0 <= i < n :: slots[i] == Empty
      modifies this`nSlots, this`nReplicas, this`calls, slots
      ensures WellPlaced(slots[..], nSlots, devices, nReplicas)
      ensures (forall t :: ok(t)) ==> nSlots == n && Spread(slots[..], n, devices, devices)
      ensures nSlots == 0 <==> forall t: nat | t < Min(devices, n) :: !ok(t)
    {
      hide Progress, WellPlaced, Spread, Share, Made, Filled;
      ProgressStart(slots[..], n, devices, ok);
      var d := 0;
      while d < devices && nSlots < n
        invariant d <= devices && Progress(slots[..], n, devices, d, nSlots, nReplicas, calls, ok)
      {
        var want := Share(n, devices, d);
        if want > 0 {
          ProgressFill(slots[..], n, devices, d, nSlots, nReplicas, calls, ok);
          if nSlots + want > n {
            want := n - nSlots;
          }
          var made := FillDevice(d, want, ok);
          if made > 0 {
            nReplicas := nReplicas + 1;
          }
        } else {
          ProgressSkip(slots[..], n, devices, d, nSlots, nReplicas, calls, ok);
        }
        d := d + 1;
      }
      ProgressEnd(slots[..], n, devices, d, nSlots, nReplicas, calls, ok);
    }
  }

  /** Indices below `m`. */
  ghost function Below(m: nat): (r: set<nat>)
    ensures forall i: nat :: i in r <==> i < m
  {
    if m == 0 then {} else Below(m - 1) + {m - 1}
  }

  /** How many devices the slots are spread over: one when the model itself is split over them. */
  function Spans(n: nat, gpus: nat, cpuOnly: bool, split: Split): nat {
    var devices := if cpuOnly || gpus == 0 then 1 else gpus;
    if devices > 1 && (split == Layer || (split == Auto && n < devices)) then 1 else devices
  }

  /**
   Whatever fails, the slots made are a dense prefix with owners before their clones; there is no engine exactly when no
   device takes the weights. When nothing fails there are as many as asked for, and the devices used hold shares that
   differ by at most one.
   */
  method Create(asked: int, gpus: nat, cpuOnly: bool, split: Split, ok: nat -> bool) returns (e: Engine?)
    ensures e != null ==>
              && fresh(e) && fresh(e.slots) && e.slots.Length == Max(asked, 1) && 0 < e.nSlots <= e.slots.Length
              && WellPlaced(e.slots[..], e.nSlots, Spans(Max(asked, 1), gpus, cpuOnly, split), e.nReplicas)
                && e.live == Below(e.nSlots)
    ensures e == null <==> forall t: nat | t < Min(Spans(Max(asked, 1), gpus, cpuOnly, split), Max(asked, 1)) :: !ok(t)
    ensures (forall t :: ok(t)) ==>
              && e != null && e.nSlots == Max(asked, 1)
              && var spans := Spans(Max(asked, 1), gpus, cpuOnly, split);
                 Spread(e.slots[..], Max(asked, 1), spans, spans)
    ensures var one := cpuOnly || gpus <= 1 || split == Layer || (split == Auto && Max(asked, 1) < gpus);
            e != null ==>
              var s := e.slots[..];
              && (one ==> e.nReplicas == 1 && s[0] == Owner(0) && forall i | 0 < i < e.nSlots :: s[i] == Clone(0))
              && (!one && (forall t :: ok(t)) ==> forall d: nat | d < Min(gpus, Max(asked, 1)) :: Owner(d) in s)
  {
    hide WellPlaced, Spread, Dense, OwnersFirst;
    var n := if asked > 0 then asked else 1;
    var made := new Engine(n);
    var devices := if cpuOnly || gpus == 0 then 1 else gpus;
    var mode := split;
    if devices > 1 && mode == Auto {
      mode := if n >= devices then Replica else Layer;
    }
    if devices > 1 && mode == Layer {
      made.Shard(n, ok);
    } else {
      made.Replicate(n, devices, ok);
    }
    made.live := Below(made.nSlots);
    if made.nSlots == 0 {
      return null;
    }
    OwnersPlaced(made.slots[..], n, made.nSlots, made.nReplicas, gpus, cpuOnly, split, ok);
    e := made;
  }

  /** One model for all slots without several devices, or when its layers are split over them; else one on each. */
  lemma {:induction false} SpansIs(n: nat, gpus: nat, cpuOnly: bool, split: Split)
    ensures Spans(n, gpus, cpuOnly, split) == 1
            <==> cpuOnly || gpus <= 1 || split == Layer || (split == Auto && n < gpus)
    ensures Spans(n, gpus, cpuOnly, split) == 1 || Spans(n, gpus, cpuOnly, split) == gpus
  {
  }

  /** With one device the first slot owns the weights and all others borrow them. */
  lemma {:induction false} OneOwner(s: seq<Slot>, m: nat, replicas: nat)
    requires WellPlaced(s, m, 1, replicas) && m > 0
    ensures m <= |s| && s[0] == Owner(0) && replicas == 1 && forall i | 0 < i < m :: s[i] == Clone(0)
  {
    assert s[0] != Empty;
    forall i | 0 < i < m
      ensures s[i] == Clone(0)
    {
      assert s[i] != Empty;
      if s[i].Clone? {
        var k := s[i].owner;
        assert s[k].Owner?;
      }
    }
    CountOne(s, m);
  }

  lemma {:induction false} CountOne(s: seq<Slot>, m: nat)
    requires 0 < m <= |s| && s[0].Owner? && forall i | 0 < i < m :: !s[i].Owner?
    ensures Owners(s, m) == 1
  {
    if m > 1 {
      CountOne(s, m - 1);
    } else {
      assert Owners(s, 0) == 0;
    }
  }

  /** With all shares placed, every device that has a slot has an owner. */
  lemma {:induction false} OwnerPerDevice(s: seq<Slot>, n: nat, devices: nat)
    requires devices > 0 && |s| == n && Spread(s, n, devices, devices)
    ensures forall d: nat | d < Min(devices, n) :: Owner(d) in s
  {
    hide Start, Share;
    forall d: nat | d < Min(devices, n)
      ensures Owner(d) in s
    {
      ShareIff(n, devices, d);
      assert HoldsShare(s, n, devices, d);
      assert s[Start(n, devices, d)] == Owner(d);
    }
  }

  /** Who owns weights in what was placed: the first slot alone, or one slot on every device. */
  lemma {:induction false} OwnersPlaced(s: seq<Slot>, n: nat, m: nat, replicas: nat, gpus: nat, cpuOnly: bool,
                                        split: Split, ok: nat -> bool)
    requires |s| == n && m > 0 && WellPlaced(s, m, Spans(n, gpus, cpuOnly, split), replicas)
    requires (forall t :: ok(t)) ==> Spread(s, n, Spans(n, gpus, cpuOnly, split), Spans(n, gpus, cpuOnly, split))
    ensures m <= |s| && Dense(s, m) && OwnersFirst(s, m)
    ensures var one := cpuOnly || gpus <= 1 || split == Layer || (split == Auto && n < gpus);
            && (one ==> replicas == 1 && s[0] == Owner(0) && forall i | 0 < i < m :: s[i] == Clone(0))
            && (!one && (forall t :: ok(t)) ==> forall d: nat | d < Min(gpus, n) :: Owner(d) in s)
  {
    SpansIs(n, gpus, cpuOnly, split);
    var spans := Spans(n, gpus, cpuOnly, split);
    hide Spans, Spread;
    if spans == 1 {
      OneOwner(s, m, replicas);
    }
    if forall t :: ok(t) {
      OwnerPerDevice(s, n, spans);
    }
  }

  lemma {:induction false} OneDevice(s: seq<Slot>, n: nat, made: nat)
    requires |s| == n && made <= n && forall i | 0 <= i < n :: s[i] == Empty
    ensures WellPlaced(Filled(s, 0, made, 0), made, 1, if made > 0 then 1 else 0)
    ensures made == n ==> Spread(Filled(s, 0, made, 0), n, 1, 1)
  {
    hide WellPlaced, Spread;
    NothingPlaced(s, n, 1);
    FilledKeeps(s, 0, made, 0, 0);
    StartStep(n, 1, 0);
    SpreadStep(s, n, 1, 0);
  }

  /** No slot was made in the first `k` attempts, or the owner of one was. */
  ghost predicate Tried(ok: nat -> bool, k: nat, taken: nat, calls: nat) {
    if taken == 0 then calls == k && forall t: nat | t < k :: !ok(t) else exists t: nat :: t < k && ok(t)
  }

  lemma {:induction false} NothingTried(ok: nat -> bool)
    ensures Tried(ok, 0, 0, 0)
  {
  }

  lemma {:induction false} TriedStep(ok: nat -> bool, k: nat, taken: nat, calls: nat, want: nat)
    requires Tried(ok, k, taken, calls) && want > 0
    ensures var made := Made(ok, calls, want);
            Tried(ok, k + 1, taken + made, calls + Min(made + 1, want))
  {
  }

  lemma {:induction false} TriedAll(ok: nat -> bool, k: nat, all: nat, taken: nat, calls: nat)
    requires Tried(ok, k, taken, calls) && k <= all && (taken == 0 ==> k == all)
    ensures taken == 0 <==> forall t: nat | t < all :: !ok(t)
  {
  }

  // ----- Shares

  /** Where the slots of device `d` begin when nothing fails. */
  function Start(n: nat, devices: nat, d: nat): nat
    requires devices > 0
  {
    MulMonotone(0, d, n / devices);
    Mul(d, n / devices) + Min(d, n % devices)
  }

  function Share(n: nat, devices: nat, d: nat): nat
    requires devices > 0
  {
    n / devices + if d < n % devices then 1 else 0
  }

  /** Shares follow one another and make up `n`. */
  lemma {:induction false} StartStep(n: nat, devices: nat, d: nat)
    requires devices > 0
    ensures Start(n, devices, 0) == 0 && Start(n, devices, d + 1) == Start(n, devices, d) + Share(n, devices, d)
    ensures Start(n, devices, devices) == n && (d <= devices ==> 0 <= Start(n, devices, d) <= n)
  {
    var q := n / devices;
    assert Mul(d + 1, q) == Mul(d, q) + q && Mul(0, q) == 0 && Mul(devices, q) + n % devices == n;
    if d <= devices {
      MulMonotone(d, devices, q);
    }
    hide Mul;
  }

  /** Shares differ by at most one, and earlier devices have the larger ones. */
  lemma {:induction false} SharesBalance(n: nat, devices: nat, d: nat, e: nat)
    requires d < e < devices
    ensures Share(n, devices, e) <= Share(n, devices, d) <= Share(n, devices, e) + 1
  {
  }

  /** A device has a share if and only if there is a slot for it. */
  lemma {:induction false} ShareIff(n: nat, devices: nat, d: nat)
    requires d < devices
    ensures Share(n, devices, d) > 0 <==> d < n
  {
    if n >= devices {
      DivAtLeast(n, devices, 1);
    } else {
      DivModOf(0, devices, n);
    }
  }

  /** The cap on `want` never acts. */
  lemma {:induction false} CapIsIdle(n: nat, devices: nat, d: nat, taken: nat, want: nat)
    requires d < devices && taken <= Start(n, devices, d) && want == Share(n, devices, d)
    ensures taken + want <= n
  {
    hide Start, Share;
    StartStep(n, devices, d);
    StartStep(n, devices, d + 1);
  }

  /** Device `e` holds its share, an owner and then its clones. */
  ghost predicate HoldsShare(s: seq<Slot>, n: nat, devices: nat, e: nat)
    requires devices > 0
  {
    var at := Start(n, devices, e);
    at + Share(n, devices, e) <= |s| && forall i | at <= i < at + Share(n, devices, e) ::
      s[i] == if i == at then Owner(e) else Clone(at)
  }

  /** So does every device below `d`. */
  ghost predicate Spread(s: seq<Slot>, n: nat, devices: nat, d: nat)
    requires devices > 0
  {
    forall e: nat | e < d :: HoldsShare(s, n, devices, e)
  }

  lemma {:induction false} StartsAscend(n: nat, devices: nat, e: nat, d: nat)
    requires devices > 0 && e < d
    ensures Start(n, devices, e) + Share(n, devices, e) <= Start(n, devices, d)
    decreases d
  {
    hide Start, Share;
    if e + 1 < d {
      StartsAscend(n, devices, e, d - 1);
      StartStep(n, devices, d - 1);
    } else {
      StartStep(n, devices, e);
    }
  }

  lemma {:induction false} SpreadStep(s: seq<Slot>, n: nat, devices: nat, d: nat)
    requires d < devices && |s| == n && Spread(s, n, devices, d)
    ensures Spread(Filled(s, Start(n, devices, d), Share(n, devices, d), d), n, devices, d + 1)
  {
    hide Start, Share;
    StartStep(n, devices, d);
    StartStep(n, devices, d + 1);
    var r := Filled(s, Start(n, devices, d), Share(n, devices, d), d);
    forall e: nat | e < d + 1
      ensures HoldsShare(r, n, devices, e)
    {
      if e < d {
        assert HoldsShare(s, n, devices, e);
        StartsAscend(n, devices, e, d);
      }
    }
  }

  /** Once all slots are placed, later devices have no share. */
  lemma {:induction false} NoneLeft(s: seq<Slot>, n: nat, devices: nat, d: nat)
    requires devices > 0 && d <= devices && |s| == n && Spread(s, n, devices, d) && Start(n, devices, d) == n
    ensures Spread(s, n, devices, devices)
    decreases devices - d
  {
    hide Start, Share;
    if d < devices {
      StartStep(n, devices, d);
      StartStep(n, devices, d + 1);
      assert HoldsShare(s, n, devices, d);
      NoneLeft(s, n, devices, d + 1);
    }
  }

  lemma {:induction false} NothingPlaced(s: seq<Slot>, n: nat, devices: nat)
    requires devices > 0 && |s| == n && forall i | 0 <= i < n :: s[i] == Empty
    ensures WellPlaced(s, 0, 0, 0) && Spread(s, n, devices, 0)
  {
  }

  lemma {:induction false} NoShare(s: seq<Slot>, n: nat, devices: nat, d: nat)
    requires devices > 0 && Share(n, devices, d) == 0 && Spread(s, n, devices, d) && Start(n, devices, d) <= |s|
    ensures Spread(s, n, devices, d + 1)
  {
  }

  lemma {:induction false} LaterDevices(s: seq<Slot>, m: nat, d: nat, later: nat, replicas: nat)
    requires WellPlaced(s, m, d, replicas) && d <= later
    ensures WellPlaced(s, m, later, replicas)
  {
  }

  // ----- The loop over devices

  /** What holds after the first `d` devices: `m` slots placed, after `calls` attempts. */
  ghost predicate Progress(s: seq<Slot>, n: nat, devices: nat, d: nat, m: nat, replicas: nat, calls: nat,
                           ok: nat -> bool)
    requires devices > 0
  {
    && |s| == n && WellPlaced(s, m, d, replicas) && m <= Start(n, devices, d)
    && ((forall t :: ok(t)) ==> m == Start(n, devices, d) && Spread(s, n, devices, d))
    && Tried(ok, Min(d, n), m, calls)
  }

  lemma {:induction false} ProgressStart(s: seq<Slot>, n: nat, devices: nat, ok: nat -> bool)
    requires devices > 0 && |s| == n && forall i | 0 <= i < n :: s[i] == Empty
    ensures Progress(s, n, devices, 0, 0, 0, 0, ok)
  {
    hide WellPlaced, Start, Spread, Tried;
    NothingTried(ok);
    NothingPlaced(s, n, devices);
    StartStep(n, devices, 0);
  }

  lemma {:induction false} ProgressFill(s: seq<Slot>, n: nat, devices: nat, d: nat, m: nat, replicas: nat, calls: nat,
                                        ok: nat -> bool)
    requires d < devices && Progress(s, n, devices, d, m, replicas, calls, ok) && Share(n, devices, d) > 0
    ensures m + Share(n, devices, d) <= n
    ensures var want := Share(n, devices, d);
            var made := Made(ok, calls, want);
            var more := if made > 0 then 1 else 0;
            Progress(Filled(s, m, made, d), n, devices, d + 1, m + made, replicas + more,
                     calls + Min(made + 1, want), ok)
  {
    hide WellPlaced, Start, Spread, Tried, Share, Filled;
    var want := Share(n, devices, d);
    var made := Made(ok, calls, want);
    StartStep(n, devices, d);
    ShareIff(n, devices, d);
    CapIsIdle(n, devices, d, m, want);
    FilledKeeps(s, m, made, d, replicas);
    TriedStep(ok, Min(d, n), m, calls, want);
    if forall t :: ok(t) {
      SpreadStep(s, n, devices, d);
    }
  }

  lemma {:induction false} ProgressSkip(s: seq<Slot>, n: nat, devices: nat, d: nat, m: nat, replicas: nat, calls: nat,
                                        ok: nat -> bool)
    requires d < devices && Progress(s, n, devices, d, m, replicas, calls, ok) && Share(n, devices, d) == 0
    ensures Progress(s, n, devices, d + 1, m, replicas, calls, ok)
  {
    hide WellPlaced, Start, Spread, Tried, Share;
    StartStep(n, devices, d);
    ShareIff(n, devices, d);
    LaterDevices(s, m, d, d + 1, replicas);
    if forall t :: ok(t) {
      NoShare(s, n, devices, d);
    }
  }

  lemma {:induction false} ProgressEnd(s: seq<Slot>, n: nat, devices: nat, d: nat, m: nat, replicas: nat, calls: nat,
                                       ok: nat -> bool)
    requires devices > 0 && d <= devices && Progress(s, n, devices, d, m, replicas, calls, ok)
             && (d == devices || m >= n)
    ensures WellPlaced(s, m, devices, replicas)
    ensures (forall t :: ok(t)) ==> m == n && Spread(s, n, devices, devices)
    ensures m == 0 <==> forall t: nat | t < Min(devices, n) :: !ok(t)
  {
    hide WellPlaced, Start, Spread, Tried, Share;
    StartStep(n, devices, d);
    LaterDevices(s, m, d, devices, replicas);
    TriedAll(ok, Min(d, n), Min(devices, n), m, calls);
    if forall t :: ok(t) {
      NoneLeft(s, n, devices, d);
    }
  }

  lemma {:induction false} MadeIs(ok: nat -> bool, t: nat, want: nat, made: nat)
    requires made <= want && (forall i | t <= i < t + made :: ok(i)) && (made < want ==> !ok(t + made))
    ensures made == Made(ok, t, want)
  {
  }
}
