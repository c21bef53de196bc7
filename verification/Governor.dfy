/** The frequency governor: load samples decay in a fixed-point accumulator, and the load it
    reports picks a frequency between the clamps.  All products are of unsigned 32-bit numbers. */
module Governor {
  import opened Basics
  import opened Clocks
  import opened SlidingMax

  const U32: nat := 0x1_0000_0000
  const UTIL_MAX: nat := 1000
  const DECAY_DIVISOR: nat := 8192
  const CPU_DECAY: nat := 4129
  const CPU_UTIL_ACC_MAX: nat := 2012
  const GPU_DECAY: nat := 6880
  const GPU_UTIL_ACC_MAX: nat := 6145
  const GPU_WINDOW: nat := 32
  const BOOST_THRESHOLD: nat := 950
  const CORES: nat := 4

  // ----- the accumulators ---------------------------------------------------------------------

  function Decay(decay: nat, acc: nat): nat {
    acc * decay % U32 / DECAY_DIVISOR
  }

  function Step(decay: nat, acc: nat, util: nat): nat {
    (Decay(decay, acc) + util) % U32
  }

  // The accumulator after the samples h.
  function Acc(decay: nat, h: seq<nat>): nat {
    if h == [] then 0 else Step(decay, Acc(decay, h[..|h| - 1]), h[|h| - 1])
  }

  function Scaled(acc: nat, accMax: nat): nat
    requires accMax > 0
  {
    acc * UTIL_MAX % U32 / accMax
  }

  function CpuUtil(h: seq<nat>): nat {
    Scaled(Acc(CPU_DECAY, h), CPU_UTIL_ACC_MAX)
  }

  function GpuUtil(h: seq<nat>): nat {
    (Scaled(Acc(GPU_DECAY, h), GPU_UTIL_ACC_MAX) + WindowMax(GPU_WINDOW, h)) % U32 / 2
  }

  predicate AreLoads(h: seq<nat>) {
    forall k :: 0 <= k < |h| ==> h[k] <= UTIL_MAX
  }

  // An accumulator that can be reached: cap is where full load settles.
  predicate IsCap(decay: nat, cap: nat) {
    decay <= DECAY_DIVISOR && cap <= 6238 && cap * decay / DECAY_DIVISOR + UTIL_MAX == cap
  }

  lemma CapsAreCaps()
    ensures IsCap(CPU_DECAY, 2015) && IsCap(GPU_DECAY, 6238)
  {
  }

  lemma SmallerQuotient(p: nat, q: nat)
    requires p <= q <= 6238 * DECAY_DIVISOR
    ensures p % U32 == p && p / DECAY_DIVISOR <= q / DECAY_DIVISOR
  {
  }

  // The product of a bounded accumulator and the decay, and what is left of it.
  lemma DecayIsExact(decay: nat, acc: nat, bound: nat)
    requires decay <= DECAY_DIVISOR && acc <= bound <= 6238
    ensures acc * decay < U32 && Decay(decay, acc) == acc * decay / DECAY_DIVISOR <= bound * decay / DECAY_DIVISOR
  {
    var p, q := acc * decay, bound * decay;
    ProductGrows(acc, bound, decay);
    ProductGrows(decay, DECAY_DIVISOR, bound);
    SmallerQuotient(p, q);
  }

  // Within the cap nothing wraps around.
  lemma StepIsExact(decay: nat, cap: nat, acc: nat, util: nat)
    requires IsCap(decay, cap) && acc <= cap && util <= UTIL_MAX
    ensures acc * decay < U32 && Step(decay, acc, util) == acc * decay / DECAY_DIVISOR + util <= cap
  {
    hide Decay;
    DecayIsExact(decay, acc, cap);
  }

  lemma {:induction false} AccIsBounded(decay: nat, cap: nat, h: seq<nat>)
    requires IsCap(decay, cap) && AreLoads(h)
    ensures Acc(decay, h) <= cap
  {
    hide IsCap, Step;
    if h != [] {
      var n := |h| - 1;
      AccIsBounded(decay, cap, h[..n]);
      StepIsExact(decay, cap, Acc(decay, h[..n]), h[n]);
    }
  }

  lemma {:induction false} AccIsMonotone(decay: nat, cap: nat, h: seq<nat>, g: seq<nat>)
    requires IsCap(decay, cap) && AreLoads(g) && |h| == |g|
    requires forall k :: 0 <= k < |h| ==> h[k] <= g[k]
    ensures Acc(decay, h) <= Acc(decay, g)
  {
    hide IsCap, Step;
    if h != [] {
      var n := |h| - 1;
      AccIsMonotone(decay, cap, h[..n], g[..n]);
      AccIsBounded(decay, cap, h[..n]);
      AccIsBounded(decay, cap, g[..n]);
      var a, b := Acc(decay, h[..n]), Acc(decay, g[..n]);
      StepIsExact(decay, cap, a, h[n]);
      StepIsExact(decay, cap, b, g[n]);
      ProductGrows(a, b, decay);
    }
  }

  function Constant(n: nat, util: nat): seq<nat> {
    seq(n, _ => util)
  }

  // Below the cap, full load moves the accumulator up.
  lemma FullLoadClimbs(decay: nat, cap: nat, acc: nat)
    requires (decay == CPU_DECAY && cap == 2015) || (decay == GPU_DECAY && cap == 6238)
    requires acc < cap
    ensures IsCap(decay, cap) && Step(decay, acc, UTIL_MAX) > acc
  {
    CapsAreCaps();
  }

  lemma {:induction false} FullLoadReachesCap(decay: nat, cap: nat, n: nat)
    requires (decay == CPU_DECAY && cap == 2015) || (decay == GPU_DECAY && cap == 6238)
    ensures Acc(decay, Constant(n, UTIL_MAX)) >= if n < cap then n else cap
  {
    hide Step, IsCap;
    CapsAreCaps();
    if n > 0 {
      var h := Constant(n, UTIL_MAX);
      assert h[..n - 1] == Constant(n - 1, UTIL_MAX);
      FullLoadReachesCap(decay, cap, n - 1);
      AccIsBounded(decay, cap, h[..n - 1]);
      var acc := Acc(decay, h[..n - 1]);
      if acc < cap { FullLoadClimbs(decay, cap, acc); } else { CapStays(decay, cap); }
    }
  }

  lemma CapStays(decay: nat, cap: nat)
    requires IsCap(decay, cap)
    ensures Step(decay, cap, UTIL_MAX) == cap
  {
    StepIsExact(decay, cap, cap, UTIL_MAX);
  }

  /** The least upper bounds of the two accumulators for loads of at most 1000: 2015 and 6238,
      a little above the constants 2012 and 6145 of the source. */
  lemma AccumulatorBounds(h: seq<nat>)
    requires AreLoads(h)
    ensures Acc(CPU_DECAY, h) <= 2015 && Acc(GPU_DECAY, h) <= 6238
    ensures Acc(CPU_DECAY, Constant(2015, UTIL_MAX)) == 2015
    ensures Acc(GPU_DECAY, Constant(6238, UTIL_MAX)) == 6238
  {
    hide Acc;
    CapsAreCaps();
    AccIsBounded(CPU_DECAY, 2015, h);
    AccIsBounded(GPU_DECAY, 6238, h);
    AccIsBounded(CPU_DECAY, 2015, Constant(2015, UTIL_MAX));
    AccIsBounded(GPU_DECAY, 6238, Constant(6238, UTIL_MAX));
    FullLoadReachesCap(CPU_DECAY, 2015, 2015);
    FullLoadReachesCap(GPU_DECAY, 6238, 6238);
  }

  /** What the governors see: at most 1001 for the CPU and 1007 for the GPU. */
  lemma UtilBounds(h: seq<nat>)
    requires AreLoads(h)
    ensures CpuUtil(h) <= 1001 && GpuUtil(h) <= 1007
  {
    hide Acc, WindowMax;
    AccumulatorBounds(h);
    WindowIsBounded(GPU_WINDOW, h, UTIL_MAX);
  }

  lemma WindowIsBounded(w: nat, h: seq<nat>, bound: nat)
    requires w > 0 && forall k :: 0 <= k < |h| && k > |h| - 2 * w ==> h[k] <= bound
    ensures WindowMax(w, h) <= bound
  {
    if |h| > w { WindowMaxBounds(w, h, bound); }
  }

  lemma {:induction false} AccOfIdle(decay: nat, h: seq<nat>, n: nat)
    ensures Acc(decay, h + Constant(n, 0)) == Idle(decay, Acc(decay, h), n)
  {
    var g := h + Constant(n, 0);
    if n == 0 {
      assert g == h;
    } else {
      AccOfIdle(decay, h, n - 1);
      assert g[..|g| - 1] == h + Constant(n - 1, 0);
    }
  }

  // The accumulator after n idle updates.
  function Idle(decay: nat, acc: nat, n: nat): nat {
    if n == 0 then acc else Step(decay, Idle(decay, acc, n - 1), 0)
  }

  // One idle update takes an accumulator of at most a to one of at most b.
  lemma IdleStep(decay: nat, acc: nat, n: nat, a: nat, b: nat)
    requires decay <= DECAY_DIVISOR && a <= 6238 && Idle(decay, acc, n) <= a && a * decay / DECAY_DIVISOR <= b < U32
    ensures Idle(decay, acc, n + 1) <= b
  {
    hide Decay;
    DecayIsExact(decay, Idle(decay, acc, n), a);
  }

  lemma CpuIdle(acc: nat)
    requires acc <= 2015
    ensures Idle(CPU_DECAY, acc, 12) == 0
  {
    assert Idle(CPU_DECAY, acc, 0) == acc;
    hide Idle;
    IdleStep(CPU_DECAY, acc, 0, 2015, 1015);
    IdleStep(CPU_DECAY, acc, 1, 1015, 511);
    IdleStep(CPU_DECAY, acc, 2, 511, 257);
    IdleStep(CPU_DECAY, acc, 3, 257, 129);
    IdleStep(CPU_DECAY, acc, 4, 129, 65);
    IdleStep(CPU_DECAY, acc, 5, 65, 32);
    IdleStep(CPU_DECAY, acc, 6, 32, 16);
    IdleStep(CPU_DECAY, acc, 7, 16, 8);
    IdleStep(CPU_DECAY, acc, 8, 8, 4);
    IdleStep(CPU_DECAY, acc, 9, 4, 2);
    IdleStep(CPU_DECAY, acc, 10, 2, 1);
    IdleStep(CPU_DECAY, acc, 11, 1, 0);
  }

  // The GPU's accumulator is halved by four idle updates.
  lemma FourUpdatesHalve(acc: nat, n: nat)
    requires Idle(GPU_DECAY, acc, n) <= 6238
    ensures Idle(GPU_DECAY, acc, n + 4) <= Idle(GPU_DECAY, acc, n) / 2
  {
    hide Idle;
    var x := Idle(GPU_DECAY, acc, n);
    IdleOne(acc, n);
    IdleOne(acc, n + 1);
    IdleOne(acc, n + 2);
    IdleOne(acc, n + 3);
  }

  lemma IdleOne(acc: nat, n: nat)
    requires Idle(GPU_DECAY, acc, n) <= 6238
    ensures Idle(GPU_DECAY, acc, n + 1) == Idle(GPU_DECAY, acc, n) * 6880 / 8192 <= 6238
  {
    hide Decay;
    DecayIsExact(GPU_DECAY, Idle(GPU_DECAY, acc, n), 6238);
  }

  lemma {:induction false} GpuIdle(acc: nat, n: nat, j: nat)
    requires Idle(GPU_DECAY, acc, n) <= 6238 && Idle(GPU_DECAY, acc, n) < Pow2(j)
    ensures Idle(GPU_DECAY, acc, n + 4 * j) == 0
    decreases j
  {
    hide Idle;
    if j > 0 {
      FourUpdatesHalve(acc, n);
      GpuIdle(acc, n + 4, j - 1);
    }
  }

  lemma {:induction false} StaysZero(decay: nat, acc: nat, n: nat, more: nat)
    requires Idle(decay, acc, n) == 0
    ensures Idle(decay, acc, n + more) == 0
  {
    assert 0 * decay == 0;
    if more > 0 { StaysZero(decay, acc, n, more - 1); }
  }

  /** After any loads, 12 idle updates bring the CPU's load to 0, and 63 the GPU's: the window
      forgets after 2 * 32 - 1 samples, and the accumulator within 52. */
  lemma IdleBringsZero(h: seq<nat>, n: nat)
    requires AreLoads(h)
    ensures n >= 12 ==> CpuUtil(h + Constant(n, 0)) == 0
    ensures n >= 63 ==> GpuUtil(h + Constant(n, 0)) == 0
  {
    hide Acc, WindowMax, Idle;
    AccumulatorBounds(h);
    AccOfIdle(CPU_DECAY, h, n);
    AccOfIdle(GPU_DECAY, h, n);
    IdleZero(Acc(CPU_DECAY, h), Acc(GPU_DECAY, h), n);
    if n >= 63 { WindowIsBounded(GPU_WINDOW, h + Constant(n, 0), 0); }
  }

  lemma IdleZero(cpu: nat, gpu: nat, n: nat)
    requires cpu <= 2015 && gpu <= 6238
    ensures n >= 12 ==> Idle(CPU_DECAY, cpu, n) == 0
    ensures n >= 52 ==> Idle(GPU_DECAY, gpu, n) == 0
  {
    hide Step;
    CpuIdle(cpu);
    assert Pow2(13) == 8192;
    assert Idle(GPU_DECAY, gpu, 0) == gpu;
    GpuIdle(gpu, 0, 13);
    if n >= 12 { StaysZero(CPU_DECAY, cpu, 12, n - 12); }
    if n >= 52 { StaysZero(GPU_DECAY, gpu, 52, n - 52); }
  }

  // ----- the choice of a frequency ------------------------------------------------------------

  // What the load asks for: one and a half times its share of the ceiling.
  function NextFreq(maxHz: nat, norm: nat): nat {
    var next := maxHz / UTIL_MAX * norm % U32;
    (next + next / 2) % U32
  }

  // The table's first entry of at least hz, or its last entry.
  function InTable(t: seq<nat>, hz: nat): nat
    requires IsTable(t)
  {
    t[Nearest(t, 0, Last(t), hz)]
  }

  function Choice(t: seq<nat>, minHz: nat, maxHz: nat, norm: nat): nat
    requires IsTable(t)
  {
    var next := NextFreq(maxHz, norm);
    if next >= maxHz then maxHz else if next <= minHz then minHz else InTable(t, next)
  }

  /** The walk over the table, which ends at its first zero; the table is not empty. */
  method FindHzInTable(t: seq<nat>, hz: nat) returns (r: nat)
    requires IsTable(t) && t[0] != 0
    ensures r == InTable(t, hz)
  {
    var p := 0;
    while t[p] != 0
      invariant p <= Last(t) + 1
      invariant p <= Last(t) ==> Nearest(t, p, Last(t), hz) == Nearest(t, 0, Last(t), hz)
      invariant p == Last(t) + 1 ==> Nearest(t, 0, Last(t), hz) == Last(t)
      decreases TABLE_SIZE - p
    {
      if hz <= t[p] { return t[p]; }
      p := p + 1;
    }
    r := t[p - 1];
  }

  /** If the ceiling is a table entry, no load moves the choice out of the range, and between the
      clamps it is the least entry that meets the demand. */
  lemma ChoiceInRange(t: seq<nat>, minHz: nat, maxHz: nat, norm: nat)
    requires IsTable(t) && Ascending(t) && minHz <= maxHz && IsEntry(t, maxHz)
    ensures minHz <= Choice(t, minHz, maxHz, norm) <= maxHz
    ensures var next := NextFreq(maxHz, norm);
            minHz < next < maxHz ==>
              && IsEntry(t, Choice(t, minHz, maxHz, norm)) && next <= Choice(t, minHz, maxHz, norm)
              && forall k :: 0 <= k <= Last(t) && next <= t[k] ==> Choice(t, minHz, maxHz, norm) <= t[k]
  {
    hide NextFreq, Last;
    var next := NextFreq(maxHz, norm);
    var k :| 0 <= k <= Last(t) && t[k] == maxHz;
    NearestHzIsSound(t, 0, Last(t), next, next);
  }

  // What the governor may choose: a clamp, or an entry between the clamps.
  predicate Allowed(t: seq<nat>, minHz: nat, maxHz: nat, hz: nat)
    requires IsTable(t)
  {
    minHz <= hz <= maxHz && (hz == minHz || hz == maxHz || IsEntry(t, hz))
  }

  /** If the ceiling is a table entry, the choice is the least frequency allowed that meets the
      demand, or as much of it as the ceiling admits. */
  lemma ChoiceIsLeast(t: seq<nat>, minHz: nat, maxHz: nat, norm: nat)
    requires IsTable(t) && Ascending(t) && minHz <= maxHz && IsEntry(t, maxHz)
    ensures var c, demand := Choice(t, minHz, maxHz, norm), Min(maxHz, NextFreq(maxHz, norm));
            && Allowed(t, minHz, maxHz, c) && demand <= c
            && forall hz :: Allowed(t, minHz, maxHz, hz) && demand <= hz ==> c <= hz
  {
    hide NextFreq, Last, InTable, IsTable;
    ChoiceInRange(t, minHz, maxHz, norm);
  }

  // Whatever the floor, the choice meets the demand as far as the ceiling admits.
  lemma ChoiceMeetsDemand(t: seq<nat>, minHz: nat, maxHz: nat, norm: nat)
    requires IsTable(t) && IsEntry(t, maxHz)
    ensures Min(maxHz, NextFreq(maxHz, norm)) <= Choice(t, minHz, maxHz, norm)
  {
    hide NextFreq, Last;
    var k :| 0 <= k <= Last(t) && t[k] == maxHz;
  }

  /** With any other ceiling the choice is above it just when the demand lies between the clamps
      and no entry does between the demand and the ceiling, though there is one above. */
  lemma AboveCeilingIff(t: seq<nat>, minHz: nat, maxHz: nat, norm: nat)
    requires IsTable(t) && Ascending(t) && minHz <= maxHz
    ensures var next := NextFreq(maxHz, norm);
            maxHz < Choice(t, minHz, maxHz, norm) <==>
              && minHz < next < maxHz && maxHz < t[Last(t)]
              && forall k :: 0 <= k <= Last(t) ==> t[k] < next || maxHz < t[k]
  {
    hide NextFreq, Last;
    var next := NextFreq(maxHz, norm);
    NearestHzIsSound(t, 0, Last(t), next, next);
  }

  /** A ceiling of 1020 MHz between two entries: a load of 450 asks for 688.5 MHz and gets 1224. */
  lemma ChoiceAboveCeiling()
    ensures var t := [612_000_000, 1_224_000_000] + seq(29, _ => 0);
            IsTable(t) && Ascending(t) && Choice(t, 0, 1_020_000_000, 450) == 1_224_000_000
  {
    var t := [612_000_000, 1_224_000_000] + seq(29, _ => 0);
    assert t[0] == 612_000_000 && t[1] == 1_224_000_000 && t[2] == 0;
    assert Last(t) == 1;
    assert NextFreq(1_020_000_000, 450) == 688_500_000;
  }

  /** Up to 2.8 GHz and for loads the accumulators can report, nothing wraps around, so more load
      never lowers the choice. */
  lemma ChoiceIsMonotone(t: seq<nat>, minHz: nat, maxHz: nat, norm: nat, more: nat)
    requires IsTable(t) && Ascending(t) && minHz <= maxHz <= 2_800_000_000 && IsEntry(t, maxHz)
    requires norm <= more <= 1007
    ensures NextFreq(maxHz, norm) == maxHz / UTIL_MAX * norm * 3 / 2 <= NextFreq(maxHz, more)
    ensures Choice(t, minHz, maxHz, norm) <= Choice(t, minHz, maxHz, more)
  {
    NextIsExact(maxHz, norm, more);
    hide NextFreq, Last;
    ChoiceInRange(t, minHz, maxHz, norm);
    ChoiceInRange(t, minHz, maxHz, more);
    NearestGrows(t, 0, Last(t), NextFreq(maxHz, norm), NextFreq(maxHz, more));
    assert forall i, j :: 0 <= i <= j <= Last(t) ==> t[i] <= t[j];
  }

  lemma NextIsExact(maxHz: nat, norm: nat, more: nat)
    requires maxHz <= 2_800_000_000 && norm <= more <= 1007
    ensures NextFreq(maxHz, norm) == maxHz / UTIL_MAX * norm * 3 / 2 <= NextFreq(maxHz, more)
  {
    var m := maxHz / UTIL_MAX;
    var a, b := m * norm, m * more;
    assert m <= 2_800_000;
    ProductGrows(norm, more, m);
    ProductGrows(more, 1007, m);
    NextOfProduct(a);
    NextOfProduct(b);
  }

  lemma NextOfProduct(a: nat)
    requires a <= 2_800_000 * 1007
    ensures a % U32 == a && (a + a / 2) % U32 == a * 3 / 2
  {
  }

  lemma AccStepIsExact(decay: nat, cap: nat, h: seq<nat>, util: nat)
    requires IsCap(decay, cap) && AreLoads(h) && util <= UTIL_MAX
    ensures Acc(decay, h + [util]) == Acc(decay, h) * decay / DECAY_DIVISOR + util
  {
    hide Acc, Step, IsCap;
    AccOfMore(decay, h, util);
    AccIsBounded(decay, cap, h);
    StepIsExact(decay, cap, Acc(decay, h), util);
  }

  lemma ScaledIsExact(acc: nat, accMax: nat)
    requires acc <= 6238 && accMax > 0
    ensures Scaled(acc, accMax) == acc * UTIL_MAX / accMax
  {
    assert acc * UTIL_MAX % U32 == acc * UTIL_MAX;
  }

  /** For loads of at most 1000 the accumulators and the loads they report are what they would be
      with unbounded numbers. */
  lemma AccumulatorsNeverWrap(h: seq<nat>, util: nat)
    requires AreLoads(h) && util <= UTIL_MAX
    ensures Acc(CPU_DECAY, h + [util]) == Acc(CPU_DECAY, h) * CPU_DECAY / DECAY_DIVISOR + util
    ensures Acc(GPU_DECAY, h + [util]) == Acc(GPU_DECAY, h) * GPU_DECAY / DECAY_DIVISOR + util
    ensures CpuUtil(h) == Acc(CPU_DECAY, h) * UTIL_MAX / CPU_UTIL_ACC_MAX
    ensures GpuUtil(h) == (Acc(GPU_DECAY, h) * UTIL_MAX / GPU_UTIL_ACC_MAX + WindowMax(GPU_WINDOW, h)) / 2
  {
    hide Acc, WindowMax, IsCap, Scaled;
    CapsAreCaps();
    AccStepIsExact(CPU_DECAY, 2015, h, util);
    AccStepIsExact(GPU_DECAY, 6238, h, util);
    AccIsBounded(CPU_DECAY, 2015, h);
    AccIsBounded(GPU_DECAY, 6238, h);
    ScaledIsExact(Acc(CPU_DECAY, h), CPU_UTIL_ACC_MAX);
    ScaledIsExact(Acc(GPU_DECAY, h), GPU_UTIL_ACC_MAX);
    UtilIsSmall(Acc(GPU_DECAY, h));
    WindowIsBounded(GPU_WINDOW, h, UTIL_MAX);
  }

  lemma UtilIsSmall(acc: nat)
    requires acc <= 6238
    ensures Scaled(acc, GPU_UTIL_ACC_MAX) <= 1015
  {
    ScaledIsExact(acc, GPU_UTIL_ACC_MAX);
  }

  /** With ceilings up to 2.8 GHz neither does the frequency they ask for. */
  lemma DemandNeverWraps(h: seq<nat>, maxHz: nat)
    requires AreLoads(h) && maxHz <= 2_800_000_000
    ensures NextFreq(maxHz, CpuUtil(h)) == maxHz / UTIL_MAX * CpuUtil(h) * 3 / 2
    ensures NextFreq(maxHz, GpuUtil(h)) == maxHz / UTIL_MAX * GpuUtil(h) * 3 / 2
  {
    hide CpuUtil, GpuUtil, NextFreq;
    UtilBounds(h);
    NextIsExact(maxHz, CpuUtil(h), CpuUtil(h));
    NextIsExact(maxHz, GpuUtil(h), GpuUtil(h));
  }

  lemma AccOfMore(decay: nat, h: seq<nat>, util: nat)
    ensures Acc(decay, h + [util]) == Step(decay, Acc(decay, h), util)
  {
    assert (h + [util])[..|h|] == h;
  }

  // ----- the governors -------------------------------------------------------------------------

  class PeltUtil {
    var utilAcc: nat
    ghost var samples: seq<nat>

    ghost predicate Valid()
      reads this
    {
      utilAcc == Acc(CPU_DECAY, samples)
    }

    constructor ()
      ensures Valid() && samples == []
    {
      utilAcc, samples := 0, [];
    }

    method Get() returns (r: nat)
      requires Valid()
      ensures r == CpuUtil(samples)
    {
      r := utilAcc * UTIL_MAX % U32 / CPU_UTIL_ACC_MAX;
    }

    method Update(util: nat)
      requires Valid()
      modifies this
      ensures Valid() && samples == old(samples) + [util]
    {
      utilAcc := (utilAcc * CPU_DECAY % U32 / DECAY_DIVISOR + util) % U32;
      samples := samples + [util];
    }
  }

  class MaxWindow {
    const window: SWindowMax
    var utilAcc: nat

    ghost predicate Valid()
      reads this, window, window.enqStack, window.deqStack, window.enqStack.stack, window.deqStack.stack
    {
      window.Valid() && window.w == GPU_WINDOW && utilAcc == Acc(GPU_DECAY, window.samples)
    }

    constructor ()
      ensures Valid() && window.samples == [] && fresh(window)
      ensures fresh(window.enqStack) && fresh(window.deqStack) && fresh(window.enqStack.stack)
                && fresh(window.deqStack.stack)
    {
      window := new SWindowMax(GPU_WINDOW);
      utilAcc := 0;
    }

    method Get() returns (r: nat)
      requires Valid()
      ensures r == GpuUtil(window.samples)
    {
      hide SWindowMax.Valid, WindowMax;
      var max := window.Get();
      r := (utilAcc * UTIL_MAX % U32 / GPU_UTIL_ACC_MAX + max) % U32 / 2;
    }

    method Update(util: nat)
      requires Valid()
      modifies this, window, window.enqStack, window.deqStack, window.enqStack.stack, window.deqStack.stack
      ensures Valid() && window.samples == old(window.samples) + [util]
    {
      hide SWindowMax.Valid;
      window.Add(util);
      utilAcc := (utilAcc * GPU_DECAY % U32 / DECAY_DIVISOR + util) % U32;
    }
  }

  class BaseGovernor {
    const hzList: seq<nat>
    var minHz: nat
    var maxHz: nat
    var boostHz: nat
    var targetHz: nat
    // The frequencies the hardware was told to run at.
    var clock: seq<nat>

    constructor (hzList: seq<nat>, minHz: nat, maxHz: nat, boostHz: nat)
      ensures this.hzList == hzList && this.minHz == minHz && this.maxHz == maxHz && this.boostHz == boostHz
      ensures targetHz == 0 && clock == []
    {
      this.hzList, this.minHz, this.maxHz, this.boostHz := hzList, minHz, maxHz, boostHz;
      targetHz, clock := 0, [];
    }

    method ApplyTargetFreq(hz: nat)
      modifies this`targetHz, this`clock
      ensures hz == 0 ==> targetHz == old(targetHz) && clock == old(clock)
      ensures hz != 0 ==> targetHz == hz && clock == old(clock) + [hz]
    {
      if hz == 0 { return; }
      targetHz := hz;
      clock := clock + [hz];
    }

    function CalcNormalizedUtil(rawUtil: nat): nat
      requires maxHz != 0
      reads this
    {
      Normalized(rawUtil, targetHz, maxHz)
    }

    // RefreshContext: what the clock runs at is the target.
    method RefreshContext(hz: nat)
      modifies this`targetHz
      ensures targetHz == hz
    {
      targetHz := hz;
    }

    /** The hardware is told of a new choice only. */
    method ApplyNewFreqFromNormUtil(normUtil: nat)
      requires IsTable(hzList) && hzList[0] != 0
      modifies this`targetHz, this`clock
      ensures var hz := Choice(hzList, minHz, maxHz, normUtil);
              && targetHz == (if hz == 0 then old(targetHz) else hz)
              && clock == if hz == 0 || hz == old(targetHz) then old(clock) else old(clock) + [hz]
    {
      hide IsTable, Last, Nearest;
      var nextFreq := maxHz / UTIL_MAX * normUtil % U32;
      nextFreq := (nextFreq + nextFreq / 2) % U32;
      var newHz;
      if nextFreq >= maxHz {
        newHz := maxHz;
      } else if nextFreq <= minHz {
        newHz := minHz;
      } else {
        newHz := FindHzInTable(hzList, nextFreq);
      }
      if newHz != targetHz { ApplyTargetFreq(newHz); }
    }
  }

  class CpuGovernor {
    const base: BaseGovernor
    const util: PeltUtil
    // What each core's worker last measured; the last core is the system's.
    var coreUtil: seq<nat>
    var autoBoost: bool

    ghost predicate Valid()
      reads this, base, util
    {
      util.Valid() && |coreUtil| == CORES && GovOk(Kind()) && base.maxHz != 0
    }

    ghost function Kind(): Gov
      reads this, base
    {
      Gov(Cpu, base.hzList, base.boostHz)
    }

    ghost function State(): Loop
      requires base.maxHz != 0
      reads this, base, util
    {
      Loop(base.minHz, base.maxHz, base.targetHz, coreUtil, util.samples)
    }

    constructor (hzList: seq<nat>, minHz: nat, maxHz: nat, boostHz: nat)
      requires IsTable(hzList) && hzList[0] != 0 && maxHz != 0
      ensures Valid() && State() == Loop(minHz, maxHz, 0, seq(CORES, _ => 0), [])
    {
      base := new BaseGovernor(hzList, minHz, maxHz, boostHz);
      util := new PeltUtil();
      coreUtil := seq(CORES, _ => 0);
      autoBoost := false;
    }

    // A core's worker measures.
    method MeasureCore(id: nat, rawUtil: nat)
      requires Valid() && id < CORES
      modifies this`coreUtil
      ensures Valid() && State() == After(Kind(), old(State()), Measure(id, rawUtil))
    {
      coreUtil := coreUtil[id := base.CalcNormalizedUtil(rawUtil)];
    }

    method ApplyBoost()
      requires Valid()
      modifies base`targetHz, base`clock
      ensures Valid() && State() == After(Kind(), old(State()), Boost)
      ensures base.targetHz == Max(base.maxHz, base.boostHz)
    {
      base.ApplyTargetFreq(if base.maxHz > base.boostHz then base.maxHz else base.boostHz);
    }

    method BusiestCore() returns (busiest: nat)
      ensures busiest == MaxOf(coreUtil)
    {
      busiest := 0;
      var i := 0;
      while i < |coreUtil|
        invariant i <= |coreUtil| && busiest == MaxOf(coreUtil[..i])
      {
        assert coreUtil[..i + 1][..i] == coreUtil[..i];
        if busiest < coreUtil[i] { busiest := coreUtil[i]; }
        i := i + 1;
      }
      assert coreUtil[..i] == coreUtil;
    }

    /** One tick: the busiest core's load is the next sample; a busy system core may boost.  The
        target meets the demand of the load reported with that sample counted in. */
    method Apply() returns (ghost load: nat)
      requires Valid()
      modifies util, base`targetHz, base`clock
      ensures Valid()
      ensures load in coreUtil && (forall k :: 0 <= k < CORES ==> coreUtil[k] <= load)
      ensures util.samples == old(util.samples) + [load]
      ensures autoBoost && coreUtil[CORES - 1] > BOOST_THRESHOLD ==> base.targetHz == Max(base.maxHz, base.boostHz)
      ensures !(autoBoost && coreUtil[CORES - 1] > BOOST_THRESHOLD) && IsEntry(base.hzList, base.maxHz) ==>
                base.targetHz >= Min(base.maxHz, NextFreq(base.maxHz, CpuUtil(old(util.samples) + [load])))
      ensures var boosts := autoBoost && coreUtil[CORES - 1] > BOOST_THRESHOLD;
              State() == After(Kind(), old(State()), if boosts then ChooseBoost else Choose)
    {
      hide MaxOf, Choice, CpuUtil, IsTable, NextFreq, IsEntry;
      var busiest := BusiestCore();
      load := busiest;
      MaxOfIsMax(coreUtil);
      util.Update(busiest);
      if autoBoost && coreUtil[CORES - 1] > BOOST_THRESHOLD {
        base.ApplyTargetFreq(if base.maxHz > base.boostHz then base.maxHz else base.boostHz);
      } else {
        var norm := util.Get();
        base.ApplyNewFreqFromNormUtil(norm);
        if IsEntry(base.hzList, base.maxHz) { ChoiceMeetsDemand(base.hzList, base.minHz, base.maxHz, norm); }
      }
    }
  }

  class GpuGovernor {
    const base: BaseGovernor
    const util: MaxWindow

    ghost predicate Valid()
      reads this, base, util, util.window, util.window.enqStack, util.window.deqStack,
            util.window.enqStack.stack, util.window.deqStack.stack
    {
      util.Valid() && GovOk(Kind()) && base.maxHz != 0
    }

    ghost function Kind(): Gov
      reads this, base
    {
      Gov(Gpu, base.hzList, base.boostHz)
    }

    // The GPU's load is measured where it is used; what was measured last is the last sample.
    ghost function State(): Loop
      requires base.maxHz != 0
      reads this, base, util, util.window
    {
      var h := util.window.samples;
      Loop(base.minHz, base.maxHz, base.targetHz, [if h == [] then 0 else h[|h| - 1]], h)
    }

    constructor (hzList: seq<nat>, maxHz: nat, boostHz: nat)
      requires IsTable(hzList) && hzList[0] != 0 && maxHz != 0
      ensures Valid() && State() == Loop(153_600_000, maxHz, 0, [0], [])
    {
      base := new BaseGovernor(hzList, 153_600_000, maxHz, boostHz);
      util := new MaxWindow();
    }

    method ApplyBoost()
      requires Valid()
      modifies base`targetHz, base`clock
      ensures Valid() && State() == After(Kind(), old(State()), Boost)
      ensures base.boostHz > 0 ==> base.targetHz == base.boostHz
    {
      base.ApplyTargetFreq(base.boostHz);
    }

    /** One tick with the load the hardware reports.  The target meets the demand of the load reported
        with this one counted in. */
    method Apply(rawUtil: nat)
      requires Valid()
      modifies util, util.window, util.window.enqStack, util.window.deqStack
      modifies util.window.enqStack.stack, util.window.deqStack.stack, base`targetHz, base`clock
      ensures Valid() && State() == After(Kind(), After(Kind(), old(State()), Measure(0, rawUtil)), Choose)
      ensures util.window.samples == old(util.window.samples) + [rawUtil * old(base.targetHz) / base.maxHz % U32]
      ensures IsEntry(base.hzList, base.maxHz) ==>
                base.targetHz >= Min(base.maxHz, NextFreq(base.maxHz,
                    GpuUtil(old(util.window.samples) + [rawUtil * old(base.targetHz) / base.maxHz % U32])))
    {
      hide MaxWindow.Valid, Choice, GpuUtil, IsTable, MaxOf, NextFreq, IsEntry;
      var load := base.CalcNormalizedUtil(rawUtil);
      MaxOfOne(load);
      ghost var measured := After(Kind(), State(), Measure(0, rawUtil));
      assert measured.cores == [load];
      util.Update(load);
      var norm := util.Get();
      base.ApplyNewFreqFromNormUtil(norm);
      if IsEntry(base.hzList, base.maxHz) { ChoiceMeetsDemand(base.hzList, base.minHz, base.maxHz, norm); }
      assert State().samples == measured.samples + [load];
      assert State().cores == measured.cores;
    }

    // SetMaxHz for the GPU; stockHz is what the current performance configuration says.
    method SetMaxHz(hz: nat, stockHz: nat)
      requires Valid() && (hz != 0 || stockHz != 0)
      modifies base`maxHz, base`minHz
      ensures var max := if hz == 0 then stockHz else hz;
              Valid() && State() == After(Kind(), old(State()),
                  Limit(if max <= 153_600_000 then max else 153_600_000, max))
    {
      base.maxHz := if hz == 0 then stockHz else hz;
      base.minHz := if base.maxHz <= 153_600_000 then base.maxHz else 153_600_000;
    }
  }

  lemma MaxOfOne(a: nat)
    ensures MaxOf([a]) == a
  {
    assert [a][..0] == [];
    assert MaxOf([a]) == Max(MaxOf([a][..|[a]| - 1]), a);
  }

  // ----- whole runs: loads are measured against the target they lead to -----------------------------

  // The 64-bit quotient, cut to 32 bits.
  function Normalized(rawUtil: nat, target: nat, maxHz: nat): nat
    requires maxHz != 0
  {
    rawUtil * target / maxHz % U32
  }

  datatype Kind = Cpu | Gpu

  datatype Gov = Gov(kind: Kind, hzList: seq<nat>, boostHz: nat)

  predicate GovOk(g: Gov) {
    IsTable(g.hzList) && g.hzList[0] != 0
  }

  // The clamps, the target, the loads last measured and all the samples.
  datatype Loop = Loop(minHz: nat, maxHz: Ceiling, target: nat, cores: seq<nat>, samples: seq<nat>)

  // A ceiling: loads are divided by it.
  type Ceiling = hz: nat | hz > 0 witness 1

  // A core is measured; a tick; a tick that boosts; a boost; the target is read back from the
  // clock; the clamps are set.
  datatype Event =
    | Measure(core: nat, raw: nat)
    | Choose
    | ChooseBoost
    | Boost
    | Refresh(hz: nat)
    | Limit(minHz: nat, maxHz: Ceiling)

  function UtilOf(kind: Kind, h: seq<nat>): nat {
    match kind case Cpu => CpuUtil(h) case Gpu => GpuUtil(h)
  }

  function BoostTo(g: Gov, maxHz: nat): nat {
    if g.kind == Cpu && maxHz > g.boostHz then maxHz else g.boostHz
  }

  function Target(s: Loop, hz: nat): Loop {
    s.(target := if hz == 0 then s.target else hz)
  }

  function Sampled(s: Loop): Loop {
    s.(samples := s.samples + [MaxOf(s.cores)])
  }

  function After(g: Gov, s: Loop, e: Event): Loop
    requires GovOk(g)
  {
    match e
    case Measure(core, raw) =>
      if core < |s.cores| then s.(cores := s.cores[core := Normalized(raw, s.target, s.maxHz)]) else s
    case Choose =>
      var n := Sampled(s);
      Target(n, Choice(g.hzList, s.minHz, s.maxHz, UtilOf(g.kind, n.samples)))
    case ChooseBoost => Target(Sampled(s), BoostTo(g, s.maxHz))
    case Boost => Target(s, BoostTo(g, s.maxHz))
    case Refresh(hz) => s.(target := hz)
    case Limit(minHz, maxHz) => s.(minHz := minHz, maxHz := maxHz)
  }

  // The target is within the ceiling, an entry of the table, and only loads were measured.
  ghost predicate Calm(g: Gov, s: Loop)
    requires GovOk(g)
  {
    && s.minHz <= s.maxHz && IsEntry(g.hzList, s.maxHz)
    && s.target <= s.maxHz && AreLoads(s.cores) && AreLoads(s.samples)
  }

  // The hardware reports loads; nothing but the choice takes the target above the ceiling, or the
  // ceiling below the target.
  ghost predicate Fair(g: Gov, s: Loop, e: Event)
    requires GovOk(g)
  {
    match e
    case Measure(_, raw) => raw <= UTIL_MAX
    case Choose => true
    case ChooseBoost => BoostTo(g, s.maxHz) <= s.maxHz
    case Boost => BoostTo(g, s.maxHz) <= s.maxHz
    case Refresh(hz) => hz <= s.maxHz
    case Limit(minHz, maxHz) => minHz <= maxHz && IsEntry(g.hzList, maxHz) && s.target <= maxHz
  }

  ghost predicate FairRun(g: Gov, s: Loop, events: seq<Event>)
    requires GovOk(g)
    decreases |events|
  {
    events == [] || (Fair(g, s, events[0]) && FairRun(g, After(g, s, events[0]), events[1..]))
  }

  function Run(g: Gov, s: Loop, events: seq<Event>): Loop
    requires GovOk(g)
    decreases |events|
  {
    if events == [] then s else Run(g, After(g, s, events[0]), events[1..])
  }

  lemma ShareIsSmaller(p: nat, raw: nat, max: nat)
    requires max > 0 && p <= raw * max && raw <= UTIL_MAX
    ensures p / max % U32 <= raw
  {
    if p / max > raw {
      ProductGrows(raw + 1, p / max, max);
      assert false;
    }
  }

  /** With the target within the ceiling a governor never sees more load than the hardware
      reports. */
  lemma NormalizedIsLoad(raw: nat, target: nat, maxHz: nat)
    requires maxHz != 0 && target <= maxHz && raw <= UTIL_MAX
    ensures Normalized(raw, target, maxHz) <= raw
  {
    ProductGrows(target, maxHz, raw);
    ShareIsSmaller(raw * target, raw, maxHz);
  }

  /** The load counted is the share of the ceiling that the measured share of the target is, rounded
      down. */
  lemma NormalizedIsShare(raw: nat, target: nat, maxHz: nat)
    requires 0 < maxHz && raw * target < U32
    ensures var n := Normalized(raw, target, maxHz); n * maxHz <= raw * target < (n + 1) * maxHz
  {
    var p := raw * target;
    QuotientTimes(p, maxHz);
    QuotientRest(p, maxHz);
    if p / maxHz > p { ProductGrows(1, maxHz, p / maxHz); }
    SmallRest(p / maxHz);
  }

  lemma MaxOfLoads(cores: seq<nat>)
    requires AreLoads(cores)
    ensures MaxOf(cores) <= UTIL_MAX
  {
    MaxOfPart(cores, UTIL_MAX);
  }

  lemma UtilOfIsBounded(kind: Kind, h: seq<nat>)
    requires AreLoads(h)
    ensures UtilOf(kind, h) <= 1007
  {
    hide CpuUtil, GpuUtil;
    UtilBounds(h);
  }

  lemma StepStaysCalm(g: Gov, s: Loop, e: Event)
    requires GovOk(g) && Ascending(g.hzList) && Calm(g, s) && Fair(g, s, e)
    ensures Calm(g, After(g, s, e))
    ensures e == Choose ==> s.minHz <= After(g, s, e).target
  {
    hide MaxOf, Choice, UtilOf, Normalized, IsTable;
    MaxOfLoads(s.cores);
    match e
    case Measure(core, raw) => NormalizedIsLoad(raw, s.target, s.maxHz);
    case Choose => ChoiceInRange(g.hzList, s.minHz, s.maxHz, UtilOf(g.kind, Sampled(s).samples));
    case _ =>
  }

  lemma {:induction false} RunStaysCalm(g: Gov, s: Loop, events: seq<Event>)
    requires GovOk(g) && Ascending(g.hzList) && Calm(g, s) && FairRun(g, s, events)
    ensures Calm(g, Run(g, s, events))
    decreases |events|
  {
    hide Calm, Fair, After, IsTable;
    if events != [] {
      StepStaysCalm(g, s, events[0]);
      RunStaysCalm(g, After(g, s, events[0]), events[1..]);
    }
  }

  /** Over any run in which the hardware reports loads and nothing but the governor's choice takes
      the target above its ceiling: every sample is a load, the target stays within the ceiling, a
      tick takes it between the clamps, and up to 2.8 GHz the demand is what it would be with
      unbounded numbers. */
  lemma TargetStaysInRange(g: Gov, s: Loop, events: seq<Event>)
    requires GovOk(g) && Ascending(g.hzList) && Calm(g, s) && FairRun(g, s, events)
    ensures var r := Run(g, s, events);
            && AreLoads(r.samples) && AreLoads(r.cores) && r.target <= r.maxHz
            && r.minHz <= After(g, r, Choose).target <= r.maxHz
            && (r.maxHz <= 2_800_000_000 ==>
                  var util := UtilOf(g.kind, r.samples);
                  NextFreq(r.maxHz, util) == r.maxHz / UTIL_MAX * util * 3 / 2)
  {
    hide After, FairRun, IsTable, NextFreq, UtilOf;
    RunStaysCalm(g, s, events);
    var r := Run(g, s, events);
    StepStaysCalm(g, r, Choose);
    AfterChoose(g, r);
    UtilOfIsBounded(g.kind, r.samples);
    if r.maxHz <= 2_800_000_000 {
      NextIsExact(r.maxHz, UtilOf(g.kind, r.samples), UtilOf(g.kind, r.samples));
    }
  }

  lemma AfterChoose(g: Gov, s: Loop)
    requires GovOk(g)
    ensures After(g, s, Choose).maxHz == s.maxHz && After(g, s, Choose).minHz == s.minHz
  {
  }

  lemma QuotientAtMost(p: nat, d: nat, q: nat)
    requires d > 0 && p < (q + 1) * d
    ensures p / d <= q
  {
    if p / d > q { ProductGrows(q + 1, p / d, d); assert false; }
  }

  lemma QuotientAtLeast(p: nat, d: nat, q: nat)
    requires d > 0 && q * d <= p
    ensures q <= p / d
  {
    if p / d < q { ProductGrows(p / d + 1, q, d); QuotientRest(p, d); }
  }

  lemma QuotientRest(p: nat, d: nat)
    requires d > 0
    ensures p < (p / d + 1) * d
  {
  }

  lemma SmallRest(q: nat)
    requires q < U32
    ensures q % U32 == q
  {
  }

  lemma MeasuredAtMost(raw: nat, target: nat, maxHz: nat)
    requires 0 < maxHz && raw <= UTIL_MAX && 1000 * target < 1001 * maxHz
    ensures Normalized(raw, target, maxHz) <= UTIL_MAX
  {
    ProductGrows(raw, UTIL_MAX, target);
    QuotientAtMost(raw * target, maxHz, UTIL_MAX);
    SmallRest(raw * target / maxHz);
  }

  // Full load is measured too high when the target is not far above the ceiling,
  lemma FullLoadExceeds(target: nat, maxHz: nat)
    requires 0 < maxHz && 1001 * maxHz <= 1000 * target && target < 1001 * maxHz
    ensures Normalized(UTIL_MAX, target, maxHz) > UTIL_MAX
  {
    QuotientAtLeast(UTIL_MAX * target, maxHz, 1001);
    QuotientAtMost(UTIL_MAX * target, maxHz, 1000 * 1001);
    SmallRest(UTIL_MAX * target / maxHz);
  }

  // and the least load when it is.
  lemma LeastLoadExceeds(target: nat, maxHz: nat)
    requires 0 < maxHz && target < U32 && 1001 * maxHz <= target
    ensures Normalized(1, target, maxHz) > UTIL_MAX
  {
    QuotientAtLeast(target, maxHz, 1001);
    ProductGrows(1, maxHz, target + 1);
    QuotientAtMost(target, maxHz, target);
    SmallRest(target / maxHz);
  }

  /** Only loads of at most 1000 can be measured if and only if the target is below the ceiling and
      a thousandth of that. */
  lemma OnlyLoadsIff(target: nat, maxHz: nat)
    requires 0 < maxHz && target < U32
    ensures (forall raw: nat :: raw <= UTIL_MAX ==> Normalized(raw, target, maxHz) <= UTIL_MAX)
       <==> 1000 * target < 1001 * maxHz
  {
    hide Normalized;
    if 1000 * target < 1001 * maxHz {
      forall raw: nat | raw <= UTIL_MAX ensures Normalized(raw, target, maxHz) <= UTIL_MAX {
        MeasuredAtMost(raw, target, maxHz);
      }
    } else if target < 1001 * maxHz {
      FullLoadExceeds(target, maxHz);
    } else {
      LeastLoadExceeds(target, maxHz);
    }
  }

  // ----- runs with boosts above the ceiling --------------------------------------------------------

  const LOAD_LIMIT: nat := 28_000

  // The most that is measured with targets up to `top`.
  function LoadBound(top: nat, maxHz: nat): nat
    requires maxHz != 0
  {
    UTIL_MAX * top / maxHz
  }

  predicate AreWithin(h: seq<nat>, load: nat) {
    forall k :: 0 <= k < |h| ==> h[k] <= load
  }

  // Where an accumulator stays for samples of at most `load`: 8192 / (8192 - decay) times that.
  predicate AccWithin(decay: nat, acc: nat, load: nat)
    requires decay < DECAY_DIVISOR
  {
    acc * (DECAY_DIVISOR - decay) <= DECAY_DIVISOR * load
  }

  lemma StepWithin(decay: nat, acc: nat, util: nat, load: nat)
    requires decay == CPU_DECAY || decay == GPU_DECAY
    requires AccWithin(decay, acc, load) && util <= load <= LOAD_LIMIT
    ensures AccWithin(decay, Step(decay, acc, util), load)
    ensures acc * decay < U32 && Step(decay, acc, util) == acc * decay / DECAY_DIVISOR + util
  {
    if decay == CPU_DECAY { CpuStepWithin(acc, util, load); } else { GpuStepWithin(acc, util, load); }
  }

  lemma CpuStepWithin(acc: nat, util: nat, load: nat)
    requires acc * 4063 <= 8192 * load && util <= load <= LOAD_LIMIT
    ensures acc * 4129 < U32 && Step(4129, acc, util) == acc * 4129 / 8192 + util
    ensures Step(4129, acc, util) * 4063 <= 8192 * load
  {
  }

  lemma GpuStepWithin(acc: nat, util: nat, load: nat)
    requires acc * 1312 <= 8192 * load && util <= load <= LOAD_LIMIT
    ensures acc * 6880 < U32 && Step(6880, acc, util) == acc * 6880 / 8192 + util
    ensures Step(6880, acc, util) * 1312 <= 8192 * load
  {
  }

  lemma {:induction false} AccStaysWithin(decay: nat, h: seq<nat>, load: nat)
    requires decay == CPU_DECAY || decay == GPU_DECAY
    requires AreWithin(h, load) && load <= LOAD_LIMIT
    ensures AccWithin(decay, Acc(decay, h), load)
  {
    hide Step, AccWithin;
    if h == [] {
      NothingWithin(decay, load);
    } else {
      var n := |h| - 1;
      AccStaysWithin(decay, h[..n], load);
      StepWithin(decay, Acc(decay, h[..n]), h[n], load);
    }
  }

  lemma NothingWithin(decay: nat, load: nat)
    requires decay < DECAY_DIVISOR
    ensures AccWithin(decay, 0, load)
  {
  }

  // The loads reported exceed those measured by less than one in a hundred.
  lemma UtilWithin(kind: Kind, h: seq<nat>, load: nat)
    requires AreWithin(h, load) && load <= LOAD_LIMIT
    ensures UtilOf(kind, h) * 1000 <= 1009 * load
  {
    hide Acc, WindowMax;
    AccStaysWithin(CPU_DECAY, h, load);
    AccStaysWithin(GPU_DECAY, h, load);
    WindowIsBounded(GPU_WINDOW, h, load);
    match kind
    case Cpu => CpuScaledWithin(Acc(CPU_DECAY, h), load);
    case Gpu => GpuScaledWithin(Acc(GPU_DECAY, h), WindowMax(GPU_WINDOW, h), load);
  }

  lemma CpuScaledWithin(acc: nat, load: nat)
    requires acc * 4063 <= 8192 * load && load <= LOAD_LIMIT
    ensures acc * UTIL_MAX < U32 && Scaled(acc, CPU_UTIL_ACC_MAX) * 1000 <= 1009 * load
  {
  }

  lemma GpuScaledWithin(acc: nat, max: nat, load: nat)
    requires acc * 1312 <= 8192 * load && max <= load <= LOAD_LIMIT
    ensures acc * UTIL_MAX < U32 && (Scaled(acc, GPU_UTIL_ACC_MAX) + max) % U32 / 2 * 1000 <= 1009 * load
  {
  }

  lemma DemandWithin(util: nat, top: nat, maxHz: nat)
    requires 100_000_000 <= maxHz <= top <= 2_800_000_000 && util * 1000 <= 1009 * LoadBound(top, maxHz)
    ensures NextFreq(maxHz, util) == maxHz / UTIL_MAX * util * 3 / 2 < U32
  {
    var m, load := maxHz / UTIL_MAX, LoadBound(top, maxHz);
    ProductGrows(m * 1000, maxHz, load);
    QuotientTimes(UTIL_MAX * top, maxHz);
    assert m * load <= top;
    ProductGrows(util * 1000, 1009 * load, m);
    assert m * util * 1000 <= 1009 * top by {
      assert (util * 1000) * m == m * util * 1000;
      assert (1009 * load) * m == 1009 * (m * load);
    }
    DemandOfProduct(m * util, top);
  }

  lemma QuotientTimes(p: nat, d: nat)
    requires d > 0
    ensures p / d * d <= p
  {
  }

  lemma DemandOfProduct(p: nat, top: nat)
    requires p * 1000 <= 1009 * top && top <= 2_800_000_000
    ensures p % U32 == p && (p + p / 2) % U32 == p * 3 / 2 < U32
  {
  }

  lemma LoadBoundWithin(top: nat, maxHz: nat)
    requires 100_000_000 <= maxHz <= top <= 2_800_000_000
    ensures UTIL_MAX <= LoadBound(top, maxHz) <= LOAD_LIMIT
  {
    QuotientAtLeast(UTIL_MAX * top, maxHz, UTIL_MAX);
    ProductGrows(100_000_000, maxHz, LOAD_LIMIT + 1);
    QuotientAtMost(UTIL_MAX * top, maxHz, LOAD_LIMIT);
  }

  lemma MeasuredWithin(raw: nat, target: nat, top: nat, maxHz: nat)
    requires raw <= UTIL_MAX && target <= top && 100_000_000 <= maxHz <= top <= 2_800_000_000
    ensures Normalized(raw, target, maxHz) <= LoadBound(top, maxHz)
  {
    LoadBoundWithin(top, maxHz);
    ProductGrows(raw, UTIL_MAX, target);
    ShareWithin(raw * target, UTIL_MAX * top, maxHz);
  }

  lemma ShareWithin(p: nat, q: nat, d: nat)
    requires d > 0 && p <= q && q / d <= LOAD_LIMIT
    ensures p / d % U32 <= q / d
  {
    QuotientGrows(p, q, d);
    SmallRest(p / d);
  }

  lemma QuotientGrows(p: nat, q: nat, d: nat)
    requires d > 0 && p <= q
    ensures p / d <= q / d
  {
    QuotientTimes(p, d);
    QuotientAtLeast(q, d, p / d);
  }

  // Targets up to `top`, and loads measured with them.
  ghost predicate Boosted(g: Gov, s: Loop, top: nat)
    requires GovOk(g)
  {
    && 100_000_000 <= s.maxHz <= top <= 2_800_000_000
    && s.minHz <= s.maxHz && IsEntry(g.hzList, s.maxHz) && s.target <= top
    && AreWithin(s.cores, LoadBound(top, s.maxHz)) && AreWithin(s.samples, LoadBound(top, s.maxHz))
  }

  // The ceiling stays, and nothing takes the target above `top`.
  predicate Below(g: Gov, s: Loop, top: nat, e: Event) {
    match e
    case Measure(_, raw) => raw <= UTIL_MAX
    case Choose => true
    case ChooseBoost => BoostTo(g, s.maxHz) <= top
    case Boost => BoostTo(g, s.maxHz) <= top
    case Refresh(hz) => hz <= top
    case Limit(minHz, maxHz) => minHz <= maxHz == s.maxHz
  }

  lemma StepStaysBoosted(g: Gov, s: Loop, top: nat, e: Event)
    requires GovOk(g) && Ascending(g.hzList) && Boosted(g, s, top) && Below(g, s, top, e)
    ensures Boosted(g, After(g, s, e), top) && After(g, s, e).maxHz == s.maxHz
    ensures e == Choose ==> s.minHz <= After(g, s, e).target <= top
  {
    hide MaxOf, Choice, UtilOf, Normalized, IsTable, LoadBound;
    MaxOfPart(s.cores, LoadBound(top, s.maxHz));
    match e
    case Measure(core, raw) => MeasuredWithin(raw, s.target, top, s.maxHz);
    case Choose => ChoiceInRange(g.hzList, s.minHz, s.maxHz, UtilOf(g.kind, Sampled(s).samples));
    case _ =>
  }

  ghost predicate BelowRun(g: Gov, s: Loop, top: nat, events: seq<Event>)
    requires GovOk(g)
    decreases |events|
  {
    events == [] || (Below(g, s, top, events[0]) && BelowRun(g, After(g, s, events[0]), top, events[1..]))
  }

  lemma {:induction false} RunStaysBoosted(g: Gov, s: Loop, top: nat, events: seq<Event>)
    requires GovOk(g) && Ascending(g.hzList) && Boosted(g, s, top) && BelowRun(g, s, top, events)
    ensures Boosted(g, Run(g, s, events), top) && Run(g, s, events).maxHz == s.maxHz
    decreases |events|
  {
    hide Boosted, Below, After, IsTable;
    if events != [] {
      StepStaysBoosted(g, s, top, events[0]);
      RunStaysBoosted(g, After(g, s, events[0]), top, events[1..]);
    }
  }

  /** Over any run under one ceiling of at least 100 MHz, with boosts and clocks read back of up to
      2.8 GHz: all samples are at most 1000 * top / ceiling, neither the accumulators nor the demand
      wrap around, and the next choice is between the clamps again; with a floor of 0 that can be 0,
      which is no choice. */
  lemma BoostsAreSurvived(g: Gov, s: Loop, top: nat, events: seq<Event>)
    requires GovOk(g) && Ascending(g.hzList) && Boosted(g, s, top) && BelowRun(g, s, top, events)
    ensures var r := Run(g, s, events);
            var n := Sampled(r).samples;
            && AreWithin(n, LoadBound(top, s.maxHz))
            && NextFreq(s.maxHz, UtilOf(g.kind, n)) == s.maxHz / UTIL_MAX * UtilOf(g.kind, n) * 3 / 2
            && (r.minHz > 0 ==> r.minHz <= After(g, r, Choose).target <= s.maxHz == r.maxHz)
            && (forall decay :: decay == CPU_DECAY || decay == GPU_DECAY ==>
                  Acc(decay, n) == Acc(decay, r.samples) * decay / DECAY_DIVISOR + MaxOf(r.cores))
  {
    hide After, BelowRun, IsTable, NextFreq, UtilOf, Acc, LoadBound, MaxOf, Choice;
    RunStaysBoosted(g, s, top, events);
    var r := Run(g, s, events);
    LoadBoundWithin(top, s.maxHz);
    MaxOfPart(r.cores, LoadBound(top, s.maxHz));
    if r.minHz > 0 { ChooseFromBoosted(g, r, top); }
    UtilWithin(g.kind, Sampled(r).samples, LoadBound(top, s.maxHz));
    DemandWithin(UtilOf(g.kind, Sampled(r).samples), top, s.maxHz);
    SampleIsExact(CPU_DECAY, r, LoadBound(top, s.maxHz));
    SampleIsExact(GPU_DECAY, r, LoadBound(top, s.maxHz));
  }

  lemma ChooseFromBoosted(g: Gov, s: Loop, top: nat)
    requires GovOk(g) && Ascending(g.hzList) && Boosted(g, s, top)
    requires s.minHz > 0
    ensures s.minHz <= After(g, s, Choose).target <= s.maxHz
  {
    hide MaxOf, Choice, UtilOf, IsTable, LoadBound;
    ChoiceInRange(g.hzList, s.minHz, s.maxHz, UtilOf(g.kind, Sampled(s).samples));
  }

  lemma SampleIsExact(decay: nat, s: Loop, load: nat)
    requires decay == CPU_DECAY || decay == GPU_DECAY
    requires AreWithin(s.samples, load) && MaxOf(s.cores) <= load <= LOAD_LIMIT
    ensures Acc(decay, Sampled(s).samples) == Acc(decay, s.samples) * decay / DECAY_DIVISOR + MaxOf(s.cores)
  {
    hide Acc, Step, MaxOf, AccWithin;
    AccStaysWithin(decay, s.samples, load);
    StepWithin(decay, Acc(decay, s.samples), MaxOf(s.cores), load);
    AccOfMore(decay, s.samples, MaxOf(s.cores));
  }

  /** That the ceiling stays is needed: at 2.8 GHz under a ceiling of 100 MHz full load measures
      28000, and with one such sample the demand under a ceiling of 1.963 GHz wraps around. */
  lemma RaisedCeilingWraps()
    ensures Normalized(UTIL_MAX, 2_800_000_000, 100_000_000) == 28_000 && CpuUtil([28_000]) == 13_916
    ensures NextFreq(1_963_000_000, 13_916) != 1_963_000_000 / UTIL_MAX * 13_916 * 3 / 2
  {
    assert [28_000][..0] == [];
    assert Acc(CPU_DECAY, []) == 0;
    assert Acc(CPU_DECAY, [28_000]) == Step(CPU_DECAY, Acc(CPU_DECAY, [28_000][..|[28_000]| - 1]), 28_000);
  }

  /** A CPU that is boosted to 1785 MHz with a ceiling of 1020 MHz measures full load as 1750. */
  lemma BoostExceedsCeiling(g: Gov, s: Loop)
    requires GovOk(g) && g.kind == Cpu && g.boostHz == 1_785_000_000 && s.maxHz == 1_020_000_000 && s.cores != []
    ensures After(g, After(g, s, Boost), Measure(0, UTIL_MAX)).cores[0] == 1750
  {
    assert Normalized(1000, 1_785_000_000, 1_020_000_000) == 1750;
  }

  /** The ceilings that GetNearestHz gives are entries of the table. */
  lemma NearestIsEntry(t: seq<nat>, low: nat, high: nat, freq: nat)
    requires IsTable(t) && low <= high <= Last(t)
    ensures IsEntry(t, NearestHz(t, low, high, freq))
  {
    hide Last;
    assert t[Nearest(t, low, high, freq)] == NearestHz(t, low, high, freq);
  }
}
