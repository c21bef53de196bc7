/** What a tick of the governor makes of the loads: more load, in the newest sample or in any earlier
    one, never means a lower target, but for a demand of nothing, which is no choice. */
module GovernorTick {
  import opened Clocks
  import opened SlidingMax
  import opened Governor

  predicate AtMost(h: seq<nat>, g: seq<nat>) {
    |h| == |g| && forall k :: 0 <= k < |h| ==> h[k] <= g[k]
  }

  lemma MaxGrows(h: seq<nat>, g: seq<nat>)
    requires AtMost(h, g)
    ensures MaxOf(h) <= MaxOf(g)
  {
    hide MaxOf;
    MaxOfIsMax(g);
    MaxOfPart(h, MaxOf(g));
  }

  lemma EffectiveGrows(w: nat, h: seq<nat>, g: seq<nat>)
    requires AtMost(h, g) && |h| >= w
    ensures AtMost(Effective(w, h), Effective(w, g))
  {
  }

  lemma WindowMaxGrows(w: nat, h: seq<nat>, g: seq<nat>)
    requires w > 0 && AtMost(h, g)
    ensures WindowMax(w, h) <= WindowMax(w, g)
  {
    hide MaxOf, Position, Start, Effective;
    if |h| > w {
      var a, b := Effective(w, h), Effective(w, g);
      var r, start := Position(w, |h|), Start(w, |h|);
      EffectiveGrows(w, h, g);
      MaxGrows(a[start..], b[start..]);
      if r < w { MaxGrows(a[start - w..start - w + r + 1], b[start - w..start - w + r + 1]); }
    }
  }

  lemma ScaledGrows(a: nat, b: nat, accMax: nat)
    requires a <= b <= 6238 && accMax > 0
    ensures Scaled(a, accMax) <= Scaled(b, accMax)
  {
    ScaledIsExact(a, accMax);
    ScaledIsExact(b, accMax);
    QuotientGrows(a * UTIL_MAX, b * UTIL_MAX, accMax);
  }

  /** More load in any samples never lowers the load reported. */
  lemma UtilIsMonotone(kind: Kind, h: seq<nat>, g: seq<nat>)
    requires AreLoads(g) && AtMost(h, g)
    ensures UtilOf(kind, h) <= UtilOf(kind, g)
  {
    hide Acc, WindowMax, Scaled;
    AccumulatorBounds(g);
    CapsAreCaps();
    AccIsMonotone(CPU_DECAY, 2015, h, g);
    AccIsMonotone(GPU_DECAY, 6238, h, g);
    ScaledGrows(Acc(CPU_DECAY, h), Acc(CPU_DECAY, g), CPU_UTIL_ACC_MAX);
    ScaledGrows(Acc(GPU_DECAY, h), Acc(GPU_DECAY, g), GPU_UTIL_ACC_MAX);
    WindowMaxGrows(GPU_WINDOW, h, g);
    UtilIsSmall(Acc(GPU_DECAY, g));
    WindowIsBounded(GPU_WINDOW, g, UTIL_MAX);
  }

  // The loads of the tick, and those it would have with other measurements.
  function With(s: Loop, cores: seq<nat>): Loop {
    s.(cores := cores)
  }

  // What the tick would choose: 0 is no choice.
  function TickChoice(g: Gov, s: Loop): nat
    requires GovOk(g)
  {
    Choice(g.hzList, s.minHz, s.maxHz, UtilOf(g.kind, s.samples + [MaxOf(s.cores)]))
  }

  lemma TickIsChoice(g: Gov, s: Loop)
    requires GovOk(g)
    ensures After(g, s, Choose).target == if TickChoice(g, s) == 0 then s.target else TickChoice(g, s)
  {
    hide Choice, UtilOf, MaxOf;
  }

  lemma ChoiceGrows(g: Gov, s: Loop, more: seq<nat>)
    requires GovOk(g) && Ascending(g.hzList) && s.minHz <= s.maxHz <= 2_800_000_000 && IsEntry(g.hzList, s.maxHz)
    requires AreLoads(s.samples) && AreLoads(more) && AtMost(s.cores, more)
    ensures TickChoice(g, s) <= TickChoice(g, With(s, more))
  {
    hide Choice, UtilOf, MaxOf, IsTable, IsEntry;
    MaxGrows(s.cores, more);
    MaxOfLoads(more);
    var h, n := s.samples + [MaxOf(s.cores)], s.samples + [MaxOf(more)];
    UtilIsMonotone(g.kind, h, n);
    UtilOfIsBounded(g.kind, n);
    ChoiceIsMonotone(g.hzList, s.minHz, s.maxHz, UtilOf(g.kind, h), UtilOf(g.kind, n));
  }

  // What the loads of the tick ask for.
  function TickDemand(g: Gov, s: Loop): nat {
    NextFreq(s.maxHz, UtilOf(g.kind, s.samples + [MaxOf(s.cores)]))
  }

  /** Raising only the loads of this tick never lowers the target it sets, with a ceiling of up to
      2.8 GHz.  But with a floor of 0, loads that ask for nothing are no choice: the target stays. */
  lemma MoreLoadNeverLowersTick(g: Gov, s: Loop, more: seq<nat>)
    requires GovOk(g) && Ascending(g.hzList) && s.minHz <= s.maxHz <= 2_800_000_000 && IsEntry(g.hzList, s.maxHz)
    requires AreLoads(s.samples) && AreLoads(more) && AtMost(s.cores, more)
    ensures s.minHz > 0 || TickDemand(g, s) > 0 ==>
              After(g, s, Choose).target <= After(g, With(s, more), Choose).target
    ensures s.minHz == TickDemand(g, s) == 0 ==> After(g, s, Choose).target == s.target
  {
    hide After, UtilOf, MaxOf, IsTable, IsEntry, NextFreq;
    TickIsChoice(g, s);
    TickIsChoice(g, With(s, more));
    ChoiceGrows(g, s, more);
    hide Choice;
    var util := UtilOf(g.kind, s.samples + [MaxOf(s.cores)]);
    ChoiceInRange(g.hzList, s.minHz, s.maxHz, util);
    ChoiceMeetsDemand(g.hzList, s.minHz, s.maxHz, util);
    if s.minHz == TickDemand(g, s) == 0 { NoDemandNoChoice(g.hzList, s.maxHz, util); }
  }

  lemma NoDemandNoChoice(t: seq<nat>, maxHz: nat, util: nat)
    requires IsTable(t) && maxHz > 0 && NextFreq(maxHz, util) == 0
    ensures Choice(t, 0, maxHz, util) == 0
  {
  }

  // The CPU of the console, with two of its frequencies and any clocks before.
  const TWO: seq<nat> := [612_000_000, 1_224_000_000] + seq(29, _ => 0)

  lemma TwoEntries()
    ensures IsTable(TWO) && TWO[0] == 612_000_000 && TWO[1] == 1_224_000_000 && Last(TWO) == 1
  {
    assert TWO[2] == 0;
  }

  lemma FirstLoad(cores: seq<nat>, load: nat)
    requires |cores| == 4 && cores[0] == load && cores[1] == cores[2] == cores[3] == 0
    ensures MaxOf(cores) == load && CpuUtil([load]) == Scaled(load % U32, CPU_UTIL_ACC_MAX)
  {
    MaxOfIsMax(cores);
    assert [load][..0] == [];
    assert Acc(CPU_DECAY, [load]) == Step(CPU_DECAY, Acc(CPU_DECAY, [load][..|[load]| - 1]), load);
  }

  /** And some loads raise it: the first tick of a governor between 612 and 1224 MHz takes the target
      to 1224 MHz when one core is busy, and to 612 MHz when none is. */
  lemma BusyCoreRaisesTick(target: nat)
    ensures var g := Gov(Cpu, TWO, 1_224_000_000);
            var idle := Loop(612_000_000, 1_224_000_000, target, [0, 0, 0, 0], []);
            && GovOk(g)
            && After(g, idle, Choose).target == 612_000_000
            && After(g, With(idle, [1000, 0, 0, 0]), Choose).target == 1_224_000_000
  {
    hide MaxOf, Choice, CpuUtil;
    TwoEntries();
    var g := Gov(Cpu, TWO, 1_224_000_000);
    var idle := Loop(612_000_000, 1_224_000_000, target, [0, 0, 0, 0], []);
    FirstLoad([0, 0, 0, 0], 0);
    FirstLoad([1000, 0, 0, 0], 1000);
    assert [] + [0] == [0] && [] + [1000] == [1000];
    TwoChoices(TWO);
    TickIsChoice(g, idle);
    TickIsChoice(g, With(idle, [1000, 0, 0, 0]));
  }

  lemma TwoChoices(t: seq<nat>)
    requires IsTable(t) && t[0] == 612_000_000 && t[1] == 1_224_000_000 && Last(t) == 1
    ensures Choice(t, 612_000_000, 1_224_000_000, Scaled(0, CPU_UTIL_ACC_MAX)) == 612_000_000
    ensures Choice(t, 612_000_000, 1_224_000_000, Scaled(1000, CPU_UTIL_ACC_MAX)) == 1_224_000_000
  {
    assert Scaled(1000, CPU_UTIL_ACC_MAX) == 497;
    assert NextFreq(1_224_000_000, 497) == 912_492_000;
    assert Nearest(t, 0, 1, 912_492_000) == Nearest(t, 1, 1, 912_492_000) == 1;
  }

  /** With a floor of 0 a little load can lower the target: an idle tick keeps 1224 MHz, a load of 100
      chooses 612 MHz. */
  lemma IdleTickKeepsTarget()
    ensures var g := Gov(Cpu, TWO, 1_224_000_000);
            var idle := Loop(0, 1_224_000_000, 1_224_000_000, [0, 0, 0, 0], []);
            && GovOk(g)
            && After(g, idle, Choose).target == 1_224_000_000
            && After(g, With(idle, [100, 0, 0, 0]), Choose).target == 612_000_000
  {
    hide MaxOf, Choice, CpuUtil;
    TwoEntries();
    var g := Gov(Cpu, TWO, 1_224_000_000);
    var idle := Loop(0, 1_224_000_000, 1_224_000_000, [0, 0, 0, 0], []);
    FirstLoad([0, 0, 0, 0], 0);
    FirstLoad([100, 0, 0, 0], 100);
    assert [] + [0] == [0] && [] + [100] == [100];
    TwoLowChoices(TWO);
    TickIsChoice(g, idle);
    TickIsChoice(g, With(idle, [100, 0, 0, 0]));
  }

  lemma TwoLowChoices(t: seq<nat>)
    requires IsTable(t) && t[0] == 612_000_000 && t[1] == 1_224_000_000 && Last(t) == 1
    ensures Choice(t, 0, 1_224_000_000, Scaled(0, CPU_UTIL_ACC_MAX)) == 0
    ensures Choice(t, 0, 1_224_000_000, Scaled(100, CPU_UTIL_ACC_MAX)) == 612_000_000
  {
    assert Scaled(100, CPU_UTIL_ACC_MAX) == 49;
    assert NextFreq(1_224_000_000, 49) == 89_964_000;
    assert Nearest(t, 0, 1, 89_964_000) == 0;
  }
}
