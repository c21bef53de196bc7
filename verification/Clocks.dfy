/** Frequency tables and ranges of sys-clk: which table entries each profile may use, with and
    without the unsafe frequencies.  A pointer into a table is an index here. */
module Clocks {
  import opened Basics

  const TABLE_SIZE: nat := 31
  const PROFILES: nat := 5
  const HANDHELD: nat := 0
  const HANDHELD_CHARGING: nat := 1
  const HANDHELD_CHARGING_USB: nat := 2
  const HANDHELD_CHARGING_OFFICIAL: nat := 3
  const DOCKED: nat := 4

  // A table ends at a zero behind its first entry.
  predicate IsTable(t: seq<nat>) {
    |t| == TABLE_SIZE && exists k :: 0 < k < TABLE_SIZE && t[k] == 0
  }

  // The last entry at or behind the i-th that is not followed by the end of the table.
  function LastFrom(t: seq<nat>, i: nat): (last: nat)
    requires exists k :: i < k < |t| && t[k] == 0
    ensures i <= last < |t| - 1 && t[last + 1] == 0
    ensures forall k :: i < k <= last ==> t[k] != 0
    decreases |t| - i
  {
    if t[i + 1] == 0 then i else LastFrom(t, i + 1)
  }

  function Last(t: seq<nat>): (last: nat)
    requires IsTable(t)
    ensures last + 1 < TABLE_SIZE == |t|
  {
    LastFrom(t, 0)
  }

  // The first index from p on with an entry of at least freq; end when there is none before it.
  function Nearest(t: seq<nat>, p: nat, end: nat, freq: nat): (r: nat)
    requires p <= end < |t|
    ensures p <= r <= end
    ensures forall k :: p <= k < r ==> t[k] < freq
    ensures r < end ==> freq <= t[r]
    decreases end - p
  {
    if p >= end || freq <= t[p] then p else Nearest(t, p + 1, end, freq)
  }

  // The entries in use ascend.
  ghost predicate Ascending(t: seq<nat>)
    requires IsTable(t)
  {
    forall i, j :: 0 <= i <= j <= Last(t) ==> t[i] <= t[j]
  }

  method GetNearestHzPtr(t: seq<nat>, start: nat, end: nat, freq: nat) returns (p: nat)
    requires start <= end < |t|
    ensures p == Nearest(t, start, end, freq)
  {
    p := start;
    while p < end
      invariant start <= p <= end && Nearest(t, p, end, freq) == Nearest(t, start, end, freq)
    {
      if freq <= t[p] { return; }
      p := p + 1;
    }
    p := end;
  }

  datatype Range = Range(first: nat, last: nat, min: nat, max: seq<nat>)

  function Default(t: seq<nat>): Range
    requires IsTable(t)
  {
    Range(0, Last(t), 0, seq(PROFILES, _ => Last(t)))
  }

  // ----- the limits ------------------------------------------------------------------------

  function CpuLimit(mariko: bool, unsafe: bool, top: nat, profile: nat): nat {
    if !unsafe then if mariko then 1_963_500_000 else 1_785_000_000
    else if !mariko && profile == HANDHELD then 1_785_000_000
    else top
  }

  function GpuLimit(mariko: bool, unsafe: bool, top: nat, profile: nat): nat {
    var safe :=
      if mariko then 998_400_000
      else if profile == HANDHELD || profile == HANDHELD_CHARGING then 460_800_000
      else if profile == HANDHELD_CHARGING_USB then 768_000_000
      else 921_600_000;
    if !unsafe then safe
    else if mariko then if profile == HANDHELD then 998_400_000 else top
    else if profile == HANDHELD_CHARGING_OFFICIAL || profile == DOCKED then top
    else safe
  }

  // A range whose profiles end at the entries nearest to their limits.
  function Limited(t: seq<nat>, limits: seq<nat>): Range
    requires IsTable(t) && |limits| == PROFILES
  {
    Default(t).(max := seq(PROFILES, p requires 0 <= p < PROFILES => Nearest(t, 0, Last(t), limits[p])))
  }

  function CpuRange(t: seq<nat>, mariko: bool, unsafe: bool): Range
    requires IsTable(t)
  {
    Limited(t, seq(PROFILES, p requires 0 <= p < PROFILES => CpuLimit(mariko, unsafe, t[Last(t)], p)))
  }

  function GpuRange(t: seq<nat>, mariko: bool, unsafe: bool): Range
    requires IsTable(t)
  {
    Limited(t, seq(PROFILES, p requires 0 <= p < PROFILES => GpuLimit(mariko, unsafe, t[Last(t)], p)))
  }

  function MemRange(t: seq<nat>, mariko: bool): Range
    requires IsTable(t)
  {
    var start := if mariko then Nearest(t, 0, Last(t), 1_600_000_000) else 0;
    Default(t).(first := start, min := start)
  }

  lemma {:induction false} NearestGrows(t: seq<nat>, p: nat, end: nat, low: nat, high: nat)
    requires p <= end < |t| && low <= high
    ensures Nearest(t, p, end, low) <= Nearest(t, p, end, high)
    decreases end - p
  {
    if p < end && t[p] < low { NearestGrows(t, p + 1, end, low, high); }
  }

  lemma NearestToLast(t: seq<nat>)
    requires IsTable(t) && Ascending(t)
    ensures t[Nearest(t, 0, Last(t), t[Last(t)])] == t[Last(t)]
  {
  }

  /** With ascending tables, allowing the unsafe frequencies lowers no profile's highest one. */
  lemma UnsafeNeverLowers(t: seq<nat>, mariko: bool, p: nat)
    requires IsTable(t) && Ascending(t) && p < PROFILES
    ensures t[CpuRange(t, mariko, false).max[p]] <= t[CpuRange(t, mariko, true).max[p]]
    ensures t[GpuRange(t, mariko, false).max[p]] <= t[GpuRange(t, mariko, true).max[p]]
  {
    hide Last, Nearest, IsTable;
    NearestToLast(t);
    assert forall k :: 0 <= k <= Last(t) ==> t[k] <= t[Last(t)];
  }

  // The entry is in use.
  predicate IsEntry(t: seq<nat>, hz: nat)
    requires IsTable(t)
  {
    exists k :: 0 <= k <= Last(t) && t[k] == hz
  }

  lemma LimitIsReached(t: seq<nat>, hz: nat)
    requires IsTable(t) && Ascending(t) && IsEntry(t, hz)
    ensures t[Nearest(t, 0, Last(t), hz)] == hz
  {
    hide Last;
  }

  function CpuTop(t: seq<nat>, mariko: bool, unsafe: bool, p: nat): nat
    requires IsTable(t) && p < PROFILES
  {
    t[CpuRange(t, mariko, unsafe).max[p]]
  }

  function GpuTop(t: seq<nat>, mariko: bool, unsafe: bool, p: nat): nat
    requires IsTable(t) && p < PROFILES
  {
    t[GpuRange(t, mariko, unsafe).max[p]]
  }

  /** With tables that have the caps as entries, the highest frequencies on Erista hardware are the
      README's, but for the unsafe CPU clock on USB: that is not capped. */
  lemma EristaCaps(cpu: seq<nat>, gpu: seq<nat>)
    requires IsTable(cpu) && IsTable(gpu) && Ascending(cpu) && Ascending(gpu)
    requires IsEntry(cpu, 1_785_000_000)
    requires IsEntry(gpu, 460_800_000) && IsEntry(gpu, 768_000_000) && IsEntry(gpu, 921_600_000)
    ensures forall p :: 0 <= p < PROFILES ==> CpuTop(cpu, false, false, p) == 1_785_000_000
    ensures GpuTop(gpu, false, false, HANDHELD) == 460_800_000
    ensures GpuTop(gpu, false, false, HANDHELD_CHARGING_USB) == 768_000_000
    ensures GpuTop(gpu, false, false, HANDHELD_CHARGING_OFFICIAL) == GpuTop(gpu, false, false, DOCKED) == 921_600_000
    ensures CpuTop(cpu, false, true, HANDHELD) == 1_785_000_000
    ensures forall p :: HANDHELD < p < PROFILES ==> CpuTop(cpu, false, true, p) == cpu[Last(cpu)]
    ensures GpuTop(gpu, false, true, HANDHELD) == 460_800_000
    ensures GpuTop(gpu, false, true, HANDHELD_CHARGING_USB) == 768_000_000
    ensures GpuTop(gpu, false, true, HANDHELD_CHARGING_OFFICIAL) == GpuTop(gpu, false, true, DOCKED) == gpu[Last(gpu)]
  {
    hide IsTable, Last, Nearest, IsEntry;
    LimitIsReached(cpu, 1_785_000_000);
    LimitIsReached(gpu, 460_800_000);
    LimitIsReached(gpu, 768_000_000);
    LimitIsReached(gpu, 921_600_000);
    NearestToLast(cpu);
    NearestToLast(gpu);
  }

  /** On Mariko hardware the caps are the same for all profiles, safe ones and, but for the GPU in
      handheld mode, unsafe ones; the README's lower ones for handheld mode and USB are not kept. */
  lemma MarikoCaps(cpu: seq<nat>, gpu: seq<nat>, p: nat)
    requires IsTable(cpu) && IsTable(gpu) && Ascending(cpu) && Ascending(gpu) && p < PROFILES
    requires IsEntry(cpu, 1_963_500_000) && IsEntry(gpu, 998_400_000)
    ensures CpuTop(cpu, true, false, p) == 1_963_500_000 && GpuTop(gpu, true, false, p) == 998_400_000
    ensures CpuTop(cpu, true, true, p) == cpu[Last(cpu)]
    ensures GpuTop(gpu, true, true, p) == if p == HANDHELD then 998_400_000 else gpu[Last(gpu)]
  {
    hide IsTable, Last, Nearest, IsEntry;
    LimitIsReached(cpu, 1_963_500_000);
    LimitIsReached(gpu, 998_400_000);
    NearestToLast(cpu);
    NearestToLast(gpu);
  }

  /** Memory clocks are not capped; on Mariko hardware they start at 1600 MHz, on Erista hardware at the
      lowest entry. */
  lemma MemoryBounds(t: seq<nat>, p: nat)
    requires IsTable(t) && Ascending(t) && p < PROFILES
    ensures t[MemRange(t, true).max[p]] == t[MemRange(t, false).max[p]] == t[Last(t)]
    ensures MemRange(t, false).min == 0
    ensures IsEntry(t, 1_600_000_000) ==> t[MemRange(t, true).min] == 1_600_000_000
  {
    hide IsTable, Last, Nearest, IsEntry;
    if IsEntry(t, 1_600_000_000) { LimitIsReached(t, 1_600_000_000); }
  }

  // ----- the ranges as they are kept -----------------------------------------------------------

  class FreqRange {
    const table: seq<nat>
    var first: nat
    var last: nat
    var min: nat
    var max: seq<nat>

    function State(): Range
      reads this
    {
      Range(first, last, min, max)
    }

    constructor (table: seq<nat>)
      ensures this.table == table
    {
      this.table := table;
      first, last, min, max := 0, 0, 0, seq(PROFILES, _ => 0);
    }

    /** The range of the whole table.  A table with all its entries in use has no end of its own:
        then the search looks at the word behind it, and unless that happens to be zero the range
        ends outside the table. */
    method InitDefault(behind: nat)
      requires |table| == TABLE_SIZE
      modifies this
      ensures IsTable(table) ==> State() == Default(table)
      ensures !IsTable(table) ==>
                var end := if behind == 0 then TABLE_SIZE - 1 else TABLE_SIZE;
                State() == Range(0, end, 0, seq(PROFILES, _ => end))
    {
      first, min := 0, 0;
      var p, i := 0, 0;
      while i < TABLE_SIZE
        invariant p == i <= TABLE_SIZE
        invariant forall k :: 0 < k <= i && k < TABLE_SIZE ==> table[k] != 0
        invariant i == TABLE_SIZE ==> behind != 0
        invariant IsTable(table) ==> i < TABLE_SIZE && LastFrom(table, p) == Last(table)
      {
        p := p + 1;
        if (if p < TABLE_SIZE then table[p] else behind) == 0 {
          p := p - 1;
          break;
        }
        i := i + 1;
      }
      last := p;
      max := seq(PROFILES, _ => p);
    }

    method FindFreq(freq: nat, profile: nat) returns (p: nat)
      requires profile < |max| && min <= max[profile] < |table|
      ensures p == Nearest(table, min, max[profile], freq)
    {
      p := GetNearestHzPtr(table, min, max[profile], freq);
    }
  }

  datatype Module = CPU | GPU | MEM | Unknown

  datatype Result = Found(min: nat, max: nat) | TableError | NoSuchModule

  class Clocks {
    const cpu: FreqRange
    const gpu: FreqRange
    const mem: FreqRange
    const isMariko: bool
    var allowUnsafe: bool

    ghost predicate Sound() {
      && cpu != gpu && cpu != mem && gpu != mem
      && IsTable(cpu.table) && IsTable(gpu.table) && IsTable(mem.table)
    }

    /** The ranges depend on the tables, the hardware and the flag alone. */
    ghost predicate Valid()
      reads this, cpu, gpu, mem
    {
      && Sound()
      && cpu.State() == CpuRange(cpu.table, isMariko, allowUnsafe)
      && gpu.State() == GpuRange(gpu.table, isMariko, allowUnsafe)
      && mem.State() == MemRange(mem.table, isMariko)
    }

    constructor Initialize(cpuTable: seq<nat>, gpuTable: seq<nat>, memTable: seq<nat>, isMariko: bool)
      requires IsTable(cpuTable) && IsTable(gpuTable) && IsTable(memTable)
      ensures Valid() && cpu.table == cpuTable && gpu.table == gpuTable && mem.table == memTable
      ensures this.isMariko == isMariko && !allowUnsafe && fresh(cpu) && fresh(gpu) && fresh(mem)
    {
      this.isMariko := isMariko;
      allowUnsafe := false;
      cpu := new FreqRange(cpuTable);
      gpu := new FreqRange(gpuTable);
      mem := new FreqRange(memTable);
      new;
      UpdateFreqRange();
    }

    method UpdateFreqRange()
      requires Sound()
      modifies cpu, gpu, mem
      ensures Valid()
    {
      assert |cpu.table| == |gpu.table| == |mem.table| == TABLE_SIZE;
      hide IsTable, Last, Nearest;
      // What follows a table in memory.
      var behindCpu: nat, behindGpu: nat, behindMem: nat := *, *, *;
      mem.InitDefault(behindMem);
      if isMariko {
        var start := mem.FindFreq(1_600_000_000, DOCKED);
        mem.first, mem.min := start, start;
      }
      cpu.InitDefault(behindCpu);
      gpu.InitDefault(behindGpu);
      LimitProfiles();
    }

    // The loop over the profiles at the end of UpdateFreqRange.
    method LimitProfiles()
      requires Sound() && cpu.State() == Default(cpu.table) && gpu.State() == Default(gpu.table)
      modifies cpu`max, gpu`max
      ensures cpu.State() == CpuRange(cpu.table, isMariko, allowUnsafe)
      ensures gpu.State() == GpuRange(gpu.table, isMariko, allowUnsafe)
    {
      hide IsTable, Last, Nearest, CpuLimit, GpuLimit;
      var cpuTop, gpuTop := cpu.table[cpu.last], gpu.table[gpu.last];
      var i := 0;
      while i < PROFILES
        invariant i <= PROFILES && |cpu.max| == |gpu.max| == PROFILES
        invariant forall p :: 0 <= p < i ==> cpu.max[p] == CpuRange(cpu.table, isMariko, allowUnsafe).max[p]
        invariant forall p :: 0 <= p < i ==> gpu.max[p] == GpuRange(gpu.table, isMariko, allowUnsafe).max[p]
        invariant forall p :: i <= p < PROFILES ==> cpu.max[p] == cpu.last && gpu.max[p] == gpu.last
      {
        var c := cpu.FindFreq(CpuLimit(isMariko, allowUnsafe, cpuTop, i), i);
        cpu.max := cpu.max[i := Min(cpu.last, c)];
        var g := gpu.FindFreq(GpuLimit(isMariko, allowUnsafe, gpuTop, i), i);
        gpu.max := gpu.max[i := Min(gpu.last, g)];
        i := i + 1;
      }
    }

    method SetAllowUnsafe(allow: bool)
      requires Valid()
      modifies this`allowUnsafe, cpu, gpu, mem
      ensures Valid() && allowUnsafe == allow
    {
      if allowUnsafe != allow {
        allowUnsafe := allow;
        UpdateFreqRange();
      }
    }

    ghost function RangeOf(m: Module): FreqRange
      requires m != Unknown
    {
      match m case CPU => cpu case GPU => gpu case MEM => mem
    }

    /** With a known module there is always a range, and it is within the table. */
    method GetRange(m: Module, profile: nat) returns (r: Result)
      requires Valid() && profile < PROFILES
      ensures r.NoSuchModule? <==> m == Unknown
      ensures m != Unknown ==>
                var range := RangeOf(m);
                r == Found(range.min, range.max[profile]) && r.min <= r.max <= Last(range.table)
    {
      hide IsTable, Last, Nearest;
      var min, max;
      match m {
        case CPU => min, max := cpu.min, cpu.max[profile];
        case GPU => min, max := gpu.min, gpu.max[profile];
        case MEM => min, max := mem.min, mem.max[profile];
        case Unknown => return NoSuchModule;
      }
      // The size is compared with the table's size in bytes.
      if max < min || max - min + 1 > 4 * TABLE_SIZE { return TableError; }
      r := Found(min, max);
    }

    /** The table of a profile: its range of entries, and zeros behind them. */
    method GetTable(m: Module, profile: nat) returns (r: Result, out: seq<nat>)
      requires Valid() && profile < PROFILES
      ensures r.NoSuchModule? <==> m == Unknown
      ensures r.Found? && |out| == TABLE_SIZE <==> m != Unknown
      ensures m != Unknown ==>
                var range := RangeOf(m);
                forall k :: 0 <= k < TABLE_SIZE ==>
                  out[k] == if k <= range.max[profile] - range.min then range.table[range.min + k] else 0
    {
      hide Valid, Last, Nearest;
      out := [];
      r := GetRange(m, profile);
      if r.NoSuchModule? { return; }
      out := CopyRange(if m == CPU then cpu.table else if m == GPU then gpu.table else mem.table, r.min, r.max);
    }

    /** The lowest entry of the profile's range that is at least the frequency, or else its
        highest entry. */
    method GetNearestHz(m: Module, profile: nat, freq: nat) returns (found: bool, hz: nat)
      requires Valid() && profile < PROFILES
      ensures found <==> m != Unknown
      ensures found ==>
                var range := RangeOf(m);
                hz == NearestHz(range.table, range.min, range.max[profile], freq)
    {
      hide Valid, Last, Nearest;
      var r := GetRange(m, profile);
      if r.NoSuchModule? { return false, 0; }
      var table := if m == CPU then cpu.table else if m == GPU then gpu.table else mem.table;
      var p := GetNearestHzPtr(table, r.min, r.max, freq);
      found, hz := true, table[p];
    }
  }

  function NearestHz(t: seq<nat>, min: nat, max: nat, freq: nat): nat
    requires min <= max < |t|
  {
    t[Nearest(t, min, max, freq)]
  }

  // GetTable's copy into a cleared table.
  method CopyRange(table: seq<nat>, min: nat, max: nat) returns (out: seq<nat>)
    requires min <= max < |table| == TABLE_SIZE
    ensures |out| == TABLE_SIZE
    ensures forall k :: 0 <= k < TABLE_SIZE ==> out[k] == if k <= max - min then table[min + k] else 0
  {
    out := seq(TABLE_SIZE, _ => 0);
    var p, idx := min, 0;
    while p <= max
      invariant p == min + idx <= max + 1 && |out| == TABLE_SIZE
      invariant forall k :: 0 <= k < TABLE_SIZE ==> out[k] == if k < idx then table[min + k] else 0
    {
      out := out[idx := table[p]];
      idx, p := idx + 1, p + 1;
    }
  }

  /** Choosing the nearest frequency stays in the range, keeps what is in the table already, is
      monotone, and gives the least entry that meets the demand unless that is above the ceiling. */
  lemma NearestHzIsSound(t: seq<nat>, min: nat, max: nat, freq: nat, more: nat)
    requires IsTable(t) && Ascending(t) && min <= max <= Last(t)
    ensures t[min] <= NearestHz(t, min, max, freq) <= t[max]
    ensures freq <= t[max] ==> freq <= NearestHz(t, min, max, freq)
    ensures forall k :: min <= k <= max && freq <= t[k] ==> NearestHz(t, min, max, freq) <= t[k]
    ensures (exists k :: min <= k <= max && t[k] == freq) ==> NearestHz(t, min, max, freq) == freq
    ensures freq <= more ==> NearestHz(t, min, max, freq) <= NearestHz(t, min, max, more)
  {
    hide Last, IsTable;
    if freq <= more { NearestGrows(t, min, max, freq, more); }
  }
}
