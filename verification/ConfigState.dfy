/** What sys-clk's configuration is: clocks per title, profile and module, a governor setting
    per title, and the global values; and what one line of config.ini does to it. */
module ConfigState {
  import opened Basics
  import opened CNumbers
  import opened IniBrowse

  datatype Profile = Handheld | HandheldCharging | HandheldChargingUSB | HandheldChargingOfficial | Docked
  datatype Mod = CPU | GPU | MEM

  const PROFILES: seq<Profile> := [Handheld, HandheldCharging, HandheldChargingUSB, HandheldChargingOfficial, Docked]
  const MODULES: seq<Mod> := [CPU, GPU, MEM]

  function ProfileName(p: Profile): (s: string)
    ensures Word(s) && 0 < |s| < 27
  {
    match p
    case Docked => "docked"
    case Handheld => "handheld"
    case HandheldCharging => "handheld_charging"
    case HandheldChargingUSB => "handheld_charging_usb"
    case HandheldChargingOfficial => "handheld_charging_official"
  }

  function ModuleName(m: Mod): (s: string)
    ensures |s| == 3 && Word(s)
  {
    match m
    case CPU => "cpu"
    case GPU => "gpu"
    case MEM => "mem"
  }

  function KeyName(p: Profile, m: Mod): string {
    ProfileName(p) + "_" + ModuleName(m)
  }

  const GOVERNOR_KEY := "governor_config"
  const GOVERNOR_DEFAULT: nat := 3
  const GOVERNOR_MASK: nat := 3
  const VALUES_SECTION := "values"
  const VALUE_COUNT: nat := 10

  function ValueName(kval: nat): string
    requires kval < VALUE_COUNT
  {
    if kval == 0 then "poll_interval_ms"
    else if kval == 1 then "temp_log_interval_ms"
    else if kval == 2 then "csv_write_interval_ms"
    else if kval == 3 then "auto_cpu_boost"
    else if kval == 4 then "sync_reversenx_mode"
    else if kval == 5 then "allow_unsafe_freq"
    else if kval == 6 then "charging_current"
    else if kval == 7 then "charging_limit_perc"
    else if kval == 8 then "governor_experimental"
    else "governor_handheld_only"
  }

  function DefaultValue(kval: nat): nat {
    if kval == 0 then 500
    else if kval == 4 then 1
    else if kval == 6 then 2000
    else if kval == 7 then 100
    else 0
  }

  predicate ValidValue(kval: nat, input: nat) {
    if kval == 0 then input > 0
    else if kval == 1 || kval == 2 then true
    else if kval == 6 then 100 <= input <= 2000 && input % 100 == 0
    else if kval == 7 then 20 <= input <= 100
    else input <= 1
  }

  type Clock = (nat, Profile, Mod)

  datatype State = State(
    mhz: map<Clock, nat>, counts: map<nat, nat>, governors: map<nat, nat>, values: seq<nat>)

  function DefaultValues(): (v: seq<nat>)
    ensures |v| == VALUE_COUNT
    ensures forall k :: 0 <= k < VALUE_COUNT ==> v[k] == DefaultValue(k)
  {
    seq(VALUE_COUNT, (k: nat) => DefaultValue(k))
  }

  const EMPTY_STATE := State(map[], map[], map[], DefaultValues())

  // ----- the characters of the names --------------------------------------------------------

  // Lower-case letters and underscores.
  predicate Word(s: string) {
    forall i :: 0 <= i < |s| ==> 'a' <= s[i] <= 'z' || s[i] == '_'
  }

  lemma ValueNameIsWord(k: nat)
    requires k < VALUE_COUNT
    ensures Word(ValueName(k)) && 0 < |ValueName(k)| < 25
  {
    if k < 3 {
      assert k == 0 || k == 1 || k == 2;
    } else {
      LaterValueNameIsWord(k);
    }
  }

  lemma LaterValueNameIsWord(k: nat)
    requires 3 <= k < VALUE_COUNT
    ensures Word(ValueName(k)) && 0 < |ValueName(k)| < 25
  {
    if k < 6 {
      assert k == 3 || k == 4 || k == 5;
    } else if k < 8 {
      LateValueNameIsWord(k);
    } else {
      LastValueNameIsWord(k);
    }
  }

  lemma LateValueNameIsWord(k: nat)
    requires 6 <= k < 8
    ensures Word(ValueName(k)) && 0 < |ValueName(k)| < 25
  {
  }

  lemma LastValueNameIsWord(k: nat)
    requires 8 <= k < VALUE_COUNT
    ensures Word(ValueName(k)) && 0 < |ValueName(k)| < 25
  {
  }

  // ----- key names are all different ---------------------------------------------------------

  lemma KeyNameInjective(p: Profile, m: Mod, q: Profile, n: Mod)
    requires KeyName(p, m) == KeyName(q, n)
    ensures p == q && m == n
  {
    var a, b := KeyName(p, m), KeyName(q, n);
    assert |ProfileName(p)| == |ProfileName(q)|;
    assert a[|ProfileName(p)| + 1..] == ModuleName(m) && b[|ProfileName(q)| + 1..] == ModuleName(n);
    assert ModuleName(m)[0] == ModuleName(n)[0];
  }

  lemma ValueNameInjective(key: string, a: nat, b: nat)
    requires NamesValue(key, a) && NamesValue(key, b)
    ensures a == b
  {
    assert |ValueName(a)| == |ValueName(b)|;
    assert ValueName(a)[0] == ValueName(b)[0];
  }

  // ----- one line of the file -----------------------------------------------------------------

  ghost predicate NamesClock(key: string, p: Profile, m: Mod) {
    key == KeyName(p, m)
  }

  ghost function ParseClock(key: string): (r: Option<(Profile, Mod)>)
    ensures r.Some? <==> exists p, m :: NamesClock(key, p, m)
    ensures r.Some? ==> NamesClock(key, r.value.0, r.value.1)
  {
    if exists p, m :: NamesClock(key, p, m) then
      var p, m :| NamesClock(key, p, m);
      Some((p, m))
    else None
  }

  ghost predicate NamesValue(key: string, kval: nat) {
    kval < VALUE_COUNT && key == ValueName(kval)
  }

  ghost function ParseValueName(key: string): (r: Option<nat>)
    ensures r.Some? <==> exists k :: NamesValue(key, k)
    ensures r.Some? ==> NamesValue(key, r.value)
  {
    if exists k :: NamesValue(key, k) then
      var k :| NamesValue(key, k);
      Some(k)
    else None
  }

  function ReadGovernor(value: string): (g: nat)
    ensures g <= GOVERNOR_MASK
  {
    var input := StrToUL(value, 0);
    if input > GOVERNOR_MASK then GOVERNOR_DEFAULT else input
  }

  function ReadMhz(m: Mod, value: string, maxMem: nat): nat {
    var mhz := StrToUL(value, 10) % TWO_32;
    if m == MEM && mhz > 1600 then maxMem else mhz
  }

  // Whether the number in the value is zero, so that the line is skipped.
  predicate NoMhz(value: string) {
    StrToUL(value, 10) % TWO_32 == 0
  }

  function CountOf(st: State, tid: nat): nat {
    if tid in st.counts then st.counts[tid] else 0
  }

  // A line of the section with the values: unknown names change nothing.
  ghost function ApplyValueLine(st: State, key: string, value: string): (r: State)
    requires |st.values| == VALUE_COUNT
    ensures |r.values| == VALUE_COUNT
  {
    match ParseValueName(key)
    case None => st
    case Some(kval) =>
      var input := StrToUL(value, 0);
      st.(values := st.values[kval := if ValidValue(kval, input) then input else DefaultValue(kval)])
  }

  // A line of a title's section.
  ghost function ApplyTitleLine(st: State, tid: nat, key: string, value: string, maxMem: nat): (r: State)
    ensures r.values == st.values
  {
    if key == GOVERNOR_KEY then st.(governors := st.governors[tid := ReadGovernor(value)])
    else
      match ParseClock(key)
      case None => st
      case Some((p, m)) => if NoMhz(value) then st else CountClock(st, tid, p, m, ReadMhz(m, value, maxMem))
  }

  // One more clock of a title; the count is a byte.
  function CountClock(st: State, tid: nat, p: Profile, m: Mod, mhz: nat): State {
    st.(mhz := st.mhz[(tid, p, m) := mhz],
        counts := st.counts[tid := if tid in st.counts then (st.counts[tid] + 1) % 256 else 1])
  }

  /** What BrowseIniFunc does with one entry of the file.  `maxMem` is the highest memory
      clock in MHz. */
  ghost function ApplyEntry(st: State, e: Entry, maxMem: nat): (r: State)
    requires |st.values| == VALUE_COUNT
    ensures |r.values| == VALUE_COUNT
  {
    if e.section == VALUES_SECTION then ApplyValueLine(st, e.key, e.value)
    else
      var tid := StrToUL(e.section, 16);
      if tid == 0 || |e.section| != 16 then st else ApplyTitleLine(st, tid, e.key, e.value, maxMem)
  }

  ghost function ApplyEntries(st: State, entries: seq<Entry>, maxMem: nat): (r: State)
    requires |st.values| == VALUE_COUNT
    ensures |r.values| == VALUE_COUNT
    decreases |entries|
  {
    if entries == [] then st
    else ApplyEntries(ApplyEntry(st, entries[0], maxMem), entries[1..], maxMem)
  }

  lemma {:induction false} ApplyEntriesLast(st: State, entries: seq<Entry>, e: Entry, maxMem: nat)
    requires |st.values| == VALUE_COUNT
    ensures ApplyEntries(st, entries + [e], maxMem) == ApplyEntry(ApplyEntries(st, entries, maxMem), e, maxMem)
    decreases |entries|
  {
    hide ApplyEntry;
    if entries == [] {
      assert entries + [e] == [e] && [e][1..] == [];
    } else {
      assert (entries + [e])[1..] == entries[1..] + [e];
      ApplyEntriesLast(ApplyEntry(st, entries[0], maxMem), entries[1..], e, maxMem);
    }
  }

  /** The configuration a fresh load of the file gives. */
  ghost function Loaded(text: string, maxMem: nat): (st: State)
    ensures |st.values| == VALUE_COUNT
  {
    ApplyEntries(EMPTY_STATE, Browse(text, ""), maxMem)
  }
}
