/** The settings sys-clk writes: what it asks ini_putsection to store for a title and for the
    global values, and what it keeps in memory. */
module ConfigSettings {
  import opened CNumbers
  import opened ConfigState

  datatype Profiles = Profiles(mhz: seq<nat>, governor: nat)

  predicate ValidProfiles(list: Profiles) {
    && |list.mhz| == 15 && (forall i :: 0 <= i < 15 ==> list.mhz[i] < TWO_32)
    && list.governor < TWO_32
  }

  function ProfileAt(i: nat): Profile
    requires i < 15
  {
    PROFILES[i / 3]
  }

  function ModuleAt(i: nat): Mod
    requires i < 15
  {
    MODULES[i % 3]
  }

  // The clocks that get a line of their own, from the i-th on, and after them the governor.
  function ProfileKeys(list: Profiles, i: nat): seq<string>
    requires ValidProfiles(list) && i <= 15
    decreases 15 - i
  {
    if i == 15 then (if list.governor != GOVERNOR_DEFAULT then [GOVERNOR_KEY] else [])
    else (if list.mhz[i] != 0 then [KeyName(ProfileAt(i), ModuleAt(i))] else []) + ProfileKeys(list, i + 1)
  }

  function ProfileValues(list: Profiles, i: nat): (v: seq<string>)
    requires ValidProfiles(list) && i <= 15
    ensures |v| == |ProfileKeys(list, i)|
    decreases 15 - i
  {
    if i == 15 then (if list.governor != GOVERNOR_DEFAULT then [SignedDecimal32(list.governor)] else [])
    else (if list.mhz[i] != 0 then [SignedDecimal32(list.mhz[i])] else []) + ProfileValues(list, i + 1)
  }

  function CountFrom(list: Profiles, i: nat): (n: nat)
    requires ValidProfiles(list) && i <= 15
    ensures n <= 15 - i
    decreases 15 - i
  {
    if i == 15 then 0 else (if list.mhz[i] != 0 then 1 else 0) + CountFrom(list, i + 1)
  }

  /** All fifteen clocks and a governor setting are one setting more than SetProfiles has slots for. */
  predicate Overruns(list: Profiles)
    requires ValidProfiles(list)
  {
    CountFrom(list, 0) == 15 && list.governor != GOVERNOR_DEFAULT
  }

  // The clocks after the first i settings of the list.
  function SetClock(mhz: map<Clock, nat>, tid: nat, list: Profiles, i: nat): map<Clock, nat>
    requires ValidProfiles(list) && i <= 15
    decreases i
  {
    if i == 0 then mhz
    else
      var before := SetClock(mhz, tid, list, i - 1);
      var c := (tid, ProfileAt(i - 1), ModuleAt(i - 1));
      if list.mhz[i - 1] != 0 then before[c := list.mhz[i - 1]] else before - {c}
  }

  /** What SetProfiles changes in memory. */
  function SetInMemory(st: State, tid: nat, list: Profiles): State
    requires ValidProfiles(list)
  {
    st.(
      mhz := SetClock(st.mhz, tid, list, 15),
      counts := st.counts[tid := CountFrom(list, 0)],
      governors := if list.governor == GOVERNOR_DEFAULT then st.governors - {tid}
          else st.governors[tid := list.governor])
  }

  predicate ValidValues(values: seq<nat>) {
    |values| == VALUE_COUNT && forall k :: 0 <= k < VALUE_COUNT ==> values[k] < TWO_64
  }

  predicate IsStored(values: seq<nat>, k: nat)
    requires ValidValues(values) && k < VALUE_COUNT
  {
    ValidValue(k, values[k]) && values[k] != DefaultValue(k)
  }

  function ValueKeys(values: seq<nat>, k: nat): seq<string>
    requires ValidValues(values) && k <= VALUE_COUNT
    decreases VALUE_COUNT - k
  {
    if k == VALUE_COUNT then []
    else (if IsStored(values, k) then [ValueName(k)] else []) + ValueKeys(values, k + 1)
  }

  function ValueTexts(values: seq<nat>, k: nat): (v: seq<string>)
    requires ValidValues(values) && k <= VALUE_COUNT
    ensures |v| == |ValueKeys(values, k)|
    decreases VALUE_COUNT - k
  {
    if k == VALUE_COUNT then []
    else (if IsStored(values, k) then [SignedDecimal64(values[k])] else []) + ValueTexts(values, k + 1)
  }

  // What SetConfigValues keeps in memory.
  function Sanitized(values: seq<nat>): (v: seq<nat>)
    requires ValidValues(values)
    ensures |v| == VALUE_COUNT
  {
    seq(VALUE_COUNT, k requires 0 <= k < VALUE_COUNT => if ValidValue(k, values[k]) then values[k] else DefaultValue(k))
  }

  // ----- the answers as functions of the state ----------------------------------------------

  function MhzAnswer(st: State, tid: nat, i: nat): nat
    requires i < 15
  {
    ClockOf(st, tid, ModuleAt(i), ProfileAt(i))
  }

  function GovernorAnswer(st: State, tid: nat): nat {
    if tid in st.governors then st.governors[tid] else GOVERNOR_DEFAULT
  }

  function Fallbacks(p: Profile): seq<Profile> {
    match p
    case Handheld => [Handheld]
    case HandheldCharging => [HandheldChargingUSB, HandheldCharging, Handheld]
    case HandheldChargingUSB => [HandheldChargingUSB, HandheldCharging, Handheld]
    case HandheldChargingOfficial => [HandheldChargingOfficial, HandheldCharging, Handheld]
    case Docked => [Docked]
  }

  function ClockOf(st: State, tid: nat, m: Mod, p: Profile): nat {
    if (tid, p, m) in st.mhz then st.mhz[(tid, p, m)] else 0
  }

  function FirstClock(st: State, tid: nat, m: Mod, profiles: seq<Profile>): nat {
    if profiles == [] then 0
    else
      var mhz := ClockOf(st, tid, m, profiles[0]);
      if mhz != 0 then mhz else FirstClock(st, tid, m, profiles[1..])
  }

  // ----- one setting at a time ----------------------------------------------------------------

  lemma ProfileKeysStep(list: Profiles, i: nat, keys: seq<string>, values: seq<string>)
    requires ValidProfiles(list) && i < 15
    ensures var key, value := KeyName(ProfileAt(i), ModuleAt(i)), SignedDecimal32(list.mhz[i]);
            if list.mhz[i] != 0 then
              && keys + ProfileKeys(list, i) == keys + [key] + ProfileKeys(list, i + 1)
              && values + ProfileValues(list, i) == values + [value] + ProfileValues(list, i + 1)
            else
              && ProfileKeys(list, i) == ProfileKeys(list, i + 1)
              && ProfileValues(list, i) == ProfileValues(list, i + 1)
  {
    hide KeyName, SignedDecimal32, ProfileAt, ModuleAt;
  }

  lemma ProfileKeysEnd(list: Profiles)
    requires ValidProfiles(list)
    ensures ProfileKeys(list, 15) == if list.governor != GOVERNOR_DEFAULT then [GOVERNOR_KEY] else []
    ensures ProfileValues(list, 15) == if list.governor != GOVERNOR_DEFAULT then [SignedDecimal32(list.governor)]
              else []
  {
  }

  lemma ValueKeysStep(values: seq<nat>, k: nat, keys: seq<string>, texts: seq<string>)
    requires ValidValues(values) && k < VALUE_COUNT
    ensures if ValidValue(k, values[k]) && values[k] != DefaultValue(k) then
              && keys + ValueKeys(values, k) == keys + [ValueName(k)] + ValueKeys(values, k + 1)
              && texts + ValueTexts(values, k) == texts + [SignedDecimal64(values[k])] + ValueTexts(values, k + 1)
            else ValueKeys(values, k) == ValueKeys(values, k + 1) && ValueTexts(values, k) == ValueTexts(values, k + 1)
  {
    hide ValueName, SignedDecimal64, ValidValue, DefaultValue;
  }

  lemma ValueKeysEnd(values: seq<nat>)
    requires ValidValues(values)
    ensures ValueKeys(values, VALUE_COUNT) == [] && ValueTexts(values, VALUE_COUNT) == []
  {
  }
}
