/** The cache agrees with the file: what Config answers after a change is what it would
    answer after loading the changed file. */
module ConfigSync {
  import opened Basics
  import opened CText
  import opened CNumbers
  import opened IniQuoting
  import opened IniSection
  import opened IniRewrite
  import opened IniBrowse
  import opened IniRoundTrip
  import opened IniRegular
  import opened ConfigState
  import opened ConfigSettings

  // ----- the answers about one title -----------------------------------------------------------

  datatype Title = Title(mhz: seq<nat>, count: nat, governor: nat)

  function Mhz15(st: State, tid: nat): (mhz: seq<nat>)
    ensures |mhz| == 15
    ensures forall i :: 0 <= i < 15 ==> mhz[i] == MhzAnswer(st, tid, i)
  {
    seq(15, i requires 0 <= i < 15 => MhzAnswer(st, tid, i))
  }

  // What GetProfiles, GetProfileCount and GetTitleGovernorConfig answer for a title.
  function ViewTitle(st: State, tid: nat): (v: Title)
    ensures |v.mhz| == 15
  {
    Title(Mhz15(st, tid), CountOf(st, tid), GovernorAnswer(st, tid))
  }

  ghost predicate SameAnswers(a: State, b: State) {
    a.values == b.values && forall t: nat :: ViewTitle(a, t) == ViewTitle(b, t)
  }

  const NO_TITLE := Title(seq(15, _ => 0), 0, GOVERNOR_DEFAULT)

  // The entry is about this title.
  ghost predicate Names(e: Entry, tid: nat) {
    e.section != VALUES_SECTION && |e.section| == 16 && tid != 0 && StrToUL(e.section, 16) == tid
  }

  function ClockIndex(p: Profile, m: Mod): (i: nat)
    ensures i < 15 && ProfileAt(i) == p && ModuleAt(i) == m
  {
    var a := match p
      case Handheld => 0
      case HandheldCharging => 1
      case HandheldChargingUSB => 2
      case HandheldChargingOfficial => 3
      case Docked => 4;
    var b := match m
      case CPU => 0
      case GPU => 1
      case MEM => 2;
    3 * a + b
  }

  lemma ClockIndexOf(i: nat)
    requires i < 15
    ensures ClockIndex(ProfileAt(i), ModuleAt(i)) == i
  {
    assert i / 3 == 0 || i / 3 == 1 || i / 3 == 2 || i / 3 == 3 || i / 3 == 4;
    assert i % 3 == 0 || i % 3 == 1 || i % 3 == 2;
  }

  // What an entry about the title does to the answers.
  ghost function TitleStep(v: Title, key: string, value: string, maxMem: nat): (r: Title)
    requires |v.mhz| == 15
    ensures |r.mhz| == 15
  {
    if key == GOVERNOR_KEY then v.(governor := ReadGovernor(value))
    else
      match ParseClock(key)
      case None => v
      case Some((p, m)) =>
        if NoMhz(value) then v
        else v.(mhz := v.mhz[ClockIndex(p, m) := ReadMhz(m, value, maxMem)], count := (v.count + 1) % 256)
  }

  lemma ViewClock(st: State, tid: nat, p: Profile, m: Mod, mhz: nat, t: nat)
    ensures var changed := st.(mhz := st.mhz[(tid, p, m) := mhz]);
            Mhz15(changed, t) == if t == tid then Mhz15(st, t)[ClockIndex(p, m) := mhz] else Mhz15(st, t)
  {
    var changed := st.(mhz := st.mhz[(tid, p, m) := mhz]);
    forall i | 0 <= i < 15
      ensures MhzAnswer(changed, t, i) == if t == tid && i == ClockIndex(p, m) then mhz else MhzAnswer(st, t, i)
    {
      ClockIndexOf(i);
    }
  }

  lemma ViewAfterEntry(st: State, e: Entry, maxMem: nat, t: nat)
    requires |st.values| == VALUE_COUNT
    ensures ViewTitle(ApplyEntry(st, e, maxMem), t)
         == if Names(e, t) then TitleStep(ViewTitle(st, t), e.key, e.value, maxMem) else ViewTitle(st, t)
  {
    if e.section == VALUES_SECTION {
      hide ParseValueName, ValidValue, TitleStep;
      var after := ApplyEntry(st, e, maxMem);
      assert Mhz15(after, t) == Mhz15(st, t);
    } else {
      ViewAfterTitleEntry(st, e, maxMem, t);
    }
  }

  lemma ViewAfterTitleEntry(st: State, e: Entry, maxMem: nat, t: nat)
    requires |st.values| == VALUE_COUNT && e.section != VALUES_SECTION
    ensures ViewTitle(ApplyEntry(st, e, maxMem), t)
         == if Names(e, t) then TitleStep(ViewTitle(st, t), e.key, e.value, maxMem) else ViewTitle(st, t)
  {
    hide StrToUL, ApplyTitleLine, TitleStep, ViewTitle;
    var tid := StrToUL(e.section, 16);
    if tid != 0 && |e.section| == 16 { ViewAfterTitleLine(st, tid, e.key, e.value, maxMem, t); }
  }

  lemma ViewAfterTitleLine(st: State, tid: nat, key: string, value: string, maxMem: nat, t: nat)
    ensures ViewTitle(ApplyTitleLine(st, tid, key, value, maxMem), t)
         == if t == tid then TitleStep(ViewTitle(st, t), key, value, maxMem) else ViewTitle(st, t)
  {
    hide ParseClock, StrToUL, ReadGovernor, NoMhz, ReadMhz, ClockIndex, CountClock;
    if key == GOVERNOR_KEY {
      assert Mhz15(ApplyTitleLine(st, tid, key, value, maxMem), t) == Mhz15(st, t);
    } else if ParseClock(key).Some? && !NoMhz(value) {
      hide ViewTitle;
      var (p, m) := ParseClock(key).value;
      ViewCountedClock(st, tid, p, m, ReadMhz(m, value, maxMem), t);
    }
  }

  lemma CountsLeaveMhz(st: State, counts: map<nat, nat>, t: nat)
    ensures Mhz15(st.(counts := counts), t) == Mhz15(st, t)
  {
  }

  lemma ViewCountedClock(st: State, tid: nat, p: Profile, m: Mod, mhz: nat, t: nat)
    ensures var v := ViewTitle(st, t);
            (ViewTitle(CountClock(st, tid, p, m, mhz), t)
             == if t == tid then v.(mhz := v.mhz[ClockIndex(p, m) := mhz], count := (v.count + 1) % 256) else v)
  {
    hide ClockIndex, Mhz15;
    var changed := st.(mhz := st.mhz[(tid, p, m) := mhz]);
    ViewClock(st, tid, p, m, mhz, t);
    CountsLeaveMhz(changed, CountClock(st, tid, p, m, mhz).counts, t);
  }

  ghost function FoldTitle(v: Title, entries: seq<Entry>, maxMem: nat, tid: nat): (r: Title)
    requires |v.mhz| == 15
    ensures |r.mhz| == 15
    decreases |entries|
  {
    if entries == [] then v
    else
      var e := entries[0];
      FoldTitle(if Names(e, tid) then TitleStep(v, e.key, e.value, maxMem) else v, entries[1..], maxMem, tid)
  }

  lemma {:induction false} ViewAfterEntries(st: State, entries: seq<Entry>, maxMem: nat, t: nat)
    requires |st.values| == VALUE_COUNT
    ensures ViewTitle(ApplyEntries(st, entries, maxMem), t) == FoldTitle(ViewTitle(st, t), entries, maxMem, t)
    decreases |entries|
  {
    hide ApplyEntry, TitleStep, Names, ViewTitle;
    if entries != [] {
      ViewAfterEntry(st, entries[0], maxMem, t);
      ViewAfterEntries(ApplyEntry(st, entries[0], maxMem), entries[1..], maxMem, t);
    }
  }

  lemma {:induction false} FoldTitleAppend(v: Title, a: seq<Entry>, b: seq<Entry>, maxMem: nat, t: nat)
    requires |v.mhz| == 15
    ensures FoldTitle(v, a + b, maxMem, t) == FoldTitle(FoldTitle(v, a, maxMem, t), b, maxMem, t)
    decreases |a|
  {
    hide TitleStep, Names;
    if a == [] {
      assert a + b == b;
    } else {
      assert (a + b)[1..] == a[1..] + b && (a + b)[0] == a[0];
      FoldTitleAppend(if Names(a[0], t) then TitleStep(v, a[0].key, a[0].value, maxMem) else v, a[1..], b, maxMem, t);
    }
  }

  // Entries about other titles change nothing.
  lemma {:induction false} FoldTitleOthers(v: Title, entries: seq<Entry>, maxMem: nat, t: nat)
    requires |v.mhz| == 15
    requires forall e :: e in entries ==> !Names(e, t)
    ensures FoldTitle(v, entries, maxMem, t) == v
    decreases |entries|
  {
    hide TitleStep, Names;
    if entries != [] { FoldTitleOthers(v, entries[1..], maxMem, t); }
  }

  // ----- the global values -------------------------------------------------------------------------

  ghost function ValuesStep(values: seq<nat>, key: string, value: string): (r: seq<nat>)
    requires |values| == VALUE_COUNT
    ensures |r| == VALUE_COUNT
  {
    match ParseValueName(key)
    case None => values
    case Some(k) => values[k := if ValidValue(k, StrToUL(value, 0)) then StrToUL(value, 0) else DefaultValue(k)]
  }

  ghost function FoldValues(values: seq<nat>, entries: seq<Entry>): (r: seq<nat>)
    requires |values| == VALUE_COUNT
    ensures |r| == VALUE_COUNT
    decreases |entries|
  {
    if entries == [] then values
    else
      var e := entries[0];
      FoldValues(if e.section == VALUES_SECTION then ValuesStep(values, e.key, e.value) else values, entries[1..])
  }

  lemma {:induction false} ValuesAfterEntries(st: State, entries: seq<Entry>, maxMem: nat)
    requires |st.values| == VALUE_COUNT
    ensures ApplyEntries(st, entries, maxMem).values == FoldValues(st.values, entries)
    decreases |entries|
  {
    if entries != [] {
      ValuesAfterEntry(st, entries[0], maxMem);
      hide ApplyEntry, ValuesStep;
      ValuesAfterEntries(ApplyEntry(st, entries[0], maxMem), entries[1..], maxMem);
    }
  }

  lemma ValuesAfterEntry(st: State, e: Entry, maxMem: nat)
    requires |st.values| == VALUE_COUNT
    ensures ApplyEntry(st, e, maxMem).values
         == if e.section == VALUES_SECTION then ValuesStep(st.values, e.key, e.value) else st.values
  {
    hide ParseClock, ParseValueName, StrToUL, ValidValue, ReadGovernor, NoMhz, ReadMhz;
  }

  lemma {:induction false} FoldValuesAppend(v: seq<nat>, a: seq<Entry>, b: seq<Entry>)
    requires |v| == VALUE_COUNT
    ensures FoldValues(v, a + b) == FoldValues(FoldValues(v, a), b)
    decreases |a|
  {
    hide ValuesStep;
    if a == [] {
      assert a + b == b;
    } else {
      assert (a + b)[1..] == a[1..] + b && (a + b)[0] == a[0];
      FoldValuesAppend(if a[0].section == VALUES_SECTION then ValuesStep(v, a[0].key, a[0].value) else v, a[1..], b);
    }
  }

  lemma {:induction false} FoldValuesOthers(v: seq<nat>, entries: seq<Entry>)
    requires |v| == VALUE_COUNT
    requires forall e :: e in entries ==> e.section != VALUES_SECTION
    ensures FoldValues(v, entries) == v
    decreases |entries|
  {
    hide ValuesStep;
    if entries != [] { FoldValuesOthers(v, entries[1..]); }
  }

  // ----- reading back a title's own settings ----------------------------------------------------------

  // What a load makes of a stored clock.
  function LoadedMhz(list: Profiles, i: nat, maxMem: nat): nat
    requires ValidProfiles(list) && i < 15
  {
    if ModuleAt(i) == MEM && list.mhz[i] > 1600 then maxMem else list.mhz[i]
  }

  function LoadedGovernor(list: Profiles): nat {
    if list.governor <= GOVERNOR_MASK then list.governor else GOVERNOR_DEFAULT
  }

  function LoadedMhz15(list: Profiles, maxMem: nat): (mhz: seq<nat>)
    requires ValidProfiles(list)
    ensures |mhz| == 15
    ensures forall i :: 0 <= i < 15 ==> mhz[i] == LoadedMhz(list, i, maxMem)
  {
    seq(15, i requires 0 <= i < 15 => LoadedMhz(list, i, maxMem))
  }

  lemma ReadBackClock(m: Mod, mhz: nat, maxMem: nat)
    requires 0 < mhz < TWO_32
    ensures !NoMhz(SignedDecimal32(mhz))
    ensures ReadMhz(m, SignedDecimal32(mhz), maxMem) == if m == MEM && mhz > 1600 then maxMem else mhz
  {
    hide StrToUL, SignedDecimal32;
    ReadSigned32(mhz);
  }

  lemma ReadBackGovernor(g: nat)
    requires g < TWO_32
    ensures ReadGovernor(SignedDecimal32(g)) == if g <= GOVERNOR_MASK then g else GOVERNOR_DEFAULT
  {
    hide StrToUL, Decimal;
    if g < TWO_32 / 2 { StrToULDecimal(g, 0); } else { StrToULMinusDecimal(TWO_32 - g, 0); }
  }

  lemma ClockKey(p: Profile, m: Mod)
    ensures ParseClock(KeyName(p, m)) == Some((p, m))
    ensures KeyName(p, m) != GOVERNOR_KEY
  {
    assert NamesClock(KeyName(p, m), p, m);
    var c := ParseClock(KeyName(p, m)).value;
    KeyNameInjective(p, m, c.0, c.1);
    assert KeyName(p, m)[0] == ProfileName(p)[0];
  }

  // The answers once the settings before the i-th have been read.
  ghost predicate Partial(v: Title, list: Profiles, i: nat, maxMem: nat) {
    && ValidProfiles(list) && i <= 15 && |v.mhz| == 15
    && (forall j :: 0 <= j < i ==> v.mhz[j] == LoadedMhz(list, j, maxMem))
    && (forall j :: i <= j < 15 ==> v.mhz[j] == 0)
    && v.count + CountFrom(list, i) == CountFrom(list, 0)
    && v.governor == GOVERNOR_DEFAULT
  }

  lemma PartialStep(v: Title, list: Profiles, i: nat, maxMem: nat)
    requires Partial(v, list, i, maxMem) && i < 15
    ensures v.count + (if list.mhz[i] != 0 then 1 else 0) <= 15
    ensures list.mhz[i] == 0 ==> Partial(v, list, i + 1, maxMem)
    ensures list.mhz[i] != 0 ==>
              Partial(v.(mhz := v.mhz[i := LoadedMhz(list, i, maxMem)], count := v.count + 1), list, i + 1, maxMem)
  {
    hide ModuleAt;
  }

  lemma {:induction false} FoldOwnSettings(v: Title, section: string, tid: nat, list: Profiles, i: nat, maxMem: nat)
    requires Partial(v, list, i, maxMem)
    requires forall key, value :: Names(Entry(section, key, value), tid)
    ensures FoldTitle(v, Settings(section, ProfileKeys(list, i), ProfileValues(list, i)), maxMem, tid)
         == Title(LoadedMhz15(list, maxMem), CountFrom(list, 0), LoadedGovernor(list))
    decreases 15 - i
  {
    if i == 15 {
      assert v.mhz == LoadedMhz15(list, maxMem);
      FoldGovernor(v, section, tid, list, maxMem);
    } else {
      hide Names, KeyName, SignedDecimal32, TitleStep, FoldTitle, Settings, ProfileAt, ModuleAt, ProfileKeys,
           ProfileValues, CountFrom;
      var next := PartialNext(v, list, i, maxMem);
      assert |v.mhz| == 15 && i < 15 && ValidProfiles(list);
      OwnSettingsFrom(v, next, section, tid, list, i, maxMem);
      FoldOwnSettings(next, section, tid, list, i + 1, maxMem);
    }
  }

  lemma PartialNext(v: Title, list: Profiles, i: nat, maxMem: nat) returns (next: Title)
    requires Partial(v, list, i, maxMem) && i < 15
    ensures next == if list.mhz[i] == 0 then v
                    else v.(mhz := v.mhz[i := LoadedMhz(list, i, maxMem)], count := v.count + 1)
    ensures Partial(next, list, i + 1, maxMem) && next.count <= 15
  {
    PartialStep(v, list, i, maxMem);
    next := if list.mhz[i] == 0 then v
            else v.(mhz := v.mhz[i := LoadedMhz(list, i, maxMem)], count := v.count + 1);
  }

  // Reading the i-th setting, if there is one, leads to `next`.
  lemma OwnSettingsFrom(v: Title, next: Title, section: string, tid: nat, list: Profiles, i: nat, maxMem: nat)
    requires ValidProfiles(list) && i < 15 && |v.mhz| == 15 && |next.mhz| == 15 && next.count <= 15
    requires next == if list.mhz[i] == 0 then v
                     else v.(mhz := v.mhz[i := LoadedMhz(list, i, maxMem)], count := v.count + 1)
    requires forall key, value :: Names(Entry(section, key, value), tid)
    ensures FoldTitle(v, Settings(section, ProfileKeys(list, i), ProfileValues(list, i)), maxMem, tid)
         == FoldTitle(next, Settings(section, ProfileKeys(list, i + 1), ProfileValues(list, i + 1)), maxMem, tid)
  {
    hide Names, KeyName, SignedDecimal32, TitleStep, FoldTitle, Settings, ProfileAt, ModuleAt;
    if list.mhz[i] == 0 {
      assert ProfileKeys(list, i) == ProfileKeys(list, i + 1) && ProfileValues(list, i) == ProfileValues(list, i + 1);
    } else {
      OwnClockFirst(section, list, i);
      OwnClockStep(v, list, i, maxMem);
      FoldFirst(v, Entry(section, KeyName(ProfileAt(i), ModuleAt(i)), SignedDecimal32(list.mhz[i])),
                Settings(section, ProfileKeys(list, i + 1), ProfileValues(list, i + 1)), maxMem, tid);
    }
  }

  lemma OwnClockFirst(section: string, list: Profiles, i: nat)
    requires ValidProfiles(list) && i < 15 && list.mhz[i] != 0
    ensures Settings(section, ProfileKeys(list, i), ProfileValues(list, i))
         == [Entry(section, KeyName(ProfileAt(i), ModuleAt(i)), SignedDecimal32(list.mhz[i]))]
            + Settings(section, ProfileKeys(list, i + 1), ProfileValues(list, i + 1))
  {
    hide KeyName, SignedDecimal32, ProfileAt, ModuleAt;
    var key, value := KeyName(ProfileAt(i), ModuleAt(i)), SignedDecimal32(list.mhz[i]);
    var keys, values := ProfileKeys(list, i), ProfileValues(list, i);
    assert keys == [key] + ProfileKeys(list, i + 1) && values == [value] + ProfileValues(list, i + 1);
    assert keys[1..] == ProfileKeys(list, i + 1) && values[1..] == ProfileValues(list, i + 1);
  }

  lemma OwnClockStep(v: Title, list: Profiles, i: nat, maxMem: nat)
    requires ValidProfiles(list) && i < 15 && list.mhz[i] != 0
    requires |v.mhz| == 15 && v.count < 15
    ensures TitleStep(v, KeyName(ProfileAt(i), ModuleAt(i)), SignedDecimal32(list.mhz[i]), maxMem)
         == v.(mhz := v.mhz[i := LoadedMhz(list, i, maxMem)], count := v.count + 1)
  {
    hide KeyName, SignedDecimal32, ReadMhz, NoMhz, ReadGovernor, ParseClock, ProfileAt, ModuleAt, ClockIndex;
    ClockKey(ProfileAt(i), ModuleAt(i));
    ClockIndexOf(i);
    ReadBackClock(ModuleAt(i), list.mhz[i], maxMem);
  }

  lemma FoldFirst(v: Title, e: Entry, rest: seq<Entry>, maxMem: nat, tid: nat)
    requires |v.mhz| == 15 && Names(e, tid)
    ensures FoldTitle(v, [e] + rest, maxMem, tid) == FoldTitle(TitleStep(v, e.key, e.value, maxMem), rest, maxMem, tid)
  {
    assert ([e] + rest)[1..] == rest;
  }

  lemma FoldGovernor(v: Title, section: string, tid: nat, list: Profiles, maxMem: nat)
    requires ValidProfiles(list) && |v.mhz| == 15 && v.governor == GOVERNOR_DEFAULT
    requires forall key, value :: Names(Entry(section, key, value), tid)
    ensures FoldTitle(v, Settings(section, ProfileKeys(list, 15), ProfileValues(list, 15)), maxMem, tid)
         == v.(governor := LoadedGovernor(list))
  {
    hide Names, SignedDecimal32, ReadGovernor;
    ProfileKeysEnd(list);
    if list.governor != GOVERNOR_DEFAULT {
      var value := SignedDecimal32(list.governor);
      ReadBackGovernor(list.governor);
      var e := Entry(section, GOVERNOR_KEY, value);
      assert Settings(section, [GOVERNOR_KEY], [value]) == [e] + [];
      FoldFirst(v, e, [], maxMem, tid);
    }
  }

  // ----- the title in memory ------------------------------------------------------------------------------

  lemma {:induction false} SetClockAnswers(st: State, tid: nat, list: Profiles, i: nat, t: nat, j: nat)
    requires ValidProfiles(list) && i <= 15 && j < 15
    ensures MhzAnswer(st.(mhz := SetClock(st.mhz, tid, list, i)), t, j)
         == if t == tid && j < i then list.mhz[j] else MhzAnswer(st, t, j)
    decreases i
  {
    hide ProfileAt, ModuleAt;
    if i > 0 {
      SetClockAnswers(st, tid, list, i - 1, t, j);
      if ProfileAt(j) == ProfileAt(i - 1) && ModuleAt(j) == ModuleAt(i - 1) {
        ClockIndexOf(i - 1);
        ClockIndexOf(j);
      }
    }
  }

  lemma ViewInMemory(st: State, tid: nat, list: Profiles, t: nat)
    requires ValidProfiles(list)
    ensures ViewTitle(SetInMemory(st, tid, list), t)
         == if t == tid then Title(list.mhz, CountFrom(list, 0), list.governor) else ViewTitle(st, t)
  {
    var after := SetInMemory(st, tid, list);
    forall j | 0 <= j < 15
      ensures MhzAnswer(after, t, j) == if t == tid then list.mhz[j] else MhzAnswer(st, t, j)
    {
      SetClockAnswers(st, tid, list, 15, t, j);
    }
    assert Mhz15(after, t) == if t == tid then list.mhz else Mhz15(st, t);
  }

  // ----- the settings are written so that they can be read back --------------------------------------------

  lemma DecimalBound(n: nat)
    requires n < TWO_64
    ensures |Decimal(n)| <= 20
  {
    assert Power10(5) == 100000;
    assert Power10(10) == 100000 * Power10(5);
    assert Power10(15) == 100000 * Power10(10);
    assert Power10(20) == 100000 * Power10(15);
    DecimalLength(n, 20);
  }

  // A printed number needs no quotes and loses nothing.
  predicate Numeric(s: string) {
    && 0 < |s| <= 21
    && forall i :: 0 <= i < |s| ==> '0' <= s[i] <= '9' || s[i] == '-'
  }

  lemma PrintedIsNumeric(n: nat)
    requires n < TWO_64
    ensures Numeric(Decimal(n)) && Numeric("-" + Decimal(n))
  {
    DecimalBound(n);
    DecimalDigits(n);
  }

  lemma ReadableSetting(key: string, value: string, section: string)
    requires Word(key) && 0 < |key| <= 30 && Numeric(value) && |section| <= 16
    ensures PlainKey(key) && OneLine(key) && PlainValue(key, value) && OneLine(value)
    ensures |KeyLine(key, value)| <= LineRoom(section)
  {
    assert forall c :: c in key ==> 'a' <= c <= 'z' || c == '_';
    assert forall c :: c in value ==> '0' <= c <= '9' || c == '-';
    assert CheckEnquote(value) == QuoteNone;
  }

  lemma KeyNameIsWord(p: Profile, m: Mod)
    ensures Word(KeyName(p, m)) && 0 < |KeyName(p, m)| <= 30
  {
  }

  predicate GoodSetting(key: string, value: string) {
    Word(key) && 0 < |key| <= 30 && Numeric(value)
  }

  lemma {:induction false} ProfileSettingsGood(list: Profiles, i: nat)
    requires ValidProfiles(list) && i <= 15
    ensures forall j :: 0 <= j < |ProfileKeys(list, i)| ==>
              GoodSetting(ProfileKeys(list, i)[j], ProfileValues(list, i)[j])
    decreases 15 - i
  {
    hide GoodSetting, KeyName, SignedDecimal32, ProfileAt, ModuleAt;
    if i < 15 {
      ProfileSettingsGood(list, i + 1);
      ProfileKeysStep(list, i, [], []);
      var rest, more := ProfileKeys(list, i + 1), ProfileValues(list, i + 1);
      ClockSettingGood(ProfileAt(i), ModuleAt(i), list.mhz[i]);
      if list.mhz[i] != 0 {
        var key, value := KeyName(ProfileAt(i), ModuleAt(i)), SignedDecimal32(list.mhz[i]);
        assert ProfileKeys(list, i) == [key] + rest && ProfileValues(list, i) == [value] + more;
      }
    } else {
      ProfileKeysEnd(list);
      GovernorSettingGood(list.governor);
    }
  }

  lemma ClockSettingGood(p: Profile, m: Mod, mhz: nat)
    requires mhz < TWO_32
    ensures GoodSetting(KeyName(p, m), SignedDecimal32(mhz))
  {
    hide Word, Numeric, Decimal, KeyName;
    KeyNameIsWord(p, m);
    PrintedIsNumeric(if mhz < TWO_32 / 2 then mhz else TWO_32 - mhz);
  }

  lemma GovernorSettingGood(g: nat)
    requires g < TWO_32
    ensures GoodSetting(GOVERNOR_KEY, SignedDecimal32(g))
  {
    hide Numeric, Decimal;
    PrintedIsNumeric(if g < TWO_32 / 2 then g else TWO_32 - g);
  }

  lemma GoodIsReadable(section: string, keys: seq<string>, values: seq<string>)
    requires |keys| == |values| && |section| <= 16
    requires forall j :: 0 <= j < |keys| ==> GoodSetting(keys[j], values[j])
    ensures ReadableSettings(keys, values) && SettingsFit(section, keys, values)
  {
    hide PlainKey, PlainValue, OneLine, KeyLine, LineRoom, Word, Numeric;
    forall j | 0 <= j < |keys|
      ensures PlainKey(keys[j]) && OneLine(keys[j]) && PlainValue(keys[j], values[j]) && OneLine(values[j])
      ensures |KeyLine(keys[j], values[j])| <= LineRoom(section)
    {
      ReadableSetting(keys[j], values[j], section);
    }
  }

  // ----- a title's section replaced -------------------------------------------------------------------

  /** The settings that a load gives back as they were: with title id 0 nothing is ever read
      back, memory clocks above 1600 MHz are read as the highest one, and governor settings
      outside the mask are read as the default. */
  ghost predicate Faithful(tid: nat, list: Profiles, maxMem: nat)
    requires ValidProfiles(list)
  {
    if tid == 0 then (forall i :: 0 <= i < 15 ==> list.mhz[i] == 0) && list.governor == GOVERNOR_DEFAULT
    else
      && (forall i :: 0 <= i < 15 ==> ModuleAt(i) == MEM && list.mhz[i] > 1600 ==> list.mhz[i] == maxMem)
      && list.governor <= GOVERNOR_MASK
  }

  lemma OwnSectionNames(e: Entry, tid: nat, t: nat)
    requires tid < TWO_64 && EqualNoCase(e.section, Hex(tid, 16))
    ensures e.section != VALUES_SECTION
    ensures Names(e, t) <==> t == tid && tid != 0
  {
    hide StrToUL, EqualNoCase, Hex;
    ReadTitleId(tid, e.section);
  }

  lemma FoldThree(v: Title, a: seq<Entry>, b: seq<Entry>, c: seq<Entry>, maxMem: nat, t: nat)
    requires |v.mhz| == 15
    ensures FoldTitle(v, a + b + c, maxMem, t)
         == FoldTitle(FoldTitle(FoldTitle(v, a, maxMem, t), b, maxMem, t), c, maxMem, t)
  {
    hide FoldTitle;
    FoldTitleAppend(v, a + b, c, maxMem, t);
    FoldTitleAppend(v, a, b, maxMem, t);
  }

  lemma ViewNothing(t: nat)
    ensures ViewTitle(EMPTY_STATE, t) == NO_TITLE
  {
    assert Mhz15(EMPTY_STATE, t) == NO_TITLE.mhz;
  }

  // The answers for one title after a load of three pieces of file.
  lemma ViewThree(a: seq<Entry>, b: seq<Entry>, c: seq<Entry>, maxMem: nat, t: nat)
    ensures ViewTitle(ApplyEntries(EMPTY_STATE, a + b + c, maxMem), t)
         == FoldTitle(FoldTitle(FoldTitle(NO_TITLE, a, maxMem, t), b, maxMem, t), c, maxMem, t)
  {
    hide FoldTitle, ApplyEntries, ViewTitle;
    ViewNothing(t);
    ViewAfterEntries(EMPTY_STATE, a + b + c, maxMem, t);
    FoldThree(NO_TITLE, a, b, c, maxMem, t);
  }

  lemma ValuesThree(a: seq<Entry>, b: seq<Entry>, c: seq<Entry>, maxMem: nat)
    ensures ApplyEntries(EMPTY_STATE, a + b + c, maxMem).values
         == FoldValues(FoldValues(FoldValues(DefaultValues(), a), b), c)
  {
    hide FoldValues, ApplyEntries;
    ValuesAfterEntries(EMPTY_STATE, a + b + c, maxMem);
    FoldValuesAppend(DefaultValues(), a + b, c);
    FoldValuesAppend(DefaultValues(), a, b);
  }

  // Other titles do not notice.
  lemma OtherTitles(before: seq<Entry>, own: seq<Entry>, other: seq<Entry>, after: seq<Entry>, tid: nat, maxMem: nat,
      t: nat)
    requires tid < TWO_64 && t != tid
    requires forall e :: e in own || e in other ==> EqualNoCase(e.section, Hex(tid, 16))
    ensures ViewTitle(ApplyEntries(EMPTY_STATE, before + own + after, maxMem), t)
         == ViewTitle(ApplyEntries(EMPTY_STATE, before + other + after, maxMem), t)
  {
    hide FoldTitle, ApplyEntries, ViewTitle, EqualNoCase, Names, Hex;
    forall e | e in own || e in other ensures !Names(e, t) { OwnSectionNames(e, tid, t); }
    ViewThree(before, own, after, maxMem, t);
    ViewThree(before, other, after, maxMem, t);
    var v := FoldTitle(NO_TITLE, before, maxMem, t);
    FoldTitleOthers(v, own, maxMem, t);
    FoldTitleOthers(v, other, maxMem, t);
  }

  // The values do not notice either.
  lemma SameValues(before: seq<Entry>, own: seq<Entry>, other: seq<Entry>, after: seq<Entry>, tid: nat, maxMem: nat)
    requires tid < TWO_64
    requires forall e :: e in own || e in other ==> EqualNoCase(e.section, Hex(tid, 16))
    ensures ApplyEntries(EMPTY_STATE, before + own + after, maxMem).values
         == ApplyEntries(EMPTY_STATE, before + other + after, maxMem).values
  {
    hide FoldValues, ApplyEntries, EqualNoCase, Names, Hex;
    forall e | e in own || e in other ensures e.section != VALUES_SECTION { OwnSectionNames(e, tid, 0); }
    ValuesThree(before, own, after, maxMem);
    ValuesThree(before, other, after, maxMem);
    var v := FoldValues(DefaultValues(), before);
    FoldValuesOthers(v, own);
    FoldValuesOthers(v, other);
  }

  // The settings SetProfiles writes.
  function OwnSettings(tid: nat, list: Profiles): seq<Entry>
    requires ValidProfiles(list)
  {
    Settings(Hex(tid, 16), ProfileKeys(list, 0), ProfileValues(list, 0))
  }

  // The title itself, loaded from the new file.
  lemma OwnTitle(before: seq<Entry>, after: seq<Entry>, tid: nat, list: Profiles, maxMem: nat)
    requires tid < TWO_64 && ValidProfiles(list)
    requires forall e :: e in before || e in after ==> !Names(e, tid)
    ensures ViewTitle(ApplyEntries(EMPTY_STATE, before + OwnSettings(tid, list) + after, maxMem), tid)
         == if tid == 0 then NO_TITLE else Title(LoadedMhz15(list, maxMem), CountFrom(list, 0), LoadedGovernor(list))
  {
    hide FoldTitle, ApplyEntries, ViewTitle, EqualNoCase, Names, Hex, Settings, ProfileKeys, ProfileValues;
    var section := Hex(tid, 16);
    var settings := OwnSettings(tid, list);
    ViewThree(before, settings, after, maxMem, tid);
    FoldTitleOthers(NO_TITLE, before, maxMem, tid);
    SameSection(section);
    if tid == 0 {
      SettingsInSection(section, ProfileKeys(list, 0), ProfileValues(list, 0));
      forall e | e in settings ensures !Names(e, tid) { OwnSectionNames(e, tid, tid); }
      FoldTitleOthers(NO_TITLE, settings, maxMem, tid);
    } else {
      forall key, value ensures Names(Entry(section, key, value), tid) {
        OwnSectionNames(Entry(section, key, value), tid, tid);
      }
      FoldOwnSettings(NO_TITLE, section, tid, list, 0, maxMem);
    }
    FoldTitleOthers(FoldTitle(NO_TITLE, settings, maxMem, tid), after, maxMem, tid);
  }

  lemma CountNothing(list: Profiles, i: nat)
    requires ValidProfiles(list) && i <= 15
    ensures CountFrom(list, i) == 0 <==> forall j :: i <= j < 15 ==> list.mhz[j] == 0
    decreases 15 - i
  {
  }

  lemma FaithfulMeans(tid: nat, list: Profiles, maxMem: nat)
    requires ValidProfiles(list)
    ensures Faithful(tid, list, maxMem) <==>
              Title(list.mhz, CountFrom(list, 0), list.governor)
              == if tid == 0 then NO_TITLE
                  else Title(LoadedMhz15(list, maxMem), CountFrom(list, 0), LoadedGovernor(list))
  {
    hide ModuleAt, CountFrom;
    CountNothing(list, 0);
    if tid == 0 {
      assert list.mhz == NO_TITLE.mhz <==> forall i :: 0 <= i < 15 ==> list.mhz[i] == 0;
    } else {
      var loaded := LoadedMhz15(list, maxMem);
      assert list.mhz == loaded <==> forall i :: 0 <= i < 15 ==> list.mhz[i] == loaded[i];
    }
  }

  lemma SyncProfiles(st: State, before: seq<Entry>, other: seq<Entry>, after: seq<Entry>, tid: nat, list: Profiles,
      maxMem: nat)
    requires tid < TWO_64 && ValidProfiles(list)
    requires SameAnswers(st, ApplyEntries(EMPTY_STATE, before + other + after, maxMem))
    requires forall e :: e in other ==> EqualNoCase(e.section, Hex(tid, 16))
    requires forall e :: e in before || e in after ==> !Names(e, tid)
    ensures SameAnswers(SetInMemory(st, tid, list),
              ApplyEntries(EMPTY_STATE, before + OwnSettings(tid, list) + after, maxMem))
       <==> Faithful(tid, list, maxMem)
  {
    hide ApplyEntries, ViewTitle, EqualNoCase, Names, Hex, Settings, ProfileKeys, ProfileValues, Faithful, SetClock,
         CountFrom;
    var section := Hex(tid, 16);
    var settings := OwnSettings(tid, list);
    var memory := SetInMemory(st, tid, list);
    var loaded := ApplyEntries(EMPTY_STATE, before + settings + after, maxMem);
    SettingsInSection(section, ProfileKeys(list, 0), ProfileValues(list, 0));
    SameSection(section);
    SameValues(before, settings, other, after, tid, maxMem);
    OwnTitle(before, after, tid, list, maxMem);
    FaithfulMeans(tid, list, maxMem);
    ViewInMemory(st, tid, list, tid);
    forall t: nat | t != tid ensures ViewTitle(memory, t) == ViewTitle(loaded, t) {
      ViewInMemory(st, tid, list, t);
      OtherTitles(before, settings, other, after, tid, maxMem, t);
    }
  }

  // ----- on the file ----------------------------------------------------------------------------------------

  // ini_browse notices nothing of a change of the section outside of it.
  ghost predicate Editable(text: string, section: string, erase: bool)
    requires |section| <= SECTION_MAX
  {
    Replaceable(text, section) && HeaderFits(text, section, erase)
  }

  // No other section of the file spells the same title id.
  ghost predicate TitleOnce(text: string, tid: nat) {
    forall e :: e in Before(text, Hex(tid, 16)) || e in After(text, Hex(tid, 16)) ==> !Names(e, tid)
  }

  function TitleBlock(tid: nat, list: Profiles): string
    requires ValidProfiles(list)
  {
    Block(Hex(tid, 16), ProfileKeys(list, 0), ProfileValues(list, 0))
  }

  lemma TitleSectionIsPlain(tid: nat)
    ensures PlainSection(Hex(tid, 16))
  {
    HexIsOneLine(tid, 16);
  }

  lemma {:induction false} HexIsOneLine(n: nat, width: nat)
    ensures OneLine(Hex(n, width))
    decreases width
  {
    if width > 0 { HexIsOneLine(n / 16, width - 1); }
  }

  lemma TitleSettingsAreReadable(tid: nat, list: Profiles)
    requires ValidProfiles(list)
    ensures ReadableSettings(ProfileKeys(list, 0), ProfileValues(list, 0))
    ensures SettingsFit(Hex(tid, 16), ProfileKeys(list, 0), ProfileValues(list, 0))
  {
    hide ReadableSettings, SettingsFit, ProfileKeys, ProfileValues, GoodSetting;
    ProfileSettingsGood(list, 0);
    GoodIsReadable(Hex(tid, 16), ProfileKeys(list, 0), ProfileValues(list, 0));
  }

  /** SetProfiles changes the maps as a load of the changed file would, exactly when the
      settings are ones that a load gives back unchanged. */
  lemma ProfilesStayInSync(st: State, text: string, tid: nat, list: Profiles, maxMem: nat)
    requires tid < TWO_64 && ValidProfiles(list) && !Overruns(list)
    requires Editable(text, Hex(tid, 16), ProfileKeys(list, 0) == []) && TitleOnce(text, tid)
    requires SameAnswers(st, Loaded(text, maxMem))
    ensures var changed := PutSectionText(text, Hex(tid, 16), TitleBlock(tid, list));
            SameAnswers(SetInMemory(st, tid, list), Loaded(changed, maxMem)) <==> Faithful(tid, list, maxMem)
  {
    hide Browse, Replaceable, HeaderFits, Settings, ProfileKeys, ProfileValues, ReadableSettings, SettingsFit,
         ApplyEntries;
    hide PutSectionText, Block, SameAnswers, Names, Faithful, SetInMemory, PlainSection, EqualNoCase, Replaced,
         Before, After;
    var section := Hex(tid, 16);
    TitleSectionIsPlain(tid);
    TitleSettingsAreReadable(tid, list);
    BrowseNew(text, section, ProfileKeys(list, 0), ProfileValues(list, 0));
    BrowseOld(text, section);
    SyncProfiles(st, Before(text, section), Replaced(text, section), After(text, section), tid, list, maxMem);
  }

  // A file whose lines all fit stays one.
  lemma TitleEditStaysRegular(text: string, tid: nat, list: Profiles)
    requires ValidProfiles(list) && Regular(text, "") && RoomFor(text, Hex(tid, 16), ProfileKeys(list, 0) == [])
    ensures Regular(PutSectionText(text, Hex(tid, 16), TitleBlock(tid, list)), "")
  {
    hide ReadableSettings, SettingsFit, ProfileKeys, ProfileValues, PlainSection, Regular, RoomFor, PutSectionText,
         Block;
    TitleSectionIsPlain(tid);
    TitleSettingsAreReadable(tid, list);
    RegularStays(text, Hex(tid, 16), ProfileKeys(list, 0), ProfileValues(list, 0));
  }

  // A block on its own is read as its settings.
  lemma BrowseBlockAlone(section: string, keys: seq<string>, values: seq<string>)
    requires PlainSection(section) && |section| <= 16
    requires ReadableSettings(keys, values) && SettingsFit(section, keys, values)
    ensures Browse(Block(section, keys, values), "") == Settings(section, keys, values)
    ensures Regular(Block(section, keys, values), "")
  {
    hide Browse, Block, ReadableSettings, SettingsFit, Regular;
    BrowseNothing("", section);
    BrowseTail("", "", section, keys, values);
    RegularAlone(section, keys, values);
    assert Block(section, keys, values) + "" == Block(section, keys, values);
  }

  /** The same for a file that did not exist. */
  lemma FirstProfilesInSync(st: State, tid: nat, list: Profiles, maxMem: nat)
    requires tid < TWO_64 && ValidProfiles(list) && !Overruns(list)
    requires SameAnswers(st, EMPTY_STATE)
    ensures Regular(TitleBlock(tid, list), "")
    ensures SameAnswers(SetInMemory(st, tid, list), Loaded(TitleBlock(tid, list), maxMem)) <==>
              Faithful(tid, list, maxMem)
  {
    hide Browse, Regular, Settings, ProfileKeys, ProfileValues, ReadableSettings, SettingsFit;
    hide Block, SameAnswers, Names, Faithful, SetInMemory, PlainSection, EqualNoCase;
    var section := Hex(tid, 16);
    TitleSectionIsPlain(tid);
    TitleSettingsAreReadable(tid, list);
    BrowseBlockAlone(section, ProfileKeys(list, 0), ProfileValues(list, 0));
    assert [] + OwnSettings(tid, list) + [] == OwnSettings(tid, list);
    var none: seq<Entry> := [];
    assert none + none + none == none;
    SyncProfiles(st, none, none, none, tid, list, maxMem);
  }

  /** Settings that SetProfiles has no slots for, though every one of them would be read back: all
      clocks at 1000 MHz and no governors. */
  lemma FaithfulCanOverrun(tid: nat, maxMem: nat)
    requires tid > 0
    ensures var list := Profiles(seq(15, _ => 1000), 0);
            ValidProfiles(list) && Faithful(tid, list, maxMem) && Overruns(list)
  {
    var list := Profiles(seq(15, _ => 1000), 0);
    AllClocksCount(list, 0);
  }

  lemma {:induction false} AllClocksCount(list: Profiles, i: nat)
    requires ValidProfiles(list) && i <= 15
    ensures CountFrom(list, i) == 15 - i <==> forall j :: i <= j < 15 ==> list.mhz[j] != 0
    decreases 15 - i
  {
    if i < 15 { AllClocksCount(list, i + 1); }
  }

  // ----- the global values replaced -------------------------------------------------------------------------

  lemma ValueKey(k: nat)
    requires k < VALUE_COUNT
    ensures ParseValueName(ValueName(k)) == Some(k)
  {
    assert NamesValue(ValueName(k), k);
    ValueNameInjective(ValueName(k), k, ParseValueName(ValueName(k)).value);
  }

  // The values once the settings before the k-th have been read.
  ghost predicate PartialValues(v: seq<nat>, values: seq<nat>, k: nat) {
    && ValidValues(values) && k <= VALUE_COUNT && |v| == VALUE_COUNT
    && forall j :: 0 <= j < VALUE_COUNT ==> v[j] == if j < k then Sanitized(values)[j] else DefaultValue(j)
  }

  lemma {:induction false} FoldOwnValues(v: seq<nat>, values: seq<nat>, k: nat)
    requires PartialValues(v, values, k)
    ensures FoldValues(v, Settings(VALUES_SECTION, ValueKeys(values, k), ValueTexts(values, k))) == Sanitized(values)
    decreases VALUE_COUNT - k
  {
    if k == VALUE_COUNT {
      assert v == Sanitized(values);
    } else {
      var next := OwnValueStep(v, values, k);
      FoldOwnValues(next, values, k + 1);
    }
  }

  lemma OwnValueStep(v: seq<nat>, values: seq<nat>, k: nat) returns (next: seq<nat>)
    requires PartialValues(v, values, k) && k < VALUE_COUNT
    ensures PartialValues(next, values, k + 1)
    ensures FoldValues(v, Settings(VALUES_SECTION, ValueKeys(values, k), ValueTexts(values, k)))
         == FoldValues(next, Settings(VALUES_SECTION, ValueKeys(values, k + 1), ValueTexts(values, k + 1)))
  {
    hide ValueName, SignedDecimal64, ParseValueName, StrToUL, FoldValues, ValidValue, DefaultValue;
    ValueKeysStep(values, k, [], []);
    next := v[k := Sanitized(values)[k]];
    if IsStored(values, k) {
      var key, text := ValueName(k), SignedDecimal64(values[k]);
      var keys, texts := ValueKeys(values, k + 1), ValueTexts(values, k + 1);
      assert ValueKeys(values, k) == [key] + keys && ValueTexts(values, k) == [text] + texts;
      assert ([key] + keys)[1..] == keys && ([text] + texts)[1..] == texts;
      ValueKey(k);
      ReadSigned64(values[k]);
      assert next == ValuesStep(v, key, text);
      FoldFirstValue(v, key, text, Settings(VALUES_SECTION, keys, texts));
    } else {
      assert next == v;
    }
  }

  lemma FoldFirstValue(v: seq<nat>, key: string, text: string, rest: seq<Entry>)
    requires |v| == VALUE_COUNT
    ensures FoldValues(v, [Entry(VALUES_SECTION, key, text)] + rest) == FoldValues(ValuesStep(v, key, text), rest)
  {
    hide ValuesStep;
    assert ([Entry(VALUES_SECTION, key, text)] + rest)[1..] == rest;
  }

  lemma {:induction false} ValueSettingsGood(values: seq<nat>, k: nat)
    requires ValidValues(values) && k <= VALUE_COUNT
    ensures forall j :: 0 <= j < |ValueKeys(values, k)| ==>
              GoodSetting(ValueKeys(values, k)[j], ValueTexts(values, k)[j])
    decreases VALUE_COUNT - k
  {
    hide GoodSetting, ValueName, SignedDecimal64, IsStored, ValueKeys, ValueTexts;
    ValueKeysCases(values, k);
    if k < VALUE_COUNT {
      ValueSettingsGood(values, k + 1);
      ValueSettingGood(k, values[k]);
    }
  }

  lemma ValueKeysCases(values: seq<nat>, k: nat)
    requires ValidValues(values) && k <= VALUE_COUNT
    ensures k == VALUE_COUNT ==> ValueKeys(values, k) == ValueTexts(values, k) == []
    ensures k < VALUE_COUNT && IsStored(values, k) ==>
              && ValueKeys(values, k) == [ValueName(k)] + ValueKeys(values, k + 1)
              && ValueTexts(values, k) == [SignedDecimal64(values[k])] + ValueTexts(values, k + 1)
    ensures k < VALUE_COUNT && !IsStored(values, k) ==>
              ValueKeys(values, k) == ValueKeys(values, k + 1) && ValueTexts(values, k) == ValueTexts(values, k + 1)
  {
    hide IsStored, ValueName, SignedDecimal64;
  }

  lemma ValueSettingGood(k: nat, n: nat)
    requires k < VALUE_COUNT && n < TWO_64
    ensures GoodSetting(ValueName(k), SignedDecimal64(n))
  {
    hide Word, Numeric, Decimal, ValueName;
    ValueNameIsWord(k);
    PrintedIsNumeric(if n < TWO_64 / 2 then n else TWO_64 - n);
  }

  lemma ValuesSectionNames(e: Entry, t: nat)
    requires EqualNoCase(e.section, VALUES_SECTION)
    ensures !Names(e, t)
  {
  }

  lemma SyncValues(st: State, before: seq<Entry>, other: seq<Entry>, after: seq<Entry>, values: seq<nat>, maxMem: nat)
    requires ValidValues(values)
    requires SameAnswers(st, ApplyEntries(EMPTY_STATE, before + other + after, maxMem))
    requires forall e :: e in other ==> EqualNoCase(e.section, VALUES_SECTION)
    requires forall e :: e in before || e in after ==> e.section != VALUES_SECTION
    ensures var settings := Settings(VALUES_SECTION, ValueKeys(values, 0), ValueTexts(values, 0));
            SameAnswers(st.(values := Sanitized(values)), ApplyEntries(EMPTY_STATE, before + settings + after, maxMem))
  {
    hide ApplyEntries, EqualNoCase, Names, Settings, ValueKeys, ValueTexts, FoldTitle, FoldValues;
    var settings := Settings(VALUES_SECTION, ValueKeys(values, 0), ValueTexts(values, 0));
    var loaded := ApplyEntries(EMPTY_STATE, before + settings + after, maxMem);
    var was := ApplyEntries(EMPTY_STATE, before + other + after, maxMem);
    var memory := st.(values := Sanitized(values));
    SettingsInSection(VALUES_SECTION, ValueKeys(values, 0), ValueTexts(values, 0));
    SameSection(VALUES_SECTION);
    ValuesThree(before, settings, after, maxMem);
    FoldValuesOthers(DefaultValues(), before);
    FoldOwnValues(DefaultValues(), values, 0);
    FoldValuesOthers(Sanitized(values), after);
    forall t: nat ensures ViewTitle(memory, t) == ViewTitle(loaded, t) {
      forall e | e in settings || e in other ensures !Names(e, t) { ValuesSectionNames(e, t); }
      ViewThree(before, settings, after, maxMem, t);
      ViewThree(before, other, after, maxMem, t);
      var v := FoldTitle(NO_TITLE, before, maxMem, t);
      FoldTitleOthers(v, settings, maxMem, t);
      FoldTitleOthers(v, other, maxMem, t);
      assert ViewTitle(st, t) == ViewTitle(was, t);
      assert Mhz15(memory, t) == Mhz15(st, t);
    }
  }

  function ValuesBlock(values: seq<nat>): string
    requires ValidValues(values)
  {
    Block(VALUES_SECTION, ValueKeys(values, 0), ValueTexts(values, 0))
  }

  // The section of the values comes at most once.
  ghost predicate ValuesOnce(text: string) {
    forall e :: e in Before(text, VALUES_SECTION) || e in After(text, VALUES_SECTION) ==> e.section != VALUES_SECTION
  }

  lemma ValuesSectionIsPlain()
    ensures PlainSection(VALUES_SECTION)
  {
  }

  lemma ValueSettingsAreReadable(values: seq<nat>)
    requires ValidValues(values)
    ensures ReadableSettings(ValueKeys(values, 0), ValueTexts(values, 0))
    ensures SettingsFit(VALUES_SECTION, ValueKeys(values, 0), ValueTexts(values, 0))
  {
    hide ReadableSettings, SettingsFit, ValueKeys, ValueTexts, GoodSetting;
    ValueSettingsGood(values, 0);
    GoodIsReadable(VALUES_SECTION, ValueKeys(values, 0), ValueTexts(values, 0));
  }

  /** SetConfigValues changes the values as a load of the changed file would, whatever the
      values are. */
  lemma ValuesStayInSync(st: State, text: string, values: seq<nat>, maxMem: nat)
    requires ValidValues(values)
    requires Editable(text, VALUES_SECTION, ValueKeys(values, 0) == []) && ValuesOnce(text)
    requires SameAnswers(st, Loaded(text, maxMem))
    ensures var changed := PutSectionText(text, VALUES_SECTION, ValuesBlock(values));
            SameAnswers(st.(values := Sanitized(values)), Loaded(changed, maxMem))
  {
    hide Browse, Replaceable, HeaderFits, Settings, ValueKeys, ValueTexts, ReadableSettings, SettingsFit, ApplyEntries;
    hide PutSectionText, Block, SameAnswers, Names, PlainSection, EqualNoCase, Replaced, Before, After;
    ValuesSectionIsPlain();
    ValueSettingsAreReadable(values);
    BrowseNew(text, VALUES_SECTION, ValueKeys(values, 0), ValueTexts(values, 0));
    BrowseOld(text, VALUES_SECTION);
    SyncValues(st, Before(text, VALUES_SECTION), Replaced(text, VALUES_SECTION), After(text, VALUES_SECTION), values,
        maxMem);
  }

  lemma ValuesEditStaysRegular(text: string, values: seq<nat>)
    requires ValidValues(values) && Regular(text, "") && RoomFor(text, VALUES_SECTION, ValueKeys(values, 0) == [])
    ensures Regular(PutSectionText(text, VALUES_SECTION, ValuesBlock(values)), "")
  {
    hide ReadableSettings, SettingsFit, ValueKeys, ValueTexts, PlainSection, Regular, RoomFor, PutSectionText, Block;
    ValuesSectionIsPlain();
    ValueSettingsAreReadable(values);
    RegularStays(text, VALUES_SECTION, ValueKeys(values, 0), ValueTexts(values, 0));
  }

  /** The same for a file that did not exist. */
  lemma FirstValuesInSync(st: State, values: seq<nat>, maxMem: nat)
    requires ValidValues(values)
    requires SameAnswers(st, EMPTY_STATE)
    ensures Regular(ValuesBlock(values), "")
    ensures SameAnswers(st.(values := Sanitized(values)), Loaded(ValuesBlock(values), maxMem))
  {
    hide Browse, Regular, Settings, ValueKeys, ValueTexts, ReadableSettings, SettingsFit;
    hide Block, SameAnswers, Names, PlainSection, EqualNoCase;
    ValuesSectionIsPlain();
    ValueSettingsAreReadable(values);
    BrowseBlockAlone(VALUES_SECTION, ValueKeys(values, 0), ValueTexts(values, 0));
    var settings := Settings(VALUES_SECTION, ValueKeys(values, 0), ValueTexts(values, 0));
    assert [] + settings + [] == settings;
    var none: seq<Entry> := [];
    assert none + none + none == none;
    SyncValues(st, none, none, none, values, maxMem);
  }
}
