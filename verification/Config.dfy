/** sys-clk's Config: config.ini and the maps that cache it. */
module Config {
  import opened Basics
  import opened CText
  import opened CNumbers
  import opened IniLines
  import opened IniQuoting
  import opened IniBuffer
  import opened IniSection
  import opened IniBrowse
  import opened IniRoundTrip
  import opened IniRegular
  import opened ConfigState
  import opened ConfigSettings
  import opened ConfigSlots
  import opened ConfigSync
  import opened ConfigHistory

  class ConfigStore {
    const file: IniFile
    const maxMem: nat             // Clocks::maxMemFreq in MHz
    var loaded: bool
    var profileMhzMap: map<Clock, nat>
    var profileCountMap: map<nat, nat>
    var profileGovernorMap: map<nat, nat>
    var configValues: seq<nat>

    ghost predicate Valid()
      reads this, file
    {
      |configValues| == VALUE_COUNT && NulFree(file.text)
    }

    ghost function Cache(): State
      reads this
    {
      State(profileMhzMap, profileCountMap, profileGovernorMap, configValues)
    }

    // What a load would give now.
    ghost function OnDisk(): State
      reads this, file
    {
      if file.present then Loaded(file.text, maxMem) else EMPTY_STATE
    }

    // Every question about a title or a value gets the answer it would get after a load.
    ghost predicate InSync()
      reads this, file
    {
      SameAnswers(Cache(), OnDisk())
    }

    // The file, if there is one, is made of sections that SetProfiles and SetConfigValues wrote.
    ghost predicate OnlyOurs()
      reads this, file
    {
      file.present ==> OurText(file.text)
    }

    // A load notices nothing of a change of the title's settings but these: the file is our own, or
    // the section can be replaced and no other place in the file speaks of the title.
    ghost predicate CanTakeTitle(tid: nat, list: Profiles)
      requires ValidProfiles(list)
      reads this, file
    {
      OnlyOurs() || (Editable(file.text, Hex(tid, 16), ProfileKeys(list, 0) == []) && TitleOnce(file.text, tid))
    }

    ghost predicate CanTakeValues(values: seq<nat>)
      requires ValidValues(values)
      reads this, file
    {
      OnlyOurs() || (Editable(file.text, VALUES_SECTION, ValueKeys(values, 0) == []) && ValuesOnce(file.text))
    }

    // The lines of the file fit, and will after the change.
    ghost predicate TitleKeepsRegular(tid: nat, list: Profiles)
      requires ValidProfiles(list)
      reads this, file
    {
      file.present ==> Regular(file.text, "") && RoomFor(file.text, Hex(tid, 16), ProfileKeys(list, 0) == [])
    }

    ghost predicate ValuesKeepRegular(values: seq<nat>)
      requires ValidValues(values)
      reads this, file
    {
      file.present ==> Regular(file.text, "") && RoomFor(file.text, VALUES_SECTION, ValueKeys(values, 0) == [])
    }

    constructor (file: IniFile, maxMem: nat)
      requires NulFree(file.text)
      ensures Valid() && this.file == file && this.maxMem == maxMem
      ensures !loaded && Cache() == EMPTY_STATE
    {
      this.file, this.maxMem, loaded := file, maxMem, false;
      profileMhzMap, profileCountMap, profileGovernorMap := map[], map[], map[];
      configValues := DefaultValues();
    }

    method Close()
      requires Valid()
      modifies this
      ensures Valid() && !loaded && Cache() == EMPTY_STATE
    {
      loaded := false;
      profileMhzMap, profileCountMap, profileGovernorMap := map[], map[], map[];
      var i := 0;
      while i < VALUE_COUNT
        invariant i <= VALUE_COUNT == |configValues|
        invariant forall k :: 0 <= k < i ==> configValues[k] == DefaultValue(k)
        invariant !loaded && profileMhzMap == map[] && profileCountMap == map[] && profileGovernorMap == map[]
        modifies `configValues
      {
        configValues := configValues[i := DefaultValue(i)];
        i := i + 1;
      }
      assert configValues == DefaultValues();
    }

    /** Load: forget everything and read the file again. */
    method Load()
      requires Valid()
      modifies this
      ensures Valid() && loaded
      ensures Cache() == OnDisk() && InSync()
    {
      hide Browse, ApplyEntry;
      Close();
      if file.present {
        // BrowseIniFunc always wants more.
        var entries := BrowseFile(file.text, _ => true);
        HeardAll(Browse(file.text, ""), _ => true, 0);
        var i := 0;
        assert entries[..0] == [];
        while i < |entries|
          invariant i <= |entries| && Valid()
          invariant Cache() == ApplyEntries(EMPTY_STATE, entries[..i], maxMem)
        {
          BrowseIniFunc(entries[i]);
          ApplyEntriesLast(EMPTY_STATE, entries[..i], entries[i], maxMem);
          assert entries[..i + 1] == entries[..i] + [entries[i]];
          i := i + 1;
        }
        assert entries[..i] == entries;
      }
      loaded := true;
    }

    // The callback of ini_browse.
    method BrowseIniFunc(e: Entry)
      requires Valid()
      modifies `profileMhzMap, `profileCountMap, `profileGovernorMap, `configValues
      ensures Valid()
      ensures Cache() == ApplyEntry(old(Cache()), e, maxMem)
    {
      if e.section == VALUES_SECTION {
        TakeValueLine(e);
        return;
      }
      hide StrToUL;
      var tid := StrToUL(e.section, 16);
      if tid == 0 || |e.section| != 16 { return; }
      TakeTitleLine(tid, e);
    }

    method TakeTitleLine(tid: nat, e: Entry)
      requires Valid()
      modifies `profileMhzMap, `profileCountMap, `profileGovernorMap
      ensures Valid()
      ensures Cache() == ApplyTitleLine(old(Cache()), tid, e.key, e.value, maxMem)
    {
      hide ParseClock, StrToUL;
      if e.key == GOVERNOR_KEY {
        var input := StrToUL(e.value, 0);
        if input > GOVERNOR_MASK { input := GOVERNOR_DEFAULT; }
        profileGovernorMap := profileGovernorMap[tid := input];
        return;
      }
      var clock := FindClock(e.key);
      if clock.None? { return; }
      var (p, m) := clock.value;
      var mhz := StrToUL(e.value, 10) % TWO_32;
      if mhz == 0 { return; }
      if m == MEM && mhz > 1600 { mhz := maxMem; }
      TakeClock(tid, p, m, mhz);
    }

    method TakeClock(tid: nat, p: Profile, m: Mod, mhz: nat)
      requires Valid()
      modifies `profileMhzMap, `profileCountMap
      ensures Valid()
      ensures Cache() == CountClock(old(Cache()), tid, p, m, mhz)
    {
      profileMhzMap := profileMhzMap[(tid, p, m) := mhz];
      profileCountMap := profileCountMap[tid := if tid in profileCountMap then (profileCountMap[tid] + 1) % 256 else 1];
    }

    method TakeValueLine(e: Entry)
      requires Valid()
      modifies `configValues
      ensures Valid()
      ensures Cache() == ApplyValueLine(old(Cache()), e.key, e.value)
    {
      var kval := 0;
      while kval < VALUE_COUNT
        invariant kval <= VALUE_COUNT
        invariant forall k :: 0 <= k < kval ==> !NamesValue(e.key, k)
        invariant configValues == old(configValues)
      {
        if e.key == ValueName(kval) {
          assert NamesValue(e.key, kval);
          ValueNameInjective(e.key, kval, ParseValueName(e.key).value);
          var input := StrToUL(e.value, 0);
          if !ValidValue(kval, input) { input := DefaultValue(kval); }
          configValues := configValues[kval := input];
          return;
        }
        kval := kval + 1;
      }
    }

    // The profile and module a key names: a profile name, '_' and a module name.
    static method FindClock(key: string) returns (r: Option<(Profile, Mod)>)
      ensures r == ParseClock(key)
    {
      hide ParseClock, NamesClock;
      r := None;
      var i := 0;
      while i < |PROFILES|
        invariant i <= |PROFILES|
        invariant r.Some? ==> NamesClock(key, r.value.0, r.value.1)
        invariant r.None? ==> forall j, m :: 0 <= j < i ==> !NamesClock(key, PROFILES[j], m)
      {
        var found := FindModule(key, PROFILES[i]);
        if found.Some? { r := Some((PROFILES[i], found.value)); }
        i := i + 1;
      }
      if r.Some? {
        ClockIs(key, r.value.0, r.value.1);
      } else {
        NoClock(key);
      }
    }

    static method FindModule(key: string, p: Profile) returns (r: Option<Mod>)
      ensures r.Some? ==> NamesClock(key, p, r.value)
      ensures r.None? ==> forall m :: !NamesClock(key, p, m)
    {
      hide ProfileName;
      r := None;
      var code := ProfileName(p);
      if |code| < |key| && key[..|code|] == code && key[|code|] == '_' {
        var subkey := key[|code| + 1..];
        assert key == code + "_" + subkey;
        var j := 0;
        while j < |MODULES|
          invariant j <= |MODULES|
          invariant r.Some? ==> subkey == ModuleName(r.value)
          invariant r.None? ==> forall k :: 0 <= k < j ==> subkey != ModuleName(MODULES[k])
        {
          if subkey == ModuleName(MODULES[j]) { r := Some(MODULES[j]); }
          j := j + 1;
        }
        if r.None? { NoModule(key, p, code, subkey); }
      } else {
        NoProfile(key, p);
      }
    }

    // ----- answers --------------------------------------------------------------------------

    method FindClockMhz(tid: nat, m: Mod, p: Profile) returns (mhz: nat)
      requires Valid()
      ensures mhz == if loaded then ClockOf(Cache(), tid, m, p) else 0
    {
      mhz := 0;
      if loaded {
        var c := (tid, p, m);
        if c in profileMhzMap { mhz := profileMhzMap[c]; }
      }
    }

    // Before a load there are no clocks.
    method GetProfiles(tid: nat) returns (list: Profiles)
      requires Valid()
      ensures |list.mhz| == 15
      ensures forall i :: 0 <= i < 15 ==> list.mhz[i] == if loaded then MhzAnswer(Cache(), tid, i) else 0
      ensures list.governor == GovernorAnswer(Cache(), tid)
    {
      var mhz := [];
      while |mhz| < 15
        invariant |mhz| <= 15
        invariant forall i :: 0 <= i < |mhz| ==> mhz[i] == if loaded then MhzAnswer(Cache(), tid, i) else 0
        decreases 15 - |mhz|
      {
        var clock := FindClockMhz(tid, ModuleAt(|mhz|), ProfileAt(|mhz|));
        mhz := mhz + [clock];
      }
      list := Profiles(mhz, if tid in profileGovernorMap then profileGovernorMap[tid] else GOVERNOR_DEFAULT);
    }

    // GetTitleGovernorConfig, for a loaded configuration the governor setting of GetProfiles.
    method GetTitleGovernorConfig(tid: nat) returns (governor: nat)
      requires Valid()
      ensures governor == if loaded then GovernorAnswer(Cache(), tid) else GOVERNOR_DEFAULT
    {
      governor := GOVERNOR_DEFAULT;
      if loaded && tid in profileGovernorMap { governor := profileGovernorMap[tid]; }
    }

    method GetProfileCount(tid: nat) returns (n: nat)
      requires Valid()
      ensures n == CountOf(Cache(), tid)
    {
      n := if tid in profileCountMap then profileCountMap[tid] else 0;
    }

    // GetAutoClockHz: the first of the profile's fallbacks that has a clock.
    method GetAutoClockHz(tid: nat, m: Mod, p: Profile) returns (hz: nat)
      requires Valid()
      ensures hz == if loaded then FirstClock(Cache(), tid, m, Fallbacks(p)) * 1000000 % TWO_32 else 0
    {
      var profiles := Fallbacks(p);
      var mhz := 0;
      if loaded {
        var i := 0;
        while i < |profiles|
          invariant i <= |profiles|
          invariant mhz == 0 && FirstClock(Cache(), tid, m, profiles) == FirstClock(Cache(), tid, m, profiles[i..])
        {
          mhz := FindClockMhz(tid, m, profiles[i]);
          if mhz != 0 { break; }
          i := i + 1;
        }
      }
      hz := mhz * 1000000 % TWO_32;
    }

    // ----- changes ---------------------------------------------------------------------------

    /** SetProfiles: write the title's section and, with `immediate`, change the maps.  With all
        clocks and a governor setting it prints outside its arrays; `inside` says that it does not,
        and nothing is said of what happens if it does. */
    method SetProfiles(tid: nat, list: Profiles, immediate: bool, canWrite: bool) returns (inside: bool, r: Outcome)
      requires Valid() && tid < TWO_64 && ValidProfiles(list)
      modifies this, file
      ensures inside <==> !Overruns(list)
      ensures inside ==> Valid() && loaded == old(loaded)
      ensures inside && r == Done(true) ==>
                file.present && file.text == TitleText(old(file.present), old(file.text), tid, list)
      ensures inside && r == Done(true) && immediate ==> Cache() == SetInMemory(old(Cache()), tid, list)
      ensures inside && r == Done(true) && immediate && old(InSync() && CanTakeTitle(tid, list)) ==>
                (InSync() <==> Faithful(tid, list, maxMem))
      ensures inside && canWrite && old(OnlyOurs()) ==> r == Done(true) && OnlyOurs()
      ensures inside && r == Done(true) && old(TitleKeepsRegular(tid, list)) ==> Regular(file.text, "")
      ensures inside && r == Done(true) && !immediate ==> Cache() == old(Cache())
      ensures inside && r != Done(true) ==>
                Cache() == old(Cache()) && file.text == old(file.text) && file.present == old(file.present)
      ensures inside ==> (r == Done(false) <==> !canWrite)
    {
      hide TitleText, Overruns, Regular, RoomFor, Editable, TitleOnce, SameAnswers, SetInMemory, Faithful;
      hide ProfileKeys, Loaded, Hex, OurText;
      inside, r := StoreTitle(tid, list, canWrite);
      if !inside || r != Done(true) { return; }
      TitleFileStaysRegular(old(file.present), old(file.text), tid, list);
      TitleFileIsOurs(old(file.present), old(file.text), tid, list);
      if immediate {
        Remember(tid, list);
        if old(InSync() && CanTakeTitle(tid, list)) {
          TitleFileInSync(old(Cache()), old(file.present), old(file.text), tid, list, maxMem);
        }
      }
    }

    method StoreTitle(tid: nat, list: Profiles, canWrite: bool) returns (inside: bool, r: Outcome)
      requires Valid() && tid < TWO_64 && ValidProfiles(list)
      modifies file
      ensures inside <==> !Overruns(list)
      ensures inside ==> Valid() && (r == Done(false) <==> !canWrite)
      ensures inside && canWrite && old(OnlyOurs()) ==> r == Done(true)
      ensures inside && r == Done(true) ==>
                file.present && file.text == TitleText(old(file.present), old(file.text), tid, list)
      ensures inside && r != Done(true) ==> file.text == old(file.text) && file.present == old(file.present)
    {
      hide Block, PutSectionText, PutSectionHangs, Overruns, NulFree, ProfileKeys, ProfileValues, Hex, Loaded;
      hide OurText;
      TitleNeverHangs(file.present, file.text, tid, list);
      r := Done(false);
      var keys, values;
      inside, keys, values := BuildSettings(list);
      if !inside { return; }
      var section := Hex(tid, 16);
      SettingsNulFree(tid, list);
      r := file.PutSection(section, keys, values, canWrite);
      BlockNulFree(section, keys, values);
      if r != Done(true) { return; }
      PutSectionNulFree(old(file.text), section, Block(section, keys, values));
    }

    // The settings, printed into their slots.
    static method BuildSettings(list: Profiles) returns (inside: bool, keys: seq<string>, values: seq<string>)
      requires ValidProfiles(list)
      ensures inside <==> !Overruns(list)
      ensures inside ==> keys == ProfileKeys(list, 0) && values == ProfileValues(list, 0)
    {
      hide KeyName, SignedDecimal32, ProfileKeys, ProfileValues, ProfileAt, ModuleAt, CountFrom, Slots.Valid;
      keys, values := [], [];
      var keysStr := new Slots(15, 0x40);
      var valuesStr := new Slots(15, 0x10);
      CountNone(list);
      var i := 0;
      while i < 15
        invariant i <= 15 && keysStr.Valid() && valuesStr.Valid() && fresh(keysStr) && fresh(valuesStr)
        invariant fresh(keysStr.chars) && fresh(valuesStr.chars) && keysStr.chars != valuesStr.chars
        invariant keysStr.texts + ProfileKeys(list, i) == ProfileKeys(list, 0)
        invariant valuesStr.texts + ProfileValues(list, i) == ProfileValues(list, 0)
        invariant |keysStr.texts| == |valuesStr.texts| == CountFrom(list, 0) - CountFrom(list, i) <= i
      {
        ProfileKeysStep(list, i, keysStr.texts, valuesStr.texts);
        CountStep(list, i);
        if list.mhz[i] != 0 {
          ClockFitsSlots(ProfileAt(i), ModuleAt(i), list.mhz[i]);
          inside := keysStr.Print(KeyName(ProfileAt(i), ModuleAt(i)));
          inside := valuesStr.Print(SignedDecimal32(list.mhz[i]));
        }
        i := i + 1;
      }
      ProfileKeysEnd(list);
      inside := true;
      if list.governor != GOVERNOR_DEFAULT {
        GovernorFitsSlots(list.governor);
        inside := keysStr.Print(GOVERNOR_KEY);
        if !inside { return; }
        inside := valuesStr.Print(SignedDecimal32(list.governor));
      }
      keys := keysStr.Read();
      values := valuesStr.Read();
    }

    method Remember(tid: nat, list: Profiles)
      requires Valid() && ValidProfiles(list)
      modifies `profileMhzMap, `profileCountMap, `profileGovernorMap
      ensures Cache() == SetInMemory(old(Cache()), tid, list)
    {
      hide ProfileAt, ModuleAt, SetClock, CountFrom;
      var count := 0;
      var i := 0;
      SetClockStart(profileMhzMap, tid, list);
      CountNone(list);
      while i < 15
        invariant i <= 15
        invariant profileMhzMap == SetClock(old(profileMhzMap), tid, list, i)
        invariant count + CountFrom(list, i) == CountFrom(list, 0)
        invariant profileCountMap == old(profileCountMap) && profileGovernorMap == old(profileGovernorMap)
      {
        SetClockStep(old(profileMhzMap), tid, list, i);
        CountStep(list, i);
        var c := (tid, ProfileAt(i), ModuleAt(i));
        if list.mhz[i] != 0 {
          count := count + 1;
          profileMhzMap := profileMhzMap[c := list.mhz[i]];
        } else {
          profileMhzMap := profileMhzMap - {c};
        }
        i := i + 1;
      }
      profileCountMap := profileCountMap[tid := count];
      if list.governor == GOVERNOR_DEFAULT {
        profileGovernorMap := profileGovernorMap - {tid};
      } else {
        profileGovernorMap := profileGovernorMap[tid := list.governor];
      }
    }

    // The values that are valid and not the default, printed into their slots; there are enough.
    static method BuildValues(values: seq<nat>) returns (keys: seq<string>, texts: seq<string>)
      requires ValidValues(values)
      ensures keys == ValueKeys(values, 0) && texts == ValueTexts(values, 0)
    {
      hide ValueName, SignedDecimal64, ValidValue, DefaultValue, ValueKeys, ValueTexts, Slots.Valid;
      keys := [];
      var valuesStr := new Slots(VALUE_COUNT, 0x20);
      var k := 0;
      while k < VALUE_COUNT
        invariant k <= VALUE_COUNT && valuesStr.Valid() && fresh(valuesStr) && fresh(valuesStr.chars)
        invariant |valuesStr.texts| <= k
        invariant keys + ValueKeys(values, k) == ValueKeys(values, 0)
        invariant valuesStr.texts + ValueTexts(values, k) == ValueTexts(values, 0)
      {
        ValueKeysStep(values, k, keys, valuesStr.texts);
        if ValidValue(k, values[k]) && values[k] != DefaultValue(k) {
          ValueFitsSlot(values[k]);
          keys := keys + [ValueName(k)];
          var inside := valuesStr.Print(SignedDecimal64(values[k]));
        }
        k := k + 1;
      }
      ValueKeysEnd(values);
      texts := valuesStr.Read();
    }

    /** SetConfigValues: write the values that are valid and not the default. */
    method SetConfigValues(values: seq<nat>, immediate: bool, canWrite: bool) returns (r: Outcome)
      requires Valid() && ValidValues(values)
      modifies this, file
      ensures Valid() && loaded == old(loaded)
      ensures r == Done(true) ==>
                file.present && file.text == ValuesText(old(file.present), old(file.text), values)
      ensures r == Done(true) && immediate ==> Cache() == old(Cache()).(values := Sanitized(values))
      ensures r == Done(true) && immediate && old(InSync() && CanTakeValues(values)) ==> InSync()
      ensures canWrite && old(OnlyOurs()) ==> r == Done(true) && OnlyOurs()
      ensures r == Done(true) && old(ValuesKeepRegular(values)) ==> Regular(file.text, "")
      ensures r == Done(true) && !immediate ==> Cache() == old(Cache())
      ensures r != Done(true) ==>
                Cache() == old(Cache()) && file.text == old(file.text) && file.present == old(file.present)
      ensures r == Done(false) <==> !canWrite
    {
      hide ValuesText, Regular, RoomFor, Editable, ValuesOnce, SameAnswers, ValueKeys, Loaded, ValidValues, OurText;
      r := StoreValues(values, canWrite);
      if r != Done(true) { return; }
      ValuesFileStaysRegular(old(file.present), old(file.text), values);
      ValuesFileIsOurs(old(file.present), old(file.text), values);
      if immediate {
        configValues := Sanitized(values);
        if old(InSync() && CanTakeValues(values)) {
          ValuesFileInSync(old(Cache()), old(file.present), old(file.text), values, maxMem);
        }
      }
    }

    method StoreValues(values: seq<nat>, canWrite: bool) returns (r: Outcome)
      requires Valid() && ValidValues(values)
      modifies file
      ensures Valid() && (r == Done(false) <==> !canWrite)
      ensures canWrite && old(OnlyOurs()) ==> r == Done(true)
      ensures r == Done(true) ==>
                file.present && file.text == ValuesText(old(file.present), old(file.text), values)
      ensures r != Done(true) ==> file.text == old(file.text) && file.present == old(file.present)
    {
      hide Block, PutSectionText, PutSectionHangs, NulFree, ValueKeys, ValueTexts, OurText;
      ValuesNeverHang(file.present, file.text, values);
      var keys, texts := BuildValues(values);
      ValuesNulFree(values, 0);
      r := file.PutSection(VALUES_SECTION, keys, texts, canWrite);
      BlockNulFree(VALUES_SECTION, keys, texts);
      if r != Done(true) { return; }
      PutSectionNulFree(old(file.text), VALUES_SECTION, Block(VALUES_SECTION, keys, texts));
    }
  }

  // The file after SetProfiles and after SetConfigValues.
  ghost function TitleText(present: bool, text: string, tid: nat, list: Profiles): string
    requires ValidProfiles(list)
  {
    if present then PutSectionText(text, Hex(tid, 16), TitleBlock(tid, list)) else TitleBlock(tid, list)
  }

  ghost function ValuesText(present: bool, text: string, values: seq<nat>): string
    requires ValidValues(values)
  {
    if present then PutSectionText(text, VALUES_SECTION, ValuesBlock(values)) else ValuesBlock(values)
  }

  lemma TitleFileStaysRegular(present: bool, text: string, tid: nat, list: Profiles)
    requires tid < TWO_64 && ValidProfiles(list) && !Overruns(list)
    ensures (present ==> Regular(text, "") && RoomFor(text, Hex(tid, 16), ProfileKeys(list, 0) == [])) ==>
              Regular(TitleText(present, text, tid, list), "")
  {
    hide Regular, RoomFor, PutSectionText, TitleBlock, Overruns, Loaded, Hex, ProfileKeys;
    if !present {
      FirstProfilesInSync(EMPTY_STATE, tid, list, 0);
    } else if Regular(text, "") && RoomFor(text, Hex(tid, 16), ProfileKeys(list, 0) == []) {
      TitleEditStaysRegular(text, tid, list);
    }
  }

  // In a file of our own nothing hangs, titles and values come once, and it stays our own.
  lemma TitleFileIsOurs(present: bool, text: string, tid: nat, list: Profiles)
    requires tid < TWO_64 && ValidProfiles(list)
    ensures (present ==> OurText(text)) ==> OurText(TitleText(present, text, tid, list))
    ensures present && OurText(text) ==>
              Editable(text, Hex(tid, 16), ProfileKeys(list, 0) == []) && TitleOnce(text, tid)
  {
    hide PutSectionText, Block, IsOurs, ReadableSettings, SettingsFit, ProfileKeys, ProfileValues, Editable,
         TitleOnce, Hex;
    SectionIsShort(SetTitle(tid, list));
    TitleSettingsAreReadable(tid, list);
    if present ==> OurText(text) {
      OurFileStays(present, text, Hex(tid, 16), ProfileKeys(list, 0), ProfileValues(list, 0));
    }
    if present && OurText(text) {
      var lead, pieces :| IsOurs(lead, pieces, text);
      TitleIsOnce(lead, pieces, text, tid, ProfileKeys(list, 0) == []);
    }
  }

  lemma TitleNeverHangs(present: bool, text: string, tid: nat, list: Profiles)
    requires ValidProfiles(list)
    ensures present && OurText(text) ==> !PutSectionHangs(text, Hex(tid, 16), TitleBlock(tid, list))
  {
    hide OurText, PutSectionHangs, TitleBlock, Hex;
    SectionIsShort(SetTitle(tid, list));
    if present && OurText(text) { OurFileNeverHangs(text, Hex(tid, 16), TitleBlock(tid, list)); }
  }

  lemma ValuesFileIsOurs(present: bool, text: string, values: seq<nat>)
    requires ValidValues(values)
    ensures (present ==> OurText(text)) ==> OurText(ValuesText(present, text, values))
    ensures present && OurText(text) ==> Editable(text, VALUES_SECTION, ValueKeys(values, 0) == []) && ValuesOnce(text)
  {
    hide PutSectionText, Block, IsOurs, ReadableSettings, SettingsFit, ValueKeys, ValueTexts, Editable, ValuesOnce;
    SectionIsShort(SetValues(values));
    ValueSettingsAreReadable(values);
    if present ==> OurText(text) {
      OurFileStays(present, text, VALUES_SECTION, ValueKeys(values, 0), ValueTexts(values, 0));
    }
    if present && OurText(text) {
      var lead, pieces :| IsOurs(lead, pieces, text);
      ValuesAreOnce(lead, pieces, text, ValueKeys(values, 0) == []);
    }
  }

  lemma ValuesNeverHang(present: bool, text: string, values: seq<nat>)
    requires ValidValues(values)
    ensures present && OurText(text) ==> !PutSectionHangs(text, VALUES_SECTION, ValuesBlock(values))
  {
    hide OurText, PutSectionHangs, ValuesBlock;
    SectionIsShort(SetValues(values));
    if present && OurText(text) { OurFileNeverHangs(text, VALUES_SECTION, ValuesBlock(values)); }
  }

  lemma TitleFileInSync(st: State, present: bool, text: string, tid: nat, list: Profiles, maxMem: nat)
    requires tid < TWO_64 && ValidProfiles(list) && !Overruns(list)
    requires present ==> Editable(text, Hex(tid, 16), ProfileKeys(list, 0) == []) && TitleOnce(text, tid)
    requires SameAnswers(st, if present then Loaded(text, maxMem) else EMPTY_STATE)
    ensures SameAnswers(SetInMemory(st, tid, list), Loaded(TitleText(present, text, tid, list), maxMem))
       <==> Faithful(tid, list, maxMem)
  {
    hide Editable, PutSectionText, TitleBlock, Overruns, Loaded, SameAnswers, SetInMemory, Faithful, TitleOnce, Hex;
    if present {
      ProfilesStayInSync(st, text, tid, list, maxMem);
    } else {
      FirstProfilesInSync(st, tid, list, maxMem);
    }
  }

  lemma ValuesFileStaysRegular(present: bool, text: string, values: seq<nat>)
    requires ValidValues(values)
    ensures (present ==> Regular(text, "") && RoomFor(text, VALUES_SECTION, ValueKeys(values, 0) == [])) ==>
              Regular(ValuesText(present, text, values), "")
  {
    hide Regular, RoomFor, PutSectionText, ValuesBlock, Loaded, ValueKeys;
    if !present {
      FirstValuesInSync(EMPTY_STATE, values, 0);
    } else if Regular(text, "") && RoomFor(text, VALUES_SECTION, ValueKeys(values, 0) == []) {
      ValuesEditStaysRegular(text, values);
    }
  }

  lemma ValuesFileInSync(st: State, present: bool, text: string, values: seq<nat>, maxMem: nat)
    requires ValidValues(values)
    requires present ==> Editable(text, VALUES_SECTION, ValueKeys(values, 0) == []) && ValuesOnce(text)
    requires SameAnswers(st, if present then Loaded(text, maxMem) else EMPTY_STATE)
    ensures SameAnswers(st.(values := Sanitized(values)), Loaded(ValuesText(present, text, values), maxMem))
  {
    hide Editable, PutSectionText, ValuesBlock, Loaded, SameAnswers, ValuesOnce, ValueKeys;
    if present {
      ValuesStayInSync(st, text, values, maxMem);
    } else {
      FirstValuesInSync(st, values, maxMem);
    }
  }

  // ----- lemmas about the slots ------------------------------------------------------------------

  lemma CountNone(list: Profiles)
    requires ValidProfiles(list)
    ensures CountFrom(list, 15) == 0
  {
  }

  lemma CountStep(list: Profiles, i: nat)
    requires ValidProfiles(list) && i < 15
    ensures CountFrom(list, i) == (if list.mhz[i] != 0 then 1 else 0) + CountFrom(list, i + 1)
  {
  }

  lemma ClockFitsSlots(p: Profile, m: Mod, mhz: nat)
    requires mhz < TWO_32
    ensures NulFree(KeyName(p, m)) && |KeyName(p, m)| < 0x40
    ensures NulFree(SignedDecimal32(mhz)) && |SignedDecimal32(mhz)| < 0x10
  {
    hide ProfileName, ModuleName;
    KeyNameIsWord(p, m);
    KeyNameNulFree(p, m);
    Signed32NulFree(mhz);
    Signed32IsShort(mhz);
  }

  lemma GovernorFitsSlots(governor: nat)
    requires governor < TWO_32
    ensures NulFree(GOVERNOR_KEY) && |GOVERNOR_KEY| < 0x40
    ensures NulFree(SignedDecimal32(governor)) && |SignedDecimal32(governor)| < 0x10
  {
    Signed32NulFree(governor);
    Signed32IsShort(governor);
  }

  lemma Signed32IsShort(n: nat)
    requires n < TWO_32
    ensures |SignedDecimal32(n)| <= 11
  {
    assert Power10(5) == 100000;
    assert Power10(10) == 100000 * Power10(5);
    DecimalLength(if n < TWO_32 / 2 then n else TWO_32 - n, 10);
  }

  lemma ValueFitsSlot(n: nat)
    requires n < TWO_64
    ensures NulFree(SignedDecimal64(n)) && |SignedDecimal64(n)| < 0x20
  {
    Signed64NulFree(n);
    DecimalBound(if n < TWO_64 / 2 then n else TWO_64 - n);
  }

  lemma SetClockStart(mhz: map<Clock, nat>, tid: nat, list: Profiles)
    requires ValidProfiles(list)
    ensures SetClock(mhz, tid, list, 0) == mhz
  {
  }

  lemma SetClockStep(mhz: map<Clock, nat>, tid: nat, list: Profiles, i: nat)
    requires ValidProfiles(list) && i < 15
    ensures var c := (tid, ProfileAt(i), ModuleAt(i));
            var before := SetClock(mhz, tid, list, i);
            SetClock(mhz, tid, list, i + 1) == if list.mhz[i] != 0 then before[c := list.mhz[i]] else before - {c}
  {
    hide ProfileAt, ModuleAt;
  }

  // ----- lemmas for the methods -----------------------------------------------------------------

  lemma NoProfile(key: string, p: Profile)
    requires var code := ProfileName(p); !(|code| < |key| && key[..|code|] == code && key[|code|] == '_')
    ensures forall m :: !NamesClock(key, p, m)
  {
    forall m ensures !NamesClock(key, p, m) {
      var name := KeyName(p, m);
      assert name[..|ProfileName(p)|] == ProfileName(p) && name[|ProfileName(p)|] == '_';
    }
  }

  lemma NoModule(key: string, p: Profile, code: string, subkey: string)
    requires code == ProfileName(p) && key == code + "_" + subkey
    requires forall k :: 0 <= k < |MODULES| ==> subkey != ModuleName(MODULES[k])
    ensures forall m :: !NamesClock(key, p, m)
  {
    assert MODULES[0] == CPU && MODULES[1] == GPU && MODULES[2] == MEM;
    forall m ensures !NamesClock(key, p, m) {
      assert KeyName(p, m)[|code| + 1..] == ModuleName(m) && key[|code| + 1..] == subkey;
    }
  }

  lemma NoClock(key: string)
    requires forall j, m :: 0 <= j < |PROFILES| ==> !NamesClock(key, PROFILES[j], m)
    ensures ParseClock(key) == None
  {
    assert PROFILES[0] == Handheld && PROFILES[1] == HandheldCharging && PROFILES[2] == HandheldChargingUSB;
    assert PROFILES[3] == HandheldChargingOfficial && PROFILES[4] == Docked;
    hide NamesClock;
    assert forall p, m :: NamesClock(key, p, m) ==> p in PROFILES;
  }

  lemma ClockIs(key: string, p: Profile, m: Mod)
    requires NamesClock(key, p, m)
    ensures ParseClock(key) == Some((p, m))
  {
    var c := ParseClock(key).value;
    KeyNameInjective(p, m, c.0, c.1);
  }

  lemma DecimalNulFree(n: nat)
    ensures NulFree(Decimal(n))
  {
    DecimalDigits(n);
  }

  lemma HexNulFree(n: nat, width: nat)
    ensures NulFree(Hex(n, width))
  {
  }

  lemma KeysNulFree(list: Profiles, i: nat)
    requires ValidProfiles(list) && i <= 15
    ensures forall k :: k in ProfileKeys(list, i) ==> NulFree(k)
    ensures forall v :: v in ProfileValues(list, i) ==> NulFree(v)
    decreases 15 - i
  {
    if i == 15 {
      Signed32NulFree(list.governor);
    } else {
      KeysNulFree(list, i + 1);
      Signed32NulFree(list.mhz[i]);
      KeyNameNulFree(ProfileAt(i), ModuleAt(i));
    }
  }

  lemma Signed32NulFree(n: nat)
    requires n < TWO_32
    ensures NulFree(SignedDecimal32(n))
  {
    DecimalNulFree(if n < TWO_32 / 2 then n else TWO_32 - n);
  }

  lemma KeyNameNulFree(p: Profile, m: Mod)
    ensures NulFree(KeyName(p, m))
  {
  }

  lemma SettingsNulFree(tid: nat, list: Profiles)
    requires ValidProfiles(list)
    ensures forall k :: k in ProfileKeys(list, 0) ==> NulFree(k)
    ensures forall v :: v in ProfileValues(list, 0) ==> NulFree(v)
    ensures NulFree(Hex(tid, 16))
  {
    KeysNulFree(list, 0);
    HexNulFree(tid, 16);
  }

  lemma ValuesNulFree(values: seq<nat>, k: nat)
    requires ValidValues(values) && k <= VALUE_COUNT
    ensures forall s :: s in ValueKeys(values, k) ==> NulFree(s)
    ensures forall s :: s in ValueTexts(values, k) ==> NulFree(s)
    ensures NulFree(VALUES_SECTION)
    decreases VALUE_COUNT - k
  {
    hide IsStored;
    if k < VALUE_COUNT {
      ValuesNulFree(values, k + 1);
      ValueNameNulFree(k);
      Signed64NulFree(values[k]);
    }
  }

  lemma ValueNameNulFree(k: nat)
    requires k < VALUE_COUNT
    ensures NulFree(ValueName(k))
  {
    ValueNameIsWord(k);
  }

  lemma Signed64NulFree(n: nat)
    requires n < TWO_64
    ensures NulFree(SignedDecimal64(n))
  {
    DecimalNulFree(if n < TWO_64 / 2 then n else TWO_64 - n);
  }

  lemma {:induction false} KeyLinesNulFree(keys: seq<string>, values: seq<string>)
    requires forall k :: k in keys ==> NulFree(k)
    requires forall v :: v in values ==> NulFree(v)
    ensures NulFree(KeyLines(keys, values))
    decreases |keys|
  {
    if keys != [] && values != [] {
      KeyLinesNulFree(keys[1..], values[1..]);
      KeyLineNulFree(keys[0], values[0]);
    }
  }

  lemma BlockNulFree(section: string, keys: seq<string>, values: seq<string>)
    requires NulFree(section)
    requires forall k :: k in keys ==> NulFree(k)
    requires forall v :: v in values ==> NulFree(v)
    ensures NulFree(Block(section, keys, values))
  {
    hide KeyLines, SectionLine, NulFree;
    KeyLinesNulFree(keys, values);
    SectionLineNulFree(section);
    NulFreeJoin(SectionLine(section), KeyLines(keys, values), "\n");
    NothingNulFree();
  }

  lemma NothingNulFree()
    ensures NulFree("") && NulFree("\n")
  {
  }

  lemma SectionLineNulFree(section: string)
    requires NulFree(section)
    ensures NulFree(SectionLine(section))
  {
  }

  lemma AfterSectionNulFree(s: string)
    requires NulFree(s)
    ensures NulFree(AfterSection(s))
  {
    hide NextSectionAt;
    NulFreeDrop(s, |FirstLine(s)|);
    NulFreeDrop(OtherLines(s), NextSectionAt(OtherLines(s)));
  }

  lemma PutSectionNulFree(text: string, section: string, block: string)
    requires NulFree(text) && NulFree(block)
    ensures NulFree(PutSectionText(text, section, block))
  {
    hide HeaderAt, AfterSection, NeedsNewline;
    var h := HeaderAt(text, section);
    if section == "" {
      AfterSectionNulFree(text);
      NulFreeJoin("", block, AfterSection(text));
      assert "" + block == block;
    } else if h == |text| {
      NulFreeJoin(text, if NeedsNewline(text) then "\n" else "", block);
    } else {
      NulFreeDrop(text, h);
      AfterSectionNulFree(text[h..]);
      NulFreeJoin(text[..h], block, AfterSection(text[h..]));
    }
  }
}
