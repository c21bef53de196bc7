/** What config.ini means, in the terms of sys-clk's README: a title's section gives its clocks and its
    governor setting, one value a line, and the later line wins. */
module ConfigMeaning {
  import opened CText
  import opened CNumbers
  import opened IniQuoting
  import opened IniBrowse
  import opened IniRoundTrip
  import opened IniMeaning
  import opened ConfigState
  import opened ConfigSettings
  import opened ConfigSync

  // A line that sets a key, in its plainest form; it fits beside the name of its section.
  predicate IsPlainLine(section: string, key: string, value: string)
    requires |section| <= SECTION_MAX
  {
    && PlainKey(key) && IsUnquoted(value)
    && IsLine(key + "=" + value, section)
  }

  // The file with one more line at its end.
  function WithLine(text: string, key: string, value: string): string {
    text + (key + "=" + value + "\n")
  }

  lemma LineIsApplied(text: string, key: string, value: string, maxMem: nat)
    requires EndsLine(text) && IsPlainLine(Current(text, ""), key, value)
    ensures Loaded(WithLine(text, key, value), maxMem)
         == ApplyEntry(Loaded(text, maxMem), Entry(Current(text, ""), key, value), maxMem)
  {
    hide Browse, Current, ApplyEntry, ApplyEntries, IsUnquoted;
    var l := key + "=" + value;
    assert "" + key + "" + ['='] + ("" + value + "" + "") == l;
    SettingIsReported(text, "", key, "", '=', "", value, "", "", "");
    assert Around(text, l, "") == WithLine(text, key, value);
    BrowseNothing("", Current(text, ""));
    var e := Entry(Current(text, ""), key, value);
    assert [e] + [] == [e];
    ApplyEntriesLast(EMPTY_STATE, Browse(text, ""), e, maxMem);
  }

  // The title's section is the current one, in whatever case its id is written.
  ghost predicate InTitle(text: string, tid: nat) {
    0 < tid < TWO_64 && EqualNoCase(Current(text, ""), Hex(tid, 16))
  }

  lemma TitleLine(st: State, section: string, tid: nat, key: string, value: string, maxMem: nat)
    requires 0 < tid < TWO_64 && EqualNoCase(section, Hex(tid, 16)) && |st.values| == VALUE_COUNT
    ensures ApplyEntry(st, Entry(section, key, value), maxMem) == ApplyTitleLine(st, tid, key, value, maxMem)
  {
    hide StrToUL, EqualNoCase, Hex, ApplyTitleLine, ApplyValueLine;
    ReadTitleId(tid, section);
  }

  // Nothing but this clock differs.
  ghost predicate OnlyClock(a: State, b: State, tid: nat, p: Profile, m: Mod) {
    && (forall t: nat, q, n :: (t, q, n) != (tid, p, m) ==> ClockOf(b, t, n, q) == ClockOf(a, t, n, q))
    && (forall t: nat :: GovernorAnswer(b, t) == GovernorAnswer(a, t)) && b.values == a.values
  }

  /** A line of a title's section with a profile, a module and a number of MHz sets that clock and
      nothing else, whatever was set before; memory clocks above 1600 MHz mean the highest one.  A 0 is
      ignored. */
  lemma ClockLineSetsClock(text: string, tid: nat, p: Profile, m: Mod, mhz: nat, maxMem: nat)
    requires EndsLine(text) && InTitle(text, tid) && mhz < TWO_32
    requires IsPlainLine(Current(text, ""), KeyName(p, m), Decimal(mhz))
    ensures var a, b := Loaded(text, maxMem), Loaded(WithLine(text, KeyName(p, m), Decimal(mhz)), maxMem);
            && (mhz > 0 ==>
                  && ClockOf(b, tid, m, p) == (if m == MEM && mhz > 1600 then maxMem else mhz)
                  && (forall t: nat :: CountOf(b, t) == if t == tid then (CountOf(a, t) + 1) % 256 else CountOf(a, t))
                  && OnlyClock(a, b, tid, p, m))
            && (mhz == 0 ==> b == a)
  {
    hide Loaded, Current, IsPlainLine, EqualNoCase, KeyName, StrToUL, Hex;
    var a := Loaded(text, maxMem);
    LineIsApplied(text, KeyName(p, m), Decimal(mhz), maxMem);
    TitleLine(a, Current(text, ""), tid, KeyName(p, m), Decimal(mhz), maxMem);
    ClockKey(p, m);
    hide ParseClock;
    StrToULDecimal(mhz, 10);
  }

  /** A key without a value is ignored. */
  lemma EmptyClockIsIgnored(text: string, tid: nat, p: Profile, m: Mod, maxMem: nat)
    requires EndsLine(text) && InTitle(text, tid) && IsPlainLine(Current(text, ""), KeyName(p, m), "")
    ensures Loaded(WithLine(text, KeyName(p, m), ""), maxMem) == Loaded(text, maxMem)
  {
    hide Loaded, Current, IsPlainLine, EqualNoCase, KeyName, Hex;
    LineIsApplied(text, KeyName(p, m), "", maxMem);
    TitleLine(Loaded(text, maxMem), Current(text, ""), tid, KeyName(p, m), "", maxMem);
    ClockKey(p, m);
    hide ParseClock;
    assert StrToUL("", 10) == 0;
  }

  /** A governor setting of 0 to 3 is taken, any other number is the default, and nothing else
      changes. */
  lemma GovernorLineSetsGovernor(text: string, tid: nat, n: nat, maxMem: nat)
    requires EndsLine(text) && InTitle(text, tid) && n < TWO_64
    requires IsPlainLine(Current(text, ""), GOVERNOR_KEY, Decimal(n))
    ensures var a, b := Loaded(text, maxMem), Loaded(WithLine(text, GOVERNOR_KEY, Decimal(n)), maxMem);
            && GovernorAnswer(b, tid) == (if n <= 3 then n else 3)
            && (forall t: nat :: t != tid ==> GovernorAnswer(b, t) == GovernorAnswer(a, t))
            && b.mhz == a.mhz && b.counts == a.counts && b.values == a.values
  {
    hide Loaded, Current, IsPlainLine, EqualNoCase, StrToUL, Hex;
    LineIsApplied(text, GOVERNOR_KEY, Decimal(n), maxMem);
    TitleLine(Loaded(text, maxMem), Current(text, ""), tid, GOVERNOR_KEY, Decimal(n), maxMem);
    StrToULDecimal(n, 0);
  }

  /** A line of the section with the global values sets its value, if that is valid, and else the
      default; nothing else changes. */
  lemma ValueLineSetsValue(text: string, k: nat, n: nat, maxMem: nat)
    requires EndsLine(text) && Current(text, "") == VALUES_SECTION && k < VALUE_COUNT && n < TWO_64
    requires IsPlainLine(VALUES_SECTION, ValueName(k), Decimal(n))
    ensures var a, b := Loaded(text, maxMem), Loaded(WithLine(text, ValueName(k), Decimal(n)), maxMem);
            && b.values[k] == (if ValidValue(k, n) then n else DefaultValue(k))
            && (forall j :: 0 <= j < VALUE_COUNT && j != k ==> b.values[j] == a.values[j])
            && b.mhz == a.mhz && b.counts == a.counts && b.governors == a.governors
  {
    hide Loaded, Current, IsPlainLine, StrToUL, ValueName, ValidValue, DefaultValue;
    LineIsApplied(text, ValueName(k), Decimal(n), maxMem);
    StrToULDecimal(n, 0);
    assert NamesValue(ValueName(k), k);
    ValueNameInjective(ValueName(k), k, ParseValueName(ValueName(k)).value);
  }

  // The section is that of no title: not sixteen characters, or no number but zero.
  predicate IsNoTitle(section: string) {
    |section| != 16 || StrToUL(section, 16) == 0
  }

  // No key that a title's section can have.
  ghost predicate IsUnknownKey(key: string) {
    key != GOVERNOR_KEY && forall p, m :: !NamesClock(key, p, m)
  }

  /** Keys that are not known, and sections of no title, are ignored. */
  lemma UnknownLineIsIgnored(text: string, key: string, value: string, maxMem: nat)
    requires EndsLine(text) && IsPlainLine(Current(text, ""), key, value) && Current(text, "") != VALUES_SECTION
    requires IsNoTitle(Current(text, "")) || IsUnknownKey(key)
    ensures Loaded(WithLine(text, key, value), maxMem) == Loaded(text, maxMem)
  {
    hide Loaded, Current, IsPlainLine, StrToUL;
    LineIsApplied(text, key, value, maxMem);
  }

  /** A comment is ignored, also one with a setting in it. */
  lemma CommentIsIgnored(text: string, l: string, maxMem: nat)
    requires EndsLine(text) && IsLine(l, Current(text, "")) && IsCommentLine(l)
    ensures Loaded(Around(text, l, ""), maxMem) == Loaded(text, maxMem)
  {
    hide Current, IsLine, Browse, ApplyEntries;
    CommentIsPassedOver(text, l, "");
    assert text + "" == text;
  }

  // ----- which clock applies ---------------------------------------------------------------------------

  predicate IsCharging(p: Profile) {
    p == HandheldCharging || p == HandheldChargingUSB || p == HandheldChargingOfficial
  }

  /** While charging the clock is that of the charger, if it is set, then that for charging, then that
      for handheld mode; a charger of no known kind counts as USB.  Otherwise only the clock of the
      mode itself applies. */
  lemma ClockInOrder(st: State, tid: nat, m: Mod, p: Profile)
    ensures !IsCharging(p) ==> FirstClock(st, tid, m, Fallbacks(p)) == ClockOf(st, tid, m, p)
    ensures IsCharging(p) ==>
              var charger := ClockOf(st, tid, m, if p == HandheldCharging then HandheldChargingUSB else p);
              var charging := ClockOf(st, tid, m, HandheldCharging);
              var clock := FirstClock(st, tid, m, Fallbacks(p));
              && (charger > 0 ==> clock == charger)
              && (charger == 0 && charging > 0 ==> clock == charging)
              && (charger == charging == 0 ==> clock == ClockOf(st, tid, m, Handheld))
  {
    hide ClockOf;
    var list := Fallbacks(p);
    if IsCharging(p) {
      assert list[1..][0] == HandheldCharging && list[1..][1..] == [Handheld];
      OneFallback(st, tid, m, Handheld);
    } else {
      OneFallback(st, tid, m, p);
    }
  }

  lemma OneFallback(st: State, tid: nat, m: Mod, p: Profile)
    ensures FirstClock(st, tid, m, [p]) == ClockOf(st, tid, m, p)
  {
    assert [p][1..] == [];
  }

  // ----- an example -------------------------------------------------------------------------------------

  lemma DecimalOfExample()
    ensures Decimal(1224) == ['1', '2', '2', '4']
  {
    assert Decimal(12) == ['1', '2'];
    assert Decimal(122) == ['1', '2', '2'];
  }

  function TitleHeader(name: string): string {
    "[" + name + "]\n"
  }

  lemma HeaderAlone(name: string)
    requires |name| == 16 && '\n' !in name
    ensures EndsLine(TitleHeader(name)) && Current(TitleHeader(name), "") == name
    ensures Browse(TitleHeader(name), "") == []
  {
    hide Browse, Current;
    var l := "" + "[" + name + "]" + "";
    CurrentOfNothing("");
    BrowseNothing("", "");
    BrowseNothing("", name);
    HeaderStartsSection("", "", name, "", "");
    assert Around("", l, "") == TitleHeader(name);
  }

  lemma ExampleLine(section: string)
    requires |section| == 16
    ensures KeyName(Docked, CPU) == "docked_cpu" && IsPlainLine(section, KeyName(Docked, CPU), Decimal(1224))
  {
    DecimalOfExample();
    hide Decimal;
  }

  lemma LoadedNothing(text: string, maxMem: nat)
    requires Browse(text, "") == []
    ensures Loaded(text, maxMem) == EMPTY_STATE
  {
  }

  /** A file with a title's header and the line docked_cpu=1224 runs the title's CPU at 1224 MHz when
      docked, and sets no other clock. */
  lemma DockedExample(tid: nat, maxMem: nat, m: Mod, p: Profile)
    requires 0 < tid < TWO_64
    ensures KeyName(Docked, CPU) == "docked_cpu" && Decimal(1224) == ['1', '2', '2', '4']
    ensures var st := Loaded(WithLine(TitleHeader(Hex(tid, 16)), KeyName(Docked, CPU), Decimal(1224)), maxMem);
            FirstClock(st, tid, m, Fallbacks(p)) == if m == CPU && p == Docked then 1224 else 0
  {
    DecimalOfExample();
    HexIsOneLine(tid, 16);
    var text := TitleHeader(Hex(tid, 16));
    HeaderAlone(Hex(tid, 16));
    ExampleLine(Hex(tid, 16));
    SameNoCase(Hex(tid, 16));
    hide Loaded, Browse, Current, IsPlainLine, KeyName, Hex, Decimal, TitleHeader, WithLine, EqualNoCase, FirstClock,
         Fallbacks;
    ClockLineSetsClock(text, tid, Docked, CPU, 1224, maxMem);
    LoadedNothing(text, maxMem);
    ClockInOrder(Loaded(WithLine(text, KeyName(Docked, CPU), Decimal(1224)), maxMem), tid, m, p);
  }

  lemma SameNoCase(s: string)
    ensures EqualNoCase(s, s)
  {
  }
}
