/** Histories of changes: from a file that does not exist, whatever SetProfiles and SetConfigValues
    write one after the other, the cache agrees with the file. */
module ConfigHistory {
  import opened CText
  import opened CNumbers
  import opened IniSection
  import opened IniBrowse
  import opened IniRoundTrip
  import opened IniPieces
  import opened ConfigState
  import opened ConfigSettings
  import opened ConfigSync

  // A change: a title's settings, or the global values.
  datatype Change = SetTitle(tid: nat, list: Profiles) | SetValues(values: seq<nat>)

  // The file and the maps.
  datatype Store = Store(present: bool, text: string, cache: State)

  // Changes that fit their slots and whose settings a load gives back.
  ghost predicate Good(c: Change, maxMem: nat) {
    match c
    case SetTitle(tid, list) => tid < TWO_64 && ValidProfiles(list) && !Overruns(list) && Faithful(tid, list, maxMem)
    case SetValues(values) => ValidValues(values)
  }

  function SectionOf(c: Change): string {
    match c case SetTitle(tid, _) => Hex(tid, 16) case SetValues(_) => VALUES_SECTION
  }

  ghost function KeysOf(c: Change, maxMem: nat): seq<string>
    requires Good(c, maxMem)
  {
    match c case SetTitle(_, list) => ProfileKeys(list, 0) case SetValues(values) => ValueKeys(values, 0)
  }

  ghost function TextsOf(c: Change, maxMem: nat): (r: seq<string>)
    requires Good(c, maxMem)
    ensures |r| == |KeysOf(c, maxMem)|
  {
    match c case SetTitle(_, list) => ProfileValues(list, 0) case SetValues(values) => ValueTexts(values, 0)
  }

  ghost function BlockOf(c: Change, maxMem: nat): string
    requires Good(c, maxMem)
  {
    Block(SectionOf(c), KeysOf(c, maxMem), TextsOf(c, maxMem))
  }

  // The store after an immediate change whose write succeeds.
  ghost function Changed(s: Store, c: Change, maxMem: nat): Store
    requires Good(c, maxMem)
  {
    var block := BlockOf(c, maxMem);
    Store(true,
          if s.present then PutSectionText(s.text, SectionOf(c), block) else block,
          match c
          case SetTitle(tid, list) => SetInMemory(s.cache, tid, list)
          case SetValues(values) => s.cache.(values := Sanitized(values)))
  }

  ghost predicate Synced(s: Store, maxMem: nat) {
    SameAnswers(s.cache, if s.present then Loaded(s.text, maxMem) else EMPTY_STATE)
  }

  // ----- the names in the file ------------------------------------------------------------------

  ghost predicate Ours(name: string) {
    name == VALUES_SECTION || exists tid: nat :: tid < TWO_64 && name == Hex(tid, 16)
  }

  ghost predicate IsOurs(lead: string, pieces: seq<Piece>, text: string) {
    && Tidy(lead, pieces) && text == lead + Render(pieces)
    && forall p :: p in pieces ==> Ours(p.name)
  }

  // The file is made of such sections only.
  ghost predicate OurText(text: string) {
    exists lead, pieces :: IsOurs(lead, pieces, text)
  }

  ghost predicate OurFile(s: Store) {
    s.present ==> OurText(s.text)
  }

  lemma SectionIsShort(c: Change)
    ensures ShortName(SectionOf(c))
  {
    if c.SetTitle? { TitleSectionIsPlain(c.tid); }
  }

  lemma SectionIsOurs(c: Change, maxMem: nat)
    requires Good(c, maxMem)
    ensures Ours(SectionOf(c))
  {
  }

  lemma SettingsAreReadable(c: Change, maxMem: nat)
    requires Good(c, maxMem)
    ensures ReadableSettings(KeysOf(c, maxMem), TextsOf(c, maxMem))
    ensures SettingsFit(SectionOf(c), KeysOf(c, maxMem), TextsOf(c, maxMem))
  {
    hide ReadableSettings, SettingsFit, ProfileKeys, ProfileValues, ValueKeys, ValueTexts, Hex;
    match c
    case SetTitle(tid, list) => TitleSettingsAreReadable(tid, list);
    case SetValues(values) => ValueSettingsAreReadable(values);
  }

  // A setting from another of our sections is not about the title, nor a global value.
  lemma OtherSection(pieces: seq<Piece>, e: Entry, tid: nat)
    requires (forall p :: p in pieces ==> Ours(p.name)) && tid < TWO_64
    ensures Elsewhere(pieces, e.section, Hex(tid, 16)) ==> !Names(e, tid)
    ensures Elsewhere(pieces, e.section, VALUES_SECTION) ==> e.section != VALUES_SECTION
  {
    hide StrToUL, EqualNoCase, Hex;
    SameSection(VALUES_SECTION);
    SameSection(Hex(tid, 16));
    if e.section != "" && Elsewhere(pieces, e.section, Hex(tid, 16)) {
      var i :| 0 <= i < |pieces| && pieces[i].name == e.section && !EqualNoCase(e.section, Hex(tid, 16));
      assert Ours(pieces[i].name);
      if e.section != VALUES_SECTION {
        var t: nat :| t < TWO_64 && e.section == Hex(t, 16);
        SameSection(Hex(t, 16));
        OwnSectionNames(e, t, tid);
      }
    }
  }

  lemma TitleIsOnce(lead: string, pieces: seq<Piece>, text: string, tid: nat, erase: bool)
    requires IsOurs(lead, pieces, text) && tid < TWO_64
    ensures Editable(text, Hex(tid, 16), erase) && TitleOnce(text, tid)
  {
    hide Tidy, Replaceable, HeaderFits, PutSectionHangs, Elsewhere, Before, After, Hex, Ours, Names, Render;
    SectionIsShort(SetTitle(tid, Profiles([], 0)));
    TidyIsEditable(lead, pieces, Hex(tid, 16), erase, "");
    forall e | e in Before(text, Hex(tid, 16)) || e in After(text, Hex(tid, 16)) ensures !Names(e, tid) {
      OtherSection(pieces, e, tid);
    }
  }

  lemma ValuesAreOnce(lead: string, pieces: seq<Piece>, text: string, erase: bool)
    requires IsOurs(lead, pieces, text)
    ensures Editable(text, VALUES_SECTION, erase) && ValuesOnce(text)
  {
    hide Tidy, Replaceable, HeaderFits, PutSectionHangs, Elsewhere, Before, After, Hex, Ours, Names, Render;
    SectionIsShort(SetValues([]));
    TidyIsEditable(lead, pieces, VALUES_SECTION, erase, "");
    forall e | e in Before(text, VALUES_SECTION) || e in After(text, VALUES_SECTION)
      ensures e.section != VALUES_SECTION
    {
      OtherSection(pieces, e, 0);
    }
  }

  // ----- one change ---------------------------------------------------------------------------------

  /** ini_putsection returns. */
  lemma OurFileNeverHangs(text: string, section: string, block: string)
    requires OurText(text) && ShortName(section)
    ensures !PutSectionHangs(text, section, block)
  {
    hide Tidy, Replaceable, HeaderFits, PutSectionHangs, Elsewhere, Before, After, Ours, Render;
    var lead, pieces :| IsOurs(lead, pieces, text);
    TidyIsEditable(lead, pieces, section, true, block);
  }

  lemma OurFileStays(present: bool, text: string, section: string, keys: seq<string>, values: seq<string>)
    requires present ==> OurText(text)
    requires ShortName(section) && Ours(section) && ReadableSettings(keys, values) && SettingsFit(section, keys, values)
    ensures OurText(if present then PutSectionText(text, section, Block(section, keys, values))
              else Block(section, keys, values))
  {
    hide Tidy, PutSectionText, Block, ReadableSettings, SettingsFit, ShortName, Ours, Render;
    if present {
      var lead, pieces :| IsOurs(lead, pieces, text);
      var lead2, pieces2 := TidyPut(lead, pieces, section, keys, values);
      assert IsOurs(lead2, pieces2, PutSectionText(text, section, Block(section, keys, values)));
    } else {
      FirstIsTidy(section, keys, values);
      assert "" + Render(BlockPieces(section, keys, values)) == Block(section, keys, values);
      assert IsOurs("", BlockPieces(section, keys, values), Block(section, keys, values));
    }
  }

  lemma FirstIsTidy(section: string, keys: seq<string>, values: seq<string>)
    requires ShortName(section) && ReadableSettings(keys, values) && SettingsFit(section, keys, values)
    ensures Tidy("", BlockPieces(section, keys, values))
    ensures Render(BlockPieces(section, keys, values)) == Block(section, keys, values)
  {
    hide Block, ReadableSettings, SettingsFit, ShortName, EqualNoCase, Render;
    BlockIsPiece(section, keys, values);
  }

  lemma ChangeStaysSynced(s: Store, c: Change, maxMem: nat)
    requires Good(c, maxMem) && OurFile(s) && Synced(s, maxMem)
    ensures Synced(Changed(s, c, maxMem), maxMem)
  {
    hide Loaded, SameAnswers, SetInMemory, Hex, PutSectionText, Block, Faithful, Editable, TitleOnce, ValuesOnce,
         Overruns, IsOurs;
    match c
    case SetTitle(tid, list) =>
      if s.present {
        var lead, pieces :| IsOurs(lead, pieces, s.text);
        TitleIsOnce(lead, pieces, s.text, tid, ProfileKeys(list, 0) == []);
        ProfilesStayInSync(s.cache, s.text, tid, list, maxMem);
      } else {
        FirstProfilesInSync(s.cache, tid, list, maxMem);
      }
    case SetValues(values) =>
      if s.present {
        var lead, pieces :| IsOurs(lead, pieces, s.text);
        ValuesAreOnce(lead, pieces, s.text, ValueKeys(values, 0) == []);
        ValuesStayInSync(s.cache, s.text, values, maxMem);
      } else {
        FirstValuesInSync(s.cache, values, maxMem);
      }
  }

  lemma ChangeStaysOurs(s: Store, c: Change, maxMem: nat)
    requires Good(c, maxMem) && OurFile(s)
    ensures OurFile(Changed(s, c, maxMem))
  {
    hide PutSectionText, Block, OurText, ShortName, Ours, ReadableSettings, SettingsFit, KeysOf, TextsOf, SectionOf,
         SetInMemory;
    SectionIsShort(c);
    SectionIsOurs(c, maxMem);
    SettingsAreReadable(c, maxMem);
    OurFileStays(s.present, s.text, SectionOf(c), KeysOf(c, maxMem), TextsOf(c, maxMem));
  }

  // ----- histories -----------------------------------------------------------------------------------

  ghost function History(s: Store, changes: seq<Change>, maxMem: nat): Store
    requires forall c :: c in changes ==> Good(c, maxMem)
  {
    if changes == [] then s
    else Changed(History(s, changes[..|changes| - 1], maxMem), changes[|changes| - 1], maxMem)
  }

  // ini_putsection does not return from the change.
  ghost predicate HangsOn(s: Store, c: Change, maxMem: nat)
    requires Good(c, maxMem)
  {
    s.present && PutSectionHangs(s.text, SectionOf(c), BlockOf(c, maxMem))
  }

  lemma {:induction false} HistoryStays(s: Store, changes: seq<Change>, maxMem: nat)
    requires forall c :: c in changes ==> Good(c, maxMem)
    requires OurFile(s) && Synced(s, maxMem)
    ensures OurFile(History(s, changes, maxMem)) && Synced(History(s, changes, maxMem), maxMem)
  {
    hide Good, Changed, OurFile, Synced;
    if changes != [] {
      var n := |changes| - 1;
      HistoryStays(s, changes[..n], maxMem);
      assert changes[n] in changes;
      ChangeStaysSynced(History(s, changes[..n], maxMem), changes[n], maxMem);
      ChangeStaysOurs(History(s, changes[..n], maxMem), changes[n], maxMem);
    }
  }

  /** From a file that does not exist and empty maps: after any sequence of immediate changes that fit
      their slots and that a load gives back, every question is answered as after a load, and the
      next such change returns. */
  lemma HistoryInSync(changes: seq<Change>, next: Change, maxMem: nat)
    requires (forall c :: c in changes ==> Good(c, maxMem)) && Good(next, maxMem)
    ensures var s := History(Store(false, "", EMPTY_STATE), changes, maxMem);
            Synced(s, maxMem) && !HangsOn(s, next, maxMem)
  {
    hide Good, SectionOf, BlockOf, OurText, PutSectionHangs, Loaded, History, ShortName;
    var start := Store(false, "", EMPTY_STATE);
    HistoryStays(start, changes, maxMem);
    var s := History(start, changes, maxMem);
    SectionIsShort(next);
    if s.present { OurFileNeverHangs(s.text, SectionOf(next), BlockOf(next, maxMem)); }
  }
}
