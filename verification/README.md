# Switch-OC-Suite, verified

Dafny models of the parts of Switch-OC-Suite whose correctness is hard to see from one function, with proofs of
what those parts are for. `dafny verify dfyconfig.toml` checks everything. `Basics` holds the few definitions
that several models share.

## What is modelled

**minIni** (`CText`, `IniLines`, `IniQuoting`, `IniBuffer`, `IniCache`, `IniSection`, `IniRewrite`, `IniBrowse`,
`IniRoundTrip`, `IniMeaning`, `IniRegular`, `IniPieces`, `IniKey`, `IniKeyRead`, `IniPuts`, `IniIndex`,
`IniKeyFrame`, `IniKeyMeaning`, `IniPlaces`). A file is a string and a position; `fgets` takes a line or 511
characters of it. The character buffer is an array that the methods edit in place, and the line cache is an
object with a mark and a length, as in the source. `PutSectionText` and `PutKeyText` say what file is left. The
lemmas about them say what that means for whoever reads or writes the file next, and `IniMeaning` and
`IniKeyMeaning` what each kind of line means to the two readers, without the functions that read it. Four things
differ from what one would expect, and are stated as the code has them:

- `ini_putsection` needs neither short lines nor headers in column 0 for its result. It fails to return in one
  case: an indented header of the section is the last line and there is something to write.
- Whether a newline is added at the end of the file depends on the last group of the line cache, not only on the
  last character (`NeedsNewline`).
- With no section name, erasing drops the first line of the file whatever it is (`EraseWithoutNameKeepsIff`).
- `ini_browse` reads less of a line at a time the longer the current section's name is, so a header that does
  not fit beside that name is none for it (`HeaderMustFit`).

**Config** (`CNumbers`, `ConfigState`, `ConfigSettings`, `ConfigSlots`, `ConfigSync`, `ConfigHistory`,
`ConfigMeaning`, `Config`). `ConfigMeaning` says what a line of config.ini does to the clocks, as the
documentation promises it. The maps in memory agree with the file when every answer is the one a fresh load
would give (`SameAnswers`). A change keeps them in agreement if and only if its settings are `Faithful`. Clocks
of 2^31 MHz and more do survive, because the minus sign that `%d` prints is undone by `strtoul`. The arrays in
which SetProfiles prints have fifteen slots, one fewer than all clocks and a governor setting need; with those
it writes outside them, and the model says so and nothing about what follows.

**stb_truetype** (`CharstringSpec`, `Charstring`, `CharstringCounts`, `CharstringDrawing`,
`CharstringOperators`, `CharstringSharing`, `CharstringHints`, `GlyphOutlines`, `EdgeSort`, `Cmap`). The Type 2
charstring interpreter with its stacks, against a function from bytes to drawings that is defined by recursion
over what is left to read in the nested frames. What that function draws is tied to outlines: an outline written
as a charstring comes out as it was, also from subroutines and behind hints, and all other operators are
expanded into the three that it is written with. Vertices and hints are counted in ints, so the methods ask that
those can count them (`CountersFit`); there are glyphs for which they cannot. The edge sort keeps its unchecked
scans; after a pass in which the two indices have crossed by one, the edge between them belongs to neither side,
so the pieces are described by `Cut` and not as nearly sorted. The 'cmap' search is compared with a scan, for
subtables as the OpenType specification ('cmap', Format 4) wants them, and with what the segments assign in a
subtable written from them.

**MemTesterNX** (`Handshake`, `MemoryTests`) and **TinyMemBenchNX** (`StartBarrier`). The protocols are state
machines: a step is one access to shared memory (or one operation on the lock or a condition), a schedule is any
sequence of steps, and the theorems hold for every schedule and any number of workers. The memory tests run on
memory in which words may be read through a fault or share a cell.

**The frequency governor** (`SlidingMax`, `Governor`, `GovernorTick`, `Clocks`). The two-stack window, the
decaying accumulators with their 32-bit products, the choice of a frequency and the ranges of the tables. The
window is not the maximum of the last W samples, and 2012 and 6145 are not upper bounds; the exact statements
are proved instead. A governor measures loads against its own target, so runs are closed loops of events:
measurements, ticks, boosts, the clock read back, and new clamps. The caps of the profiles are the code's; where
the README of sys-clk-OC has others, `EristaCaps` and `MarikoCaps` say so.

**Two smaller members**: the IPC server's handle table (`IpcServer`) and the editor of the table in loader.kip
(`CustTable`).

Properties of methods are in their `ensures`; each method is proved against a function, and the lemmas are about
those functions: each ties its function, without repeating it, to what it stands for. Where a property is false
of the code, there is a lemma with an input that shows it and one that says exactly when it holds.

## Model

| member | source | states |
|---|---|---|
| IniSection.IniFile.PutSection | Source/sys-clk-OC(deprecated)/sysmodule/lib/minIni/dev/minIni.c:889-1007 | ini_putsection, with its bounded line cache, leaves byte for byte the file in which the section's old text is replaced by the new block (or the block is added behind a newline where the last line needs one), and fails to return exactly when an indented header of the section is the last line and there is something to write |
| IniSection.Rewrite | Source/sys-clk-OC(deprecated)/sysmodule/lib/minIni/dev/minIni.c:903-1006 | the same on the open files: every phase keeps mark + cachelen at the read position, so the cached group can always be read again |
| IniCache.LineCache.Flush | Source/sys-clk-OC(deprecated)/sysmodule/lib/minIni/dev/minIni.c:581-608 | cache_flush writes exactly the cached group of the input and moves the mark behind it; its loop ends unless the group was claimed at the end of the file; it answers whether the group is more than a line end and ends with one |
| IniCache.LineCache.CopyLine | Source/sys-clk-OC(deprecated)/sysmodule/lib/minIni/dev/minIni.c:572-608 | counting a line, or flushing and reading it again, extends what is copied by exactly that line and keeps the group re-readable |
| IniRewrite.PutSectionTwice | Source/sys-clk-OC(deprecated)/sysmodule/lib/minIni/dev/minIni.c:889-1007 | writing a section twice leaves the file that the second write alone leaves, and the second write never hangs |
| IniRewrite.PutSectionCanHang | Source/sys-clk-OC(deprecated)/sysmodule/lib/minIni/dev/minIni.c:966-992 | a file on which ini_putsection does not return: an indented header at its very end |
| IniRoundTrip.PutSectionThenBrowse | Source/sys-clk-OC(deprecated)/sysmodule/lib/minIni/dev/minIni.c:463-514 | after ini_putsection ini_browse reports for the section exactly the settings written, in order, and for all other sections what it reported before, if: the file has the section at most once for ini_browse; the old section starts on a line of its own and reads as one, its header and the one behind it as headers (`Replaceable`); and the new header fits beside the name in front of it, or, erasing, so does the next one (`HeaderFits`). Lines elsewhere may be of any length |
| IniRoundTrip.HeaderMustFit | Source/sys-clk-OC(deprecated)/sysmodule/lib/minIni/dev/minIni.c:463-514 | for section names without the characters []=: the settings are reported for the section if and only if its header fits beside the name of the section in front of it |
| IniRoundTrip.LongNameTakesSettings | Source/sys-clk-OC(deprecated)/sysmodule/lib/minIni/dev/minIni.c:476-478 | a file where it does not: a setting written for a section is reported for the section before it, whose name has 480 letters |
| IniRegular.RegularIsReplaceable | Source/sys-clk-OC(deprecated)/sysmodule/lib/minIni/dev/minIni.c:463-514 | in a file whose lines all fit beside the name of their section every section can be replaced |
| IniRegular.RegularStays | Source/sys-clk-OC(deprecated)/sysmodule/lib/minIni/dev/minIni.c:889-1007 | such a file stays such a file |
| IniRegular.RegularSectionOnce | Source/sys-clk-OC(deprecated)/sysmodule/lib/minIni/dev/minIni.c:463-514 | and a section with one header comes once in it for ini_browse |
| IniBrowse.BrowseFile | Source/sys-clk-OC(deprecated)/sysmodule/lib/minIni/dev/minIni.c:463-514 | ini_browse, in one shared buffer, reports the settings of the file in order, up to the first after which the callback asks to stop; what a comment, a header, a setting and any other line report is in the next rows |
| IniMeaning.CommentIsPassedOver | Source/sys-clk-OC(deprecated)/sysmodule/lib/minIni/dev/minIni.c:481-484 | a line whose first character that is not blank is a ';' or '#' changes nothing that is reported, whatever stands behind the sign: a setting that is commented out is not reported |
| IniMeaning.LineWithoutSignIsPassedOver | Source/sys-clk-OC(deprecated)/sysmodule/lib/minIni/dev/minIni.c:486-498 | nor does a line without '=' and ':' that is no header, or a blank one |
| IniMeaning.HeaderStartsSection | Source/sys-clk-OC(deprecated)/sysmodule/lib/minIni/dev/minIni.c:485-492 | a header, with blanks before it and text behind, reports nothing; all that follows is reported as that section's |
| IniMeaning.SettingIsReported | Source/sys-clk-OC(deprecated)/sysmodule/lib/minIni/dev/minIni.c:493-509 | a line with a key, '=' or (if it has no '=') ':' and an unquoted value, with blanks around them and a comment behind, is reported as just that key and value, of the current section |
| IniMeaning.QuotedSettingIsReported | Source/sys-clk-OC(deprecated)/sysmodule/lib/minIni/dev/minIni.c:493-509 | a value in quotes with its quotes escaped is reported whole, with its blanks and comment signs, and a comment behind it is passed over, unless the value ends with a backslash |
| IniQuoting.ValueRoundTrip | Source/sys-clk-OC(deprecated)/sysmodule/lib/minIni/dev/minIni.c:146-223 | printing a value and reading it back is the identity if and only if the value is put in quotes or has no blank at either end, with quotes, backslashes and comment signs in it |
| IniQuoting.KeyLineRoundTrip | Source/sys-clk-OC(deprecated)/sysmodule/lib/minIni/dev/minIni.c:556-570 | the line writekey prints is parsed back to its key and value |
| IniMeaning.PrintedIsLongest | Source/sys-clk-OC(deprecated)/sysmodule/lib/minIni/dev/minIni.c:163-176 | of a value that is too long to be printed in quotes the longest beginning is printed that fits, no escape cut in two |
| IniMeaning.DoubledIsRead | Source/sys-clk-OC(deprecated)/sysmodule/lib/minIni/dev/minIni.c:177-183 | a doubled quote is read as one |
| IniBuffer.CopyString | Source/sys-clk-OC(deprecated)/sysmodule/lib/minIni/dev/minIni.c:146-190 | ini_strncpy in place: at most maxlen bytes, with the escapes cut at a whole pair, and nothing outside them changed |
| IniBuffer.CleanString | Source/sys-clk-OC(deprecated)/sysmodule/lib/minIni/dev/minIni.c:192-223 | cleanstring in place: the comment, the trailing blanks and the surrounding quotes are gone |
| IniBuffer.WriteKeyIn | Source/sys-clk-OC(deprecated)/sysmodule/lib/minIni/dev/minIni.c:556-570 | writekey composes the key's line in the buffer, within its size |
| IniPuts.PutKey | Source/sys-clk-OC(deprecated)/sysmodule/lib/minIni/dev/minIni.c:628-813 | ini_puts on every combination of key, value and file: the new file byte for byte, by the shortcut that changes nothing, the one that overwrites in place, or the copy |
| IniPuts.GetKeyString | Source/sys-clk-OC(deprecated)/sysmodule/lib/minIni/dev/minIni.c:225-298 | getkeystring, asked by name, finds the key's value, and where its line starts and ends; asked by number it is the next two rows |
| IniKeyMeaning.SettingIsFound | Source/sys-clk-OC(deprecated)/sysmodule/lib/minIni/dev/minIni.c:225-298 | getkeystring: in the section, the first line that sets the key, in whatever case its letters are, gives the value; a line that sets another key is passed over |
| IniKeyMeaning.NothingIsPassedOver | Source/sys-clk-OC(deprecated)/sysmodule/lib/minIni/dev/minIni.c:225-298 | comments, and lines without a sign that open no section, are passed over |
| IniKeyMeaning.HeaderIsFound | Source/sys-clk-OC(deprecated)/sysmodule/lib/minIni/dev/minIni.c:225-298 | the keys of a section are those behind its first header, in whatever case its name is; other headers in front of it are passed over |
| IniKeyMeaning.HeaderEndsSection | Source/sys-clk-OC(deprecated)/sysmodule/lib/minIni/dev/minIni.c:225-298 | any line that opens a section ends the one in front of it |
| IniKeyMeaning.OtherSectionIsPassedOver | Source/sys-clk-OC(deprecated)/sysmodule/lib/minIni/dev/minIni.c:225-298 | lines in front of the section's header are passed over, whatever they set |
| IniIndex.GetSectionName | Source/sys-clk-OC(deprecated)/sysmodule/lib/minIni/dev/minIni.c:238-258 | getkeystring asked for the n-th section gives its name |
| IniIndex.GetKeyName | Source/sys-clk-OC(deprecated)/sysmodule/lib/minIni/dev/minIni.c:263-290 | getkeystring asked for the n-th key of a section gives its name |
| IniIndex.ListedIffFound | Source/sys-clk-OC(deprecated)/sysmodule/lib/minIni/dev/minIni.c:225-298 | a section is listed by number if and only if it is found by name, and a key if and only if it has a value |
| IniPuts.PutInSection | Source/sys-clk-OC(deprecated)/sysmodule/lib/minIni/dev/minIni.c:748-812 | the copy of ini_puts from the section's header on: only the key's line changes, or is added at the end of the section |
| IniPlaces.MissingKeyIsAdded | Source/sys-clk-OC(deprecated)/sysmodule/lib/minIni/dev/minIni.c:748-802 | a missing key is added behind all lines of its section, right in front of the next one, and at the end of the file on a line of its own |
| IniPlaces.NewlineIff | Source/sys-clk-OC(deprecated)/sysmodule/lib/minIni/dev/minIni.c:581-608 | a file of less than 512 bytes gets a newline at its end, before something is added, just when it does not end with one or has no other character |
| IniKey.ShortcutIsCopy | Source/sys-clk-OC(deprecated)/sysmodule/lib/minIni/dev/minIni.c:655-691 | whenever the equal-length shortcut of ini_puts is taken it leaves the file that the full copy would leave, for every key |
| IniKeyRead.PutThenGet | Source/sys-clk-OC(deprecated)/sysmodule/lib/minIni/dev/minIni.c:225-298 | after ini_puts, by whichever path, the key reads as the value written if and only if it did so before or the value prints faithfully |
| IniKeyFrame.PutKeepsOthers | Source/sys-clk-OC(deprecated)/sysmodule/lib/minIni/dev/minIni.c:628-813 | writing or erasing a key leaves the value of every other key of the file as it was, in this section and in all others |
| IniKeyFrame.GetIsScan | Source/sys-clk-OC(deprecated)/sysmodule/lib/minIni/dev/minIni.c:225-298 | the two nested searches of getkeystring amount to one pass of a three-state scan over the lines |
| IniKeyFrame.EraseKeepsOthers | Source/sys-clk-OC(deprecated)/sysmodule/lib/minIni/dev/minIni.c:706-775 | erasing a named section leaves every key of every other section as it was |
| IniPlaces.ErasedSectionIsGone | Source/sys-clk-OC(deprecated)/sysmodule/lib/minIni/dev/minIni.c:706-781 | erasing a named section that is there leaves no header of it, and so no key, if and only if it had one header |
| IniPlaces.NothingToErase | Source/sys-clk-OC(deprecated)/sysmodule/lib/minIni/dev/minIni.c:706-721 | erasing a section that is not there changes nothing |
| IniPlaces.ErasedKeyIsGone | Source/sys-clk-OC(deprecated)/sysmodule/lib/minIni/dev/minIni.c:748-812 | erasing a key uncovers what its section holds behind the key's line: a key that comes once is not found any more, and only such a key |
| IniPlaces.NoKeyToErase | Source/sys-clk-OC(deprecated)/sysmodule/lib/minIni/dev/minIni.c:748-812 | erasing a key that is not there changes nothing |
| IniKeyFrame.EraseWithoutNameKeepsIff | Source/sys-clk-OC(deprecated)/sysmodule/lib/minIni/dev/minIni.c:743-746 | erasing without a section name leaves every section as it was whose header is not the first line, and a key of a section with one header survives if and only if that is not the first line |
| IniKeyFrame.EraseWithoutNameLoses | Source/sys-clk-OC(deprecated)/sysmodule/lib/minIni/dev/minIni.c:743-746 | erasing without a section name drops a section's header when it is the first line, and that section's keys with it: the input |
| ConfigSync.ProfilesStayInSync | Source/sys-clk-OC(deprecated)/sysmodule/src/config.cpp:208-301 | if SetProfiles has slots for the settings, the maps answer afterwards as a load of the changed file would if and only if the settings are ones a load gives back: a title id that is not 0, memory clocks up to 1600 MHz or the highest one, a governor setting within the mask. The title's section must be replaceable and its header fit as for `PutSectionThenBrowse`, and nothing else in the file name the title |
| ConfigSync.FirstProfilesInSync | Source/sys-clk-OC(deprecated)/sysmodule/src/config.cpp:208-301 | the same when there was no file |
| ConfigSync.FaithfulCanOverrun | Source/sys-clk-OC(deprecated)/sysmodule/src/config.cpp:213-262 | settings a load would give back, but for which SetProfiles has one slot too few: all fifteen clocks and a governor setting |
| ConfigSync.ValuesStayInSync | Source/sys-clk-OC(deprecated)/sysmodule/src/config.cpp:478-538 | after SetConfigValues the values are what a load of the changed file would give, for any values, where the section can be replaced and its header fits |
| ConfigSync.FirstValuesInSync | Source/sys-clk-OC(deprecated)/sysmodule/src/config.cpp:478-538 | the same when there was no file |
| ConfigHistory.HistoryInSync | Source/sys-clk-OC(deprecated)/sysmodule/src/config.cpp:208-538 | from a file that does not exist, after any sequence of immediate SetProfiles and SetConfigValues that fit their slots and that a load gives back, every question is answered as after a load of the file, and the next such change returns |
| IniPieces.TidyIsEditable | Source/sys-clk-OC(deprecated)/sysmodule/lib/minIni/dev/minIni.c:889-1007 | in a file of sections in column 0 with short and different names every such section can be replaced, ini_putsection returns, and nothing else in the file is of the section |
| IniPieces.TidyPut | Source/sys-clk-OC(deprecated)/sysmodule/lib/minIni/dev/minIni.c:889-1007 | ini_putsection leaves such a file |
| Config.ConfigStore.SetProfiles | Source/sys-clk-OC(deprecated)/sysmodule/src/config.cpp:208-301 | SetProfiles prints outside keysStr and valuesStr if and only if all fifteen clocks and a governor setting are given; otherwise: the file and the maps afterwards, and that the cache stays in step with the file exactly for faithful settings, always in a file of its own sections, which stays one; a failed write changes neither |
| Config.ConfigStore.BuildSettings | Source/sys-clk-OC(deprecated)/sysmodule/src/config.cpp:213-262 | the strings printed into the slots are the keys and values of all clocks that are set and of the governor, each in a slot of its own |
| ConfigSlots.Slots.Print | Source/sys-clk-OC(deprecated)/sysmodule/src/config.cpp:242-257 | a string that fits a slot is printed inside the array just when there is a slot left, and leaves the slots before it alone |
| Config.ConfigStore.SetConfigValues | Source/sys-clk-OC(deprecated)/sysmodule/src/config.cpp:478-538 | the file and the values after SetConfigValues, that its slots suffice, and that the cache stays in step with the file; a failed write changes neither |
| Config.ConfigStore.Load | Source/sys-clk-OC(deprecated)/sysmodule/src/config.cpp:56-88 | Load forgets everything, and then holds what folding the file's entries over the defaults gives |
| Config.ConfigStore.BrowseIniFunc | Source/sys-clk-OC(deprecated)/sysmodule/src/config.cpp:314-412 | one entry of the file changes the maps as specified: unknown keys, invalid ids, zero clocks and invalid values included |
| ConfigMeaning.ClockLineSetsClock | Source/sys-clk-OC(deprecated)/sysmodule/src/config.cpp:357-409 | a line of a title's section with a profile, a module and a number of MHz sets that clock, whatever was set before, counts it, and changes no other answer; memory clocks above 1600 mean the highest; a 0 is ignored |
| ConfigMeaning.EmptyClockIsIgnored | Source/sys-clk-OC(deprecated)/README.md:174-174 | a key without a value is ignored |
| ConfigMeaning.GovernorLineSetsGovernor | Source/sys-clk-OC(deprecated)/sysmodule/src/config.cpp:347-355 | a governor setting of 0 to 3 is taken, another number is the default, and nothing else changes |
| ConfigMeaning.ValueLineSetsValue | Source/sys-clk-OC(deprecated)/sysmodule/src/config.cpp:318-333 | a global value is taken if it is valid and is the default if not; nothing else changes |
| ConfigMeaning.UnknownLineIsIgnored | Source/sys-clk-OC(deprecated)/sysmodule/src/config.cpp:335-392 | unknown keys, and sections that name no title, are ignored |
| ConfigMeaning.CommentIsIgnored | Source/sys-clk-OC(deprecated)/sysmodule/src/config.cpp:56-88 | a comment in config.ini changes nothing that is loaded, also one with a setting in it |
| ConfigMeaning.DockedExample | Source/sys-clk-OC(deprecated)/README.md:180-191 | a title's header and the line docked_cpu=1224 run its CPU at 1224 MHz when docked and set no other clock |
| ConfigMeaning.ClockInOrder | Source/sys-clk-OC(deprecated)/sysmodule/src/config.cpp:153-172 | while charging the charger's clock applies, then that for charging, then the one for handheld mode; a charger of no known kind counts as USB; otherwise only the mode's own clock |
| Config.ConfigStore.GetAutoClockHz | Source/sys-clk-OC(deprecated)/sysmodule/src/config.cpp:133-172 | the first clock that is set among the profile's fallbacks, in Hz modulo 2^32; 0 before a load |
| Config.ConfigStore.GetProfiles | Source/sys-clk-OC(deprecated)/sysmodule/src/config.cpp:188-206 | the fifteen clocks and the governor setting of a title as the maps have them; no clocks before a load |
| Config.ConfigStore.FindClock | Source/sys-clk-OC(deprecated)/sysmodule/src/config.cpp:357-386 | a key is taken for a clock exactly when it is a profile name, an underscore and a module name |
| CNumbers.ReadSigned32 | Source/sys-clk-OC(deprecated)/sysmodule/src/config.cpp:241-241 | a 32-bit clock printed with %d reads back as itself, also above 2^31 |
| CNumbers.ReadSigned64 | Source/sys-clk-OC(deprecated)/sysmodule/src/config.cpp:503-503 | a 64-bit value printed with %ld reads back as itself, also above 2^63 |
| CNumbers.ReadTitleId | Source/sys-clk-OC(deprecated)/sysmodule/src/config.cpp:229-229 | a title id printed with %016lX reads back, in whatever case the section's name is written |
| Charstring.RunCharstring | Source/sys-clk-OC(deprecated)/overlay/lib/tesla/include/stb_truetype.h:2005-2262 | the charstring interpreter stops on any bytes whose vertices and hints an int can count, keeps to 48 operands and 10 nested calls, and draws what `Run` says of the charstring, up to the error if there is one; what that is, is in the next rows |
| CharstringDrawing.OutlineIsDrawn | Source/sys-clk-OC(deprecated)/overlay/lib/tesla/include/stb_truetype.h:1931-1961 | the drawing round trip: for any list of contours of integer points, lines and curves, the charstring of rmoveto, rlineto and rrcurveto with the differences from point to point, ended by endchar, draws exactly these vertices with their absolute end and control points, and the lines that close the contours |
| CharstringDrawing.OperandsAreRead | Source/sys-clk-OC(deprecated)/overlay/lib/tesla/include/stb_truetype.h:2240-2256 | an operand reads as the number it was written from: an integer in one, two or three bytes, and a multiple of 1/65536 in five |
| CharstringSharing.SharedOutlineIsDrawn | Source/sys-clk-OC(deprecated)/overlay/lib/tesla/include/stb_truetype.h:2131-2153 | with each contour in a local or global subroutine, anywhere in an index of any size, a charstring of calls draws the same outline |
| CharstringHints.HintedOutlineIsDrawn | Source/sys-clk-OC(deprecated)/overlay/lib/tesla/include/stb_truetype.h:2022-2036 | with stems and a mask of one bit for each of them in front, the same outline is drawn |
| CharstringHints.LaterMaskIsSkipped | Source/sys-clk-OC(deprecated)/overlay/lib/tesla/include/stb_truetype.h:2022-2029 | a mask behind the header is stepped over, and nothing else changes |
| CharstringOperators.MovesExpand | Source/sys-clk-OC(deprecated)/overlay/lib/tesla/include/stb_truetype.h:2038-2052 | the moves take the last operands, so a width in front does not count; hmoveto and vmoveto are rmoveto along an axis |
| CharstringOperators.LinesFollow | Source/sys-clk-OC(deprecated)/overlay/lib/tesla/include/stb_truetype.h:2054-2058 | one rlineto draws what two draw with its operands shared out; an odd operand is ignored |
| CharstringOperators.CurvesFollow | Source/sys-clk-OC(deprecated)/overlay/lib/tesla/include/stb_truetype.h:2095-2099 | one rrcurveto draws what two draw with its operands shared out; up to five at the end are ignored |
| CharstringOperators.LinesExpand | Source/sys-clk-OC(deprecated)/overlay/lib/tesla/include/stb_truetype.h:2060-2077 | hlineto and vlineto draw what rlineto draws with a 0 beside each operand, on alternating sides |
| CharstringOperators.AlternatingCurvesExpand | Source/sys-clk-OC(deprecated)/overlay/lib/tesla/include/stb_truetype.h:2079-2093 | hvcurveto and vhcurveto draw what rrcurveto draws with the operands they stand for, a fifth one for the last curve included |
| CharstringOperators.FlatCurvesExpand | Source/sys-clk-OC(deprecated)/overlay/lib/tesla/include/stb_truetype.h:2117-2129 | hhcurveto and vvcurveto draw what rrcurveto draws with the operands they stand for; an odd number of operands starts with the first curve's other offset |
| CharstringOperators.MixedExpand | Source/sys-clk-OC(deprecated)/overlay/lib/tesla/include/stb_truetype.h:2101-2115 | rcurveline draws rrcurveto and then rlineto, rlinecurve the other way round |
| CharstringOperators.FlexesExpand | Source/sys-clk-OC(deprecated)/overlay/lib/tesla/include/stb_truetype.h:2166-2211 | hflex, flex and hflex1 draw what rrcurveto draws with the operands they stand for; hflex and hflex1 end at the height at which they started |
| CharstringOperators.Flex1Expands | Source/sys-clk-OC(deprecated)/overlay/lib/tesla/include/stb_truetype.h:2213-2238 | flex1 draws two curves that end at the height or on the vertical at which they started, whichever is farther from the last control point, the eleventh operand being the other distance |
| CharstringOperators.FailsWhenTooFew | Source/sys-clk-OC(deprecated)/overlay/lib/tesla/include/stb_truetype.h:2038-2129 | a drawing operator fails, and draws nothing, exactly when there are too few operands for it |
| CharstringOperators.FlexFailsWhenTooFew | Source/sys-clk-OC(deprecated)/overlay/lib/tesla/include/stb_truetype.h:2159-2242 | so does a flex, and any other operator of two bytes |
| Charstring.GetGlyphShapeT2 | Source/sys-clk-OC(deprecated)/overlay/lib/tesla/include/stb_truetype.h:2264-2279 | if an int can count the vertices and hints, the measuring and the storing run draw the same, so the array allocated after the first has exactly one place for every vertex of the second |
| GlyphOutlines.OutlineIsStored | Source/sys-clk-OC(deprecated)/overlay/lib/tesla/include/stb_truetype.h:1915-1929 | of an outline with coordinates of sixteen bits, without subroutines, the vertices stored are the outline's |
| GlyphOutlines.StoredIsCut | Source/sys-clk-OC(deprecated)/overlay/lib/tesla/include/stb_truetype.h:1915-1929 | every coordinate is stored modulo 65536, with a sign |
| Charstring.GetGlyphInfoT2 | Source/sys-clk-OC(deprecated)/overlay/lib/tesla/include/stb_truetype.h:2281-2290 | if an int can count the vertices and hints, the extent is the smallest box around all end and control points, or zeros |
| CharstringCounts.CountersCanOverflow | Source/sys-clk-OC(deprecated)/overlay/lib/tesla/include/stb_truetype.h:1928-1928 | a glyph of 131073 bytes with a subroutine of 163841 that has more vertices, and more hints, than an int can count |
| CharstringCounts.CountersFitWithoutSubroutines | Source/sys-clk-OC(deprecated)/overlay/lib/tesla/include/stb_truetype.h:2011-2262 | for a font without subroutines an int can count the vertices and hints of every charstring whose size is an int: there is at most one vertex for each of its bytes |
| CharstringSpec.BoundsAreTight | Source/sys-clk-OC(deprecated)/overlay/lib/tesla/include/stb_truetype.h:1906-1913 | tracking every point keeps the smallest box around them |
| CharstringSpec.PointsAreAll | Source/sys-clk-OC(deprecated)/overlay/lib/tesla/include/stb_truetype.h:1915-1923 | the points tracked are the ends of all vertices and the control points of the curves |
| CharstringSpec.StepShrinks | Source/sys-clk-OC(deprecated)/overlay/lib/tesla/include/stb_truetype.h:2018-2258 | every operator leaves less to read in the innermost of at most eleven nested frames and as much in the others, keeps the stack limits, and loses nothing that is drawn |
| Charstring.Context.V | Source/sys-clk-OC(deprecated)/overlay/lib/tesla/include/stb_truetype.h:1915-1929 | a measuring context extends its box, a storing one stores the vertex in its next place; both count it, in an int |
| Charstring.Interpreter.CallSubr | Source/sys-clk-OC(deprecated)/overlay/lib/tesla/include/stb_truetype.h:2131-2147 | a subroutine call, with its four ways to fail |
| EdgeSort.SortEdges | Source/sys-clk-OC(deprecated)/overlay/lib/tesla/include/stb_truetype.h:3422-3426 | the edges are in ascending order of y0 and are a permutation of what they were, with recursion at most logarithmic |
| EdgeSort.QuickSort | Source/sys-clk-OC(deprecated)/overlay/lib/tesla/include/stb_truetype.h:3360-3420 | the quicksort permutes its piece, cuts it into ever smaller pieces in order, and recurses only on the smaller side: 2^depth is at most n |
| EdgeSort.Partition | Source/sys-clk-OC(deprecated)/overlay/lib/tesla/include/stb_truetype.h:3367-3409 | the two unchecked scans stay within the piece, nothing before i is above the pivot and nothing from i on is below it |
| EdgeSort.MedianFirst | Source/sys-clk-OC(deprecated)/overlay/lib/tesla/include/stb_truetype.h:3367-3388 | the median of three comes first, with an edge left behind that stops either scan |
| EdgeSort.InsertionSort | Source/sys-clk-OC(deprecated)/overlay/lib/tesla/include/stb_truetype.h:3342-3358 | the insertion sort sorts and permutes |
| Cmap.FindGlyphIndex | Source/sys-clk-OC(deprecated)/overlay/lib/tesla/include/stb_truetype.h:1511-1555 | the format 4 lookup finds the glyph that a scan of all segments finds; in a subtable written from segments, the glyph that these assign to the code point |
| Cmap.AssignedGlyph | Source/sys-clk-OC(deprecated)/overlay/lib/tesla/include/stb_truetype.h:1543-1555 | the encoding law: for any ascending disjoint segments up to 0xFFFF, each written with idDelta = first glyph - start or with a glyph array, a code point of a segment has the glyph assigned to it, and any other has glyph 0 |
| Cmap.FindSegment | Source/sys-clk-OC(deprecated)/overlay/lib/tesla/include/stb_truetype.h:1521-1541 | the search from one of two overlapping powers of two ends at the first segment that ends at or behind the code point |
| Handshake.AnnouncedMeansPassed | Source/MemTesterNX/source/main.c:429-448 | in every interleaving, when main announces ok for a job, that job returned 0 in every worker as its latest, no worker is in a test and every report is taken |
| Handshake.InStep | Source/MemTesterNX/source/main.c:130-174 | in every interleaving all running workers run main's current job, no report is lost or counted twice, and the jobs follow the table over and over |
| Handshake.FailuresAreReported | Source/MemTesterNX/source/main.c:469-474 | main reports an error only for a worker whose test of the current job failed, and after any failure it never announces ok again |
| Handshake.NeverStuck | Source/MemTesterNX/source/main.c:415-485 | once all workers are past their first wait in a run, some step other than waiting is possible in every state that can follow, unless main has reported an error |
| Handshake.BusyIsBounded | Source/MemTesterNX/source/main.c:415-485 | between two announcements only a bounded number of steps can be taken that are not waiting |
| Handshake.MissedReady | Source/MemTesterNX/source/main.c:133-135 | a worker that has not seen -2 when main overwrites it never wakes up, and main never announces anything |
| Handshake.CanAnnounceIffAllWell | Source/MemTesterNX/source/main.c:415-485 | from any reachable state main can still announce another job if and only if no worker has failed and none has missed the -2 |
| Handshake.ReadyCanBeMissed | Source/MemTesterNX/source/main.c:417-427 | the -2 can be missed: main overwrites it before the worker looks |
| StartBarrier.RecordsAreReady | Source/TinyMemBenchNX/source/main.c:441-451 | in every interleaving, over any number of rounds and with wakeups for no reason, no worker reads its record before all records of the round are written, and each worker runs each round's record once and in order |
| StartBarrier.RoundsAreSeparate | Source/TinyMemBenchNX/source/main.c:74-129 | between rounds every worker is joined and has run once per round; nobody passes the barrier before it is opened; at most one thread is inside the lock |
| StartBarrier.NoDeadlock | Source/TinyMemBenchNX/source/main.c:74-129 | no wakeup is lost: in every state some thread can take a step without a wakeup for no reason |
| StartBarrier.RoundsEnd | Source/TinyMemBenchNX/source/main.c:475-493 | a round takes a bounded number of steps that do something, plus five for every wakeup for no reason |
| StartBarrier.RoundCanComplete | Source/TinyMemBenchNX/source/main.c:475-493 | from every state an interleaving can reach, the current round can complete, within that bound and without a wakeup for no reason |
| SlidingMax.SWindowMax.Get | Source/sys-clk-OC(deprecated)/sysmodule/src/oc_extra.h:282-294 | the two stacks give exactly the block-wise maximum, nothing for the first W samples |
| SlidingMax.SWindowMax.Add | Source/sys-clk-OC(deprecated)/sysmodule/src/oc_extra.h:280-280 | a sample moves the stacks as specified and never pops an empty one |
| SlidingMax.WindowMaxBounds | Source/sys-clk-OC(deprecated)/sysmodule/src/oc_extra.h:237-295 | after the warm-up the value is at least every sample of the current block, the newest included, and at most the largest of the last 2W - 1 samples |
| SlidingMax.WindowMaxIsTrueIff | Source/sys-clk-OC(deprecated)/sysmodule/src/oc_extra.h:237-295 | exactly when it is the maximum of the last W samples: at the end of a block always; before it if and only if the samples of the previous block that are counted have the same maximum as those that should be, or neither exceeds the current block |
| SlidingMax.NotTheWindowMaximum | Source/sys-clk-OC(deprecated)/sysmodule/src/oc_extra.h:237-295 | both deviations happen: it can miss the newest but one and report one W samples older |
| Governor.AccumulatorBounds | Source/sys-clk-OC(deprecated)/sysmodule/src/oc_extra.h:144-153 | for loads of at most 1000 the least upper bounds of the accumulators are 2015 and 6238, not the constants 2012 and 6145 |
| Governor.UtilBounds | Source/sys-clk-OC(deprecated)/sysmodule/src/oc_extra.h:151-152 | the loads they report are at most 1001 and 1007 |
| Governor.AccIsMonotone | Source/sys-clk-OC(deprecated)/sysmodule/src/oc_extra.h:149-153 | more load at any time never lowers an accumulator |
| Governor.IdleBringsZero | Source/sys-clk-OC(deprecated)/sysmodule/src/oc_extra.h:297-311 | 12 idle updates bring the CPU's load to 0 and 63 the GPU's |
| Governor.AccumulatorsNeverWrap | Source/sys-clk-OC(deprecated)/sysmodule/src/oc_extra.h:149-153 | for loads of at most 1000 no 32-bit product of the accumulators wraps around |
| Governor.DemandNeverWraps | Source/sys-clk-OC(deprecated)/sysmodule/src/oc_extra.cpp:160-161 | with ceilings up to 2.8 GHz neither does the demanded frequency |
| Governor.ChoiceInRange | Source/sys-clk-OC(deprecated)/sysmodule/src/oc_extra.cpp:147-173 | with a table entry as the ceiling the choice lies between the clamps for every load, and between them is the least entry meeting the demand |
| Governor.ChoiceIsLeast | Source/sys-clk-OC(deprecated)/sysmodule/src/oc_extra.cpp:147-173 | so it is the least of the clamps and the entries between them that meets the demand, or as much of it as the ceiling admits |
| Governor.AboveCeilingIff | Source/sys-clk-OC(deprecated)/sysmodule/src/oc_extra.cpp:163-169 | with any other ceiling the choice exceeds it exactly when the demand is between the clamps, no entry lies between demand and ceiling, and one lies above |
| Governor.ChoiceAboveCeiling | Source/sys-clk-OC(deprecated)/sysmodule/src/oc_extra.cpp:163-169 | a table and a ceiling between its entries with a choice above the ceiling |
| Governor.ChoiceIsMonotone | Source/sys-clk-OC(deprecated)/sysmodule/src/oc_extra.cpp:160-170 | up to 2.8 GHz more load never lowers the choice |
| Governor.TargetStaysInRange | Source/sys-clk-OC(deprecated)/sysmodule/src/oc_extra.cpp:147-173 | over any run in which the hardware reports loads and only the choice takes the target above a ceiling from the table (ceilings may change): all samples are loads of at most 1000, the target stays within the ceiling, a tick takes it between the clamps, and the demand does not wrap up to 2.8 GHz |
| Governor.OnlyLoadsIff | Source/sys-clk-OC(deprecated)/sysmodule/src/oc_extra.h:92-95 | only loads of at most 1000 are measured if and only if 1000 * target < 1001 * ceiling |
| Governor.BoostExceedsCeiling | Source/sys-clk-OC(deprecated)/sysmodule/src/oc_extra.h:127-129 | a boost above the ceiling makes a CPU core measure 1750 |
| Governor.BoostsAreSurvived | Source/sys-clk-OC(deprecated)/sysmodule/src/oc_extra.cpp:147-173 | over any run under one ceiling of at least 100 MHz with boosts and clocks read back of up to 2.8 GHz: samples are at most 1000 * top / ceiling, neither accumulators nor demand wrap, and with a floor above 0 the next choice is between the clamps again |
| Governor.RaisedCeilingWraps | Source/sys-clk-OC(deprecated)/sysmodule/src/oc_extra.cpp:160-161 | that the ceiling stays is needed: a sample measured under a low ceiling makes the demand under a high one wrap around |
| Governor.CpuGovernor.MeasureCore | Source/sys-clk-OC(deprecated)/sysmodule/src/oc_extra.cpp:229-229 | a core's worker measures against the target |
| Governor.NearestIsEntry | Source/sys-clk-OC(deprecated)/sysmodule/src/clocks.cpp:397-404 | the ceilings of GetNearestHz are table entries |
| Governor.BaseGovernor.ApplyNewFreqFromNormUtil | Source/sys-clk-OC(deprecated)/sysmodule/src/oc_extra.cpp:147-173 | the target is the choice, and the hardware is told of new ones only |
| Governor.CpuGovernor.Apply | Source/sys-clk-OC(deprecated)/sysmodule/src/oc_extra.cpp:206-219 | a tick takes the load of the busiest core as the next sample, and boosts to the higher of ceiling and boost clock, or sets a target that meets the demand, up to the ceiling, of the load reported with that sample counted in; one event of the run |
| Governor.GpuGovernor.Apply | Source/sys-clk-OC(deprecated)/sysmodule/src/oc_extra.cpp:258-262 | a tick takes the load, normalised by the target, as the next sample and sets a target that meets the demand, up to the ceiling, of the load reported with that sample counted in; two events of the run |
| GovernorTick.MoreLoadNeverLowersTick | Source/sys-clk-OC(deprecated)/sysmodule/src/oc_extra.cpp:206-219 | raising only the loads of a tick never lowers the target it sets, up to 2.8 GHz; with a floor of 0, loads that ask for nothing are no choice, and the target stays |
| GovernorTick.BusyCoreRaisesTick | Source/sys-clk-OC(deprecated)/sysmodule/src/oc_extra.cpp:206-219 | and some raise it: from no samples, loads of 1000, 0, 0 and 0 choose 1224 MHz where an idle tick chooses 612 |
| GovernorTick.IdleTickKeepsTarget | Source/sys-clk-OC(deprecated)/sysmodule/src/oc_extra.cpp:158-173 | with a floor of 0 a little more load can lower the target: the input |
| GovernorTick.UtilIsMonotone | Source/sys-clk-OC(deprecated)/sysmodule/src/oc_extra.h:297-311 | more load in any samples never lowers the load reported, that of the window included |
| Governor.GpuGovernor.SetMaxHz | Source/sys-clk-OC(deprecated)/sysmodule/src/oc_extra.cpp:280-295 | the ceiling with its fallback, and the floor at most that: one event of the run |
| Governor.NormalizedIsLoad | Source/sys-clk-OC(deprecated)/sysmodule/src/oc_extra.h:92-95 | with the target within the ceiling a governor never sees more than the raw load |
| Governor.NormalizedIsShare | Source/sys-clk-OC(deprecated)/sysmodule/src/oc_extra.h:92-95 | what it sees is the raw load times target over ceiling, rounded down |
| Clocks.Clocks.UpdateFreqRange | Source/sys-clk-OC(deprecated)/sysmodule/src/clocks.cpp:36-86 | the ranges are functions of the tables, the hardware and the flag |
| Clocks.Clocks.SetAllowUnsafe | Source/sys-clk-OC(deprecated)/sysmodule/src/clocks.cpp:104-109 | after any history the ranges depend on the last flag only |
| Clocks.UnsafeNeverLowers | Source/sys-clk-OC(deprecated)/sysmodule/src/clocks.cpp:42-85 | allowing unsafe frequencies lowers no profile's ceiling |
| Clocks.EristaCaps | Source/sys-clk-OC(deprecated)/sysmodule/src/clocks.cpp:42-85 | on Erista hardware, with tables that have the caps as entries, the highest clocks are those of the documentation, but for the unsafe CPU clock on USB, which is not capped |
| Clocks.MarikoCaps | Source/sys-clk-OC(deprecated)/sysmodule/src/clocks.cpp:42-85 | on Mariko hardware the caps are the same for all profiles but the unsafe GPU clock in handheld mode; the documentation's lower ones for handheld mode and USB are not kept |
| Clocks.MemoryBounds | Source/sys-clk-OC(deprecated)/sysmodule/src/clocks.cpp:36-40 | memory clocks are not capped; on Mariko hardware they start at 1600 MHz, on Erista hardware at the lowest entry |
| Clocks.Clocks.GetRange | Source/sys-clk-OC(deprecated)/sysmodule/src/clocks.cpp:17-34 | for a known module there is always a range, within the table; for another one an error |
| Clocks.Clocks.GetTable | Source/sys-clk-OC(deprecated)/sysmodule/src/clocks.cpp:88-102 | the profile's entries, and zeros behind them |
| Clocks.Clocks.GetNearestHz | Source/sys-clk-OC(deprecated)/sysmodule/src/clocks.cpp:397-404 | the lowest entry of the range that meets the frequency, or else its highest |
| Clocks.NearestHzIsSound | Source/sys-clk-OC(deprecated)/sysmodule/src/clocks.h:27-35 | choosing the nearest entry stays in the range, keeps entries, is monotone and least |
| Clocks.FreqRange.InitDefault | Source/sys-clk-OC(deprecated)/sysmodule/src/clocks.h:55-71 | the range of a whole table ends before the first zero behind its first entry; a table with all 31 entries in use is searched past its end, and the range ends there unless a zero happens to follow |
| MemoryTests.TestStuckAddress | Source/MemTesterNX/source/tests.c:69-102 | 0 exactly when every word keeps its address and its complement in every pass |
| MemoryTests.StuckAddressVerdict | Source/MemTesterNX/source/tests.c:69-102 | with two passes, memory whose only faults are stuck bits passes if and only if no bit is stuck and no two words share a cell |
| MemoryTests.PassesIff | Source/MemTesterNX/source/tests.c:69-102 | with any faults a word passes if and only if its fault turns what the last word of its cell was given into what it was given itself |
| MemoryTests.FaultCanHideSharedCell | Source/MemTesterNX/source/tests.c:69-102 | a fault that hides a shared cell in any number of passes |
| MemoryTests.OnePassFindsHalf | Source/MemTesterNX/source/tests.c:76-76 | with dividend 16 the single pass finds a stuck bit of an even word exactly when it differs from the bit of the address, and of an odd word exactly when it equals it |
| MemoryTests.TestSolidBits | Source/MemTesterNX/source/tests.c:260-285 | 0 exactly when the two halves agree in every pass |
| MemoryTests.SolidBitsVerdict | Source/MemTesterNX/source/tests.c:260-285 | with two passes, on words with cells of their own whose only faults are stuck bits, the test says 0 if and only if every two partners have the same bits stuck at the same values |
| MemoryTests.SolidBitsFinds | Source/MemTesterNX/source/tests.c:260-285 | with any other faults: sound memory passes, and two passes find a stuck bit whose partner word is sound |
| MemoryTests.SharedCellsVerdict | Source/MemTesterNX/source/tests.c:260-285 | on memory without faults in which words may share cells in any way, the test says 0 if and only if the words last given to the two cells of each pair are both even or both odd |
| MemoryTests.NeighboursAreFound | Source/MemTesterNX/source/tests.c:274-276 | so two neighbours in one cell are found by one pass |
| MemoryTests.CompareRegions | Source/MemTesterNX/source/tests.c:47-67 | 0 exactly when all pairs of words read the same |
| MemoryTests.PassesOf | Source/MemTesterNX/source/tests.c:268-268 | the comparison has two passes up to dividend 5 and none from 9 on, when it accepts any memory; the address test has two up to 8 |
| IpcServer.RunIsSound | Source/sys-clk-OC(deprecated)/sysmodule/lib/nxExt/src/ipc_server.c:180-203 | over every run slot 0 stays the port, the table keeps to its size, sessions stay in the order of acceptance, no handle is in two slots, and none is lost or closed twice, also when a closed handle is given out again |
| IpcServer.OnePlace | Source/sys-clk-OC(deprecated)/sysmodule/lib/nxExt/src/ipc_server.c:120-129 | a handle is open in at most one slot, and was closed as often as it was accepted, but for the one that is open |
| IpcServer.Server.Process | Source/sys-clk-OC(deprecated)/sysmodule/lib/nxExt/src/ipc_server.c:131-203 | one event changes the table as specified, with all failures; of a request in slot i: if receiving, parsing or replying fails, other than by a timeout of the reply, or the client asks to close, exactly the handle of slot i is closed and taken out, the others staying in order, and otherwise nothing changes; a new session comes last, or is closed when the table is full |
| IpcServer.RequestEndsItsOwn | Source/sys-clk-OC(deprecated)/sysmodule/lib/nxExt/src/ipc_server.c:131-178 | a request closes its own session if it ends it, and no other |
| IpcServer.LeavesByItsOwn | Source/sys-clk-OC(deprecated)/sysmodule/lib/nxExt/src/ipc_server.c:180-203 | over every run: a session in the table whose handle is not given out again is out of it at the end if and only if one of its own requests ended it |
| IpcServer.Server.DeleteSession | Source/sys-clk-OC(deprecated)/sysmodule/lib/nxExt/src/ipc_server.c:55-70 | deleting closes the handle and moves the later ones down in order |
| IpcServer.Server.AddSession | Source/sys-clk-OC(deprecated)/sysmodule/lib/nxExt/src/ipc_server.c:43-53 | a full table refuses a session and stays as it is |
| IpcServer.Server.Exit | Source/sys-clk-OC(deprecated)/sysmodule/lib/nxExt/src/ipc_server.c:33-41 | leaving closes every handle of the table once, in order |
| IpcServer.EverythingIsClosed | Source/sys-clk-OC(deprecated)/sysmodule/lib/nxExt/src/ipc_server.c:33-41 | after leaving, the port and every accepted handle have been closed exactly once |
| CustTable.SaveThenLoad | pages/src/main.ts:678-704 | a load after a save shows exactly the values saved |
| CustTable.LoadThenSave | pages/src/main.ts:678-704 | loading a file with valid values and saving it without an edit leaves it byte for byte |
| CustTable.WrittenReadsBack | pages/src/main.ts:678-693 | a save leaves every byte outside the table as it was, and the table where it was |
| CustTable.OffsetsAreDisjoint | pages/src/main.ts:778-803 | the entries overlap neither each other nor the magic and the revision |
| CustTable.OffsetsArePacked | pages/src/main.ts:778-803 | they follow one another without gaps, the first right behind the four bytes of the magic and the four of the revision |
| CustTable.ValidIsWhole | pages/src/main.ts:31-48 | validation admits only whole numbers that fit the entry |
| CustTable.ValidatesIff | pages/src/main.ts:31-48 | validation admits exactly the multiples of the step within the bounds, and 0 where it is allowed |
| CustTable.LittleEndian | pages/src/main.ts:657-665 | numbers are read and written with the lowest byte first |
| CustTable.Cust.Parse | pages/src/main.ts:778-803 | parse succeeds exactly on files with the revision and the whole table, and reads every entry at its offset |
| CustTable.Cust.Save | pages/src/main.ts:678-693 | nothing is written unless every input is there and valid; then every entry is, up to the first that does not fit the buffer, at the offsets of the table that was parsed last |
| CustTable.Cust.Load | pages/src/main.ts:805-817 | a load replaces the input fields when the file has the magic and leaves them and their offsets when it has not |
| CustTable.SaveIntoAnyFile | pages/src/main.ts:678-693 | what a save leaves in any file, also one that was loaded in vain: the entries that fit, at the old offsets, and all else as it was |
| CustTable.Cust.FindMagicOffset | pages/src/main.ts:667-676 | the first multiple of four with the magic, or an error |
| CustTable.MagicIsFirst | pages/src/main.ts:667-676 | that place is the first multiple of four at which the file says CUST |

## Left out

- Standard input and output: a file is its text; an error of a read or write that has begun, the name of
  the temporary file and the case of two files with one name are not modelled. Whether a file can be opened
  for writing is a parameter. A text holds no NUL characters.
- The libc functions (`fgets`, `strtoul`, `snprintf`, `strrchr`, `strnicmp`) are modelled as the C standard
  describes them; 64-bit `unsigned long` as on the console.
- `ini_gets`, `ini_getl`, `ini_getsection`, `ini_getkey` and `ini_putl`: thin wrappers on the functions modelled.
- Config: logging, the modification time and the lock; the override frequencies.
- stb_truetype: floats are real numbers, so rounding is not modelled, and conversions to int never overflow.
  How the CFF index is parsed and which subroutines belong to a glyph is not part of the model; failing
  assertions on reads behind a buffer are taken as disabled. Formats 0, 2, 6, 12 and 13 of 'cmap', outlines of
  TrueType, rasterisation and distance fields are left out.
- EdgeSort: edges are compared by real keys, so there is no NaN.
- MemTesterNX: the shared ints are sequentially consistent; starting the threads, and the tests other than the
  two modelled, which have the shape of the solid bits test, are left out.
- TinyMemBenchNX: a job record is written and read in one step; the measuring around the rounds is left out.
- Charstring.RunCharstring: what happens once an int counter overflows, which C does not define.
- Config.ConfigStore.SetProfiles: what happens once it has written outside its arrays.
- Governor: how the loads are measured, when the threads run, and what makes a core count as stuck.
- Clocks: everything that asks the system (temperatures, profiles, current clocks), and all but `InitDefault` for
  a table with no zero in it, whose range ends outside of it.
- IpcServer: the contents of requests and responses, and the numbers of libnx's results.
- CustTable: the page but for its input fields, of which the removed ones are taken to be all, its storage in the
  browser and the download; positions and values are unbounded integers and reals. Entries of other sizes than
  2 and 4, which the tables do not have.
- Pointers are indices: aliasing is modelled where buffers overlap (`IniBuffer`), and not otherwise.
