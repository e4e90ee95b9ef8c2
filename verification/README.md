# Verified model of raptor-common

A Dafny model of six parts of the library, with proofs about all their inputs,
runs and interleavings.

* **Configuration store** (`CText`, `Config*`): the INI loader, the store with its
  dirty, defaulted and removed flags, the comment-preserving save, and several
  daemons that save one file under a lock. `ConfigGrammar` says over raw text what a
  line does, `ConfigMeaning` is the plain map a text stands for, `ConfigSave` the save
  line by line, and `ConfigSurgical` the save as the program runs it, over line arrays and
  one output buffer.
* **SPS editor** (`Vui*`): RBSP escaping, the Exp-Golomb cursor, the H.264 and H.265
  walks to `video_full_range_flag`, and the in-place edit.
* **SEI time stamps** (`Sei*`): the builder and the parser.
* **Media clock** (`Clock*`, `MediaClock`): the ring of per-second minima, the median
  and the filter.
* **MPEG-TS multiplexer** (`Ts*`): packets, continuity counters, the clock guard, the
  program tables and their CRC, against a demultiplexer and a receiver that follows the
  tables (`TsReceiver`).
* **JSON** (`Json*`): trees, printer and parser over their buffers, the grammar of the
  texts that parse (`JsonGrammar`), and the linked list of children.

Code that changes state in place is a method over arrays or a class, proved equal to a
function on values; the theorems are about these functions. Bytes are `bv8` in the
binary parts and characters below 256 in the textual ones; integers are unbounded except
where the width matters and is written out. `dafny verify dfyconfig.toml` checks all of it.

## What the proofs say about the code

* **CRC table.** Five entries of `crc32_table` (indices 27 to 31, all on
  `src/rss_ts.c:18`) differ from the polynomial's by 0x00A00000. One faulty lookup
  always spoils the CRC, and two never cancel out below 4 GiB (`TsCrc`, `TsCrcOrder`). Of
  the declared stream types, the association table and every program map without Opus
  still check; a program map with Opus fails a receiver's check for five of the 256
  channel codes per video codec (`TsTables`).
* **Lost values.** A saved value reads back if and only if it is trimmed, holds no comment
  mark, and is not empty in front of an inline comment that is kept; an empty value there
  reads back as the comment (`ConfigEmptyValue`). The other names of the save are right
  all the same (`ConfigSaveMeaning`).
* **Long names.** A getter that stores a default for a key of 64 bytes or more can be told
  by later calls exactly when the first 63 bytes are a name that unset would take out,
  because the default is stored in front of it; for a section name exactly when the cut
  name has a key with a value (`ConfigRuns`). Of two sets of one such key the second is
  never saved over an existing line (`ConfigOnce`).
* **Getters and removals.** `rss_config_remove_section` answers true for a section that
  only a getter made; it is the one call that can tell (`ConfigRemovals`).
* **H.265 reference picture sets.** The walk counts a kept candidate at the current picture
  itself, which section 7.4.8 of ITU-T H.265 puts in neither list. A set predicted from such
  a set is read with one entry too many; without such sets the walk is exact
  (`VuiHevcExact`).
* **Escapes.** `parse_hex4` answers 0 for a character that is no hexadecimal digit, and its
  caller cannot tell: such an escape is accepted as U+0000, which ends the C string
  (`JsonUtf`). Where its last character is a backslash, a backslash that ends the string is
  read together with the closing quote (`JsonGrammar`).
* **JSON accepted.** Apart from such escapes the parser is wider than RFC 8259 in three
  ways and no other: any character up to the blank is white space, controls may stand raw
  in strings, and integers may have leading zeros (`JsonSound`).
* **SEI errors.** `include/rss_sei.h:61-64` promises EBADMSG for a truncated payload; the
  code answers ENOENT, or walks over it when it says that it is short, and EBADMSG exactly
  for wrong guard bytes (`SeiAnswers`).
* **Print buffers.** `include/cJSON.h:168` advises five spare bytes; two are exactly enough
  (`JsonPrinter`).

## Model

| member | source | states |
|---|---|---|
| `ConfigSaveMeaning.SaveMeaning` | src/rss_config.c:802-1009 | Save meaning: for every file and every orderly list (canonical names and one-line values, live names apart), loading the saved text gives the old map with each set name bound to what the loader reads of the line written for it, which is the value exactly when the value survives; each unset name gone with every duplicate, each removed section gone with all its names, every other name unchanged |
| `ConfigSaveMeaning.SavedSet` | src/rss_config.c:930-1001 | A name the save sets is bound, last, by exactly the line written for it: its old line rebuilt with the comment kept, or a new key line |
| `ConfigSaveMeaning.SavedGone` | src/rss_config.c:839-906 | No duplicate of an unset name, and no name of a removed section, is bound in the saved file |
| `ConfigSaveMeaning.SavedUntouched` | src/rss_config.c:930-1001 | A name the dirty list is not about is bound by the very line that bound it before |
| `ConfigSaveMeaning.SurgicalFrom` | src/rss_config.c:930-1001 | Every line of the saved file is an old line, a blank line, the key line or header of a live reference, or a line rebuilt for one: nothing is invented |
| `ConfigSaveStable.SaveIsStable` | src/rss_config.c:802-1009 | Saving the same orderly list onto its own output changes no byte if and only if the next save finds on each written line the comment that this one carried over |
| `ConfigSaveStable.SurvivorsComeAgain` | src/rss_config.c:944-972 | That is so for every value that survives the save |
| `ConfigSaveStable.SaveIsLocal` | src/rss_config.c:839-906 | For every list: lines that no reference binds, outside removed sections and not the blank line above a removed header, are in the output byte for byte and in their order |
| `ConfigPlaces.RewriteKeeps` | src/rss_config.c:930-972 | A rewritten line keeps what leads it, the spelling of its key and its comment with the blanks in front; the comment goes if the line would reach 512 bytes, and then the spelling if that would |
| `ConfigPlaces.GoesIs` | src/rss_config.c:839-906 | A line of the file goes if and only if it shows in a removed section, binds a name taken out, or is blank above the header of a removed section |
| `ConfigPlaces.AnchorIs` | src/rss_config.c:849-875 | The line behind which a new key goes is the last one of its section that is not blank |
| `ConfigPlaces.NewKeysFollow` | src/rss_config.c:974-985 | Behind what became of each line stand the key lines of exactly the new keys that go there, in the order of the list, in front of what became of the next |
| `ConfigPlaces.FreshLine` | src/rss_config.c:974-985 | The line that stands for a new key is `key = value` and nothing else |
| `ConfigPlaces.NewKeysLead` | src/rss_config.c:920-928 | The same at the top of the file, for keys of the section without a name when the file shows nothing of it |
| `ConfigPlaces.NewSectionIsThere` | src/rss_config.c:987-1001 | Behind all lines of the file the header of each new section stands below one blank line, and behind it the key lines of exactly the references to it, in the order of the list |
| `ConfigOrder.SetComesLast` | src/rss_config.c:743-794 | A name set for the first time is collected behind everything its section owes, and nothing else moves: new keys are saved in the order in which they were set |
| `ConfigOnce.WrittenExactly` | src/rss_config.c:908-1001 | For every file and every list at all, a live reference is written once if and only if the file has no line for it, or its last one is in no removed section, is not taken out, and no earlier live reference ends at that line; otherwise it is written nowhere |
| `ConfigOnce.WrittenOnce` | src/rss_config.c:908-1001 | When live names are apart, which every store with unique names collects, each live reference is written exactly once, whatever its key and value |
| `ConfigOnce.SecondSetIsLost` | src/rss_config.c:95-133 | Two sets of one key of 64 bytes or more leave two entries of one 63-byte name; a lookup answers the second value and a save over that line writes the first |
| `ConfigOnce.MarksAreTruthful` | src/rss_config.c:930-1001 | Each output line attributed to a reference is its key line, or the line that bound it last, rebuilt with its comment |
| `ConfigBudget.SaveFitsBuffer` | src/rss_config.c:908-928 | The saved text and its terminator fit the buffer sized before the first write, for every file and list |
| `ConfigBudget.RebuiltShort` | src/rss_config.c:944-972 | A rebuilt line stays below the 512 bytes the loader accepts |
| `ConfigEmptyValue.ValueSurvives` | src/rss_config.c:930-1001 | In the saved file a set name has its value if and only if the value is trimmed, holds no comment mark of its own, and is not empty before a comment that stays |
| `ConfigEmptyValue.EmptyValueAndComment` | src/rss_config.c:944-972 | In the saved file a name set to the empty value is empty if and only if the line that bound it last has no comment, or no room for it; otherwise it is bound to text that starts with # |
| `ConfigEmptyValue.CommentIsRead` | src/rss_config.c:944-972 | A file of two lines where the empty value reads back as the comment |
| `ConfigEmptyValue.ReadsNoNewline` | src/rss_config.c:212-253 | Every loaded value is one line and fits its buffer |
| `ConfigLines.RebuiltParses` | src/rss_config.c:944-972 | Whatever white space leads a line and whatever comment it carries, the rewritten line binds the same key to the new value, and the next save finds the same key end and comment |
| `ConfigValues.RebuiltReads` | src/rss_config.c:212-253 | The same line for every value and every tail: the loader binds the key to what is left of both, cut at its first comment mark and trimmed |
| `ConfigValues.ReadBack` | src/rss_config.c:212-253 | What is left is the value if and only if the value is trimmed and without a comment mark, and not empty in front of a comment |
| `ConfigValues.ValueIsPlain` | src/rss_config.c:148-169 | What the loader leaves of any text it would leave as it is: reading a value a second time cuts nothing more |
| `ConfigLines.NewLineParses` | src/rss_config.c:920-928 | The line written for a canonical key and value binds exactly these |
| `ConfigLines.NewHeaderParses` | src/rss_config.c:987-1001 | The header written for a canonical section name opens that section |
| `ConfigLines.KeyLineShape` | src/rss_config.c:668-725 | The offsets of a key line cut it into leading white space, the key, and a comment run that reaches its end |
| `ConfigLines.ReadLine` | src/rss_config.c:212-253 | The loader binds a line exactly as the line grammar says |
| `ConfigLines.ClassifyLine` | src/rss_config.c:668-725 | The second copy of the line rules reports kind, key, end of key and comment offset of the same grammar: it mirrors the loader |
| `ConfigGrammar.LineIs` | src/rss_config.c:212-253 | The line grammar over raw text, for every line: it binds a key to a value if and only if it is white space, a key, white space, the first = and that value between white space or in front of a comment; it opens a section if and only if a name stands between [ and the first ]; it does nothing if and only if it is blank, a comment, an unclosed [, without =, without a key, or over-long |
| `ConfigGrammar.CutsAre` | src/rss_config.c:668-725 | On such a line the key ends where it does, and the comment offset is that of the blanks in front of the # behind the value, or none |
| `ConfigReading.MeaningIs` | src/rss_config.c:175-257 | For every text and name: the name has a value if and only if some line under the header of its section binds it to that value, cut to its buffer, and no later line binds it |
| `ConfigReading.UnlinesOfLines` | src/rss_config.c:183-207 | The lines of a text, written one by one, are the text, also when its last line has no newline |
| `ConfigReading.SameButCase` | src/rss_config.c:78-104 | Names are the same if and only if they are letter by letter, in either case |
| `ConfigReading.SpaceIs` | src/rss_util.c:93-112 | White space is the blank and the controls 9 to 13 |
| `ConfigLines.FindInlineComment` | src/rss_config.c:148-157 | Finds the first # with a blank before it |
| `ConfigLines.StripInlineComment` | src/rss_config.c:159-169 | Cuts the value in front of the blanks before the comment |
| `ConfigLines.LinesOfUnlines` | src/rss_config.c:183-207 | A text written line by line splits back into these lines |
| `ConfigLoader.LoadAnswersMeaning` | src/rss_config.c:175-257 | Loading gives the meaning: a lookup of any section and key answers what the plain map of the text says |
| `ConfigLoader.LoadKeepsInv` | src/rss_config.c:175-257 | A text whose keys fit their buffer loads into a store with one entry a name and nothing to save |
| `ConfigApi.Load` | src/rss_config.c:175-257 | The reading loop, with over-long lines rejected whole, builds the store that the fold over the lines gives |
| `ConfigApi.LoadLine` | src/rss_config.c:191-210 | A line that fills the buffer is kept only if it ends there |
| `ConfigApi.Fgets` | src/rss_config.c:191-210 | Reads up to a newline or until the buffer is full |
| `ConfigStoreFacts.PutAt` | src/rss_config.c:95-133 | An add changes the entry of its own name and no other, for every section and key up to case |
| `ConfigStoreFacts.SetAt` | src/rss_config.c:429-452 | A set leaves its name dirty, visible and with the value, and every other name as it was |
| `ConfigStoreFacts.WithSectionFinds` | src/rss_config.c:78-93 | A section is created only when no section has the name, and no entries change |
| `ConfigStoreInv.GetIsLook` | src/rss_config.c:279-324 | A lookup answers what the name is bound to, skipping removed and defaulted entries |
| `ConfigStoreInv.UnsetAt` | src/rss_config.c:466-494 | Unset answers true exactly when the name is visible, takes that name out and leaves every other |
| `ConfigStoreInv.SetOk` | src/rss_config.c:429-452 | A set keeps the store invariant: names are unique up to case, and a dirty default is a removed one |
| `ConfigStoreInv.UnsetOk` | src/rss_config.c:466-494 | An unset keeps the store invariant |
| `ConfigStoreInv.PutDefaultOk` | src/rss_config.c:140-143 | Storing a default keeps the store invariant |
| `ConfigStoreInv.HasDirtyIs` | src/rss_config.c:535-549 | The store is dirty exactly when some name is set or taken out and not saved, or some removed section is still owed to the file |
| `ConfigRuns.GettersAreInvisible` | src/rss_config.c:279-370 | In any run of set, unset and getter calls with names of any length, leaving out getter calls that are quiet when they come changes no answer of the others, no unset result and no has_dirty result |
| `ConfigRuns.ShortLeavesOut` | src/rss_config.c:279-324 | Getter calls whose names fit their buffers are always quiet, so any of them may be left out |
| `ConfigRuns.LongKeyGetter` | src/rss_config.c:95-133 | A getter with a default for a key of 64 bytes or more can be told by some later run if and only if an unset of the first 63 bytes would have answered true |
| `ConfigRuns.LongSectionGetter` | src/rss_config.c:78-93 | A getter with a default for a section name of 64 bytes or more can be told by some later run if and only if some key of the cut section name answers a value |
| `ConfigRuns.StoresAreFitted` | src/rss_config.c:78-133 | Every store that calls can reach has names that fit their buffers |
| `ConfigRemovals.GettersAmongRemovals` | src/rss_config.c:466-533 | The same invisibility with remove_section among the calls, for getters that do not make their section |
| `ConfigRemovals.GetterMakesSection` | src/rss_config.c:509-533 | With remove_section among the calls a getter can be told if and only if it stores a default in a section that is not there or is removed |
| `ConfigViews.GetView` | src/rss_config.c:279-324 | A lookup answers the first of the values listed for the name, also where cut names left several entries |
| `ConfigViews.SetView` | src/rss_config.c:429-452 | What a set does to the view of each name, whatever the store holds |
| `ConfigViews.UnsetView` | src/rss_config.c:466-494 | Unset answers true exactly when the first visible entry of the name is not a default, and changes only that name |
| `ConfigViews.MissView` | src/rss_config.c:279-324 | What a stored default does to the view of each name, cut or not |
| `ConfigGetters.GetterAnswer` | src/rss_config.c:279-324 | A getter answers the bound value or else its own default cut to the value buffer, whatever defaults are stored |
| `ConfigGetters.LongKeyGetterIsVisible` | src/rss_config.c:95-133 | One such store: a getter for a 64-byte key hides the 63-byte name from unset |
| `ConfigClean.RemoveAt` | src/rss_config.c:509-533 | Removing a section hides every name of it, owes the file its removal and touches no other section |
| `ConfigClean.ClearAt` | src/rss_config.c:1052-1061 | After a successful save no name is dirty and no name has another value |
| `ConfigClean.SetClean` | src/rss_config.c:429-452 | Setting a canonical name to any one line keeps what the store owes writable: canonical names, one-line values |
| `ConfigClean.GetterClean` | src/rss_config.c:279-324 | A getter keeps what the store owes writable |
| `ConfigClean.RemoveClean` | src/rss_config.c:509-533 | Removing a section keeps what the store owes writable |
| `ConfigCommit.CollectApart` | src/rss_config.c:743-794 | What any store with unique names collects has its live names apart: none is taken out as well, none is in a removed section, no two are alike |
| `ConfigCommit.CollectOrderly` | src/rss_config.c:743-794 | What a store of canonical names and one-line values collects is orderly, and every line of it fits |
| `ConfigCommit.SaveCommits` | src/rss_config.c:1011-1069 | In the saved file every dirty name has what the loader reads of its line, the stored value exactly when that survives, or is gone; a removed section is gone; any other name is as the file had it |
| `ConfigDaemons.NoLostUpdate` | src/rss_config.c:1011-1069 | From a file whose keys fit their buffers, in every interleaving of n daemons that edit their copies and save under the lock, a name written by one daemon alone, to values that survive any save, loads from the file as what that daemon last saved; the other names are canonical and may be set to any one line |
| `ConfigDaemons.UnwrittenKept` | src/rss_config.c:1011-1069 | From such a file, a name nobody writes keeps its first value through every interleaving |
| `ConfigDaemons.StepKeeps` | src/rss_config.c:1011-1069 | Each step of each daemon keeps the invariant: one holder of the lock, its text current, and clean names equal to the file |
| `ConfigDaemons.RunKeeps` | src/rss_config.c:1011-1069 | The invariant holds after every run, with the owner's ledger moved along |
| `ConfigApi.Config.AddEntryEx` | src/rss_config.c:95-133 | The list walk updates, marks and pushes entries as the store function says |
| `ConfigApi.Config.RssGetStr` | src/rss_config.c:279-324 | Lookup loops and the stored default, as the store function says |
| `ConfigApi.Config.RssSetStr` | src/rss_config.c:429-452 | Section put back and entry written dirty, as the store function says |
| `ConfigApi.Config.RssUnset` | src/rss_config.c:466-494 | First visible entry marked removed and dirty, as the store function says |
| `ConfigApi.Config.RssRemoveSection` | src/rss_config.c:509-533 | First unremoved section and its visible entries marked, as the store function says |
| `ConfigApi.Config.RssHasDirty` | src/rss_config.c:535-549 | The nested scan answers whether anything is dirty |
| `ConfigApi.Config.RssCollectDirty` | src/rss_config.c:743-794 | Newest-first gathering and the reversal give the dirty list |
| `ConfigApi.Config.RssSave` | src/rss_config.c:1011-1069 | All or nothing: on a successful write the file is the edited text and the flags are clear, otherwise file and store are as they were |
| `ConfigApi.TurnRound` | src/rss_config.c:786-790 | The in-place swap loop reverses the list |
| `ConfigSurgical.ConfigWriteSurgical` | src/rss_config.c:802-1009 | The line arrays, the binding scan and the writing loops produce exactly the line-level edit, with every write inside the allocated buffer |
| `ConfigSurgical.FillLines` | src/rss_config.c:812-837 | The offset and length arrays cut the text into its lines |
| `ConfigSurgical.UpdateRef` | src/rss_config.c:849-875 | One record against one line: the last binding line, the last visible line of the section, and lines taken out |
| `ConfigSurgical.BindAll` | src/rss_config.c:839-882 | After the scan every record knows its line, and a line is dropped alone exactly when a reference takes it out |
| `ConfigSurgical.DropSeparators` | src/rss_config.c:891-906 | Exactly the blank line above a removed header is dropped as well |
| `ConfigSurgical.WritePending` | src/rss_config.c:920-985 | Keys without a line are written at the top or behind their anchor line, in list order, each once |
| `ConfigSurgical.WriteNewSections` | src/rss_config.c:987-1001 | A new section is opened once, set off by a blank line, with all its keys |
| `ConfigSurgical.Snprintf` | src/rss_config.c:908-928 | A formatted write with its terminator stays inside the buffer and appends the text |
| `CText.RssTrim` | src/rss_util.c:93-112 | Exactly the white space around the text goes, and the start is how much was in front |
| `CText.RssStrlcpy` | src/rss_util.c:70-91 | The longest prefix that fits, and the full source length |
| `CText.TrimFrame` | src/rss_util.c:93-112 | Trimming undoes any white space put around a trimmed text |
| `VuiEscape.UnescapeEscape` | src/rss_vui.c:61-91 | Unescaping an escaped payload gives it back, for every payload |
| `VuiEscape.EscapeConforms` | src/rss_vui.c:74-91 | Escaped output never holds 00 00 followed by 00, 01 or 02, and each 00 00 03 in it is an inserted byte |
| `VuiEscape.EscapeUnescape` | src/rss_vui.c:61-91 | Escaping what was unescaped gives the bytes back if and only if they conform |
| `VuiEscape.UnescapeInto` | src/rss_vui.c:61-71 | The loop writes the unescaped bytes, cut where the buffer ends |
| `VuiEscape.EscapeInto` | src/rss_vui.c:74-91 | The loop writes the escaped bytes, or answers 0 exactly when they do not fit |
| `VuiBits.ReadsU` | src/rss_vui.c:32-44 | Reading inverts u(n) for every code of up to 32 bits |
| `VuiBits.ReadsUe` | src/rss_vui.c:46-52 | Reading inverts ue(v) of section 9.1 of ITU-T H.264 for every code of up to 31 leading zeros |
| `VuiBits.ReadsSe` | src/rss_vui.c:54-58 | Reading inverts se(v) of section 9.1.1 |
| `VuiBits.BitReader.VbRead` | src/rss_vui.c:32-44 | The cursor moves by n bits, or overflows and stays overflowed, as the bit specification says |
| `VuiBits.BitReader.VbUe` | src/rss_vui.c:46-52 | Zeros are counted up to 32 and the suffix is read |
| `VuiBits.BitReader.VbSe` | src/rss_vui.c:54-58 | The code number is turned into a signed value |
| `VuiExact.WalkIsExact` | src/rss_vui.c:107-190 | For every conforming H.264 parameter set syntax tree (scaling lists, the three POC types, cropping, VUI), whatever bits follow, the walk answers the exact offset of video_full_range_flag, or absent when the block is |
| `VuiHevcExact.HevcWalkIsExact` | src/rss_vui.c:193-358 | The same for every conforming H.265 tree (profile and sub-layers, scaling lists, PCM, predicted and explicit reference picture sets, long-term pictures, VUI) whose sets are steady |
| `VuiHevcExact.TrackedIfSteady` | src/rss_vui.c:240-275 | The walk is where the syntax is after every number of reference picture sets if and only if they are steady: no set that another is predicted from keeps a candidate at the current picture itself |
| `VuiHevcExact.SomeAreNotSteady` | src/rss_vui.c:240-275 | Three conforming sets that are not |
| `VuiHevc.CountsOf` | src/rss_vui.c:240-275 | The count the walk keeps for a set is its NumDeltaPocs of section 7.4.8 of ITU-T H.265, plus one for each kept candidate at the current picture itself |
| `VuiPrefix.FullRangeSame` | src/rss_vui.c:107-358 | The offset found, for H.264 and H.265, depends only on bits before it |
| `VuiPrefix.MatrixSame` | src/rss_vui.c:363-375 | The offset of matrix_coefficients depends only on bits before it and lies past the flag |
| `VuiColour.MatrixWalkIsExact` | src/rss_vui.c:363-375 | From the flag of any conforming tree, H.264 or H.265, the walk passes colour_primaries and transfer_characteristics and ends on matrix_coefficients, whose value it then reads, or reports that there is no colour description |
| `VuiWalkers.H264FullRangeBit` | src/rss_vui.c:107-190 | The cursor walk answers what the walk specification says |
| `VuiWalkers.H265FullRangeBit` | src/rss_vui.c:277-358 | The cursor walk answers what the walk specification says |
| `VuiWalkers.H264ScalingList` | src/rss_vui.c:94-103 | Deltas are read until the scale reaches zero |
| `VuiWalkers.H265ProfileTierLevel` | src/rss_vui.c:193-219 | Profile, tier and level fields of the general and the sub-layers are passed over |
| `VuiWalkers.H265ScalingListData` | src/rss_vui.c:222-237 | All four sizes of scaling lists are passed over |
| `VuiWalkers.H265StRefPicSet` | src/rss_vui.c:240-275 | Reference picture sets are passed over with the counts that later sets are predicted from |
| `VuiWalkers.VuiMatrixBit` | src/rss_vui.c:363-375 | The cursor walk answers what the walk specification says |
| `VuiEdit.EditIsExact` | src/rss_vui.c:380-451 | On 1 the NAL unit keeps its length, start code and header, and its unescaped body differs only in the flag bit or the eight matrix bits |
| `VuiEdit.EditOrNothing` | src/rss_vui.c:380-451 | On 0 or -1 no byte of the buffer has changed |
| `VuiEdit.EditIsIdempotent` | src/rss_vui.c:380-451 | The same call after a 1 answers 0 and changes nothing |
| `VuiEdit.EditSetsTheFlag` | src/rss_vui.c:380-456 | Over a conforming H.264 parameter set the call answers 0 exactly when there is no flag or it is set, -1 exactly when the payload ends before the flag or, with the flag set, does not escape to the length it had, and else sets video_full_range_flag and no other bit |
| `VuiEdit.EditSetsTheHevcFlag` | src/rss_vui.c:380-456 | The same over a conforming H.265 parameter set with steady reference picture sets |
| `VuiColour.EditSetsTheMatrix` | src/rss_vui.c:380-461 | Over a conforming H.264 parameter set the call answers 0 exactly when there is no colour description or the field holds the value, -1 exactly when the escaped length would change, and else leaves the same tree with matrix_coefficients replaced and every bit behind it as before |
| `VuiColour.EditSetsTheHevcMatrix` | src/rss_vui.c:380-461 | The same over a conforming H.265 parameter set with steady reference picture sets |
| `VuiUnit.EditableIs` | src/rss_vui.c:380-405 | A unit with a start code of three or four bytes or none is edited if and only if its type is 7, or 33 in H.265, and its body has 1 to 1024 bytes |
| `VuiUnit.OthersRefused` | src/rss_vui.c:380-405 | Every other unit, and one of less than four bytes, answers -1 and is left as it is |
| `VuiEdit.EditSps` | src/rss_vui.c:380-451 | The in-place edit through its two buffers commits exactly what the edit specification says |
| `SeiTimestamp.RoundTrip` | src/rss_sei.c:31-187 | For every 64-bit time, status and codec, parsing the built NAL unit gives the time and the status with its reserved bits set, also behind any list of foreign messages |
| `SeiTimestamp.ParseFindsFirst` | src/rss_sei.c:109-187 | Over any list of messages the parser answers the first one that carries the identifier, EBADMSG if its guard bytes are wrong, and ENOENT if there is none |
| `SeiAnswers.ParseAnswers` | src/rss_sei.c:109-187 | For every byte string that is an SEI unit of the codec: a stamp or EBADMSG exactly when complete messages without the identifier lead to a complete message with it, the stamp if its guard bytes are right and EBADMSG if not; ENOENT exactly when none is reached |
| `SeiAnswers.TruncatedIsAbsent` | src/rss_sei.c:139-157 | A message whose declared size goes past the end, behind any messages the parser walks over, answers ENOENT whatever it carries |
| `SeiAnswers.ShortIsSkipped` | src/rss_sei.c:154-180 | A message declared shorter than the payload is walked over, whatever it carries |
| `SeiAnswers.TruncatedStamp` | src/rss_sei.c:139-157 | A stamp whose last bytes are missing answers ENOENT, however many are missing, where include/rss_sei.h:61-64 promises EBADMSG |
| `SeiLayout.UnitsRead` | src/rss_sei.c:109-127 | The units read are those of type 6, or 39 in H.265; every other answers ENOENT |
| `SeiLayout.StampIsLaidOut` | src/rss_sei.c:83-104 | The status has its reserved bits set, and the eight bytes of the time are its value, the most significant first, with FF between the pairs |
| `SeiLayout.IdentifierIsAscii` | src/rss_sei.c:19-22 | The H.264 identifier is the text MISPmicrosectime |
| `SeiLayout.FramingIs` | src/rss_sei.c:56-74 | An AVCC prefix is the length of the unit, an Annex B prefix a start code of four bytes |
| `SeiTimestamp.BareNalNeedsNoEscape` | src/rss_sei.c:56-106 | A built NAL unit is a fixed point of the RBSP escape |
| `SeiApi.BuildTimestamp` | src/rss_sei.c:31-107 | The bytes are written through the moving pointer, or an error leaves the buffer as it was |
| `SeiApi.ParseTimestamp` | src/rss_sei.c:109-187 | The cursor loops answer what the parsing specification says |
| `ClockHistory.WindowRefines` | src/rss_media_clock.c:55-104 | After every call slot (bucket - k) mod 16 holds the least lateness of exactly the samples since the last reset in the k-th most recent second, or the sentinel if there are none |
| `ClockHistory.TargetIsRobust` | src/rss_media_clock.c:91-106 | The target is one of these minima, and at or above a floor if and only if at most half of the seconds that have a sample are below it |
| `ClockHistory.MinOfIsMin` | src/rss_media_clock.c:87-89 | The minimum of a second is below no sample of it and is one of them |
| `ClockMedian.MedianRank` | src/rss_media_clock.c:91-106 | The median is at or above x if and only if at most half of the elements are below x |
| `ClockMedian.MedianPlus` | src/rss_media_clock.c:91-106 | Shifting every element shifts the median |
| `ClockMedian.SortedAscends` | src/rss_media_clock.c:91-105 | The insertion sort gives an ascending permutation |
| `ClockMedian.InsertInto` | src/rss_media_clock.c:95-105 | One turn of the in-place insertion sort |
| `ClockEpoch.EpochIndependence` | src/rss_media_clock.c:75-120 | Adding a constant to every producer timestamp of a run shifts the tracked offset by its negative and leaves every mapped result unchanged |
| `MediaClock.MappedFollows` | src/rss_media_clock.c:107-120 | Between two calls the mapped time moves as the producer time does, to within the clamp of the filter |
| `ClockFilter.FirstMapsToNow` | src/rss_media_clock.c:75-85 | The first sample is mapped to the time at which it came |
| `ClockFilter.OffsetFollows` | src/rss_media_clock.c:107-120 | Over every run, one more sample moves the filtered error a sixteenth of the way to the distance between target and offset, and the offset by a sixteenth of the filtered error, in its direction, up to a millisecond |
| `ClockFilter.ErrorFollows` | src/rss_media_clock.c:107-120 | So the filtered error stays between its old value and the present error, and gets nearer to it if and only if they are 16 or more apart |
| `ClockFilter.SettledGoesToTarget` | src/rss_media_clock.c:107-120 | From a settled filter the offset goes toward the target and never past it, and it moves if and only if the target is 256 microseconds away or more |
| `ClockFilter.RestsNearTarget` | src/rss_media_clock.c:107-120 | The clock rests if and only if the filtered error is below 16 and within 15 of the present error, and then within 30 microseconds of the target |
| `MediaClock.Clock.AdvanceWindow` | src/rss_media_clock.c:55-73 | The ring is rolled forward or reset in place as the specification says |
| `MediaClock.Clock.Map` | src/rss_media_clock.c:75-120 | One call moves the object state as the specification says and answers the producer time plus the offset |
| `MediaClock.Clock.Middle` | src/rss_media_clock.c:91-106 | The sort of the populated minima and its middle give the target |
| `TsPes.MuxThenDemux` | src/rss_ts.c:93-204 | Demultiplexing the emitted packets gives the data back when the buffer holds enough of them, else a prefix made of exactly floor(size / 188) packets; one PID, one unit start, counters that go up |
| `TsPes.FirstCarries` | src/rss_ts.c:93-204 | The first packet carries the clock reference and the random access flag |
| `TsPacket.PacketBack` | src/rss_ts.c:93-204 | By sections 2.4.3.2 to 2.4.3.5 of ISO/IEC 13818-1, each of the three stuffing cases parses back to the chunk, the PID, the start flag and the counter |
| `TsPacket.ExtrasBack` | src/rss_ts.c:117-136 | The adaptation field parses back to the clock reference modulo 2^33 and the random access flag |
| `TsPacket.PtsBack` | src/rss_ts.c:60-67 | A written time stamp reads back modulo 2^33, with its prefix |
| `TsPacket.PcrBack` | src/rss_ts.c:71-79 | A written clock reference reads back modulo 2^33 |
| `TsWrite.WritePesPackets` | src/rss_ts.c:93-204 | The in-place loops write exactly the specified packets, move the counter by their number and touch no byte behind them |
| `TsWrite.WritePacket` | src/rss_ts.c:106-197 | One packet: fill, header, adaptation field and the copied chunk |
| `TsMux.CountersRun` | src/rss_ts.c:83-91 | Over any run of table, video and audio calls into buffers of any sizes, every packet is on one of the four PIDs of the multiplexer, and the j-th packet of each carries j modulo 16 |
| `TsMux.VideoBack` | src/rss_ts.c:341-387 | A video PES header parses back to its stream and both time stamps modulo 2^33, and the data follows |
| `TsMux.AudioBack` | src/rss_ts.c:389-422 | An audio PES header parses back, with its length, or zero when that does not fit in 16 bits |
| `TsReceiver.TuneIn` | src/rss_ts.c:208-339 | Over every run, a receiver that knows only PID 0 learns the program, through the association and the map, exactly when a table call found room and the map passes its CRC check; it is the program asked for, with the codec types, one PID for clock and video, one for audio, and the channel code of an Opus stream (section 2.4.4 of ISO/IEC 13818-1) |
| `TsReceiver.Received` | src/rss_ts.c:208-422 | Over every such run, what is received on the PID announced for the video is, call by call, the PES packets of the video writes as far as their buffers had room, and likewise for audio; clock references are in exactly the packets that start a unit on the PID announced for the clock |
| `TsReceiver.PlaysBack` | src/rss_ts.c:341-422 | The j-th unit received on a stream is of the j-th call that wrote to it, and parses to its data and time stamps when its buffer had room |
| `TsClock.ClockBehind` | src/rss_ts.c:373-386 | With rising decoding times every clock reference lies between dts - 3000 and dts, whatever is written in between |
| `TsClock.RunBehind` | src/rss_ts.c:208-216 | The same over every run from a fresh multiplexer |
| `TsClock.ClockGoesUp` | src/rss_ts.c:373-386 | Between two table writes clock references strictly increase, whatever the decoding times do, until the 32-bit write counter wraps |
| `TsClock.ClockIsSent` | src/rss_ts.c:341-387 | The first packet of a video write carries that clock reference, and the random access flag exactly for a key frame |
| `TsCrcTable.TableIs` | src/rss_ts.c:14-47 | Each table entry is the remainder of its index by 0x04C11DB7, except entries 27 to 31, which are off by 0x00A00000 |
| `TsCrc.CrcAgrees` | src/rss_ts.c:49-56 | The table-driven CRC is the bit-at-a-time division of Annex A of ISO/IEC 13818-1 if and only if the differences its faulty lookups leave cancel out |
| `TsCrc.CrcByFaults` | src/rss_ts.c:49-56 | It is right for every string that looks up none of the five entries, wrong for every string that looks up one of them once, and for two lookups right if and only if their distance is a multiple of 2^32 - 1 bytes, so wrong below 4 GiB |
| `TsCrcOrder.BackAfterBytes` | src/rss_ts.c:14-56 | The remainder one faulty lookup leaves is itself again after n zero bytes if and only if n is a multiple of 2^32 - 1 |
| `TsCrc.TableIsOff` | src/rss_ts.c:18-18 | One byte whose CRC is wrong |
| `TsCrc.CheckIsZero` | src/rss_ts.c:49-56 | A string followed by four bytes has CRC 0 if and only if the four bytes are its CRC, most significant first |
| `TsCrc.MpegCrc32` | src/rss_ts.c:49-56 | The byte loop over the table computes the table-driven CRC |
| `TsTables.PatChecks` | src/rss_ts.c:225-255 | The written program association section passes a receiver's check |
| `TsTables.PmtChecks` | src/rss_ts.c:259-333 | For the declared stream types the written program map section passes the check if and only if it is not an Opus stream with one of five channel codes per video codec |
| `TsTables.ChecksByFaults` | src/rss_ts.c:250-333 | With at most two faulty lookups, below 4 GiB, a section checks if and only if there is none |
| `TsTables.TableBack` | src/rss_ts.c:218-339 | A table packet parses back to its section: section_length spans to the last CRC byte |
| `TsTables.PatLength` | src/rss_ts.c:225-255 | section_length of the program association section |
| `TsTables.PmtLength` | src/rss_ts.c:259-333 | section_length of every program map section |
| `TsApi.Muxer.WritePatPmt` | src/rss_ts.c:218-339 | Two packets or nothing, counters, and the clock guard reset |
| `TsApi.Muxer.WriteVideo` | src/rss_ts.c:341-387 | PES header, guarded clock, packets, counters |
| `TsApi.Muxer.WriteAudio` | src/rss_ts.c:389-422 | PES header, packets, counters; nothing without an audio stream |
| `JsonRound.PrintThenParse` | src/cJSON.c:1147-1304 | For every tree of null, booleans, 32-bit integers, C strings, arrays and objects nested at most 1000 deep, parsing the printed text gives the same tree to the last character, formatted or not |
| `JsonRound.ValueRound` | src/cJSON.c:1368-1494 | The same for a printed value anywhere in a buffer, at any depth, whatever follows that is no number character |
| `JsonRound.TextRound` | src/cJSON.c:824-1073 | Every C string is printed to a string literal that parses back to it |
| `JsonRound.NumberRound` | src/cJSON.c:307-408 | Every 32-bit integer is printed to digits that parse back to it |
| `JsonNormal.ParsePrintParse` | src/cJSON.c:1147-1304 | Whatever is parsed from any bytes prints, and the printed text parses to that very tree |
| `JsonUtf.SpellingDecodes` | src/cJSON.c:703-821 | The UTF-16 spelling of every Unicode scalar value, by one escape or a surrogate pair, decodes to its UTF-8 (RFC 8259 section 7, RFC 3629 section 3) |
| `JsonUtf.LiteralMeetsTheStandard` | src/cJSON.c:666-821 | The decoder agrees with RFC 8259 on a \u escape if and only if its four characters are hexadecimal digits or there is no room for four; otherwise it yields U+0000 |
| `JsonUtf.BadHexIsAccepted` | src/cJSON.c:666-699 | A string with a character that is no hexadecimal digit in an escape is accepted, and cut there |
| `JsonUtf.EscapesAreWellFormed` | src/cJSON.c:703-821 | Every accepted escape becomes one well-formed UTF-8 sequence |
| `JsonUtf.Utf8Back` | src/cJSON.c:766-815 | The encoding loop's bytes read back, by RFC 3629, to the scalar value |
| `JsonUtf.Utf8Unique` | src/cJSON.c:766-815 | Well-formed UTF-8 has no other spelling than what the encoder writes |
| `JsonSound.AcceptsExactly` | src/cJSON.c:1147-1224 | The parser accepts exactly the texts of a grammar, with the tree that the text stands for: RFC 8259 with any spacing and spelling and integers of 32 bits, made wider by any character up to the blank as white space, raw controls in strings, leading zeros, and escapes with wrong digits as U+0000; possibly behind a byte order mark |
| `JsonLayout.AcceptedByDepth` | src/cJSON.c:1497-1520 | Among these, exactly the texts with at most 1000 arrays and objects inside each other |
| `JsonAccepts.StandardTextParses` | src/cJSON.c:1147-1224 | Every text of RFC 8259 sections 2 to 7 whose numbers are integers of 32 bits parses to its tree, however it is spaced and spelt |
| `JsonAccepts.DocAccepted` | src/cJSON.c:1368-1777 | The same for a value anywhere in a buffer, at any depth that its nesting allows, in front of anything that is no number character |
| `JsonSound.ValueSpelt` | src/cJSON.c:1368-1777 | Whatever is read as a value, anywhere in a buffer, is the text of a document of the grammar with that tree |
| `JsonLayout.ValuePrinted` | src/cJSON.c:1423-1896 | Printed text is that of a document of RFC 8259 with the tree: arrays on one line, each member of an object on its own with tabs, letters for quote, backslash and five controls, four digits for the others |
| `JsonInk.RenderNoZero` | src/cJSON.c:576-586 | Printed text holds no zero byte, so the terminator scan stops at its end |
| `JsonPrinter.PrintPreallocated` | src/cJSON.c:1348-1365 | Printing into a caller's buffer succeeds if and only if the tree is not nested too deep and the buffer has two bytes more than the text; then it holds the text and its terminator |
| `JsonPrinter.PrintTree` | src/cJSON.c:1239-1304 | Printing into a growing buffer gives the text of the tree |
| `JsonPrinter.PrintBuffer.Ensure` | src/cJSON.c:490-573 | Room for the bytes asked and one, with what was written kept, unless the buffer may not grow that far |
| `JsonPrinter.PrintBuffer.UpdateOffset` | src/cJSON.c:576-586 | The offset moves over the text just written |
| `JsonPrinter.PrintBuffer.PrintString` | src/cJSON.c:954-1073 | The literal is written inside the room that the counting pass reserved |
| `JsonPrinter.PrintBuffer.PrintValue` | src/cJSON.c:1423-1494 | Succeeds exactly when the depth and the room suffice, and then the text stands behind what was there |
| `JsonPrinter.PrintBuffer.PrintArray` | src/cJSON.c:1595-1659 | The same for an array, element by element |
| `JsonPrinter.PrintBuffer.PrintObject` | src/cJSON.c:1780-1896 | The same for an object, member by member |
| `JsonPrinter.CountEscapes` | src/cJSON.c:981-1004 | The counting pass gives the exact length of the escaped string, and zero only if nothing is escaped |
| `JsonReader.ParseBytes` | src/cJSON.c:1147-1224 | The cursor parser answers what the parsing functions say |
| `JsonReader.ParseBuffer.SkipWhitespace` | src/cJSON.c:1090-1113 | Over white space, but not past the last character |
| `JsonReader.ParseBuffer.ParseString` | src/cJSON.c:824-951 | Scan for the quote, then the decoding loop |
| `JsonReader.ParseBuffer.DecodeLiteral` | src/cJSON.c:703-821 | One escape or a surrogate pair to bytes |
| `JsonReader.ParseBuffer.ParseHex4` | src/cJSON.c:666-699 | Four digits, or zero |
| `JsonReader.ParseBuffer.Encode` | src/cJSON.c:766-815 | The loop from the last byte to the first writes the UTF-8 bytes |
| `JsonReader.ParseBuffer.ReadValue` | src/cJSON.c:1368-1420 | The value at the cursor, the cursor behind it and the depth restored |
| `JsonReader.ParseBuffer.ReadArray` | src/cJSON.c:1497-1592 | The element loop appends in order and the depth is restored |
| `JsonReader.ParseBuffer.ReadObject` | src/cJSON.c:1662-1777 | The member loop appends in order and the depth is restored |
| `JsonList.AddItemToArray` | src/cJSON.c:2027-2058 | The list becomes the sequence with the item behind it, if and only if the list was empty or the item brings no successor along |
| `JsonList.InsertItemInArray` | src/cJSON.c:2334-2366 | The list becomes the sequence with the item at that place, or behind it when the place is past the end |
| `JsonList.DetachItemViaPointer` | src/cJSON.c:2258-2292 | The list becomes the sequence without the item, which points nowhere; an item in no list is refused |
| `JsonList.ReplaceItemViaPointer` | src/cJSON.c:2368-2415 | The list becomes the sequence with the item replaced at its place |
| `JsonList.GetArrayItem` | src/cJSON.c:1922-1939 | The child at an index, or null |
| `JsonList.LinkChildren` | src/cJSON.c:1527-1582 | Linking new items one by one and tying the head to the tail makes them the children, in order |
| `JsonList.ListedOnce` | src/cJSON.c:2027-2058 | The links determine the sequence of children |
| `JsonList.InsertedIsListed` | src/cJSON.c:2334-2366 | The links after an insertion are those of the longer sequence |
| `JsonList.RemovedIsListed` | src/cJSON.c:2258-2292 | The links after a removal are those of the shorter sequence |
| `JsonList.ReplacedIsListed` | src/cJSON.c:2368-2415 | The links after a replacement are those of the updated sequence |

## Left out

- Files, `flock`, `fsync`, rename and permissions: a file is its text, the atomic replacement one step, and the lock a guard of a step. A save that proceeds without the lock (`src/rss_config.c:1033-1035`) is not a step of the model.
- `config_write` for a file that does not exist, and its buffer growth (`src/rss_config.c:552-651`).
- Integer and boolean getters and setters and the two `foreach` walks (`src/rss_config.c:326-423`, `src/rss_config.c:454-464`): conversions around the string getter and setter.
- NUL bytes inside a configuration file: a line is a string of its bytes.
- ConfigRemovals.GettersAmongRemovals: with `rss_config_remove_section` among the calls, names must fit their buffers; ConfigRuns.GettersAreInvisible has names of any length without it.
- ConfigRuns.LongSectionGetter: for stores with unique names, as ConfigStoreInv keeps them; ConfigRuns.GettersAreInvisible covers every store.
- ConfigSaveMeaning.SaveMeaning: keys that the loader would read as something else (with `=`, a leading `#` or white space around them) and values of several lines are not covered; ConfigOnce and ConfigSaveStable.SaveIsLocal cover every list.
- ConfigDaemons.NoLostUpdate: the owner's own values must survive any save; for one save ConfigCommit.SaveCommits says what becomes of the others.
- Allocation failure everywhere, and null pointer arguments of the configuration, SPS, SEI, clock and multiplexer calls.
- VuiBits.ReadsUe: codes with 32 leading zeros have no defined value in the source (`src/rss_vui.c:51`); the model gives them a fixed one.
- VuiHevcExact.HevcWalkIsExact: for steady reference picture sets; parameter sets whose other sets are misread may still come out right by chance, which is not stated.
- SeiTimestamp.RoundTrip: message types and sizes below 2^32, where the source's sums do not wrap.
- MediaClock.Clock.Map: times are unbounded integers; a lateness at or beyond the sentinel INT64_MAX is excluded. How many samples the filter takes to settle is not stated; ClockFilter says what each sample does.
- The reset of a clock on a jump is modelled as the code has it, with no claim that it is the right time to reset.
- TsClock.ClockGoesUp: up to the last 64-bit clock value and the wrap of the 32-bit write counter.
- TsCrc.CrcByFaults: strings that look up faulty entries three times or more are covered by CrcAgrees alone.
- TsTables.PmtChecks: for the declared stream types; `rss_ts_init` takes any byte, and TsTables.ChecksByFaults decides the other maps with at most two faulty lookups.
- JSON numbers with a fraction, an exponent or beyond 32 bits: the parser's result for them is `Beyond`, outside the model (`strtod` and `sprintf` of doubles).
- JSON error positions, raw and reference items, `cJSON_Minify`, duplicate and compare, and the accessors by name.
- JsonPrinter.PrintBuffer.Ensure: the two ways of growing are one; memory is always granted below INT_MAX.
- JsonReader.ParseBuffer.ReadArray: the parser's methods return trees as values; how they link the nodes is JsonList.LinkChildren.
- JsonReader.ParseBuffer.Encode: the masks and shifts of the encoding loop are written as remainders and quotients by 64.
- JsonList.ReplaceItemViaPointer: the replaced node is unlinked; freeing it is not modelled.
- JsonList.AddItemToArray: the parent is not its own child's list; for insertion and replacement the new item is not the parent.
- `src/rss_jpeg.c`, `src/rss_sign.c`, `src/rss_tls.c`, `src/rss_http.c`, `src/rss_aac.c`, `src/rss_shadow.c`, daemon, logging, control and network code: input and output, cryptography, or easy.
