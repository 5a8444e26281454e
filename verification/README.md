# ArcadeDuck: a verified model of its bookkeeping

ArcadeDuck's front end holds a dozen small machines that are easy to get subtly wrong: a script that
rewrites the arcade database in place, a log filter kept as one string, settings copied between stores and
committed in batches, a capture of controller input, a memory search, resizing and painting arithmetic, and
the orders of the game list. This project states in Dafny what each of them does, step by step as the source
does it, and proves over all inputs and all runs what each of them is for. Where the source falls short of
its purpose, the project gives an input that shows it and the exact condition under which the purpose is met.

Code that updates variables and fields is modelled by methods and classes with loops. Each method is tied by
its `ensures` to a function on values, and the theorems are about those functions and about runs of them.

## The parts

- **Parent synchroniser** (`Text`, `DatabaseLines`, `DatabaseForms`, `ArcadeDatabase`, `DatabaseRendering`,
  `DocumentFusion`, `ParentSync`, `ParentEdit`, `ParentPlacement`, `ParentAudit`, `ParentRoundTrip`,
  `ParentTheorem`, `ParentConservation`, `ParentCounterexamples`). A database text is split into
  lines and cut into games; the audit compares each game's parent with MAME's; the write removes, replaces and
  inserts lines by number. Two theorems speak of the written text, loaded again, for every text: lone
  carriage returns, duplicate headers, duplicate fields, comments and any mixture of line ends included.
  `WriteCleans` says exactly when every game has the parent MAME gives it: when no removal uncovers an
  earlier parent line of the same game, and no parent is lost in a last line that has no terminator.
  `WriteConserves` says exactly when everything but the parent lines is as it was, line for line: when no
  insertion follows such a last line, and no removal brings a carriage return and a lone line feed together,
  which then are one line end. `WriteKeepsFields` says that the games and their other fields mind only the
  former.
- **Controller settings** (`SettingsStore`, `ControllerCopy`, `ControllerCopyLaws`, `ControllerCopyKeys`,
  `SettingsBatch`, `ControllerBinding`). Copying the arcade controller configuration is a projection: a copy
  of a copy is a copy of the original, for every layout registry, type, layout and input mode, even if a layout
  names keys outside the tables. Batches of writes commit exactly once, and everything at once.
- **Log filter** (`LogFilter`). The log window fills its menu from the setting once, and each click flips its
  own tick and edits the string. For any table of channel names and any run of clicks, ticks and logger agree
  at every point exactly when every click covers or uncovers its own row alone: a row is covered while its
  name lies inside a filtered one. They do so in all runs exactly when no name lies inside another row's; then
  the string refines a set. The program's own table has names inside others.
- **Input bindings** (`BindingCapture`, `BindingOutcome`, `BindingReadings`, `BindingWidget`, `BindingDialog`).
  Over every run of movements, key presses, releases and seconds, the capture ends at the first event that a
  reading of the events alone says it should, and binds what that reading says. The dialog's three views of
  its list agree.
- **Memory search** (`SearchPattern`, `MemorySearch`, `RepeatedSearch`, `WildcardSearch`). The pattern parser and
  a printer undo each other, and a search finds the first match in the regions it goes through. Those regions
  hold no RAM beyond the first two megabytes unless the search starts there. Pressing the button again and again lists
  every match in RAM of any size, scratchpad and BIOS exactly when the search is `Complete`: there is nothing
  to find; or RAM is mapped, nothing matches beyond two megabytes, or a one-byte match on their last byte
  leads there but not on into mirrors or unmapped addresses, and no one-byte match on the last byte of mapped
  RAM or of the scratchpad stands in front of further matches.
- **Window and list arithmetic** (`WindowAspect`, `GlyphRanges`, `MemoryView`, `GameOrder`,
  `GameListReadings`). 16:9 resizing, glyph range compression, the hex view, and the orders of the game list.
- **Locks and keys** (`SystemLock`, `KeyFilter`). However system locks are nested, moved, cancelled and ended,
  in any order, at most one of them owes the return, and the system comes back as it was unless that return was
  cancelled. The system stays held while any lock lives exactly when no lock that owes the
  return ends while another one lives. Fake key presses are filtered.

`DatabaseForms`, `DatabaseRendering`, `ParentPlacement`, `ControllerCopyKeys`, `BindingReadings`,
`WildcardSearch` and `GameListReadings` say what the other modules compute in plain characters, keys and
numbers. `Basics` and `Wrappers` hold what the parts share.

## What was found

- A write leaves a game wrong when the last of several parent lines is removed
  (`ParentCounterexamples.RemovalUncoversParent`), and loses a game, or makes the parent a part of its title,
  when a parent is inserted after an unterminated last line (`ParentCounterexamples.InsertionLosesGame`,
  `ParentCounterexamples.InsertionSpoilsTitle`). With two headers of the same name the next audit is even
  clean (`ParentTheorem.WriteCleans`), and the title or archive is spoiled all the same
  (`ParentConservation.WriteKeepsFields`).
- Removing a parent line can make two of the lines around it one (`ParentCounterexamples.RemovalRejoinsLines`).
- Filtering the log channel `GPUDevice` silences `GPU` too, whose tick stays on (`LogFilter.GpuDeviceHidesGpu`).
  Clicking `GPU` takes the tick off and does nothing else; clicking it again leaves the word `Device`, so that
  `GPUDevice` is heard without a tick (`LogFilter.UntickingGpuLeavesDevice`).
- Searching memory skips the RAM beyond two megabytes, which most arcade boards have: no press ever reports a
  match there (`RepeatedSearch.UpperHalfIsSkipped`) unless a one-byte match leads on into it.
- Searching memory for one byte can skip matches for good (`RepeatedSearch.ZeroByteIsTrapped`).
- New, shorter data leaves the hex view's highlight beyond its end (`MemoryView.StaleHighlight`).
- Moving the older of two system locks and ending the new one sets the system going under the other
  (`SystemLock.MovedFromBelow`).
- A glyph table that holds codepoint zero reads as an empty one (`GlyphRanges.ReadBackIff`).
- Resized by a corner, a window always keeps its width: changing the height is never the greater change, so the
  branch that would keep the height is never taken (`WindowAspect.CornerKeepsWidth`).
- A game list column sorted by text is no strict weak order on a list in which two keys are confused, that
  is, different but compared as equal, and a third game of one of the keys has a title of its own
  (`GameOrder.StrictWeakIff`, `GameOrder.CaseBreaksTies`). Keys that differ in letter case only are confused,
  and so are file titles one of which begins the other.

## Model

| member | source | states |
|---|---|---|
| Text.JoinSplit | scripts/arcadedb_sync_mame_parents.py:37-42 | joining the lines of any text gives the text |
| Text.SplitIsFused | scripts/arcadedb_sync_mame_parents.py:42-42 | splitting a text put together from lines finds the lines, with a carriage return and a lone line feed after it as one line end |
| Text.SplitShape | scripts/arcadedb_sync_mame_parents.py:42-42 | splitting any text gives terminated lines, but perhaps for the last, and no two that would read as one |
| Text.SplitJoin | scripts/arcadedb_sync_mame_parents.py:223-229 | such lines are found again after joining and splitting |
| DatabaseLines.QuotedReads | scripts/arcadedb_sync_mame_parents.py:30-34 | a name between double quotes is unquoted to the name |
| DatabaseLines.HeaderIsNotField | scripts/arcadedb_sync_mame_parents.py:14-15 | no line matches both the game header and the field pattern |
| DatabaseLines.ParentLineReads | scripts/arcadedb_sync_mame_parents.py:208-208 | the line written for a name is a parent field whose unquoted value is the name |
| DatabaseLines.ParentLineInner | scripts/arcadedb_sync_mame_parents.py:208-208 | the line written is one terminated line, neither a header nor the end of the map |
| DatabaseForms.SpacesAre | scripts/arcadedb_sync_mame_parents.py:14-15 | the white space characters, one by one |
| DatabaseForms.BreaksAre | scripts/arcadedb_sync_mame_parents.py:42-42 | the characters that end a line, one by one |
| DatabaseForms.WholeForm | scripts/arcadedb_sync_mame_parents.py:42-42 | a terminated line is text without line ends and one line end after it, or a carriage return and a line feed |
| DatabaseForms.GamesLineForm | scripts/arcadedb_sync_mame_parents.py:45-50 | the line that opens the map is its text and nothing but carriage returns and line feeds |
| DatabaseForms.EndLineForm | scripts/arcadedb_sync_mame_parents.py:52-57 | exactly the lines with something on them, the first of it neither a space nor a number sign, close the map |
| DatabaseForms.HeaderForm | scripts/arcadedb_sync_mame_parents.py:14-14 | exactly two spaces, a name of letters, digits, underscores, dots, plus and minus signs, a colon and white space make a header of that name |
| DatabaseForms.FieldForm | scripts/arcadedb_sync_mame_parents.py:15-15 | exactly four spaces, a key of letters, digits and underscores, a colon, and a value among white space make that field |
| DatabaseForms.UnquoteForms | scripts/arcadedb_sync_mame_parents.py:30-34 | a pair of equal quotes of either kind comes off, and anything else stays |
| ArcadeDatabase.FlattenParse | scripts/arcadedb_sync_mame_parents.py:44-91 | cutting lines into preamble, games and tail and laying them out again loses nothing |
| ArcadeDatabase.ParseFlatten | scripts/arcadedb_sync_mame_parents.py:44-91 | a well formed document is cut again into the same blocks |
| ArcadeDatabase.HeadersAreStarts | scripts/arcadedb_sync_mame_parents.py:59-63 | the collected headers are the starts of the blocks, with their names, in order |
| ArcadeDatabase.ScanBlock | scripts/arcadedb_sync_mame_parents.py:65-84 | one pass over a block finds the last line of each field, relative to the block |
| ArcadeDatabase.LoadDatabase | scripts/arcadedb_sync_mame_parents.py:37-93 | loading fails exactly when there is no games line; otherwise order and records describe the document, the last header of a name winning |
| DatabaseRendering.RenderedLoads | scripts/arcadedb_sync_mame_parents.py:37-93 | a database written out from any list of games and fields loads as those games in order, each field with the last value written for it |
| DatabaseRendering.RecordOfGame | scripts/arcadedb_sync_mame_parents.py:65-84 | the record of a written game: its first and last line, the lines of parent, title and archive, and the texts of parent and system |
| DatabaseRendering.TekkenLoads | scripts/arcadedb_sync_mame_parents.py:37-93 | a text with tekken and tekken2 loads as these two in order, with their parents, systems and line numbers |
| DocumentFusion.FusedLoads | scripts/arcadedb_sync_mame_parents.py:37-93 | a text put together from a document's lines is loaded as that document with the lines of its blocks fused, if nothing fuses outside them |
| DocumentFusion.FusedKeeps | scripts/arcadedb_sync_mame_parents.py:59-84 | fused lines give the same games in the same order with the same fields |
| ParentSync.CompareRelationships | scripts/arcadedb_sync_mame_parents.py:143-169 | the two reports, in database order, computed by the loop |
| ParentSync.CleanReport | scripts/arcadedb_sync_mame_parents.py:143-169 | both reports are empty exactly when every game is known to MAME and has the parent MAME gives it |
| ParentPlacement.ReportsExplained | scripts/arcadedb_sync_mame_parents.py:143-169 | every report names its game, its actual and expected parent and the kind these two make, and every game that calls for a report has one |
| ParentEdit.TargetInBlock | scripts/arcadedb_sync_mame_parents.py:201-218 | every mismatch edits a line inside its own game's block |
| ParentEdit.BlocksDisjoint | scripts/arcadedb_sync_mame_parents.py:65-67 | blocks of different games share no line |
| ParentEdit.CollectEdits | scripts/arcadedb_sync_mame_parents.py:196-218 | removals, replacements, insertions and the count gathered by the first loop |
| ParentEdit.EmitIsEdited | scripts/arcadedb_sync_mame_parents.py:196-229 | editing by line number gives the lines of the document whose blocks were edited one by one |
| ParentEdit.UpdateDatabase | scripts/arcadedb_sync_mame_parents.py:195-242 | the new text is the join of the edited document's lines, and the count is the number of mismatches or zero |
| ParentPlacement.ParentInserted | scripts/arcadedb_sync_mame_parents.py:208-217 | a missing parent is written directly after the last title, without one after the last archive, and without either after the header |
| ParentPlacement.ParentReplaced | scripts/arcadedb_sync_mame_parents.py:208-210 | a wrong parent is replaced in the last parent line |
| ParentPlacement.ParentRemoved | scripts/arcadedb_sync_mame_parents.py:202-206 | a parent that MAME does not give goes with the last parent line |
| ParentPlacement.NewlineRead | scripts/arcadedb_sync_mame_parents.py:41-41 | written lines end in a carriage return and a line feed exactly if the text has the two together |
| ParentPlacement.TekkenGetsParent | scripts/arcadedb_sync_mame_parents.py:211-217 | of an archive and a title after it, the parent comes after the title |
| ParentAudit.EditKeepsOtherLines | scripts/arcadedb_sync_mame_parents.py:223-229 | the lines of a block that are not parent fields survive in order, and no others appear |
| ParentAudit.OtherLinesDecide | scripts/arcadedb_sync_mame_parents.py:68-84 | system, title and archive are read from the lines that are not parent fields |
| ParentAudit.EditedInSync | scripts/arcadedb_sync_mame_parents.py:195-229 | with nothing unresolved, the edited document agrees with MAME exactly when no removal uncovers an earlier parent |
| ParentRoundTrip.EditedLoads | scripts/arcadedb_sync_mame_parents.py:37-93 | unless an insertion dangles, loading the written text gives the edited document, but for fused lines |
| ParentRoundTrip.GluedText | scripts/arcadedb_sync_mame_parents.py:223-231 | what the text is when a parent is inserted after an unterminated last line |
| ParentTheorem.WriteCleans | scripts/arcadedb_sync_mame_parents.py:37-93 | for any text with nothing unresolved, the re-audit of the written text is clean exactly when the document was writable |
| ParentTheorem.SecondWriteIsIdle | scripts/arcadedb_sync_mame_parents.py:195-242 | writing a second time finds nothing and changes nothing |
| ParentTheorem.Synchronise | scripts/arcadedb_sync_mame_parents.py:276-298 | a whole run with a write: when it fails, when it refuses, what it writes and counts, and when the result audits clean |
| ParentConservation.WriteConserves | scripts/arcadedb_sync_mame_parents.py:195-231 | the written text, loaded again, has the same preamble, headers, order, lines that are no parent fields, other fields and tail exactly when no insertion dangles and no removal makes two lines one; and exactly then the line count has changed by insertions less removals |
| ParentConservation.WriteKeepsFields | scripts/arcadedb_sync_mame_parents.py:195-231 | the written text, loaded again, has the same games in the same order with the same text for every field but the parent exactly when no insertion dangles |
| ParentConservation.ApartUnlessRejoined | scripts/arcadedb_sync_mame_parents.py:223-227 | the edited lines hold two that read as one exactly when a removal brought them together |
| ParentConservation.GluedFieldLonger | scripts/arcadedb_sync_mame_parents.py:211-217 | a field line that a parent is glued to keeps its key and has a longer text |
| ParentCounterexamples.RemovalUncoversParent | scripts/arcadedb_sync_mame_parents.py:202-206 | two parent lines, no parent in MAME: the written text still shows the parent |
| ParentCounterexamples.RemovalRejoinsLines | scripts/arcadedb_sync_mame_parents.py:223-226 | a title that ends in a carriage return, a parent to remove, an empty line: the written text has the title and the empty line as one |
| ParentCounterexamples.InsertionLosesGame | scripts/arcadedb_sync_mame_parents.py:211-217 | a last header without terminator: the written text has no games |
| ParentCounterexamples.InsertionSpoilsTitle | scripts/arcadedb_sync_mame_parents.py:211-217 | a last title without terminator: in the written text the parent is a part of the title, and there is no parent |
| SettingsStore.SettingsInterface.CopyStringValue | src/common/settings_interface.h:253-260 | the first value is copied, or the key is deleted when the source has none |
| SettingsStore.SettingsInterface.CopyStringListValue | src/common/settings_interface.h:262-269 | all values are copied, or the key is deleted when the source has none |
| ControllerCopy.CopyLayoutBindings | src/arcadeduck-qt/controllersettingswindow.cpp:795-815 | copies the keys of the selected layout if it fits the controller, but for the axes a native device drives |
| ControllerCopy.CopyTrackball | src/arcadeduck-qt/controllersettingswindow.cpp:829-849 | the layout's keys or the fallback buttons come whole, the eight trackball values by their first value, the axes only without a native device, and nothing else changes |
| ControllerCopy.CopyLightgun | src/arcadeduck-qt/controllersettingswindow.cpp:851-878 | the layout's keys or the fallback buttons come whole, the twelve lightgun values by their first value, the axes only without a native device, the Sinden values on the first port only, and nothing else changes |
| ControllerCopy.CopyPort | src/arcadeduck-qt/controllersettingswindow.cpp:764-891 | one port: every key ends as its verdict says, and other sections keep theirs |
| ControllerCopy.CopyArcadeControllerConfiguration | src/arcadeduck-qt/controllersettingswindow.cpp:750-893 | the whole copy: every name of the destination ends with the values its verdict calls for |
| ControllerCopyKeys.TrackballCopied | src/arcadeduck-qt/controllersettingswindow.cpp:829-849 | of a port of type trackball, key by key: which come whole, which by their first value, which are empty, with and without a layout and a native device |
| ControllerCopyKeys.LightgunCopied | src/arcadeduck-qt/controllersettingswindow.cpp:851-878 | the same for a light gun, the Sinden settings on the first port alone |
| ControllerCopyKeys.TokimekiCopied | src/arcadeduck-qt/controllersettingswindow.cpp:880-886 | the same for the Tokimeki controls |
| ControllerCopyKeys.PanelCopied | src/arcadeduck-qt/controllersettingswindow.cpp:824-827 | the same for a panel and for a wheel |
| ControllerCopyKeys.NoneCopied | src/arcadeduck-qt/controllersettingswindow.cpp:770-787 | any other type, known or not, leaves the type none and no other cleared key |
| ControllerCopyKeys.AliasesAre | src/core/arcade/arcade_control_registry.cpp:23-42 | the games that share the layout of another one |
| ControllerCopyKeys.TekkenLayoutCopied | src/arcadeduck-qt/controllersettingswindow.cpp:795-815 | the layout of Tekken serves the third part: its keys come whole |
| ControllerCopyLaws.CopyKeepsVerdicts | src/arcadeduck-qt/controllersettingswindow.cpp:770-815 | a copy asks for the same treatment of every key as its original |
| ControllerCopyLaws.CopyIsProjection | src/arcadeduck-qt/controllersettingswindow.cpp:387-419 | copying any copy of the source gives, under every name, what copying the source gives |
| ControllerCopyLaws.CopyOfCopyIsCopy | src/arcadeduck-qt/controllersettingswindow.cpp:387-419 | the same for whole stores |
| ControllerCopyLaws.TableKeysComeFromSource | src/arcadeduck-qt/controllersettingswindow.cpp:765-768 | on the keys of both tables the result does not depend on the destination |
| ControllerCopyLaws.NothingInvented | src/arcadeduck-qt/controllersettingswindow.cpp:750-893 | a value that is not the destination's own comes from the source, or is a known type name under Type |
| ControllerCopyLaws.OtherKeysUntouched | src/arcadeduck-qt/controllersettingswindow.cpp:750-893 | keys outside the port sections, and keys outside the tables that the port's layout does not name, keep their values |
| ControllerCopyLaws.SaveGameProfile | src/arcadeduck-qt/controllersettingswindow.cpp:387-420 | the saved profile, a copy of a copy, is what one copy of the edited settings would be, with the hotkey flag off |
| SettingsBatch.RunDescribes | src/arcadeduck-qt/controllersettingswindow.cpp:592-665 | after any nested run: the live settings, the depth, what is pending, what was last committed and how many commits there were, from the calls alone |
| SettingsBatch.OutsideNothingIsPending | src/arcadeduck-qt/controllersettingswindow.cpp:631-665 | outside all batches nothing is pending and the committed settings are the live ones |
| SettingsBatch.OutermostBatchCommitsOnce | src/arcadeduck-qt/controllersettingswindow.cpp:631-665 | an outermost batch commits once if it wrote something, and not otherwise |
| SettingsBatch.ControllerSettingsWindow.SetStringValue | src/arcadeduck-qt/controllersettingswindow.cpp:618-629 | an equal value is not written; otherwise the value is set and marked |
| SettingsBatch.ControllerSettingsWindow.EndSettingsBatch | src/arcadeduck-qt/controllersettingswindow.cpp:636-641 | leaving the outermost batch flushes |
| SettingsBatch.ControllerSettingsWindow.ClearSettingValue | src/arcadeduck-qt/controllersettingswindow.cpp:674-682 | the key is deleted and always marked |
| ControllerBinding.ArcadeControllerBindingWidget.ChangeControllerType | src/arcadeduck-qt/arcadecontrollerbindingwidget.cpp:768-791 | one commit, after which only Type and the type's default Layout remain of the port's known keys |
| ControllerBinding.TypeKeysAre | src/arcadeduck-qt/arcadecontrollerbindingwidget.cpp:206-210 | the value keys that a change of type clears, one by one |
| ControllerBinding.DefaultIsFirst | src/arcadeduck-qt/arcadecontrollerbindingwidget.cpp:774-782 | the default layout is the first of the type |
| ControllerBinding.SetReads | src/arcadeduck-qt/arcadecontrollerbindingwidget.cpp:249-254 | a value that is set reads back |
| ControllerBinding.ArcadeControllerBindingWidget.ChangeLayout | src/arcadeduck-qt/arcadecontrollerbindingwidget.cpp:792-806 | nothing if the layout resolves to the chosen one; otherwise one commit that clears the bindings and sets it |
| ControllerBinding.ArcadeControllerBindingWidget.ClearBindings | src/arcadeduck-qt/arcadecontrollerbindingwidget.cpp:730-736 | one commit that clears the binding keys and nothing else |
| LogFilter.LogWindow.Click | src/arcadeduck-qt/logwindow.cpp:219-219 | a click flips the tick of its row, and filters the channel exactly if the tick is gone |
| LogFilter.LogWindow.SetChannelFiltered | src/arcadeduck-qt/logwindow.cpp:223-253 | the string after the call, by search, erase and append, and whether it is committed |
| LogFilter.LogWindow.PopulateFilters | src/arcadeduck-qt/logwindow.cpp:209-221 | a channel is ticked exactly when its name is not found in the string |
| LogFilter.FindFindsToken | src/arcadeduck-qt/logwindow.cpp:229-229 | when no name lies inside another, a search finds a name's own token, and nothing if it has none |
| LogFilter.EraseToken | src/arcadeduck-qt/logwindow.cpp:231-239 | erasing a token and the space after it leaves the other tokens |
| LogFilter.AppendToken | src/arcadeduck-qt/logwindow.cpp:240-248 | appending adds the name as the last token, with a space in between where one is missing |
| LogFilter.ClickAgreesIff | src/arcadeduck-qt/logwindow.cpp:219-253 | where ticks and logger agree, a click keeps the agreement exactly when it covers or uncovers its own row and no other |
| LogFilter.RunRepresents | src/arcadeduck-qt/logwindow.cpp:209-253 | through such clicks, in a window opened on distinct names of the table with single spaces, the string stays such a sequence, and its names are the set |
| LogFilter.RunAgreesIff | src/arcadeduck-qt/logwindow.cpp:209-253 | for any table and any run of clicks and reopenings from such a setting, the ticks agree with the logger's search at every point exactly when every click is of that kind |
| LogFilter.RunShowsSetIff | src/arcadeduck-qt/logwindow.cpp:209-253 | for a table without repetitions, ticks and logger both show the set itself at every point exactly when every set of the run holds the names inside its names |
| LogFilter.FilterRefinesSet | src/common/log.cpp:470-474 | ticks and logger show the set after every run from every such setting exactly when no name lies inside the name of another row |
| LogFilter.GpuDeviceHidesGpu | src/core/settings.cpp:1945-1947 | in any table with both names, after one click the other channel is silent and ticked |
| LogFilter.UntickingGpuLeavesDevice | src/arcadeduck-qt/logwindow.cpp:219-239 | a click on the inner name then leaves the string alone, and a second one, or the first in a window opened anew, erases its letters from the outer name |
| BindingWidget.InputBindingWidget.InputManagerHookCallback | src/arcadeduck-qt/inputbindingwidgets.cpp:361-413 | one movement is noted in its key's record, and then takes the key up, commits and stops, or waits |
| BindingWidget.InputBindingWidget.SetNewBinding | src/arcadeduck-qt/inputbindingwidgets.cpp:243-270 | the pending keys replace the stored binding unless they have no text |
| BindingWidget.InputBindingWidget.OnTimerTimeout | src/arcadeduck-qt/inputbindingwidgets.cpp:313-323 | a second counts down with 32-bit wrap-around, and stops the capture at zero |
| BindingWidget.InputBindingWidget.MouseRelease | src/arcadeduck-qt/inputbindingwidgets.cpp:217-241 | a release is swallowed exactly when listening or suppressed; a right release otherwise clears the binding |
| BindingCapture.NotedRecords | src/arcadeduck-qt/inputbindingwidgets.cpp:366-379 | one more value keeps each key's record at its first value and its minimum |
| BindingCapture.ArmedIsPending | src/arcadeduck-qt/inputbindingwidgets.cpp:383-412 | a control has a pending key exactly when an earlier event of it crossed its threshold or pressed it |
| BindingCapture.PendingDistinct | src/arcadeduck-qt/inputbindingwidgets.cpp:383-412 | two pending keys are the same control, up to direction, only if the later one is a press |
| BindingOutcome.CaptureOutcome | src/arcadeduck-qt/inputbindingwidgets.cpp:325-413 | over every run, the first ending event decides what is stored, with the full axis for exactly the control that came back after swinging from above 0.5 to -0.5 or below; until then the state is the record of the events |
| BindingOutcome.TimeoutKeepsBinding | src/arcadeduck-qt/inputbindingwidgets.cpp:313-323 | without a commit before the countdown has run out nothing is stored, whatever comes later, and listening is over exactly when it has |
| BindingReadings.StickBinds | src/arcadeduck-qt/inputbindingwidgets.cpp:380-412 | from rest, a value of one half or more takes the half of the axis it lies in, smaller ones take nothing, and it is bound on coming back below one half |
| BindingReadings.HeldButtonBinds | src/arcadeduck-qt/inputbindingwidgets.cpp:403-412 | a button that is down when first seen is taken at once |
| BindingReadings.PedalBinds | src/arcadeduck-qt/inputbindingwidgets.cpp:380-412 | an axis that rests above one half is taken inverted below one half, and bound within a quarter of its rest |
| BindingReadings.PedalSwings | src/arcadeduck-qt/inputbindingwidgets.cpp:388-396 | it is bound with its full range if it went to minus one half or below on its way |
| BindingReadings.ChordBinds | src/arcadeduck-qt/inputbindingwidgets.cpp:243-270 | keys pressed are bound together, in order, at a release |
| BindingReadings.SecondsTick | src/arcadeduck-qt/inputbindingwidgets.cpp:313-323 | each second takes one off, the last one ends the capture, and an empty countdown wraps |
| BindingWidget.SuppressedSincePress | src/arcadeduck-qt/inputbindingwidgets.cpp:203-223 | a button is suppressed exactly when it was pressed while listening and not released since |
| BindingDialog.InputBindingDialog.AddNewBinding | src/arcadeduck-qt/inputbindingdialog.cpp:203-219 | a binding with text that is not listed joins all three views; any other changes nothing |
| BindingDialog.InputBindingDialog.OnRemoveBindingButtonClicked | src/arcadeduck-qt/inputbindingdialog.cpp:229-238 | a row of the list leaves all three views; any other number changes nothing |
| BindingDialog.EditsRead | src/arcadeduck-qt/inputbindingdialog.cpp:203-245 | edit by edit: what becomes of the list |
| BindingDialog.ViewsAgree | src/arcadeduck-qt/inputbindingdialog.cpp:203-276 | the screen shows the list; idle edits write nothing, and from the first other edit the setting is the list |
| BindingDialog.StoredListStaysInStep | src/arcadeduck-qt/inputbindingdialog.cpp:203-276 | opened on the stored list, all three views agree after every run, an empty list being an absent key |
| BindingDialog.DistinctStays | src/arcadeduck-qt/inputbindingdialog.cpp:212-213 | a list without repetitions stays one |
| BindingDialog.ListComesFromEdits | src/arcadeduck-qt/inputbindingdialog.cpp:203-245 | the list is, in order, part of what was opened followed by what was added |
| SearchPattern.ParsePattern | src/arcadeduck-qt/debuggerwindow.cpp:303-370 | the parse loop returns the assembly of the text's nibbles, or fails |
| SearchPattern.Accepted | src/arcadeduck-qt/debuggerwindow.cpp:303-370 | a text is accepted exactly when it holds only spaces, digits and wildcards, and not only spaces |
| SearchPattern.AssembleAt | src/arcadeduck-qt/debuggerwindow.cpp:318-362 | byte i and mask i come from nibbles 2i and 2i+1, a missing last nibble being a wildcard |
| SearchPattern.AssembledIsMasked | src/arcadeduck-qt/debuggerwindow.cpp:318-362 | masks cover whole nibbles, and no pattern bit lies outside its mask |
| SearchPattern.PrintThenParse | src/arcadeduck-qt/debuggerwindow.cpp:303-370 | printing any nibble-masked pattern and parsing it gives the pattern |
| SearchPattern.ParseThenPrint | src/arcadeduck-qt/debuggerwindow.cpp:303-370 | parsing and printing loses only spaces, the case of digits and a missing last nibble |
| MemorySearch.MaskedMemoryCompare | src/core/bus.cpp:902-915 | true exactly when every masked byte agrees |
| MemorySearch.ScanRegion | src/core/bus.cpp:932-944 | the first match of a region at or after an address, if any |
| MemorySearch.SearchMemory | src/core/bus.cpp:917-957 | the first match in the regions gone through from the start address |
| WildcardSearch.AgreesWithText | src/core/bus.cpp:902-915 | a parsed pattern agrees with some bytes exactly when each character of its text is a question mark or the digit of its half of the byte |
| WildcardSearch.SearchFindsText | src/core/bus.cpp:917-957 | a search reports the least address ahead at which the text describes the RAM window, the scratchpad or the BIOS, by the addresses of the machine, or nothing if there is none or it cannot start |
| WildcardSearch.MatchesAreText | src/core/bus.cpp:917-957 | the matches are exactly the places in mapped RAM, scratchpad and BIOS that the text describes |
| RepeatedSearch.DebuggerWindow.OnMemorySearchTriggered | src/arcadeduck-qt/debuggerwindow.cpp:372-404 | what one press reports, whether it wrapped around, and where the next one starts |
| RepeatedSearch.AllMatchesList | src/core/bus.cpp:917-957 | the list of all matches, in RAM of any size, scratchpad and BIOS, from the memory alone, is ascending and complete |
| RepeatedSearch.FollowIsLeast | src/core/bus.cpp:917-957 | in a complete search the press after a match finds the least match further on |
| RepeatedSearch.OutOfReachNeverReported | src/core/bus.cpp:917-957 | no press of any run reports a match beyond two megabytes of RAM, or across their end, unless a one-byte match on their last byte leads there |
| RepeatedSearch.PressesEnumerate | src/arcadeduck-qt/debuggerwindow.cpp:372-409 | press k reports match k modulo their number, and wrap-around exactly at a restart, or nothing if there is no match, for every run exactly when the search is complete |
| RepeatedSearch.ZeroByteIsTrapped | src/core/bus.cpp:917-957 | searching zeros for a zero byte, no press of any run gets past RAM |
| RepeatedSearch.UpperHalfIsSkipped | src/core/bus.cpp:2276-2316 | four megabytes with the same bytes in both halves: no press of any run reports the ones in the upper half |
| SystemLock.MainWindow.PauseAndLockSystem | src/arcadeduck-qt/mainwindow.cpp:2943-2990 | the system is suspended and the lock remembers what it has to bring back |
| SystemLock.LockHandle.MoveFrom | src/arcadeduck-qt/mainwindow.cpp:2997-3003 | the new lock takes everything over and the old one owes nothing |
| SystemLock.LockHandle.Destroy | src/arcadeduck-qt/mainwindow.cpp:3005-3011 | what the lock owes is given back |
| SystemLock.HeldMeans | src/arcadeduck-qt/mainwindow.cpp:2943-2990 | a system is held when it is paused if valid, and not fullscreen where dialogs leave it |
| SystemLock.AcquireThenRelease | src/arcadeduck-qt/mainwindow.cpp:2943-3017 | a new lock pauses and leaves fullscreen; ending it undoes that, unless it was cancelled |
| SystemLock.OneOwes | src/arcadeduck-qt/mainwindow.cpp:2943-3017 | at every point of every run, the locks ending in any order, at most one lock owes a return |
| SystemLock.RunAccounts | src/arcadeduck-qt/mainwindow.cpp:2943-3017 | from any point at which nothing is owed: a lock that owes later owes exactly what there was then and the system is suspended; with none owing the system is as then, or suspended if an owed return was cancelled |
| SystemLock.LastReleaseRestores | src/arcadeduck-qt/mainwindow.cpp:3005-3017 | between any two points without live locks, the pause and fullscreen values have come back, unless an owed return was cancelled |
| SystemLock.LiveLocksHold | src/arcadeduck-qt/mainwindow.cpp:2943-3017 | over every run, while a lock lives a valid system is paused, and not fullscreen where dialogs leave it, exactly when no lock that owes ends while another one lives |
| SystemLock.OrderlyRunsHold | src/arcadeduck-qt/mainwindow.cpp:2997-3011 | in particular when no lock that owes moves or ends below another live one |
| SystemLock.MovedFromBelow | src/arcadeduck-qt/mainwindow.cpp:2997-3011 | two dialogs of which the older hands its lock on: the new lock ends and the system runs under the other |
| KeyFilter.DisplayWidget.HandleKeyEvent | src/arcadeduck-qt/displaywidget.cpp:347-376 | a repeat or a press of a remembered key is discarded; any other event is passed on, a release forgetting the key and a press with modifiers remembering it |
| KeyFilter.ModifiersAre | src/arcadeduck-qt/displaywidget.cpp:369-371 | every modifier but the keypad's counts |
| KeyFilter.SecondPressDiscarded | src/arcadeduck-qt/displaywidget.cpp:347-376 | of two presses with a modifier the second is discarded, and after the release the next is not |
| KeyFilter.RememberedAreHeld | src/arcadeduck-qt/displaywidget.cpp:347-376 | after any events the list holds, once each, exactly the keys pressed with a modifier and not released since |
| KeyFilter.DiscardedIff | src/arcadeduck-qt/displaywidget.cpp:347-376 | an event is discarded exactly when it repeats or presses a held key, and passed on as it is otherwise |
| KeyFilter.HeldKeysLastPressed | src/arcadeduck-qt/displaywidget.cpp:362-375 | the last thing passed on about a held key is its press |
| KeyFilter.OnePressPerRelease | src/arcadeduck-qt/displaywidget.cpp:361-372 | between a press with modifiers and the release nothing more of the key is passed on |
| KeyFilter.ReleasesPass | src/arcadeduck-qt/displaywidget.cpp:362-374 | every release that is no repeat is passed on |
| KeyFilter.PlainKeysPass | src/arcadeduck-qt/displaywidget.cpp:369-374 | keys that were never pressed with a modifier are not filtered |
| WindowAspect.ConstrainWindowSizingRectTo16By9 | src/arcadeduck-qt/displaywidget.cpp:34-76 | the rectangle becomes the one whose client area is at the target size, keeping the edges that are not dragged |
| WindowAspect.ResultIs16By9 | src/arcadeduck-qt/displaywidget.cpp:34-76 | the client height is the rounded nine sixteenths of the width, and the client is at least 16 by 9 |
| WindowAspect.OppositeEdgesStay | src/arcadeduck-qt/displaywidget.cpp:61-76 | the edges opposite the dragged ones stay, and a dragged side keeps its dimension |
| WindowAspect.CornerMovesLeast | src/arcadeduck-qt/displaywidget.cpp:50-59 | no other way of restoring the ratio by one dimension changes a corner drag less |
| WindowAspect.EdgesStay | src/arcadeduck-qt/displaywidget.cpp:61-76 | edge by edge, which two edges of the window stay |
| WindowAspect.SideSizes | src/arcadeduck-qt/displaywidget.cpp:41-75 | two frameless windows in numbers, resized by a side and by the top |
| WindowAspect.CornerKeepsWidth | src/arcadeduck-qt/displaywidget.cpp:50-59 | a corner always keeps the width, at least the minimum |
| WindowAspect.ReapplyingBarelyMoves | src/arcadeduck-qt/displaywidget.cpp:34-76 | the same edge again changes nothing, and any other edge at most one pixel of width |
| WindowAspect.NoOverflow | src/arcadeduck-qt/displaywidget.cpp:34-76 | for coordinates and frame within 32 million no difference, sum, product, distance, size or edge of the routine leaves 32 bits |
| GlyphRanges.GetPairs | scripts/generate_update_fa_glyph_ranges.py:63-91 | the table is ordered ranges that cover exactly the input, none adjoining the next, with gaps if the input is distinct, and one pair of zeros |
| GlyphRanges.RangesUnique | scripts/generate_update_fa_glyph_ranges.py:77-88 | gapped ranges are determined by the codepoints they cover |
| GlyphRanges.TableUnique | scripts/generate_update_fa_glyph_ranges.py:73-88 | distinct codepoints in any order give the same table |
| GlyphRanges.ReadBackIff | dep/imgui/src/imgui_draw.cpp:2839-2840 | the font loader reads exactly the input back exactly when it holds no zero, and nothing at all when it does |
| GlyphRanges.ReadStops | dep/imgui/src/imgui_draw.cpp:2839-2840 | the loader reads up to the first pair that holds a zero, whatever follows |
| MemoryView.StepFits | src/arcadeduck-qt/memoryviewwidget.cpp:53-106 | every operation leaves the scroll bar's range ending where the last row is the last one shown |
| MemoryView.AdjustedIsSettled | src/arcadeduck-qt/memoryviewwidget.cpp:184-211 | the adjustment a changed scroll bar triggers again finds nothing to do |
| MemoryView.MemoryViewWidget.SetData | src/arcadeduck-qt/memoryviewwidget.cpp:53-63 | new data, the scroll bar at the top, and the highlight as it was |
| MemoryView.MemoryViewWidget.ScrollToOffset | src/arcadeduck-qt/memoryviewwidget.cpp:79-87 | the scroll bar goes to the row of the clamped offset |
| MemoryView.PaintEvent | src/arcadeduck-qt/memoryviewwidget.cpp:137-181 | every offset from the first row to the end of the last row or of the data is painted once, in order, in its place, highlighted exactly if in the range |
| MemoryView.ScrolledOffsetIsPainted | src/arcadeduck-qt/memoryviewwidget.cpp:79-87 | after scrolling to any offset, its byte or the last one is among those painted |
| MemoryView.ScreenHolds | src/arcadeduck-qt/memoryviewwidget.cpp:196-206 | sixteen bytes to a row, one row less than the viewport holds, and the range of the scroll bar |
| MemoryView.ScrollGoes | src/arcadeduck-qt/memoryviewwidget.cpp:79-93 | which row a scroll to an offset or an address goes to |
| MemoryView.CellsRead | src/arcadeduck-qt/memoryviewwidget.cpp:137-181 | of each cell painted, its byte, its colour and its place in numbers |
| MemoryView.OperationsRead | src/arcadeduck-qt/memoryviewwidget.cpp:53-77 | what new data, a highlight and a drag change |
| MemoryView.CellsDoNotOverlap | src/arcadeduck-qt/memoryviewwidget.cpp:147-163 | no two painted bytes share a place |
| MemoryView.HexBeforeCharacters | src/arcadeduck-qt/memoryviewwidget.cpp:25-43 | hexadecimal cells end before the character column begins |
| MemoryView.HighlightStaysIff | src/arcadeduck-qt/memoryviewwidget.cpp:53-77 | an operation keeps start, end and size in order exactly when new data is not shorter than the highlight's end |
| MemoryView.HighlightRunIff | src/arcadeduck-qt/memoryviewwidget.cpp:53-77 | over a run the highlight is in order throughout exactly when all new data met that condition |
| MemoryView.StaleHighlight | src/arcadeduck-qt/memoryviewwidget.cpp:53-63 | shorter data under an old highlight |
| GameOrder.CompareTransitive | src/common/string_util.h:43-50 | case-insensitive comparison is transitive, and strict if one of its steps is |
| GameOrder.PrefixTransitive | src/arcadeduck-qt/gamelistmodel.cpp:653-662 | so is comparison up to the shorter length |
| GameOrder.LessThanByKey | src/arcadeduck-qt/gamelistmodel.cpp:627-738 | every column compares its key, and titles where the keys are the same |
| GameListReadings.ColumnsRead | src/arcadeduck-qt/gamelistmodel.cpp:591-738 | in text columns the game whose text is earlier letter by letter comes first, and titles decide where texts are equal |
| GameListReadings.NumbersRead | src/arcadeduck-qt/gamelistmodel.cpp:664-724 | smaller files, earlier dates and shorter times come first |
| GameListReadings.PlayersRead | src/arcadeduck-qt/gamelistmodel.cpp:725-734 | below sixteen players, games for fewer come first, by the least number and then the greatest |
| GameListReadings.FileTitleIs | src/arcadeduck-qt/gamelistmodel.cpp:653-655 | a file title is the name after the last slash and before the last dot |
| GameOrder.StrictPartialOrder | src/arcadeduck-qt/gamelistmodel.cpp:596-738 | every column is irreflexive, asymmetric and transitive on the rows of any list, missing rows included |
| GameOrder.StrictWeakByNumber | src/arcadeduck-qt/gamelistmodel.cpp:664-734 | title and number columns are strict weak orders, the byte-wide player key included |
| GameOrder.TiesBreakIff | src/arcadeduck-qt/gamelistmodel.cpp:627-738 | two ties in a row are no tie exactly when the middle game is confused with both others and these are told apart, by their titles or by their keys |
| GameOrder.StrictWeakIff | src/arcadeduck-qt/gamelistmodel.cpp:627-738 | a column is a strict weak order on a list as it is exactly when the list has no such three games |
| GameOrder.StrictWeakIfNoneConfused | src/arcadeduck-qt/gamelistmodel.cpp:627-738 | it is one, in particular, if no two different keys of the list compare as equal |
| GameOrder.CaseBreaksTies | src/arcadeduck-qt/gamelistmodel.cpp:687-692 | three games of one developer, once in capitals, are such a list |

## Left out

- The byte order mark, UTF-8 encoding and the temporary file of the database write: the model writes a text.
- MAME itself, its XML and command line: its relationships are a map from games to parents.
- The printed audit reports and the exit codes of the script.
- ControllerCopy.CopyArcadeControllerConfiguration: source and destination are different objects, as in every
  call; copying a store onto itself is not modelled.
- InputManager::CopyConfiguration, which runs before the arcade copy and writes other sections.
- The text field of the advanced settings page (src/arcadeduck-qt/advancedsettingswidget.cpp:127), which can
  edit the log filter's string while a log window is open.
- Settings keys that are equal up to letter case, and the order of several values under one key in an
  unordered map, which the store keeps.
- SettingsBatch.ControllerSettingsWindow.SetParsedValue: the parsing of booleans and numbers is an outcome
  given to the call.
- The hook of the binding dialog (src/arcadeduck-qt/inputbindingdialog.cpp:278-327) makes the same tests as the
  one modelled, and adds to the list where that one replaces the setting.
- Floating-point rounding in the capture: values are real numbers.
- BindingWidget.InputBindingWidget.SetNewBinding: the conversion of keys to text is a function given to the
  widget.
- The re-matching of a saved pointing device to the connected ones, which selects a single match or none.
- Memory regions are read while nothing writes them; the emulator's thread is not modelled.
- Pause and fullscreen requests take effect before the next step; nothing else pauses or resumes while a lock
  lives.
- The second copy of the 16:9 routine in src/arcadeduck-qt/mainwindow.cpp:65-107, which is the same.
- Token names, their UTF-8 encodings and the hexadecimal printing of glyph tables: the input is codepoints.
- The header row, addresses and colours of the hex view.
- MemoryView.StepFits: data of more rows than a signed 32-bit integer counts is excluded.
- Strings with embedded zero characters in the game list, at which C comparison stops.
- Widgets, menus, help texts, themes, downloads and updates.
