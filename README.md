# STE editor core in Dafny

A model of the core of STE, a small terminal text editor written in Go, with
proofs about that model. It covers two parts.

- **Write mode** (core/write.go). The buffer is a sequence of lines. The screen cursor sits
  right of a fixed line-number gutter, and two scroll offsets place the view
  over the buffer. The cursor stands on buffer line `CursorY + OffsetY`, at
  column `CursorX - LineCountWidth + OffsetX`. The three edit primitives are
  modelled: insertRune, insertEnter and deleteAtCursor. So is every key of
  the event loop's unmodified-key switch, and the bounds clamp that runs
  after every event.
- **The command and plugin system** (core/plugin.go, core/editor.go). A
  map holds every command under its primary name and under each alias.
  Plugins are stored by name. The model covers registering a plugin,
  executing a command by name, listing commands, the plugin loading loop,
  the built-in commands, and handleCommand. handleCommand splits the input
  line on white space, lower-cases the name and dispatches it.

Modules and files:

- **text.dfy (`Text`).** Write mode on values. A `View` holds the write-mode
  fields. Each primitive and each key is a function from views to views, or
  to a `Reaction`: carry on, return on Esc, or a Go index-out-of-range panic.
  The lemmas state what each key does from a reachable state (`Wellformed`)
  and show that no key panics there.
- **findings.dfy (`Findings`).** Four defects of write mode. Three appear when
  the view is scrolled horizontally, and one when Backspace joins onto a line
  wider than the screen. Each comes with its corrected handler.
- **tokens.dfy (`Tokens`).** `strings.Fields` over Go's `unicode.IsSpace`, and
  `strings.ToLower`.
- **registry.dfy (`Registry`).** The plugin.go operations on values: storing
  commands, last writer wins, execution, plugin registration and loading.
- **commands.dfy (`Commands`).** The built-in commands and handleCommand.
- **core.dfy (`Core`).** The class `EditorCore` with the fields of the Go struct that the core updates. Its
  methods update the fields step by step as the Go code does. Each method is
  proved equal to the value-level definition it refines.
- **optional.dfy (`Optional`).** `Option`, which stands for Go's `nil` error.

Command handlers are abstract. A `Runner` maps a handler and its arguments to
the handler's error, if any. Plugin loading is abstract too: a `Scan` is the
directory glob's result, and it lists one `LoadResult` per plugin file.

## Model

| member | source | states |
|---|---|---|
| Text.InsertAt | core/write.go:256-261 | the character lands at the column, the text before and after it is kept, and the line gains exactly that character |
| Text.RemoveAt | core/write.go:289-291 | the text before and after the column is kept, and the line loses exactly the character at the column |
| Text.Clip | core/write.go:215-220 | the buffer column is clipped into [0, line length]; inside the range it is kept |
| Text.InsertRune | core/write.go:243-263 | at an insertion point, line y becomes `old[..x] + [r] + old[x..]`, every other line and the line count are kept, and CursorX grows by one; otherwise nothing changes |
| Text.InsertEnter | core/write.go:207-241 | with the line in range, the clipped column splits line y into prefix and suffix; earlier lines are kept and later ones shift down by one; the count grows by one; CursorX becomes LineCountWidth and CursorY grows by one; out of range nothing changes |
| Text.DeleteAtCursor | core/write.go:265-296 | at column ≤ 0 below the first line, the line is joined onto the previous one, the count drops by one, and CursorX becomes the previous line's length past the gutter, one row up, which is the join point when OffsetX = 0; inside the line the character left of the cursor is removed and CursorX drops by one; at the first line, out of range, or past the line's end nothing changes |
| Text.PrimitivesKeepALine | core/write.go:273-285 | no primitive leaves the buffer without a line |
| Text.DeleteAfterInsertRune | core/write.go:243-296 | deleting right after inserting a character restores the whole view |
| Text.DeleteAfterInsertEnter | core/write.go:207-296 | with OffsetX = 0, deleting right after a split restores the buffer and the cursor's line; the cursor column comes back clipped, and exactly when it was an insertion point |
| Text.FitColumn | core/write.go:26-29 | a negative line index panics; past the last line nothing changes; otherwise only CursorX may change, and it becomes the line's end past the gutter exactly when it was beyond it |
| Text.MoveUp | core/write.go:19-25 | KeyUp's move never makes OffsetY negative and changes only CursorY and OffsetY |
| Text.KeyUp | core/write.go:18-29 | KeyUp never returns to the caller and keeps the screen size |
| Text.MoveDown | core/write.go:31-37 | from a reachable state, the cursor's line goes one down, stopping at the last line |
| Text.KeyDown | core/write.go:30-41 | KeyDown never returns to the caller and keeps the screen size |
| Text.KeyLeft | core/write.go:42-51 | KeyLeft keeps the screen size |
| Text.KeyRight | core/write.go:52-64 | KeyRight never returns to the caller and keeps the screen size |
| Text.KeyBackspace | core/write.go:65-93 | Backspace keeps the screen size |
| Text.EdgeScroll | core/write.go:67-69 | at the left screen edge with the view scrolled, OffsetX drops by one and so does the buffer column, with nothing else changed; otherwise the view is kept |
| Text.AfterDelete | core/write.go:71-89 | the scroll fixes after a deletion keep the buffer and the cursor's buffer line; a cursor above the screen comes to row 0 and any other keeps its row; the buffer column is kept whenever the cursor is at most one column left of the gutter |
| Text.KeyEnter | core/write.go:94-100 | Enter keeps the screen size |
| Text.KeyOther | core/write.go:103-123 | a typed key never returns to the caller and keeps the screen size |
| Text.Clamp | core/write.go:180-195 | with Rows, Cols ≥ 1 the cursor ends in rows [0, Rows) and columns [LineCountWidth, Cols + LineCountWidth); a cursor already there is left alone; only the cursor moves |
| Text.ThenClamp | core/write.go:180-195 | a reaction that carries on still carries on, with the text and both offsets kept and, for Rows, Cols ≥ 1, the cursor on screen; a return or a panic passes through unchanged |
| Text.HandleEvent | core/write.go:13-195 | an event returns to the caller exactly when it is Esc; after any other event, with Rows, Cols ≥ 1, the cursor is inside the text area |
| Text.ClampSettled | core/write.go:180-195 | the clamp turns a state that is reachable except for its column into a reachable one, with the buffer and the cursor's line kept |
| Text.KeyUpSettled | core/write.go:18-29 | from a reachable state KeyUp does not panic, and only the column may need the clamp |
| Text.KeyDownSettled | core/write.go:30-41 | the same for KeyDown |
| Text.KeyRightSettled | core/write.go:52-64 | the same for KeyRight |
| Text.KeyBackspaceSettled | core/write.go:65-93 | the same for Backspace |
| Text.KeyEnterSettled | core/write.go:94-100 | the same for Enter |
| Text.KeyOtherSettled | core/write.go:103-123 | the same for a typed character |
| Text.HandleEventKeepsWellformed | core/write.go:13-195 | from a reachable state no event panics; the next state is reachable again: at least one line, cursor line in range, offsets ≥ 0, cursor on screen |
| Text.KeyUpMovesOneLineUp | core/write.go:18-29 | Up goes one line up, stopping at line 0; OffsetY stays ≥ 0 and does not grow; text and OffsetX are kept; CursorX is kept, or becomes the new line's end past the gutter exactly when the screen column was beyond that end |
| Text.KeyDownMovesOneLineDown | core/write.go:30-41 | Down goes one line down, stopping at the last line; text and OffsetX are kept; CursorX is kept, or becomes the new line's end past the gutter exactly when the screen column was beyond that end |
| Text.KeyLeftMovesOneColumnLeft | core/write.go:42-51 | Left goes one buffer column left, stopping at 0, on the same line and text |
| Text.KeyRightStopsAtLineEnd | core/write.go:52-64 | Right advances one buffer column only while the column is below the line length |
| Text.KeyOtherInserts | core/write.go:103-123 | a typed character edits the buffer as insertRune does; at an insertion point the buffer column advances by one |
| Text.KeyEnterSplits | core/write.go:94-100 | Enter splits as insertEnter does and moves to the next line, at buffer column OffsetX, which it keeps |
| Text.KeyBackspaceDeletes | core/write.go:65-93 | with OffsetX = 0, Backspace edits the buffer as deleteAtCursor does |
| Text.BackspaceAtLineStart | core/write.go:65-93 | with OffsetX = 0, Backspace at column 0 below the first line joins the line onto the previous one and lands at the join point, when the previous line is narrower than the screen (Findings.LongJoinLandsInsidePreviousLine covers the wider case) |
| Text.TypeThenBackspace | core/write.go:65-123 | with no horizontal scroll, typing a character then Backspace restores the view |
| Text.EnterThenBackspace | core/write.go:65-100 | with OffsetX = 0, Enter then Backspace restores the text, the buffer position and CursorX |
| Text.InitialViewReachable | core/editor.go:45-62 | the view NewEditor starts with, one empty line and the cursor after the gutter, is reachable and at an insertion point once Rows, Cols ≥ 1 |
| Text.UnscrolledEventsKeepInsertionPoint | core/write.go:13-195 | from a reachable insertion point with OffsetX = 0, every event that carries on and leaves OffsetX at 0 lands at an insertion point again |
| Text.UnscrolledBackspaceKeepsInsertionPoint | core/write.go:65-93 | the Backspace case of the above: with OffsetX = 0 it lands at an insertion point unless it scrolls |
| Findings.ScrolledTypeThenBackspaceKeepsCharacter | core/write.go:65-70 | on a one-column screen, typing on an empty first line scrolls, and Backspace then leaves the character that deleteAtCursor at the cursor would remove |
| Findings.ScrolledTypeLandsAtEdge | core/write.go:103-123 | on a one-column screen, typing on the empty first line inserts the character and scrolls one column, leaving the cursor at the left edge |
| Findings.EdgeBackspaceOnFirstLine | core/write.go:65-70 | as written, Backspace at the left edge of the first line, scrolled one column, only scrolls back |
| Findings.KeyBackspaceKeepingColumn | core/write.go:65-93 | the corrected Backspace keeps the screen size |
| Findings.ScrollKeepingColumn | core/write.go:67-69 | the corrected edge scroll keeps the buffer column and the offset non-negative, and keeps the cursor on a screen at least two columns wide |
| Findings.KeepingColumnDeletesAtCursor | core/write.go:65-93 | corrected, Backspace from any reachable state edits the buffer as deleteAtCursor at the cursor and stays reachable |
| Findings.TypeThenBackspaceKeepingColumn | core/write.go:65-123 | corrected, typing then Backspace restores the text in every reachable state, scrolled or not |
| Findings.DownWhileScrolledPassesLineEnd | core/write.go:38-41 | scrolled right, Down onto an empty line leaves the cursor at buffer column OffsetX, past the line's end |
| Findings.FitColumnToLine | core/write.go:26-29 | the corrected column fix never returns to the caller |
| Findings.FittedMovesStayInLine | core/write.go:18-41 | corrected, Up and Down from a reachable state land at an insertion point: the old column, or the new line's end if that is shorter |
| Findings.EnterWhileScrolledDropsTyping | core/write.go:236-254 | scrolled right, Enter at a line's end leaves the cursor past the end of the new empty line, and a typed character is then dropped |
| Findings.KeyEnterAtLineStart | core/write.go:94-100 | the corrected Enter keeps the screen size |
| Findings.EnterAtLineStartLandsOnNewLine | core/write.go:94-100 | corrected, Enter lands at column 0 of the new line, an insertion point, in a reachable state |
| Findings.EnterAtLineStartThenBackspace | core/write.go:65-100 | corrected, Enter then Backspace restores the text in every reachable state |
| Findings.LongJoinLandsInsidePreviousLine | core/write.go:65-93 | as written, Backspace at the start of a line after a previous line at least as wide as the screen joins the lines but leaves the cursor at buffer column Cols - 1, inside the previous line's text, with no scroll |
| Findings.FollowCursor | core/write.go:59-62 | the corrected horizontal scroll keeps the text and the cursor's buffer position; a cursor on screen is left alone, and one past the right edge comes to the last column with the view scrolled right |
| Findings.KeyBackspaceFollowingCursor | core/write.go:65-93 | the corrected Backspace keeps the screen size |
| Findings.FollowedJoinLandsAtJoinPoint | core/write.go:65-93 | corrected, Backspace at the start of any line but the first, with OffsetX = 0, joins the lines and lands exactly at the join point, in a reachable state at an insertion point, whatever the previous line's length |
| Tokens.IsSpace | core/editor.go:125 | the space is white space and no other visible ASCII character is |
| Tokens.RunLength | core/editor.go:125 | the leading run of non-space characters: all of it non-space, ended by a space or the end |
| Tokens.Fields | core/editor.go:125 | every field is non-empty and holds no white space |
| Tokens.FieldsEmptyIffBlank | core/editor.go:125-129 | Fields finds no field exactly when the line is all white space |
| Tokens.FieldsOfJoin | core/editor.go:125 | splitting words joined by spaces gives the words back |
| Tokens.FieldsSkipBlank | core/editor.go:125 | leading white space does not change the fields |
| Tokens.FieldsOfWeave | core/editor.go:125 | fields woven with white space, non-empty between any two of them, split back into exactly those fields |
| Tokens.Gaps | core/editor.go:125 | there is one stretch of white space more than there are fields, and a line that starts with white space has a non-empty first one |
| Tokens.FieldsRebuild | core/editor.go:125 | every line is its fields woven with its white space, which separates them |
| Tokens.FieldsCharacterised | core/editor.go:125 | a list is the fields of a line exactly when each is a run without white space and the line is those runs woven with white space that separates them, so the fields are the maximal non-space runs in order |
| Tokens.LowerChar | core/editor.go:131 | an ASCII capital maps to its small letter; every other character is kept |
| Tokens.ToLower | core/editor.go:131 | the length is kept and each character is lower-cased |
| Tokens.ToLowerNormalises | core/editor.go:131 | the result has no capital; a string without capitals is kept; lower-casing twice is lower-casing once |
| Tokens.ToLowerKeepsField | core/editor.go:131 | a lower-cased field is still a field |
| Registry.Register | core/plugin.go:87-95 | storing commands keeps every key already present and adds only keys some command claims |
| Registry.Bind | core/plugin.go:89-94 | storing one command under a list of keys adds exactly those keys, each mapped to the command, and keeps every other entry |
| Registry.Owner | core/plugin.go:87-95 | a key's owner is a command of the list that claims the key |
| Registry.OwnerIsLastClaimer | core/plugin.go:87-95 | a key has an owner exactly when some command claims it, and no later command claims it |
| Registry.OwnerUnique | core/plugin.go:87-95 | a key claimed by one command only belongs to that command |
| Registry.RegisterCharacterised | core/plugin.go:87-95 | after storing commands, a key is present exactly when it was or some command claims it; it maps to its last claimer; unclaimed keys keep their command |
| Registry.RegisterTwice | core/plugin.go:87-95 | storing the same commands twice gives the map that storing them once gives |
| Registry.RegisterAppend | core/plugin.go:87-95 | storing a list in two parts equals storing it at once |
| Registry.RegisterKeepsHonest | core/plugin.go:87-95 | if every key maps to a command that claims it, that stays true after storing commands |
| Registry.ExecuteCommand | core/plugin.go:104-111 | an unknown name yields "unknown command" and runs nothing; a known one returns its handler's result on the given arguments |
| Registry.ExecuteCommandRunsOnlyItsHandler | core/plugin.go:104-111 | the result depends on no handler other than the one stored under the name, and on none for an unknown name |
| Registry.RegisterPlugin | core/plugin.go:77-101 | if Initialize fails, nothing changes and the wrapped error is returned; otherwise the plugin is stored under its name, the commands under all their keys with last writer winning, and keys the plugin does not name are untouched |
| Registry.RegisterPluginTwice | core/plugin.go:77-101 | registering the same plugin twice leaves what registering it once does |
| Registry.LoadPluginsFromDirectory | core/plugin.go:27-47 | a failed scan returns its error and changes nothing; a successful one returns no error, whatever the files |
| Registry.LoadAll | core/plugin.go:38-44 | loading never removes a plugin name or a command key |
| Registry.Loadable | core/plugin.go:38-44 | the plugins kept are opened entries whose Initialize succeeds |
| Registry.LoadableComplete | core/plugin.go:38-44 | every entry that opens and whose Initialize succeeds is kept |
| Registry.LoadableAppend | core/plugin.go:38-44 | the plugins kept from a list in two parts are those of the first part followed by those of the second, so their order is the entries' order |
| Registry.LastNamed | core/plugin.go:84 | the plugin picked has the name and is in the list; there is none exactly when no plugin of the list has the name |
| Registry.LastNamedIsLast | core/plugin.go:84 | no plugin after the one picked has its name |
| Registry.LoadAllSkipsFailures | core/plugin.go:38-46 | loading equals registering exactly the plugins that open and initialise, in order: the command map is theirs stored in order, and each name holds the last such plugin of that name, or its old plugin |
| Registry.LoadedCommands | core/plugin.go:38-46 | the command map after loading is that of storing the loadable plugins' commands in order |
| Registry.LoadedPlugins | core/plugin.go:38-46 | after loading, through plugin.go:84, a name is present exactly when it was or a loadable plugin has it, and it holds the last loadable plugin of that name, or its old plugin |
| Commands.Builtins | core/editor.go:68-99 | five built-ins, each with its own handler |
| Commands.BuiltinKeyIsLowerCase | core/editor.go:68-99 | every built-in key is a single lower-case word, so lower-casing the typed name keeps it |
| Commands.BuiltinKeyRuns | core/editor.go:123-137 | a line whose first word is a built-in key runs that key's built-in with the other words as arguments |
| Commands.BuiltinOwner | core/editor.go:68-99 | each of the eleven built-in keys is claimed by its own built-in and no other |
| Commands.BuiltinClaims | core/editor.go:68-99 | no built-in claims any other key |
| Commands.BuiltinsStored | core/editor.go:67-107 | registerBuiltInCommands adds quit, q, write, w, save, s, open, o, help, h and ?, each mapped to its built-in, so each alias maps to the command named by its primary name; other keys are kept |
| Commands.QuitKeys | core/editor.go:69-74 | in the built-in map "q" holds quit and "Q" is absent |
| Commands.ParseCommand | core/editor.go:124-132 | the line parses to nothing exactly when it is all white space; a name is a field with no capital letter |
| Commands.ParseWords | core/editor.go:124-132 | a line of words parses to the first word lower-cased and the other words in order |
| Commands.HandleCommand | core/editor.go:123-137 | a blank line shows nothing; otherwise the error of executing the lower-cased first field with the other fields is shown, and no error is shown after success |
| Commands.BlankLineRunsNothing | core/editor.go:127-129 | a blank line shows nothing, whatever the handlers |
| Commands.HandleCommandRunsFirstWord | core/editor.go:124-136 | handleCommand executes the lower-cased first word with the other words as arguments, and shows its error |
| Commands.UpperCaseNameResolves | core/editor.go:131-134 | "Q" is unknown to ExecuteCommand, yet handleCommand with "Q" runs quit |
| Commands.FirstWordRuns | core/editor.go:124-136 | a line whose first word names a stored command, in any case, runs that command's handler on the other words |
| Commands.QuitLine | core/editor.go:131-134 | a line starting with "Q" runs whatever "q" holds |
| Core.EditorCore.constructor | core/editor.go:45-62 | a new editor has one empty line and the cursor at column 3 = LineCountWidth, row 0, with no offsets and no plugins; its commands are exactly the built-ins |
| Core.EditorCore.InsertRune | core/write.go:243-263 | updates the fields as Text.InsertRune |
| Core.EditorCore.InsertEnter | core/write.go:207-241 | updates the fields as Text.InsertEnter |
| Core.EditorCore.DeleteAtCursor | core/write.go:265-296 | updates the fields as Text.DeleteAtCursor |
| Core.EditorCore.KeyUp | core/write.go:18-29 | updates the fields as Text.KeyUp |
| Core.EditorCore.KeyDown | core/write.go:30-41 | updates the fields as Text.KeyDown |
| Core.EditorCore.KeyLeft | core/write.go:42-51 | updates the fields as Text.KeyLeft |
| Core.EditorCore.KeyRight | core/write.go:52-64 | updates the fields as Text.KeyRight |
| Core.EditorCore.KeyBackspace | core/write.go:65-93 | updates the fields as Text.KeyBackspace |
| Core.EditorCore.EdgeScroll | core/write.go:67-69 | updates the fields as Text.EdgeScroll |
| Core.EditorCore.ScrollAfterDelete | core/write.go:71-89 | updates the fields as Text.AfterDelete |
| Core.EditorCore.KeyEnter | core/write.go:94-100 | updates the fields as Text.KeyEnter |
| Core.EditorCore.KeyOther | core/write.go:103-123 | updates the fields as Text.KeyOther |
| Core.EditorCore.ClampCursor | core/write.go:180-195 | updates the fields as Text.Clamp |
| Core.EditorCore.WriteEvent | core/write.go:13-195 | returns exactly on Esc, changing nothing; otherwise the fields become Text.HandleEvent's view; a reachable state stays reachable |
| Core.EditorCore.StoreCommand | core/plugin.go:87-95 | stores the command under its name and each alias, as Registry.Bind |
| Core.EditorCore.RegisterBuiltInCommands | core/editor.go:67-107 | stores the built-ins as Commands.BuiltinsStored states |
| Core.EditorCore.RegisterPlugin | core/plugin.go:77-101 | the plugin and command maps and the error are those of Registry.RegisterPlugin |
| Core.EditorCore.LoadPluginsFromDirectory | core/plugin.go:27-47 | the maps and the error are those of Registry.LoadPluginsFromDirectory |
| Core.EditorCore.ListCommands | core/plugin.go:114-126 | every returned string is a key; no two returned keys hold commands with the same name; every command name in the map is represented |

## Left out

- Ctrl+Left and Ctrl+Right word jumps (core/write.go:125-175). Their scroll arithmetic uses `Cols - LineCountWidth` and promises neither bounds nor termination. A modified key is modelled as running only the final clamp. That is exact for Alt, for Ctrl with any other key, and for other modifiers.
- Drawing and event polling: Terminal calls, DisplayBuffer and DisplayStatus (core/renderer.go), and the PollEvent loop. The model handles one event at a time.
- The message insertRune shows when the cursor is out of bounds (core/write.go:251). Only its "nothing changes" effect is modelled.
- The printed progress and warning lines of plugin loading and registration.
- plugin.Open, Lookup, the NewPlugin signature check and filepath.Glob (core/plugin.go:29-35, 50-74). A `Scan` and its `LoadResult`s stand for their outcomes.
- Initialize's effects on the editor it receives. Only its outcome is modelled. Plugin.Cleanup is never called in the core.
- The command handlers of core/coreCommands.go. They are prompt loops over the terminal, file I/O and os.Exit, and they appear only as the abstract `Runner`.
- ShowError is not part of this model; handleCommand's result is the message it would be given. handleCommand does not clear InputBuffer, and the model does not clear it either.
- Run and mainLoop. mainLoop is empty.
- core/visuals.go, core/renderer.go, core/fileInteractions.go, main.go and the example plugin.
- Rows and Cols: NewEditor leaves them at zero, and nothing in the core assigns them. The results about reachable states require Rows, Cols ≥ 1, as a sized terminal would give.
- Go's 64-bit `int`. Integers are unbounded here, and no overflow is modelled.
- Slice aliasing. deleteAtCursor and the join both append into slices that share storage with the old line. Lines are values here, so only the resulting contents are modelled.
- The order of ListCommands' result. Go's map iteration order is unspecified, and the method picks keys in an arbitrary order.
- Tokens.ToLower: maps ASCII letters only; Go's strings.ToLower also maps the other Unicode capitals.
- Tokens.Fields: works on characters. The Go code first converts the rune slice to a UTF-8 string, which changes nothing for valid characters.
- Core.EditorCore.KeyUp, KeyDown, KeyRight, KeyOther and WriteEvent: require that the event does not index the buffer out of range. The Go code panics there, and Text.HandleEventKeepsWellformed shows that no reachable state does.
- Text.KeyLeft, Text.KeyBackspace, Text.KeyEnter, Text.KeyUp, Text.KeyDown, Text.KeyRight and Text.KeyOther: their own contracts state only the screen size and the reaction. What each key does is stated by the lemmas below them.

Where the program's own comments and its code disagree, the model follows the code:

- Comments at core/write.go:26, 38, 54 and 116 say the cursor is kept within its line. Text.InitialViewReachable and Text.UnscrolledEventsKeepInsertionPoint show that this holds while OffsetX stays 0. The four rows under Findings show where it fails.
- The comment at core/plugin.go:113 says ListCommands returns all available commands. The loop deduplicates by the command's name but appends the map key (core/plugin.go:118-121), so an alias may stand for its command.

## Findings

| source | as written | input that shows it | evidently intended | confidence | as-written member | corrected member |
|---|---|---|---|---|---|---|
| core/write.go:67-69 | at the left screen edge with OffsetX > 0, Backspace lowers OffsetX without moving CursorX, so deleteAtCursor acts one buffer column left of the cursor | one-column screen, empty buffer: type 'a' (the view scrolls to OffsetX 1), then Backspace; the 'a' stays | scroll left while keeping the cursor's buffer column, as lines 80-83 do, then delete at the cursor | high; not executed | Findings.ScrolledTypeThenBackspaceKeepsCharacter | Findings.TypeThenBackspaceKeepingColumn |
| core/write.go:27-29 | the shorter-line fix of Up and Down compares the screen column `CursorX - LineCountWidth` with the line length and ignores OffsetX | two lines "abc" and "", two-row, two-column screen: Right, Right (scrolls to OffsetX 1), Down; the cursor is at buffer column 1 of the empty line | keep the buffer column within the new line, scrolling left when its end is off screen | medium; not executed | Findings.DownWhileScrolledPassesLineEnd | Findings.FittedMovesStayInLine |
| core/write.go:238 | insertEnter sets CursorX to LineCountWidth but keeps OffsetX, so the cursor lands at buffer column OffsetX of the new line | one-column screen, two rows: type 'a' (OffsetX becomes 1), Enter, type 'b'; 'b' is refused as out of bounds | cursor at column 0 of the new line, with the scroll reset | high; not executed | Findings.EnterWhileScrolledDropsTyping | Findings.EnterAtLineStartLandsOnNewLine |
| core/write.go:283 | a join puts CursorX at the previous line's length past the gutter with no horizontal scroll, so after a join onto a line at least as wide as the screen the clamp pulls the cursor back to the last column, inside the previous line's text | a previous line at least Cols long, the cursor at the start of the next line with OffsetX 0: Backspace; the cursor lands at buffer column Cols - 1, not at the join | scroll so the cursor stays at the join point, as Right and a typed key do (core/write.go:59-62, 106-109) | medium; not executed | Findings.LongJoinLandsInsidePreviousLine | Findings.FollowedJoinLandsAtJoinPoint |
