# RusTerm: verified models of the core

RusTerm is a terminal emulator with an encrypted session log, a dockable workspace, an
approval sandbox between a language model and a live shell, and a replay log for session
recovery. This project models the logic of these five parts in Dafny and proves what they
are for. Every mutable object of the source is a class whose methods are proved against a
specification function, loop by loop; theorems about calls in sequence and whole runs are
stated on those functions. The table leaves out methods that make one plain state change;
each of them is proved equal to its specification function, in the same file or the one it imports.

- `Sequences.dfy`, `Cells.dfy`: shared vocabulary; cells and rows.
- `RowEdits.dfy`, `Regions.dfy`, `LineEdits.dfy`: in-place edits of a row and of a block of
  rows, and the closed forms they refine (ECMA-48 sections 8.3.64 ICH, 8.3.26 DCH, 8.3.67 IL,
  8.3.32 DL, 8.3.147 SU, 8.3.113 SD).
- `Screens.dfy`: the screen machine, its invariant and the meaning of each handler call.
- `Effects.dfy`: what each handler call does to every cell, mode and cursor, and to nothing else.
- `AltScreen.dfy`, `History.dfy`, `Layout.dfy`: theorems over runs.
- `Reflow.dfy`: resizing. `Markers.dfy`: segmented processing. `Mouse.dfy`: mouse reports.
- `Terminal.dfy`: the terminal object, refining all of these.
- `Frames.dfy`, `LogProtocol.dfy`, `Transcript.dfy`: the session log file, its threads, its
  transcripts.
- `Dock.dfy`, `Workspace.dfy`: dock layout and workspace preferences.
- `Sandbox.dfy`, `Sanitizer.dfy`: the approval machine and the output sanitizer.
- `Replay.dfy`: the replay log.

A log of every row pushed to scrollback since it was last cleared is kept as ghost state of
the terminal, so that statements about history need no bound. External code is a parameter:
the escape-sequence parser (a function from state and bytes to handler calls), sealing and
opening of log entries (assumed inverse), lossy UTF-8 decoding, and the credential sanitizer.

Found where code and documentation, or code and expectation, disagree (the code is modelled):

- `reflow_grid` promises a blank row for a blank line; the resize loop gives it none
  (`Reflow.BlankLinesKeepTheirRowIff`).
- `insert_blank_lines` does nothing when the scrolling region ends at row 0
  (`LineEdits.InsertLinesIsRegionScrollIff`).
- `resize` leaves saved cursors and the parked primary screen at the old size and pushes
  overflow past the capacity (`Reflow.ResizeKeepsInvariantIff`); overflow is appended to the
  history although it follows what stays on the grid (`Reflow.HistoryThenGridKeepsOrderIff`).
- `set_scrolling_region` does not clamp the top (`AltScreen.SetRegionKeepsInvariantIff`).
- A `close` of a session log that overlaps another may return before the log is drained
  (`LogProtocol.TakesTheHandleIff`, `LogProtocol.EarlyReturnIsCompleteIff`).
- The sanitizer panics on an escape byte followed by a non-ASCII character, unless the pair
  lies inside another escape sequence (`Sanitizer.PanicsIff`).
- Different replay rows with equal keys have no determined order
  (`Replay.OrderingsAgreeIff`).
- A mouse report's legacy flag byte overflows for buttons the terminal never reports
  (`MouseReports.EncodeMouseReport`).
- Sequence numbers from 2^63 on are stored negative (`Replay.WrapKeepsOrderIff`).

## Model

| member | source | states |
|---|---|---|
| `AltScreen.AltBracketRestoresPrimary` | crates/rusterm-core/src/terminal.rs:1675-1714 | after 1049h, any run of handler calls that does not leave (nested 1049h and RIS included), then 1049l, every field of the primary screen is back; only tab stops, insert mode and mouse modes carry over, and scrollback is untouched at every step unless ED 3 or a capacity change edits it |
| `AltScreen.RunStaysParked` | crates/rusterm-core/src/terminal.rs:1746-1779 | through any such run the parked grid, the saved cursor, region and modes stay exactly those of the primary screen |
| `AltScreen.LeavingReturns` | crates/rusterm-core/src/terminal.rs:1746-1779 | leaving from any state with the primary screen parked returns to it, field by field |
| `AltScreen.WrapOnKeepsCursorInside` | crates/rusterm-core/src/terminal.rs:1139-1207 | while wrapping is never switched off and there are two columns or more, every cursor, live or saved, stays at most one past the last column |
| `AltScreen.WideCharPassesTheMarginIff` | crates/rusterm-core/src/terminal.rs:1153-1161 | a wide character leaves the cursor at cols + 1 exactly when the terminal has one column or wrapping is off at the last column |
| `AltScreen.SetRegionKeepsInvariantIff` | crates/rusterm-core/src/terminal.rs:1784-1794 | DECSTBM keeps the state well formed exactly when the requested top is not below the clamped bottom, since the top is not clamped |
| `AltScreen.RegionTopIsNotClamped` | crates/rusterm-core/src/terminal.rs:1784-1794 | a fresh 24-row terminal is broken by a region from row 10 to row 3 |
| `AltScreen.RunMouse` | crates/rusterm-core/src/terminal.rs:1653-1674 | mouse modes evolve on their own: no screen switch, scroll or edit affects them, RIS clears them |
| `Screens.Step` | crates/rusterm-core/src/terminal.rs:1218-1459 | every handler call with a valid region, at any size, leads from a well-formed state to a well-formed state of the same size: grid rows x cols, ordered region, cursors in range, tab stops per column, scrollback within capacity and a suffix of the rows scrolled off, alternate-screen fields in agreement |
| `Screens.Run` | crates/rusterm-core/src/terminal.rs:1653-1794 | so every state reachable by resize-free runs is well formed |
| `Screens.RunAppend` | crates/rusterm-core/src/terminal.rs:551-580 | handler calls fed in two batches act as one batch |
| `Screens.Fresh` | crates/rusterm-core/src/terminal.rs:467-515 | a new terminal of any non-empty size is well formed |
| `Screens.ScrollUp` | crates/rusterm-core/src/terminal.rs:1079-1113 | scrolling changes only grid and history, nothing of the history on the alternate screen, and keeps scrollback the latest rows that fit |
| `Screens.Print` | crates/rusterm-core/src/terminal.rs:1139-1207 | printing changes only grid, cursor and history, and with wrapping on leaves the cursor at most one past the margin |
| `Screens.NextStop` | crates/rusterm-core/src/terminal.rs:1285-1292 | the first tab stop right of the column, or the last column |
| `Screens.PreviousStop` | crates/rusterm-core/src/terminal.rs:1422-1430 | the last tab stop left of the column, or column 0 |
| `Effects.EraseInLine` | crates/rusterm-core/src/terminal.rs:1461-1482 | EL 0 erases the cursor's row from the cursor on and keeps every cell left of it, EL 1 erases up to and including the cursor and keeps the rest, EL 2 erases the row; nothing else changes |
| `Effects.LeftThenRightIsWhole` | crates/rusterm-core/src/terminal.rs:1461-1482 | EL 1 and then EL 0 is EL 2 |
| `Effects.EraseInDisplay` | crates/rusterm-core/src/terminal.rs:1484-1522 | ED 0 erases exactly what is at or after the cursor, ED 1 exactly what is at or before it, ED 2 everything; ED 3 leaves the screen and empties the history |
| `Layout.ErasingAheadKeepsText` | crates/rusterm-core/src/terminal.rs:1461-1500 | EL 0 and ED 0 leave all text before the cursor alone |
| `Effects.EditInLine` | crates/rusterm-core/src/terminal.rs:1338-1420 | cell by cell: ECH erases n cells, ICH moves the rest of the row right by n, DCH left by n; other rows and cells left of the cursor stay |
| `Effects.PrintFits` | crates/rusterm-core/src/terminal.rs:1163-1207 | a character that fits is drawn in the current pen with its second half beside it, one of no width over what is there; cells to its right stay, or in insert mode move right by its width; other rows stay |
| `Effects.PrintPastMargin` | crates/rusterm-core/src/terminal.rs:1140-1148 | past the margin a character goes to the start of the next line, or with wrapping off onto the last column |
| `Effects.RegionRows` | crates/rusterm-core/src/terminal.rs:1079-1137 | row by row: scrolling by one moves the region's rows by one, blanks the row that opens and touches none outside |
| `Effects.IndexMoves` | crates/rusterm-core/src/terminal.rs:1306-1313 | a line feed and a reverse index move by one row, scroll the region at its far edge and stop at the screen's edge |
| `Effects.IndexesUndo` | crates/rusterm-core/src/terminal.rs:1574-1581 | away from the region's edges a line feed and a reverse index undo each other |
| `Effects.RowMotionsReachNearest` | crates/rusterm-core/src/terminal.rs:1224-1283 | vertical motions go to the nearest row of the screen and change nothing else |
| `Effects.ColumnMotionsReachNearest` | crates/rusterm-core/src/terminal.rs:1224-1304 | horizontal motions go to the nearest column; only moving back can leave a cursor past the margin |
| `Effects.GotoReachesNearest` | crates/rusterm-core/src/terminal.rs:1224-1240 | so does absolute positioning, one column further left on the second half of a wide character |
| `Effects.TabReachesSetStop` | crates/rusterm-core/src/terminal.rs:1285-1292 | a tab from the left arrives at a stop just set and passes one just cleared; other stops stay |
| `Effects.TabsAdd` | crates/rusterm-core/src/terminal.rs:1285-1292 | tab counts add up |
| `Effects.BackTabsAdd` | crates/rusterm-core/src/terminal.rs:1422-1430 | and backwards |
| `Effects.RestoreReturnsToSave` | crates/rusterm-core/src/terminal.rs:1436-1459 | after a save, any run that leaves the slot alone, and a restore, position, pen and character sets are those of the save and nothing else is touched |
| `Effects.ResetIsFresh` | crates/rusterm-core/src/terminal.rs:1546-1572 | RIS gives a fresh terminal but for tab stops, history, marker state and a parked primary screen |
| `Effects.AltScreenStartsBlank` | crates/rusterm-core/src/terminal.rs:1697-1711 | the alternate screen starts blank, unscrolled, with the cursor at home and nothing saved; pen, modes and history carry over |
| `Effects.ModesAreIndependent` | crates/rusterm-core/src/terminal.rs:1653-1782 | setting or resetting a screen mode switches that one and no other |
| `Effects.MouseModes` | crates/rusterm-core/src/terminal.rs:1653-1750 | each mouse mode's effect on the four flags |
| `Effects.DesignateThenShift` | crates/rusterm-core/src/terminal.rs:1796-1802 | a character set designated to a slot is what input is mapped by once the slot is active; other slots keep theirs |
| `Effects.RegionHoldsRequestedRows` | crates/rusterm-core/src/terminal.rs:1784-1794 | a valid region holds exactly the rows it names; the cursor goes home |
| `Effects.CapacityKeepsLatest` | crates/rusterm-core/src/terminal.rs:917-928 | a capacity change keeps the latest rows that fit |
| `Effects.AlignmentShowsE` | crates/rusterm-core/src/terminal.rs:1835-1842 | DECALN changes only characters |
| `Effects.StepByKind` | crates/rusterm-core/src/terminal.rs:1218-1842 | every handler call does what its kind does: motion, scroll, erasure, edit or setting |
| `Effects.ScrollCalls` | crates/rusterm-core/src/terminal.rs:1306-1392 | line feed, index and line calls reach the effects above; a new line returns the cursor first |
| `Effects.StyleCalls` | crates/rusterm-core/src/terminal.rs:1583-1652 | pen, insert mode and character set calls change their setting alone |
| `Effects.ErasureCalls` | crates/rusterm-core/src/terminal.rs:1394-1522 | ECH, EL, ED and DECALN reach the erasures above |
| `Effects.RowCalls` | crates/rusterm-core/src/terminal.rs:1338-1420 | ICH and DCH reach the row edits |
| `Effects.TabCalls` | crates/rusterm-core/src/terminal.rs:1285-1292 | tab calls reach the tab motions |
| `Effects.SlotCalls` | crates/rusterm-core/src/terminal.rs:1436-1459 | save, restore, RIS and ED 3 reach theirs |
| `Effects.ModeCalls` | crates/rusterm-core/src/terminal.rs:1653-1782 | private mode calls reach the modes |
| `Effects.StopCalls` | crates/rusterm-core/src/terminal.rs:1524-1544 | stop calls set, clear or replace stops and nothing else |
| `Effects.SizeCalls` | crates/rusterm-core/src/terminal.rs:1784-1794 | region and capacity calls reach theirs |
| `Layout.PrintingRealisesLayout` | crates/rusterm-core/src/terminal.rs:1139-1207 | printing any text of widths 0, 1 and 2 appends to history ++ rows above ++ cursor row exactly the cells of a reference layout that knows only a line length, erased margin cells and continuation cells included |
| `Layout.AutowrapLayout` | crates/rusterm-core/src/terminal.rs:1306-1313 | at any size, width-1 text is read back in order, whatever wrapped or scrolled; the cursor has advanced one cell per character, a full line counting as the start of the next; scrollback is still the latest rows of the history |
| `Layout.FreshIsPlain` | crates/rusterm-core/src/terminal.rs:467-515 | a fresh terminal of any non-empty size is such a state, with no text yet |
| `Layout.PrintAllIsRun` | crates/rusterm-core/src/terminal.rs:1219-1222 | a run of input calls prints the text as the terminal's own active character set maps it |
| `History.ScrollUpConservesRows` | crates/rusterm-core/src/terminal.rs:1085-1108 | on the primary screen nothing is lost: history ++ region afterwards is history ++ region before ++ the blanks; rows outside the region do not change |
| `History.RunKeepsWindow` | crates/rusterm-core/src/terminal.rs:1089-1097 | over any run at a fixed capacity scrollback is exactly the last capacity rows scrolled off since it was last cleared |
| `History.ViewportIsWindowOfRenderAllIff` | crates/rusterm-core/src/terminal.rs:880-909 | the full rendering has the window line_number_start names, and the scrolled view equals it, exactly on the primary screen, without history, or when the view reaches the top of a history that looks like the alternate screen |
| `History.AltViewMayCoincide` | crates/rusterm-core/src/terminal.rs:880-909 | the third case occurs |
| `History.CursorShowsUnscrolled` | crates/rusterm-core/src/terminal.rs:829-834 | unscrolled the view is the screen with its cursor, scrolled it has none |
| `TerminalModel.Terminal.RenderWithScroll` | crates/rusterm-core/src/terminal.rs:787-841 | the two-part copy yields the rows of scrollback ++ grid from the returned line number on; the cursor position and visibility are the live ones only at offset 0 |
| `TerminalModel.Terminal.RenderEverything` | crates/rusterm-core/src/terminal.rs:880-909 | scrollback ++ grid, or the grid alone on the alternate screen |
| `RowEdits.ShiftRight` | crates/rusterm-core/src/terminal.rs:1338-1358 | the backward take-loop of ICH equals the closed form: cells from the cursor move right by min(n, cols - col), blanks fill the gap |
| `RowEdits.ShiftLeft` | crates/rusterm-core/src/terminal.rs:1406-1420 | the forward replace-loop of DCH equals the closed form: cells close up, blanks enter at the end |
| `RowEdits.EraseRun` | crates/rusterm-core/src/terminal.rs:1394-1404 | ECH blanks exactly the columns of its range that exist |
| `RowEdits.EditsKeepLeftOfCursor` | crates/rusterm-core/src/terminal.rs:1343-1350 | neither edit changes a cell left of the cursor, for every count and column, pending wrap included |
| `RowEdits.DeleteUndoesInsert` | crates/rusterm-core/src/terminal.rs:1338-1420 | DCH n after ICH n restores the row except its last min(n, cols - col) cells, which are erased |
| `RowEdits.InsertUndoesDelete` | crates/rusterm-core/src/terminal.rs:1338-1420 | ICH n after DCH n restores the row except the deleted cells, which are erased |
| `RowEdits.InsertionsAdd` | crates/rusterm-core/src/terminal.rs:1338-1358 | ICH m after ICH n is ICH m + n |
| `RowEdits.DeletionsAdd` | crates/rusterm-core/src/terminal.rs:1406-1420 | DCH m after DCH n is DCH m + n |
| `Regions.BubbleDown` | crates/rusterm-core/src/terminal.rs:1106-1108 | swapping a blank down row by row moves the region up by one |
| `Regions.BubbleUp` | crates/rusterm-core/src/terminal.rs:1126-1129 | swapping a blank up row by row moves the region down by one |
| `Regions.RemoveThenInsert` | crates/rusterm-core/src/terminal.rs:1377-1392 | repeated remove and insert moves the rows from the cursor to the region's bottom up by the count |
| `Regions.RemoveThenInsertAbove` | crates/rusterm-core/src/terminal.rs:1360-1375 | repeated remove and insert moves them down by the count, except that nothing happens when the bottom is row 0 |
| `Regions.RegionUpAdd` | crates/rusterm-core/src/terminal.rs:1085-1108 | scrolling up by n and then m is scrolling up by m + n, and the rows moved out are moved out in the same order |
| `Regions.RegionDownAdd` | crates/rusterm-core/src/terminal.rs:1121-1130 | scrolling down by n and then m is scrolling down by m + n |
| `Regions.UpUndoesDown` | crates/rusterm-core/src/terminal.rs:1115-1137 | scrolling up undoes scrolling down except for the rows pushed past the bottom, which come back blank |
| `LineEdits.InsertLinesIsRegionScrollIff` | crates/rusterm-core/src/terminal.rs:1360-1375 | IL n equals SD n on the rows from the cursor exactly when the region's bottom is not row 0, or n is 0, or row 0 is already blank |
| `LineEdits.InsertLinesIgnoresOneRowRegion` | crates/rusterm-core/src/terminal.rs:1360-1375 | a run from a fresh terminal after which IL 1 does nothing and SD 1 would |
| `LineEdits.DeleteLinesIsRegionScroll` | crates/rusterm-core/src/terminal.rs:1377-1392 | DL n equals SU n on the rows from the cursor, without feeding history |
| `LineEdits.DeleteLinesUndoesInsertLines` | crates/rusterm-core/src/terminal.rs:1360-1392 | DL n after IL n restores the screen except for the rows IL pushed off, which come back blank |
| `TerminalModel.Terminal.ScrollUp` | crates/rusterm-core/src/terminal.rs:1079-1113 | the whole loop is the closed-form move, with the moved-out rows windowed into scrollback at once |
| `TerminalModel.Terminal.ScrollDown` | crates/rusterm-core/src/terminal.rs:1115-1137 | the whole loop is the closed-form move |
| `TerminalModel.Terminal.ClearScreen` | crates/rusterm-core/src/terminal.rs:1484-1522 | the new state of ED in its four modes; ED 3 empties scrollback and log |
| `TerminalModel.Terminal.AlignmentTest` | crates/rusterm-core/src/terminal.rs:1835-1842 | every cell shows E and keeps its attributes |
| `TerminalModel.Terminal.WriteChar` | crates/rusterm-core/src/terminal.rs:1139-1207 | wrap, wide wrap, insert-mode gap and glyph together |
| `TerminalModel.Terminal.PutTab` | crates/rusterm-core/src/terminal.rs:1285-1292 | count steps to the next stop |
| `TerminalModel.Terminal.BackTab` | crates/rusterm-core/src/terminal.rs:1422-1430 | count steps to the previous stop |
| `TerminalModel.Terminal.SetTabs` | crates/rusterm-core/src/terminal.rs:1539-1544 | a stop at every multiple of the interval |
| `TerminalModel.Terminal.SetScrollingRegion` | crates/rusterm-core/src/terminal.rs:1784-1794 | for every request the region and the cursor's home; the object stays valid exactly when the top is not below the clamped bottom |
| `TerminalModel.Terminal.Input` | crates/rusterm-core/src/terminal.rs:1219-1222 | an input character is mapped by the active character set of the moment and written |
| `TerminalModel.Terminal.Handle` | crates/rusterm-core/src/terminal.rs:1218-1794 | every handler call changes the object exactly as the screen machine says |
| `TerminalModel.Terminal.HandleAll` | crates/rusterm-core/src/terminal.rs:551-580 | so does every sequence of calls |
| `TerminalModel.EveryNth` | crates/rusterm-core/src/terminal.rs:734-737 | the stepping loop marks exactly the multiples of the interval |
| `TerminalModel.Terminal.Process` | crates/rusterm-core/src/terminal.rs:551-580 | for every parser whose calls on this buffer have valid regions, the loop feeds it the segments cut after each marker, in order, and applies each marker's effect between them |
| `Markers.FindExitCodeMarker` | crates/rusterm-core/src/terminal.rs:355-387 | the first marker, its end and its code; none exactly when no position starts one |
| `Markers.PrintedCodeIsRead` | crates/rusterm-core/src/terminal.rs:355-387 | a marker with a printed code, semicolon or not, carries it if it fits 32 bits; without digits it means success |
| `Markers.CutsAreExactlyMarkerEnds` | crates/rusterm-core/src/terminal.rs:569-579 | a position is a cut exactly when a marker ends there |
| `Markers.SegmentsJoin` | crates/rusterm-core/src/terminal.rs:569-580 | the segments concatenate to the buffer |
| `Markers.MarkersDoNotOverlap` | crates/rusterm-core/src/terminal.rs:355-387 | two markers never overlap |
| `Markers.ExitCodeIsLastParseable` | crates/rusterm-core/src/terminal.rs:571-574 | the recorded code is that of the last marker whose code parses |
| `Markers.UnchangedWhenNoneParse` | crates/rusterm-core/src/terminal.rs:571-574 | and the old one when no marker has such a code |
| `Markers.MouseComesFromTheLastSegment` | crates/rusterm-core/src/terminal.rs:558-579 | for every such parser and buffer the final mouse modes are what the calls after the last marker make of all-clear flags, or of the old flags when there is no marker; the exit code is the one the markers leave |
| `Markers.SegmentMouse` | crates/rusterm-core/src/terminal.rs:569-579 | one segment: a marker clears the modes whatever its segment did, and only a code that parsed replaces the old one |
| `Reflow.TrimTrailingPadding` | crates/rusterm-core/src/terminal.rs:294-300 | the longest trailing run of default cells is dropped |
| `Reflow.CollectLines` | crates/rusterm-core/src/terminal.rs:742-764 | wrapped rows whole, others trimmed |
| `Reflow.PlaceChunks` | crates/rusterm-core/src/terminal.rs:687-708 | the chunks that fit become rows, the rest overflow |
| `Reflow.Rewrap` | crates/rusterm-core/src/terminal.rs:678-722 | the loop terminates and refills exactly the requested number of rows |
| `Reflow.Refill` | crates/rusterm-core/src/terminal.rs:678-722 | the grid has the new number of rows, each of the new width |
| `Reflow.RefillShowsChunksInOrder` | crates/rusterm-core/src/terminal.rs:685-708 | row i shows chunk i, padded, and rows past the last chunk are blank |
| `Reflow.RefillWrapsIff` | crates/rusterm-core/src/terminal.rs:705-706 | a row counts as wrapped exactly when its chunk fills it and its line is not the last |
| `Reflow.LineKeepsAllButPadding` | crates/rusterm-core/src/terminal.rs:756-764 | a line is its row but for trailing padding, of which a wrapped row loses none |
| `Reflow.OverflowContinuesTheOrder` | crates/rusterm-core/src/terminal.rs:687-694 | the rows pushed to scrollback are the next chunks in order |
| `Reflow.OverflowSize` | crates/rusterm-core/src/terminal.rs:687-694 | there are as many as the chunks of the lines taken exceed the rows |
| `Reflow.HistoryThenGridKeepsOrderIff` | crates/rusterm-core/src/terminal.rs:687-694 | history read before the grid shows the chunks in the order of the text exactly when the chunks of the lines taken fit |
| `Reflow.NarrowingReversesText` | crates/rusterm-core/src/terminal.rs:687-694 | a run from a fresh terminal whose two characters come out in reverse |
| `Reflow.FittingRefillPreservesCells` | crates/rusterm-core/src/terminal.rs:659-764 | when all chunks fit, the new rows hold the old cells in order, and nothing else but default cells |
| `Reflow.RefillLosesNothingIff` | crates/rusterm-core/src/terminal.rs:680-683 | no chunk is lost exactly when every line after those taken is blank |
| `Reflow.BlankLinesKeepTheirRowIff` | crates/rusterm-core/src/terminal.rs:742-764 | the comment promises a blank row for a blank line; at every new size, overflow and dropped lines included, the grid looks as promised if and only if no row it gives to a line below a blank one shows anything |
| `Reflow.BlanksStayWithRoomIff` | crates/rusterm-core/src/terminal.rs:742-764 | when every chunk fits, that means: no blank line stands before a line that shows something |
| `Reflow.BlankLinesVanish` | crates/rusterm-core/src/terminal.rs:684-685 | with or without a blank line anywhere, every row shows the same |
| `Reflow.MiddleBlankLineVanishes` | crates/rusterm-core/src/terminal.rs:684-685 | a three-row screen with a blank line in the middle comes out with its two texts adjacent |
| `Reflow.ResizeKeepsInvariantIff` | crates/rusterm-core/src/terminal.rs:659-740 | resizing keeps the state well formed exactly when the chunks of the lines taken that exceed the new rows fit beside the history, the saved cursor fits the new size, and the alternate screen is off or the size is unchanged |
| `Reflow.ResizeMovesCursorToNearest` | crates/rusterm-core/src/terminal.rs:725-731 | the cursor goes to the nearest position of the new size: a coordinate that fits is kept, and growing in height moves only a pending wrap |
| `Reflow.ResizeSetsTheRest` | crates/rusterm-core/src/terminal.rs:715-738 | the region becomes the whole screen, tab stops every eighth column, overflow follows the old history, and all else is kept |
| `Reflow.NarrowingOverfillsHistory` | crates/rusterm-core/src/terminal.rs:687-694 | a run from a fresh terminal with capacity 0 after which narrowing to one cell leaves a row of history |
| `Reflow.ShrinkingStrandsSavedCursor` | crates/rusterm-core/src/terminal.rs:659-740 | a run from a fresh terminal that saves its cursor and is then broken by losing a row |
| `Reflow.ShrinkingStrandsPrimaryScreen` | crates/rusterm-core/src/terminal.rs:659-740 | another that only enters the alternate screen first |
| `TerminalModel.Terminal.ResizeTo` | crates/rusterm-core/src/terminal.rs:659-740 | the resized state, or no change when nothing changed |
| `TerminalModel.Terminal.Reflow` | crates/rusterm-core/src/terminal.rs:672-740 | grid, scrollback, region, cursor and tab stops after a resize |
| `MouseReports.EncodeMouseReport` | crates/rusterm-core/src/terminal.rs:157-208 | the bytes of a report in either form for every button; none exactly when the legacy flag byte overflows |
| `MouseReports.Button224Overflows` | crates/rusterm-core/src/terminal.rs:199-207 | button 224 is the first to do so |
| `MouseReports.SgrRoundTripIff` | crates/rusterm-core/src/terminal.rs:180-198 | decoding the SGR form gives the report back, for all coordinates and modifiers, exactly when the button leaves the modifier and motion bits clear |
| `MouseReports.ButtonsInUseAreDecodable` | crates/rusterm-core/src/terminal.rs:148-152 | so it does for the five buttons in use, whose legacy bytes all fit |
| `MouseReports.LegacyCoordinatesSurviveIff` | crates/rusterm-core/src/terminal.rs:199-207 | legacy coordinates fit seven bits and survive exactly below 95 |
| `MouseReports.LegacyRoundTrip` | crates/rusterm-core/src/terminal.rs:199-207 | for the buttons in use a legacy press or motion below the limit is read back whole; a release loses button and modifiers |
| `Markers.DecimalOfDigits` | crates/rusterm-core/src/terminal.rs:191-195 | printed decimals parse back |
| `Frames.BigEndianInverse` | crates/rusterm-core/src/session_log.rs:533-537 | big-endian lengths are read back |
| `Frames.BackgroundWriter` | crates/rusterm-core/src/session_log.rs:512-554 | draining the channel appends one frame per writable entry, in order |
| `Frames.DecryptFile` | crates/rusterm-core/src/session_log.rs:251-309 | the cursor loop computes the decoding, every error included |
| `Frames.HeaderIsChecked` | crates/rusterm-core/src/session_log.rs:251-273 | a short file, another magic and another version are told apart; the reserved bytes do not matter |
| `Frames.BadFrameSpoilsFile` | crates/rusterm-core/src/session_log.rs:288-309 | one frame that does not open, after any good ones, spoils the whole file |
| `Frames.TruncationDecodesToPrefix` | crates/rusterm-core/src/session_log.rs:275-287 | every cut of a log file at 8 bytes or more decodes to exactly the entries whose frames are whole; the whole file to everything written |
| `LogProtocol.RunKeepsInv` | crates/rusterm-core/src/session_log.rs:198-229 | over every interleaving of senders, writer and closers, the bytes on disk, the frame in progress and the queue together are the file of the accepted entries |
| `LogProtocol.AnyMomentDecodesToPrefix` | crates/rusterm-core/src/session_log.rs:512-554 | so at every moment the file decodes to a prefix of the accepted entries, in order |
| `LogProtocol.TakesTheHandleIff` | crates/rusterm-core/src/session_log.rs:224-228 | a close about to reach the thread handle gets it exactly when every close that has begun is still short of it; otherwise it returns at once |
| `LogProtocol.HandleMeansComplete` | crates/rusterm-core/src/session_log.rs:215-229 | a close that finds the handle in place can only return by joining, and the log is then complete, whatever happens in between |
| `LogProtocol.EarlyReturnIsCompleteIff` | crates/rusterm-core/src/session_log.rs:215-229 | a close that finds it gone returns at once, and the log is complete then exactly when the frame in progress and those of the queue are empty |
| `LogProtocol.LoneCloseDrains` | crates/rusterm-core/src/session_log.rs:215-229 | closes that do not overlap are safe: the only close has joined when it returns, and once one has returned while none waits in a join the log is complete |
| `LogProtocol.CompleteIff` | crates/rusterm-core/src/session_log.rs:512-554 | at any moment a reader finds everything exactly when the writer has nothing left to write |
| `LogProtocol.CloseDrains` | crates/rusterm-core/src/session_log.rs:215-229 | after a close that joined the writer has returned, the file decodes to everything written of what was accepted, and later sends and closes change nothing |
| `LogProtocol.SecondCloseMayReturnEarly` | crates/rusterm-core/src/session_log.rs:215-229 | a run in which a concurrent second close returns while an accepted entry is not on disk |
| `LogProtocol.Drain` | crates/rusterm-core/src/session_log.rs:545-553 | once the sender is gone the writer is never stuck and ends with every accepted entry on disk |
| `Transcript.StripPtyControl` | crates/rusterm-core/src/session_log.rs:390-503 | the byte loop is the token-by-token scan |
| `Transcript.SkipEscape` | crates/rusterm-core/src/session_log.rs:399-468 | each kind of escape sequence is skipped whole |
| `Transcript.StripIsIdempotent` | crates/rusterm-core/src/session_log.rs:390-503 | the output holds only newline, tab and bytes from 0x20, is no longer than the input, and stripping again changes nothing |
| `Transcript.InsertedBreaksAreTidy` | crates/rusterm-core/src/session_log.rs:415-439 | for any bytes, newlines included, a line break the scan inserted is never first and never follows a newline |
| `Transcript.NewlinesOfNoneAreInserted` | crates/rusterm-core/src/session_log.rs:415-439 | every newline in the transcript of data without any is such a break |
| `Transcript.ScanSplits` | crates/rusterm-core/src/session_log.rs:390-503 | scanning composes at every top-level position |
| `Transcript.ControlSequenceInserted` | crates/rusterm-core/src/session_log.rs:405-439 | at top level a complete CSI is invisible, or exactly one boundary when its final byte moves vertically or clears |
| `Transcript.EscapeInserted` | crates/rusterm-core/src/session_log.rs:440-468 | at top level any other complete escape sequence is invisible |
| `Transcript.ControlStringInserted` | crates/rusterm-core/src/session_log.rs:445-468 | an operating system command ends at BEL or ESC backslash, a device control string only at ESC backslash; complete they are invisible, without an end they swallow the rest |
| `Transcript.ByteInserted` | crates/rusterm-core/src/session_log.rs:469-498 | at top level newline, tab and bytes from 0x20 are copied, a backspace takes back one byte of the line, other control bytes vanish |
| `Transcript.BoundaryFinals` | crates/rusterm-core/src/session_log.rs:438-438 | the final bytes that break a line |
| `Transcript.BackspaceErases` | crates/rusterm-core/src/session_log.rs:469-475 | a printable byte and a backspace cancel |
| `Transcript.RecordsToTranscript` | crates/rusterm-core/src/session_log.rs:346-375 | the transcript of a record list |
| `Transcript.RecordShare` | crates/rusterm-core/src/session_log.rs:346-375 | output contributes its stripped bytes; input is marked and closed with a newline of its own unless it ends in one; nothing comes of nothing |
| `Transcript.TranscriptDistributes` | crates/rusterm-core/src/session_log.rs:346-375 | transcripts distribute over concatenation of record lists |
| `Dock.NormalizeIsNormal` | crates/rusterm-core/src/config.rs:921-945 | any input becomes a partition of the eight panels with valid actives and extents |
| `Dock.NormalizeFixesIff` | crates/rusterm-core/src/config.rs:921-950 | normalization changes nothing exactly on such layouts, so it is idempotent |
| `Dock.NormalizeKeepsFirstOccurrence` | crates/rusterm-core/src/config.rs:921-938 | a panel ends in the zone that mentioned it first, or its default zone; each zone starts with the first occurrences it had |
| `Dock.NormalizeKeepsTheRest` | crates/rusterm-core/src/config.rs:824-848 | visibility is kept, sizes are clamped, an active panel the zone holds stays active and otherwise the first one is |
| `Dock.NothingMentionedGivesDefaults` | crates/rusterm-core/src/config.rs:779-803 | a layout that mentions no panel gets the default one, panel by panel |
| `Dock.FirstsKeepOrder` | crates/rusterm-core/src/config.rs:921-932 | first occurrences keep their order |
| `Dock.MovePanelPlaces` | crates/rusterm-core/src/config.rs:952-977 | after a move the panel is in the target zone at min(index, length) and nowhere else, and the order of the others is kept in all zones |
| `Dock.MovePanelActivates` | crates/rusterm-core/src/config.rs:959-976 | the moved panel becomes active unless it was reordered while inactive in a visible zone; the zone is shown |
| `Dock.MoveLeavesTheRest` | crates/rusterm-core/src/config.rs:952-977 | a move changes no size, shows no other zone, and changes another zone's active panel only by taking it away |
| `Dock.MovingBackRestores` | crates/rusterm-core/src/config.rs:952-977 | moving a panel and moving it back to its zone and index restores all three orders |
| `Workspaces.NormalizedAgrees` | crates/rusterm-core/src/config.rs:1035-1054 | whatever is loaded, layout and legacy projection agree afterwards |
| `Workspaces.LegacyFieldsWin` | crates/rusterm-core/src/config.rs:1035-1048 | on loading the legacy visibilities and clamped sizes win over the layout's, in both representations; a tab names its zone's active panel if it can and is otherwise what it was |
| `Workspaces.NormalizedFixesIff` | crates/rusterm-core/src/config.rs:1035-1054 | normalizing changes nothing exactly on states in agreement, so it is idempotent |
| `Workspaces.RunsSurviveSaving` | crates/rusterm-core/src/config_manager.rs:750-771 | every state reached by moves and visibility changes stays in agreement and is what saving and loading it gives back |
| `Workspaces.StepActsOnLayout` | crates/rusterm-core/src/config.rs:1056-1073 | a move moves in the layout, a visibility change shows or hides its zone and nothing else |
| `Workspaces.MigrationHonoursTabs` | crates/rusterm-core/src/config.rs:1075-1125 | a zone's active panel after loading is the legacy tab's if the zone holds it and no panel a tab cannot name is active, and the layout's otherwise |
| `Workspaces.RetainUnseen` | crates/rusterm-core/src/config.rs:921-932 | the retain closure with its growing list keeps first occurrences |
| `Workspaces.DockLayout.NormalizeLayout` | crates/rusterm-core/src/config.rs:921-945 | the three loops together |
| `Workspaces.DockLayout.Place` | crates/rusterm-core/src/config.rs:954-975 | removal everywhere and insertion in the target, with its active panel |
| `Workspaces.WorkspacePreferences.NormalizePreferences` | crates/rusterm-core/src/config.rs:1035-1054 | clamp, normalize, adopt, migrate, normalize, project |
| `Workspaces.WorkspacePreferences.MigrateLegacyActiveTabs` | crates/rusterm-core/src/config.rs:1075-1125 | the tab panels become active zone by zone |
| `Sandbox.EveryRunIsAccounted` | crates/rusterm-ai/src/shadow_sandbox.rs:150-290 | over every call sequence the phase is what calls and replies made of the last proposal; the capabilities issued are those of the approved proposals, one each and in order; captured bytes are the first 65536 of the running session's output and truncated says exactly whether there was more; each finished execution has one result, its own; the shared results are those of the executions approved for it, once each, the last eight kept |
| `Sandbox.StartIsAccounted` | crates/rusterm-ai/src/shadow_sandbox.rs:116-123 | a new sandbox is such a state |
| `Sandbox.RejectedIsNeverShared` | crates/rusterm-ai/src/shadow_sandbox.rs:268-319 | a proposal withdrawn, an execution abandoned or a result discarded, by rejection or by cancelling its session, is not the source of any shared result in any continuation |
| `Sandbox.ClosedStaysClosed` | crates/rusterm-ai/src/shadow_sandbox.rs:150-319 | what became of a proposal, once settled, never changes |
| `Sandbox.RefusedIff` | crates/rusterm-ai/src/shadow_sandbox.rs:150-290 | a proposal is refused exactly while another, its execution or its result is open; every other call exactly when the last proposal is not waiting for it |
| `Sandbox.FailureChangesNothing` | crates/rusterm-ai/src/shadow_sandbox.rs:150-290 | a refused call leaves the state unchanged |
| `Sandbox.ChunkingIsInvisible` | crates/rusterm-ai/src/shadow_sandbox.rs:189-208 | two chunks act as one |
| `Sandbox.ShadowSandbox.RecordOutput` | crates/rusterm-ai/src/shadow_sandbox.rs:189-208 | bounded capture of the approved session only |
| `Sandbox.ShadowSandbox.FinishExecution` | crates/rusterm-ai/src/shadow_sandbox.rs:226-265 | the result of the approved session, or a refusal that restores the phase |
| `Sandbox.ShadowSandbox.ApproveResult` | crates/rusterm-ai/src/shadow_sandbox.rs:278-290 | the result joins the shared ones, the oldest leaving past eight |
| `Sanitizer.SanitizeTerminalOutput` | crates/rusterm-ai/src/shadow_sandbox.rs:324-384 | scan, collapse and trim; nothing when the scan panics |
| `Sanitizer.ScanText` | crates/rusterm-ai/src/shadow_sandbox.rs:324-378 | the scan loop, and its panic after an escape byte followed by a non-ASCII character outside every other sequence |
| `Sanitizer.PanicsIff` | crates/rusterm-ai/src/shadow_sandbox.rs:324-378 | the scan panics exactly on text that has, where the scan is inside no other escape sequence, an escape byte followed by a non-ASCII character |
| `Sanitizer.AccentAfterEscapePanics` | crates/rusterm-ai/src/shadow_sandbox.rs:363-363 | the shortest such text, and one with the same pair inside a control sequence, which does not panic |
| `Sanitizer.CollapseNewlines` | crates/rusterm-ai/src/shadow_sandbox.rs:380-382 | the rewriting loop ends and caps every run of newlines at two |
| `Sanitizer.SanitizingIsIdempotent` | crates/rusterm-ai/src/shadow_sandbox.rs:324-384 | the result has no control character but newline and tab, no three newlines in a row, no surrounding white space, and is a fixed point |
| `Sanitizer.SanitizingDropsOnlyWhiteEnds` | crates/rusterm-ai/src/shadow_sandbox.rs:380-384 | what leaves the scanned and collapsed text is white space at its two ends and nothing else |
| `Sanitizer.TrimIsASlice` | crates/rusterm-ai/src/shadow_sandbox.rs:383-383 | trimming takes all white space from both ends and nothing else |
| `Sanitizer.CapsEachRun` | crates/rusterm-ai/src/shadow_sandbox.rs:380-382 | each run of newlines becomes one of at most two, independently of what is around it |
| `Sanitizer.CharacterScanned` | crates/rusterm-ai/src/shadow_sandbox.rs:370-377 | outside any sequence a character stays unless it is a control character; carriage return becomes newline |
| `Sanitizer.SequencesAreTokens` | crates/rusterm-ai/src/shadow_sandbox.rs:331-367 | a control sequence up to its final byte, an operating system command up to BEL or ESC backslash, and ESC with another ASCII character are each one sequence |
| `Sanitizer.SequenceIsInvisible` | crates/rusterm-ai/src/shadow_sandbox.rs:331-367 | inserted outside any other sequence each of these is invisible |
| `Sanitizer.AsciiEscapesDoNotPanic` | crates/rusterm-ai/src/shadow_sandbox.rs:363-363 | text in which escapes are followed by ASCII never panics |
| `Replay.ReplayIsOrderIndependent` | crates/rusterm-analytics/src/lib.rs:710-721 | when no two different rows of a session share a key its replayed operations depend only on which inserts followed its last clear: not on their order, on what preceded the clear, on other sessions, or on the ordered query's choice |
| `Replay.RecordedIsReplayed` | crates/rusterm-analytics/src/lib.rs:679-721 | two operations recorded in whichever order are replayed cleaned and by time, then number; a refused one is not there |
| `Replay.OrderingRunsByTime` | crates/rusterm-analytics/src/lib.rs:712-715 | an ordering runs by timestamp and then by sequence number |
| `Replay.RowsOfRun` | crates/rusterm-analytics/src/lib.rs:679-734 | after any run a session's rows are those its calls inserted since its last clear |
| `Replay.OrderingsAgreeIff` | crates/rusterm-analytics/src/lib.rs:712-715 | the answer of the ordered query is determined exactly when no two different rows share a key |
| `Replay.SessionsAreIsolated` | crates/rusterm-analytics/src/lib.rs:679-734 | inserts and clears of other sessions do not touch a session's rows |
| `Replay.OrderingIsUnique` | crates/rusterm-analytics/src/lib.rs:712-715 | then there is one ordering, repeated rows included |
| `Replay.EqualKeysAreAmbiguous` | crates/rusterm-analytics/src/lib.rs:712-715 | a push and a pop with equal keys replay differently in their two orders |
| `Replay.WrapKeepsOrderIff` | crates/rusterm-analytics/src/lib.rs:699-699 | stored sequence numbers keep their order exactly when 2^63 does not separate them |
| `Replay.WrapTurnsOver` | crates/rusterm-analytics/src/lib.rs:699-699 | 2^63 - 1 and 2^63 are stored in the wrong order |
| `Replay.ResetForgets` | crates/rusterm-analytics/src/lib.rs:1288-1305 | nothing before a reset matters |
| `Replay.ContextCancels` | crates/rusterm-analytics/src/lib.rs:1288-1305 | entering and leaving a context cancels, with any balanced events inside |
| `Replay.FoldReplayEvents` | crates/rusterm-analytics/src/lib.rs:1288-1305 | the loop is the fold |
| `Replay.LastEvent` | crates/rusterm-analytics/src/lib.rs:1288-1305 | an operation or context enters with its text if it has one, a pop leaves the innermost, a reset leaves all, anything else does nothing |
| `Replay.AnalyticsDB.RecordReplayEvent` | crates/rusterm-analytics/src/lib.rs:679-702 | the row inserted, or none when the text is refused |
| `Replay.AnalyticsDB.LatestReplayOps` | crates/rusterm-analytics/src/lib.rs:710-721 | the fold of some ordering of the session's rows |
| `Replay.AnalyticsDB.ClearReplayStream` | crates/rusterm-analytics/src/lib.rs:727-734 | the session's rows go, all others stay in order |

## Left out

- The escape-sequence parser, Unicode width tables and UTF-8 decoding: external libraries; handler calls, widths 0 to 2 and code points are inputs. What the line-drawing set makes of a character comes with the input call; which set is active is the terminal's state.
- Cryptography, JSON, base64, key derivation: only their inverse property is used.
- SGR bookkeeping, titles, tmux detection, device reports, colour overrides, dirty-row tracking: setters and channel sends; a pen change is one operation with the resulting pen. Rendering maps cells to themselves.
- Pairing of wide cells with their continuation cells under edits: the code does not keep it.
- Machine-integer overflow of row, column and count arithmetic: counts come from 16-bit parameters, so `usize` sums cannot overflow.
- `Row` and grid buffers are sequences that methods reassign; identity of row buffers under swaps is not modelled.
- OSC 7 directory scanning, selection extraction and prompt-line extraction: simple scans.
- Writing the header of a log file, its name and directory: I/O.
- `Sandbox.ShadowSandbox.FinishExecution`: takes the failure text already formatted, because formatting is the caller's string work.
- Prompt text built from shared results: formatting.
- `Replay.AnalyticsDB.LatestReplayOps`: the database's ordering is any sorted arrangement; the sort in the model stands for the SQL engine.
- Other database queries, embeddings, scoring, history providers, configuration merging, classification, network, serial, UI and start-up code: engine behaviour, record updates, lookups or I/O that would only add easy members.
