# A verified model of btop's core

This project models the parts of the btop monitor whose correctness rests on several functions or on a whole run,
and proves what they promise. `dafny verify dfyconfig.toml` checks everything.

**Differential renderer** (`Bytes`, `Cells`, `Interpreter`, `Tokens`, `Emitter`, `Fidelity`, `ScreenBuffers`,
`Rendering`, `Uncoloring`, `Frames`, `FrameContents`, `CursorLaws`, `CodePoints`). `render_to_buffer` is an
interpreter of escape sequences over a grid of cells; `diff_and_emit` and `full_emit` print a grid as escape
sequences; the runner copies, renders, prints and swaps on every frame. The same interpreter gives the meaning of
the bytes at the other end, with one more rule: on the terminal `ESC [ 2 J` blanks every cell (ED, section 8.3.39 of
ECMA-48), while `render_to_buffer` skips it. The main results:

- a redraw shows exactly the new grid's characters and colours, for every printable grid and every cursor and pen;
- after every run of resizes and frames of renderable text the terminal shows the last rendered grid;
- attributes are reproduced too *if and only if* the sequence of changed cells is expressible. Two facts of the code
  decide this: bold and dim share the "off" code 22, and the emitter starts from the seed `UINT8_MAX`, so the first
  changed cell never gets an "on" code. `OpensExactly` and `FollowsExactly` give the exact condition cell by cell,
  `RedrawIsExactIff` and `FrameIsExactIff` for whole redraws;
- a frame's grid has the overlay on top, the output without its colours below it, and the previous frame where
  neither writes (`OverlayOnTop`); a forced frame is shown whatever the terminal showed before;
- the interpreter obeys the laws of its control sequences, stated between byte strings: relative moves against
  absolute ones, moves that undo each other, defaults, and the ways to select the same colour;
- what `render_to_buffer` writes for renderable text can be printed back (`LoneEscapeIsStored` shows a text for
  which it cannot), and on texts of complete tokens `uncolor` removes the colours and nothing else
  (`UncolouringMakesColour` shows another text in which it makes a colour sequence).

**Event queue** (`EventQueues`). Producer and consumer are interleaved atomic steps (each load, slot access and
store is one) over 32-bit counters that wrap. Under every interleaving popped events are a prefix of pushed ones,
live slots are never overwritten, a push is refused only if the queue was full when it loaded the tail, and
`empty()`, asked by the consumer, says yes exactly if the queue was empty when the head was loaded.

**Text field** (`Utf8`, `TextEditing`). The byte buffer with its byte cursor and character cursor refines a list of
characters under every key. Three exact conditions say when it does not: `clear()` empties the text but leaves the
cursors, so the field is usable afterwards if and only if the cursor was at the start; a key that starts with a
continuation byte is taken in if and only if a character stands before the cursor; and a new field's cursors fit its
text if and only if that is empty or starts with a lead byte.

**Graph** (`Graphs`, `GraphRepeats`, `GraphValues`, `GraphLevels`, `GraphPictures`). Two row sets of bytes, one
glyph dropped and one appended per sample, display what a graph built from scratch on the drawn samples displays.
With `no_zero`, this holds for all further samples if and only if the graph started empty or with `|history| + 1 >=
2 * width`. The comment at src/btop_draw.cpp:997-998 says skipping a repeated newest value gives the same picture.
That is false of the code (`SkippedIsWrong`), which leaves the sample out of the graph: the picture kept is the
right one if and only if moving every column on by one sample changes no glyph (`SkippedIsRightIff`, and
`WholeHistoryIff` for runs). Every sample is drawn if and only if none repeats the one before. Which sample stands
in which column, its percentage, and how high it is drawn are stated without the graph's own functions; zero is
drawn as low as a row allows if and only if the graph has at most 200 rows. Interpreting the bytes of a graph draws
exactly this picture at the cursor (`PictureOfRows`, `PictureOfOneRow`).

**Process tree and sorting** (`ProcTree`, `ProcTreeFacts`, `ProcAmounts`, `ProcTotals`, `ProcRanks`, `ProcFamilies`,
`TreeSorting`, `Reordering`, `ProcessViews`, `LazySorting`, `SoaSorting`). Walking the processes hides exactly those
below a collapsed one, without an update only those of them that have children. After an update, without
aggregation, the shown rows account for every process except dead ones below a collapsed one and what is below
those, so nothing is lost if and only if these have nothing to lose. With `proc_aggregate` a process shows the total
of its subtree except what a dead process severs from it; but a walk without an update adds the children once more
(`PairCountedTwice`), and `AggregateStaysIff` says exactly when that does not show. Sorted, every sibling list rises
or falls in the chosen field with equal siblings in list order, and whatever stands directly below a process is its
child. Numbering gives the shown rows 0, 1, 2, ... in tree order. In `tree_sort` the recursive call passes its
boolean in the place of `index_max` (src/btop_shared.cpp:288), so every hidden row gets the number 1 and not the
list's size, and the final sort puts all of them beside the second shown row; the shown rows still come out as the
trees list them. `soa_sort` under a display limit leaves moved-from husks behind (`LimitLosesRow`): the list is sure
to keep all rows if and only if each of the first rows is better than every row behind them, and can keep them all,
if ties fall that way, if and only if none behind is better.

**Stores** (`RingBuffers`, `ConfigFiles`, `ConfigRoundTrips`, `ConfigLocks`) and **layout** (`Layouts`). A ring
buffer is a bounded list. A printed configuration file is read back in full if and only if no string holds a quote,
no number is negative and every value passes its check. While the configuration is locked readers see the frozen
values; unlocking carries out all writes in order. The boxes divide the screen exactly, except when cpu and mem are
shown without net on fewer than 22 lines, where they overlap although the size is accepted.

The comment at src/btop_draw.hpp:113 says `clear_current` resets the cells to their default; the code copies the
previous frame, and so does the model.

Where the source works in place, so does the model: `ScreenBuffer`, `EventQueue`, `TextEdit`, `Graph`, `RingBuffer`,
both `Config` classes and `Screen` are classes, and the list algorithms work on arrays. Each method is proved
against a function, and the theorems are about that function. `Arithmetic` and `Collections` hold what several
models share.

## Model

| member | source | states |
|---|---|---|
| Cells.PackIsPositional | src/btop_draw.cpp:299-302 | or-ing a marker and three byte components into a word keeps them in disjoint positions |
| Cells.UnpackPack | src/btop_draw.cpp:401-406 | the components the emitter extracts from a truecolour word rebuild that word |
| Tokens.StepToken | src/btop_draw.cpp:158-387 | one step of the interpreter consumes exactly one complete token, whatever follows, and does what the token means |
| Tokens.RunText | src/btop_draw.cpp:158-387 | interpreting printed tokens is applying them one after another, whatever bytes follow |
| Tokens.ParamsRoundTrip | src/btop_draw.cpp:167-197 | reading parameters printed in decimal with semicolons gives the parameters back |
| Emitter.ColourReadBack | src/btop_draw.cpp:394-436 | an emitted colour, read back, sets exactly that colour and nothing else, for default, palette and truecolour |
| Emitter.AttrsReadBack | src/btop_draw.cpp:438-458 | what the terminal's attributes become under the emitted attribute codes, for every pen and every pair of attribute sets |
| Emitter.MoveReadBack | src/btop_draw.cpp:477-484 | omitting or printing a cursor move leaves the terminal's cursor on the cell to be printed |
| Emitter.PenReadBack | src/btop_draw.cpp:486-502 | after the pen codes the terminal's colours are the cell's, given that they were those last emitted |
| Emitter.CellReadBack | src/btop_draw.cpp:476-508 | printing one cell puts its character and colours into that cell of the terminal and keeps emitter and terminal in step |
| Fidelity.EmitMeaning | src/btop_draw.cpp:470-510 | the tokens of a redraw change the terminal's cells as painting the changed cells does, from any position on |
| Fidelity.RunEmit | src/btop_draw.cpp:463-512 | interpreting the emitted bytes on a terminal with any cursor and pen paints the changed cells |
| Fidelity.RedrawShowsCurrent | src/btop_draw.cpp:463-512 | a terminal that looks like the base grid looks like the current grid afterwards, in every cell |
| Fidelity.OpensExactly | src/btop_draw.cpp:438-458 | which attribute sets the first emitted cell gets right, starting from the seed UINT8_MAX: exact condition on the pen |
| Fidelity.FollowsExactly | src/btop_draw.cpp:438-458 | which transitions between attribute sets come out right: exact condition on bold and dim |
| Fidelity.PaintedExactly | src/btop_draw.cpp:487-490 | later cells are reproduced with attributes exactly when all transitions between changed cells come out right |
| Fidelity.FirstPaintedExactly | src/btop_draw.cpp:467-490 | the same from the first changed cell on, including the seed |
| Fidelity.RedrawIsExactIff | src/btop_draw.cpp:463-567 | a redraw reproduces characters, colours and attributes if and only if the changed cells' attributes are expressible |
| Fidelity.BoldIsLost | src/btop_draw.cpp:469-490 | a single bold cell on a blank screen is not reproduced |
| Fidelity.SilentIffEqual | src/btop_draw.cpp:463-512 | nothing is printed if and only if the grids are equal |
| Fidelity.SamePenIsBare | src/btop_draw.cpp:476-505 | a changed cell right behind one just printed with its colours and attributes costs its character and no other byte |
| ScreenBuffers.ScreenBuffer.constructor | src/btop_draw.hpp:94-99 | a new buffer is empty and will be drawn in full |
| ScreenBuffers.ScreenBuffer.Resize | src/btop_draw.cpp:75-86 | both grids become blank, of the new size, and the next frame is a full one |
| ScreenBuffers.ScreenBuffer.Swap | src/btop_draw.cpp:88-90 | exchanges the two grids and changes nothing else |
| ScreenBuffers.ScreenBuffer.ClearCurrent | src/btop_draw.cpp:92-97 | the current grid becomes a copy of the previous one |
| ScreenBuffers.ScreenBuffer.RenderToBuffer | src/btop_draw.cpp:149-389 | the byte loop, in place, does to the grid what the interpreter does, from the home position with the baseline pen |
| ScreenBuffers.ScreenBuffer.DiffAndEmit | src/btop_draw.cpp:463-512 | prints the tokens that lead from the previous grid to the current one |
| ScreenBuffers.ScreenBuffer.FullEmit | src/btop_draw.cpp:516-567 | prints the tokens that lead from a blank screen to the current grid |
| ScreenBuffers.EmitChanged | src/btop_draw.cpp:470-511 | the row and column loops print exactly the specified token text |
| ScreenBuffers.EmitColor | src/btop_draw.cpp:394-436 | appends the bytes of the control sequence for a colour |
| ScreenBuffers.EmitAttrs | src/btop_draw.cpp:438-458 | appends the codes for the changed attribute bits, in bit order |
| ScreenBuffers.ReadControl | src/btop_draw.cpp:159-358 | consumes a control sequence as one step of the interpreter does, private and truncated ones included |
| ScreenBuffers.ReadParams | src/btop_draw.cpp:167-197 | the digit and semicolon loop reads the specified parameters |
| ScreenBuffers.SelectRendition | src/btop_draw.cpp:249-353 | the parameter loop changes the pen as specified, colours with operands included |
| CursorLaws.AbsoluteIsRelative | src/btop_draw.cpp:207-234 | an absolute move has the effect of the move home and then moves down and to the right, whatever follows |
| CursorLaws.MovesUndo | src/btop_draw.cpp:217-240 | up undoes down and left undoes right, by any distance and in both orders |
| CursorLaws.CharacterLands | src/btop_draw.cpp:207-386 | a character after an absolute move goes to that row and column, counted from 1, with the pen's colours and attributes, and off the grid to none |
| CursorLaws.LineFeedLaw | src/btop_draw.cpp:359-361 | a line break goes to the start of the next row |
| CursorLaws.ReturnLaw | src/btop_draw.cpp:362-364 | a carriage return goes to the start of the row |
| CursorLaws.PositionDefaults | src/btop_draw.cpp:208-216 | a missing row or column is 1, and the final bytes `H` and `f` are the same |
| CursorLaws.DistanceDefaults | src/btop_draw.cpp:217-240 | a missing or zero distance is 1 |
| CursorLaws.SkippedSequences | src/btop_draw.cpp:241-248 | erasing, saving and restoring sequences do nothing to a buffer |
| CursorLaws.BasicForeground | src/btop_draw.cpp:336-345 | the basic and bright foreground codes select the first sixteen palette colours |
| CursorLaws.BasicBackground | src/btop_draw.cpp:340-348 | so do the background codes |
| CursorLaws.ColoursAreApart | src/btop_draw.cpp:295-334 | a foreground code changes the foreground only and a background code the background only; one number is one colour in both, and 39 and 49 take it back |
| CursorLaws.AttributeOn | src/btop_draw.cpp:268-279 | each of the codes 3, 4, 5 and 9 sets one bit of its own |
| CursorLaws.AttributeOff | src/btop_draw.cpp:283-294 | each of the codes 23, 24, 25 and 29 clears the same bit and no other |
| CursorLaws.BoldAndDim | src/btop_draw.cpp:262-282 | bold and dim have a bit each and are switched off together |
| CursorLaws.Resets | src/btop_draw.cpp:251-261 | a reset, with or without its parameter, leaves default colours and no attributes |
| CodePoints.OneCell | src/btop_draw.cpp:366-386 | every encoded code point but the three control characters the interpreter looks for is one token and takes one cell |
| Rendering.StepKeepsWellFormed | src/btop_draw.cpp:158-387 | one step on renderable input keeps every cell and the pen printable |
| Rendering.RenderKeepsWellFormed | src/btop_draw.cpp:149-389 | rendering any renderable string keeps every cell printable, so its output always meets the emitters' needs |
| Rendering.LoneEscapeIsStored | src/btop_draw.cpp:365-386 | an escape byte outside a control sequence is stored as a character the emitters cannot print back |
| Rendering.RunKeepsAttrs | src/btop_draw.cpp:249-353 | attributes stay within the six known bits under any input |
| Rendering.RunKeepsWords | src/btop_draw.cpp:249-353 | under any input, colours stay 32-bit words, which is all the emitters' loops ask for |
| Uncoloring.Uncolor | src/btop_tools.cpp:201-221 | the loop returns the specified uncoloured string for every input |
| Uncoloring.UncolouredText | src/btop_tools.cpp:201-221 | on a text of complete tokens, exactly the colour tokens disappear |
| Uncoloring.UncolouringMakesColour | src/btop_tools.cpp:201-221 | outside such texts the bytes around a dropped sequence can join up into a colour sequence |
| Uncoloring.UncolourRendersPlainly | src/btop_tools.cpp:201-221 | rendering the uncoloured text writes the same characters to the same cells, and every written cell carries the starting pen |
| Uncoloring.TokensRenderable | src/btop_draw.cpp:149-389 | texts of complete tokens with byte-sized colour operands are renderable |
| Uncoloring.UncolouredRenderable | src/btop_tools.cpp:201-221 | what uncolouring leaves is renderable whatever the colours were |
| Frames.DrawFrame | src/btop.cpp:767-880 | for any texts, one cycle renders, prints difference or full redraw, clears the flag and swaps; states the bytes and the new buffer |
| Frames.RenderTexts | src/btop.cpp:832-845 | renders the texts in the specified order; `OverlayOnTop`, `OutputAlone` and `OverlayAlone` say what the cells hold then |
| FrameContents.OutputAlone | src/btop.cpp:831-833 | without an overlay the grid is the previous one with the output rendered over it |
| FrameContents.OverlayAlone | src/btop.cpp:834-845 | without an output it is the previous one with the overlay rendered over it |
| FrameContents.OverlayOnTop | src/btop.cpp:831-845 | with both, made of complete tokens: a cell the overlay writes has the character and pen that the overlay gives it, a cell only the output writes has the output's character in the inactive colour, and every other cell is the previous grid's |
| FrameContents.BracketBytes | src/btop.cpp:856-876 | the exact bytes around the printed cells, for frames with and without synchronisation and clearing |
| Frames.RenderAllKeepsWords | src/btop.cpp:832-845 | whatever the texts, the rendered grid's colours stay 32-bit words |
| Frames.NextIsWellFormed | src/btop.cpp:830-845 | each frame's grid is printable if its texts are renderable |
| Frames.PrefixMeaning | src/btop.cpp:858-869 | synchronisation brackets change nothing; clearing blanks the terminal and keeps the pen |
| Frames.FrameOnTerminal | src/btop.cpp:847-877 | a frame's bytes paint the next grid over the base the emitter assumed |
| Frames.DrawnKeepsConsistent | src/btop.cpp:828-880 | one frame makes terminal and previous grid agree, from any consistent state |
| Frames.EveryFrameIsShown | src/btop.cpp:828-880 | after any run of resizes and frames ending with a frame, the terminal shows the characters and colours just rendered |
| FrameContents.ForcedFrameShows | src/btop.cpp:847-877 | a forced frame is shown whatever the terminal showed before |
| FrameContents.UnforcedFrameSpares | src/btop.cpp:847-877 | any other frame leaves each cell of the terminal alone that did not change |
| Frames.FrameIsExactIff | src/btop.cpp:828-880 | a frame keeps terminal and grid equal in every respect if and only if its attribute changes are expressible |
| Frames.ExpressibleRunsAreExact | src/btop.cpp:828-880 | runs of expressible frames never lose an attribute |
| EventQueues.MaskIsRemainder | src/btop_events.hpp:90-99 | masking with a power of two less one is the remainder |
| EventQueues.WrapKeepsSlot | src/btop_events.hpp:99-110 | counter wrap-around does not move slots |
| EventQueues.WrappedDifference | src/btop_events.hpp:98 | the unsigned difference of wrapped counters is the difference of the counts |
| EventQueues.StoreKeepsInv | src/btop_events.hpp:98-99 | the full test and the slot store keep the queue's invariant and decide acceptance by the number of items seen |
| EventQueues.TakeReads | src/btop_events.hpp:109-110 | the empty test decides by the number of items seen, and the slot read holds the oldest item |
| EventQueues.StepKeepsInv | src/btop_events.hpp:95-113 | every atomic step of either side keeps the invariant, whatever the other side is doing |
| EventQueues.PoppedIsPrefixOfPushed | src/btop_events.hpp:95-113 | under every interleaving popped events are a prefix of pushed events and at most the capacity is held |
| EventQueues.RefusalsAreJustified | src/btop_events.hpp:95-113 | every refused push saw a full queue when it loaded the tail, every missed pop an empty one when it loaded the head |
| EventQueues.EmptyAnswersAreRight | src/btop_events.hpp:116-119 | under every interleaving, `empty()` asked by the consumer says yes exactly if the queue was empty when the head was loaded |
| EventQueues.LiveSlotsAreSpared | src/btop_events.hpp:99 | no step changes the slot of an item that is in the queue |
| EventQueues.SoloPush | src/btop_events.hpp:95-102 | an uninterrupted push is one item in or one refusal |
| EventQueues.SoloPop | src/btop_events.hpp:106-113 | an uninterrupted pop is one item out or one miss |
| EventQueues.SoloEmpty | src/btop_events.hpp:116-119 | an uninterrupted question is answered yes exactly when everything pushed has been popped |
| EventQueues.EventQueue.Push | src/btop_events.hpp:95-102 | accepts exactly when there is room, and does the four steps of the machine |
| EventQueues.EventQueue.TryPop | src/btop_events.hpp:106-113 | returns the oldest event, or nothing exactly when there is none |
| EventQueues.EventQueue.Empty | src/btop_events.hpp:116-119 | does the two loads of the machine; true exactly when everything pushed has been popped |
| Utf8.Uresize | src/btop_tools.cpp:278-307 | the loop keeps the bytes before the lead byte of the next character |
| Utf8.Luresize | src/btop_tools.cpp:309-327 | the backward loop keeps the bytes from the lead byte found |
| Utf8.HeadOfJoin | src/btop_tools.cpp:278-307 | `uresize` of joined characters is the join of the first ones |
| Utf8.TailOfJoin | src/btop_tools.cpp:309-327 | `luresize` of joined characters is the join of the last ones |
| Utf8.JoinInjective | src/btop_tools.cpp:278-327 | bytes determine the characters they are made of |
| CodePoints.OneCharacter | src/btop_tools.cpp:278-327 | an encoded code point is one character to the text functions |
| CodePoints.CodePointsCounted | src/btop_tools.cpp:278-327 | `ulen` counts the code points of an encoded text, `uresize` keeps the first n and `luresize` the last n |
| TextEditing.CursorSplitsText | src/btop_draw.cpp:652-655 | the byte cursor is the offset of the character cursor and splits the text there |
| TextEditing.TextEdit.constructor | src/btop_draw.cpp:652-655 | the cursor starts behind the last character of the text, whose bytes are split into characters at its lead bytes |
| TextEditing.TextEdit.Command | src/btop_draw.cpp:657-709 | for every key that can be taken in, the buffer with its two cursors does what a list of characters does, and reports whether the key was used |
| TextEditing.TextEdit.BackspaceInside | src/btop_draw.cpp:678-682 | removes the character before the cursor in the middle of the text |
| TextEditing.TextEdit.BackspaceAtEnd | src/btop_draw.cpp:674-677 | removes the last character |
| TextEditing.TextEdit.Delete | src/btop_draw.cpp:684-687 | removes the character behind the cursor |
| TextEditing.TextEdit.InsertChar | src/btop_draw.cpp:688-704 | inserts a character of any length and steps over it; continuation bytes in front of it join the character before the cursor |
| TextEditing.InsertIsUndone | src/btop_draw.cpp:657-709 | typing a character and taking it back, by backspace or by left and delete, restores text and cursor |
| TextEditing.HomeThenRight | src/btop_draw.cpp:662-672 | home and then right k times stands before character k, and right all the way is end, from any cursor |
| TextEditing.LeftUndoesRight | src/btop_draw.cpp:658-665 | left takes back right and right takes back left |
| TextEditing.MovingKeepsText | src/btop_draw.cpp:658-672 | runs of the four moving keys change no character |
| TextEditing.UsedIff | src/btop_draw.cpp:657-709 | a key is reported as used if and only if it changed the text or the cursor |
| TextEditing.NumericStaysNumeric | src/btop_draw.cpp:688-696 | no run of keys puts anything but digits into a numeric field |
| TextEditing.KeyNames | src/btop_draw.cpp:658-688 | the names the keys are compared with |
| TextEditing.ClearStrandsCursor | src/btop_draw.cpp:747-749 | after `clear()` the cursors fit the text if and only if the cursor was at the start |
| TextEditing.ClearedFieldStrands | src/btop_draw.cpp:747-749 | a field with one character, cleared, is left with cursors that fit no text |
| TextEditing.StrayKeyIff | src/btop_draw.cpp:688-704 | text and cursors stay in step when a one-character key is put in, if and only if it starts with a lead byte or a character stands before the cursor |
| TextEditing.StrayKeyStrands | src/btop_draw.cpp:688-704 | a continuation byte and a letter, typed into an empty field, leave cursors that do not fit |
| TextEditing.NewFieldIff | src/btop_draw.cpp:652-655 | the cursors of a new field fit its text if and only if that is empty or starts with a lead byte |
| Graphs.DropsOneGlyph | src/btop_draw.cpp:1009-1016 | the bytes erased are exactly the leftmost glyph, coloured, blank or plain |
| Graphs.UpdateTracks | src/btop_draw.cpp:1007-1018 | one update extends the history a graph displays by one sample |
| Graphs.PopulateMeaning | src/btop_draw.cpp:905-945 | the horizontal loop fills the two sets with the pairs of their parity |
| Graphs.FreshShows | src/btop_draw.cpp:964-992 | a new graph displays its newest samples, padded on the left, for every length of history |
| Graphs.FreshHides | src/btop_draw.cpp:964-992 | what a new graph hides, including the one glyph that differs |
| Graphs.FreshTracks | src/btop_draw.cpp:964-992 | a new graph on a long enough history is ready for updates |
| Graphs.TracksDetermineRows | src/btop_draw.cpp:948-958 | graphs that track the same history print the same bytes |
| Graphs.IncrementalIsFresh | src/btop_draw.cpp:994-1019 | feeding samples one at a time displays what a graph built from scratch on all drawn samples displays |
| Graphs.HiddenIsFresh | src/btop_draw.cpp:994-1019 | the hidden rows agree as well, except perhaps in the first glyph |
| Graphs.ShortHistoryDiffers | src/btop_draw.cpp:924-990 | with `no_zero` on a shorter history the very next sample shows a difference |
| Graphs.IncrementalIsFreshIff | src/btop_draw.cpp:894-1019 | updating equals rebuilding for all further samples if and only if the history is empty or long enough, or `no_zero` is off |
| Graphs.DistinctHistoryIsDrawn | src/btop_draw.cpp:997-1005 | every sample is drawn if and only if none repeats the one before it |
| GraphRepeats.RowsAgreeIff | src/btop_draw.cpp:948-958 | two sets of columns print the same rows if and only if they agree glyph by glyph |
| GraphRepeats.WholeHistoryIff | src/btop_draw.cpp:994-1019 | after any run of updates the graph shows the whole history, repeats included, if and only if the newest drawn samples look like the newest samples |
| GraphRepeats.SkippedIsRightIff | src/btop_draw.cpp:997-1005 | a skipped update leaves the right picture if and only if moving every column on by one sample changes no glyph |
| GraphRepeats.DistinctRunsAreRight | src/btop_draw.cpp:997-1005 | when no sample repeats, the whole history is shown |
| GraphRepeats.SkippedIsWrong | src/btop_draw.cpp:997-1005 | after 0 and 1, a second 1 is skipped and the picture differs from that of a new graph |
| Graphs.Graph.constructor | src/btop_draw.cpp:964-992 | the byte rows of a new graph are those of its glyphs |
| Graphs.Graph.Create | src/btop_draw.cpp:894-960 | the loop appends the bytes of the specified pairs and prints the current set |
| Graphs.Graph.Turn | src/btop_draw.cpp:1007-1016 | switches sets and drops one glyph from every row |
| Graphs.Graph.Update | src/btop_draw.cpp:994-1019 | draws a new sample, returns the old output when told the data is the same or the newest value repeats, and draws a zero pair for an empty list |
| GraphValues.ScaledShows | src/btop_draw.cpp:915 | a sample shows the whole percentage of the maximum that it reaches, 0 below the range and 100 above it, and itself without a maximum |
| GraphValues.ScaledGrows | src/btop_draw.cpp:915 | a higher sample never shows less |
| GraphValues.DisplayShows | src/btop_draw.cpp:905-945 | counted from the right, column k shows the samples 2k and 2k + 1 before the newest one, each by its percentage |
| GraphValues.FreshShowsSamples | src/btop_draw.cpp:894-992 | so does every column of a new graph, for every history |
| GraphValues.UpdateShows | src/btop_draw.cpp:994-1019 | an update's newest column shows the new sample beside the one remembered |
| GraphValues.CreatedShows | src/btop_draw.cpp:894-946 | whatever is read, the last column shows the newest sample |
| GraphValues.ColumnsRise | src/btop_draw.cpp:918-943 | of two columns the one with the higher sample is never drawn lower, each sample in its own half |
| GraphValues.HigherIsNoLower | src/btop_draw.cpp:918-943 | the same for the newest column of an update |
| GraphValues.ColumnColour | src/btop_draw.cpp:936-939 | in a one-row graph a column has the colour of the higher of its two percentages |
| GraphLevels.LevelGrows | src/btop_draw.cpp:919-933 | in real arithmetic: a higher percentage reaches at least the same level, in graphs of every height |
| GraphLevels.ColumnIsSolid | src/btop_draw.cpp:919-933 | below a row that a percentage reaches into, every row is full |
| GraphLevels.HundredIsFull | src/btop_draw.cpp:919-933 | 100 fills every row |
| GraphLevels.ZeroIsEmptyIff | src/btop_draw.cpp:919-933 | 0 is drawn as low as each row allows if and only if the graph has at most 200 rows |
| GraphLevels.LevelsAreValid | src/btop_draw.cpp:919-933 | up to that height these levels are what the results about graphs ask for |
| GraphPictures.PictureOfRows | src/btop_draw.cpp:948-959 | interpreting the output of a graph of several rows fills the rectangle at the cursor, column by column and line by line, an inverted one upside down, each line in its shade of the gradient; no other cell changes |
| GraphPictures.PictureOfOneRow | src/btop_draw.cpp:936-947 | interpreting a one-row graph draws its columns from the cursor on, a column that draws nothing leaves its cell as it was, and no other cell changes |
| GraphPictures.TruecolourTints | src/btop_draw.cpp:295-304 | a truecolour sequence sets the text colour and nothing else, as the pictures ask of gradients |
| ProcTree.LowerBound | src/btop_shared.cpp:351 | binary search over the parent ids finds where a parent's children start |
| ProcTree.ChildRange | src/btop_shared.cpp:351 | the range found holds exactly the children of a process |
| ProcTree.SiblingsDisjoint | src/btop_shared.cpp:351-356 | no process lies below two siblings |
| ProcRanks.RanksExistIff | src/btop_shared.cpp:350-356 | the ranks on which the recursion descends exist if and only if no process is its own ancestor |
| ProcTree.TakeOver | src/btop_shared.cpp:358-374 | on an update a folded child is hidden and counted; the amounts of a living child are taken over then, and always with aggregation |
| ProcTree.VisitChild | src/btop_shared.cpp:351-374 | one turn of the child loop keeps the state of the walk, in every mode |
| ProcTree.TreeGen | src/btop_shared.cpp:313-376 | the recursion terminates, builds the tree of a process, and leaves amounts, depth, slot and hidden marks as specified, with and without an update, aggregation and dead processes; nothing outside the subtree changes |
| ProcTreeFacts.HiddenBelow | src/btop_shared.cpp:351-368 | in a walked subtree a row is hidden exactly when something between it and the root is collapsed and, without an update, it has children |
| ProcTreeFacts.SubtreeHidden | src/btop_shared.cpp:351-368 | after an update the hidden rows of a walked subtree are those counted |
| ProcAmounts.SubtreeShows | src/btop_shared.cpp:358-368 | after an update the shown rows of a walked subtree carry what is kept of its amounts, and a folded subtree shows nothing |
| ProcAmounts.KeptIsSum | src/btop_shared.cpp:358-368 | what is kept of a subtree is the sum over its processes that are not dropped |
| ProcTreeFacts.GenerateTrees | src/linux/btop_collect.cpp:3552-3555 | all roots are walked, and the number found is the number of hidden rows, or 0 without an update |
| ProcTreeFacts.TreesHoldAll | src/btop_shared.cpp:313-376 | the trees hold every process exactly once |
| ProcFamilies.DepthIsLevel | src/btop_shared.cpp:331-356 | a process is as deep as it has ancestors |
| ProcFamilies.SortedFamilies | src/btop_shared.cpp:265-376 | walked and sorted, whatever stands directly below a process is its child, and at the top stand the roots |
| ProcAmounts.ShownAreKept | src/btop_shared.cpp:358-368 | after an update the sum of memory, threads or cpu over shown rows is the sum over all processes that are not dropped, that is dead and below a collapsed one, or below such a process |
| ProcAmounts.NothingIsLostIff | src/btop_shared.cpp:358-368 | nothing is lost if and only if no dropped process has any amount |
| ProcAmounts.NothingIsLost | src/btop_shared.cpp:358-368 | with no dead process below a collapsed one, the shown rows add up to all processes |
| ProcTotals.ReorderedRemain | src/btop_shared.cpp:358-368 | in the final list the shown rows add up to the processes that are not dropped, in memory, threads and both cpu fields at once |
| ProcTotals.WholeListIsShown | src/btop_shared.cpp:358-368 | with no dead process below a collapsed one, these four totals are those of the whole list |
| ProcessViews.DeadChildIsLost | src/btop_shared.cpp:358-364 | a collapsed process with a dead child: the child's memory is shown nowhere |
| ProcAmounts.AggregateTotals | src/btop_shared.cpp:358-374 | with aggregation a process shows the total of its subtree, collapsed or not, except what a dead process severs from it |
| ProcTotals.SubtreeTotals | src/btop_shared.cpp:358-374 | with aggregation all four fields of a process are the totals of its subtree, less what dead processes sever |
| ProcTotals.FieldsStay | src/btop_shared.cpp:358-374 | without an update and without aggregation all four fields stay |
| ProcAmounts.AggregateStaysIff | src/btop_shared.cpp:369-374 | a walk with aggregation leaves all amounts alone if and only if no living process with a parent has any |
| ProcessViews.PairCountedTwice | src/btop_shared.cpp:369-374 | with aggregation, a walk without an update counts a child again |
| ProcAmounts.AmountsStay | src/btop_shared.cpp:358-374 | without an update and without aggregation every process keeps its amounts |
| ProcTreeFacts.HiddenExactly | src/btop_shared.cpp:351-368 | a process is hidden if and only if a proper ancestor is collapsed and, without an update, it has children |
| TreeSorting.SortContract | src/btop_shared.cpp:266-283 | the sibling sort orders by the chosen amount and permutes |
| TreeSorting.SortIsStable | src/btop_shared.cpp:266-283 | siblings that tie keep their order |
| TreeSorting.SortedLevels | src/btop_shared.cpp:265-291 | in every sibling list at every level the chosen field rises or falls as asked, for each of the four fields |
| TreeSorting.UnsortedStays | src/btop_shared.cpp:266 | a paused list and an unknown order leave all siblings as they stand |
| ProcFamilies.SortedStable | src/btop_shared.cpp:265-291 | siblings equal in that field stay in list order, at every level |
| TreeSorting.SortKeepsRows | src/btop_shared.cpp:265-291 | sorting all levels keeps all rows |
| TreeSorting.TreeSort | src/btop_shared.cpp:265-291 | sorts every level by the chosen field, changes nothing but row numbers, numbers the shown rows consecutively in tree order, and gives hidden rows what the recursion passes as `index_max` |
| TreeSorting.NumberRow | src/btop_shared.cpp:286-289 | one row and its subtree: the next number if shown, `index_max` if hidden, and the boolean passed on below |
| TreeSorting.WalkedNested | src/btop_shared.cpp:351-368 | the walk hides a row only below one that is collapsed or hidden itself |
| TreeSorting.ParkedAtOne | src/btop_shared.cpp:286-288 | below the root of such a tree, every hidden row is given exactly 1 |
| ProcessViews.NumberedMeans | src/btop_shared.cpp:285-287 | consecutive numbering gives the j-th shown row the number j and counts the shown rows |
| ProcessViews.HiddenGetOne | src/btop_shared.cpp:285-290 | after walk and numbering every hidden row has the number 1, whatever the size of the list |
| ProcessViews.SizeOnlyIfNoneHidden | src/btop_shared.cpp:285-290 | the hidden rows get the list's size if and only if there are none |
| ProcessViews.PairIsNumbered | src/btop_shared.cpp:285-290 | a collapsed process and its child: the hidden child gets 1, where the size is 2 and the only shown row has 0 |
| ProcessViews.PairWithoutUpdate | src/btop_shared.cpp:351-368 | without an update that child stays shown |
| ProcessViews.ReorderedShows | src/linux/btop_collect.cpp:3566-3567 | in the list sorted by number the shown rows are those of the trees from top to bottom |
| ProcessViews.HiddenBesideSecond | src/linux/btop_collect.cpp:3566-3567 | all hidden rows end up in one block with the second shown row, right behind the first |
| ProcessViews.ArrangeTree | src/linux/btop_collect.cpp:3552-3567 | walk, sort, numbering and reordering together, in every mode: hidden exactly below collapsed, amounts as above, children below their parents with equal siblings in list order, depth the number of ancestors, shown rows numbered 0 to V-1 with V = processes less those found, and listed in tree order at the end |
| LazySorting.Promote | src/btop_shared.cpp:247-262 | the in-place loop leaves what the sorted list is promoted to, as `LazyMeaning` says it by usage and position |
| LazySorting.Rotate | src/btop_shared.cpp:258 | rotating moves one entry down and shifts those between |
| LazySorting.LazyIsPermutation | src/btop_shared.cpp:247-262 | nothing is lost or doubled, and fewer than eleven are promoted only if the whole list was scanned |
| LazySorting.LazyMeaning | src/btop_shared.cpp:247-262 | by usage and position alone: the run above 30 stays in front; behind it come at most eleven that overtake, the last one first, then all others in order; one of the first six overtakes above 30, a later one above all of the first six if one of these is above 30 and otherwise above 10 |
| SoaSorting.SoaSort | src/btop_shared.cpp:108-139 | the in-place permutation through the index list, with what it leaves behind the front |
| SoaSorting.FrontIsBest | src/btop_shared.cpp:122-138 | the front holds a best selection of the input, in order, with no better row left out |
| SoaSorting.UnlimitedSortsAll | src/btop_shared.cpp:108-139 | without an effective limit the result is a sorted permutation |
| SoaSorting.SortsByKey | src/btop_shared.cpp:116-139 | without a limit, with a negative one, or with one that covers the list, everything is sorted by key, rising or falling as asked |
| SoaSorting.LimitSortsByKey | src/btop_shared.cpp:116-138 | any other limit brings that many rows to the front by key, and no row left out belongs before one of them |
| SoaSorting.LimitKeepsRowsIff | src/btop_shared.cpp:130-138 | for the order the library chose, the list keeps all its rows if and only if the chosen rows were in front before |
| SoaSorting.AlwaysKeptIff | src/btop_shared.cpp:116-138 | ties included, the list keeps all its rows whatever the library chooses, if and only if each of the first n rows is better than every row behind them |
| SoaSorting.SometimesKeptIff | src/btop_shared.cpp:116-138 | the library can choose so that the list keeps all its rows, if and only if no row behind the first n is better than one of them |
| SoaSorting.LimitLosesRow | src/btop_shared.cpp:116-138 | two rows in the wrong order with limit one: the first is lost and the second doubled |
| SoaSorting.LimitKeepsRowsWhenSorted | src/btop_shared.cpp:118-138 | for distinct keys both conditions are the same and the library has no choice |
| RingBuffers.RingBuffer.PushBack | src/btop_shared.hpp:257-267 | appends to the list, dropping the oldest when full; nothing at capacity zero |
| RingBuffers.RingBuffer.PopFront | src/btop_shared.hpp:269-273 | drops the oldest item, if any |
| RingBuffers.RingBuffer.SetCapacity | src/btop_shared.hpp:280-300 | keeps the newest items that fit |
| RingBuffers.RingBuffer.Copy | src/btop_shared.hpp:170-178 | a copy stands for the same list and shares no storage |
| RingBuffers.RingBuffer.Get | src/btop_shared.hpp:223-227 | the i-th item of the list; positions behind the last item wrap around the storage |
| RingBuffers.RingBuffer.Back | src/btop_shared.hpp:245-249 | the newest item |
| RingBuffers.HoldsNewest | src/btop_shared.hpp:257-300 | after any run the buffer is a suffix of everything ever pushed |
| RingBuffers.PushesFill | src/btop_shared.hpp:257-267 | pushes alone keep as many of the newest items as fit |
| RingBuffers.StepMeaning | src/btop_shared.hpp:257-300 | what each operation does to the list: in at the back, out at the front, the oldest dropped when there is no room |
| RingBuffers.FirstInFirstOut | src/btop_shared.hpp:257-273 | items come out in the order they went in |
| ConfigFiles.Config.Load | src/btop_config.cpp:817-875 | the stream loop reads settings and warnings as specified, and says whether the file is to be written again |
| ConfigFiles.Config.CurrentConfig | src/btop_config.cpp:918-941 | the printed file: title, comments and one assignment per described setting |
| ConfigRoundTrips.LoadEntry | src/btop_config.cpp:826-871 | the printed lines of one setting, read back, do to the settings what the value says and leave the reader at the next line, or in the remains of a broken string |
| ConfigRoundTrips.InStep | src/btop_config.cpp:826-871 | as long as no string is broken, every setting is read from its own line |
| ConfigRoundTrips.NeverBreaks | src/btop_config.cpp:858-868 | whatever follows, no string read holds both a quote and a line break |
| ConfigRoundTrips.BrokenSpoils | src/btop_config.cpp:858-871 | a string with a quote and a later line break is not read back, whatever its remains make of the rest of the file |
| ConfigRoundTrips.RestoredIff | src/btop_config.cpp:805-941 | reading a printed file over any settings restores every described setting without a warning if and only if no string holds a quote, no number is negative and all pass their checks |
| ConfigRoundTrips.OthersStay | src/btop_config.cpp:805-875 | such a file changes no other setting and does not ask to be written again |
| ConfigRoundTrips.FlagWords | src/btop_config.cpp:843-848 | a line with `True` or `true` turns a flag on, one with `False` or `false` off; any other word only gives a warning |
| ConfigRoundTrips.NumberWords | src/btop_config.cpp:850-857 | a number below 2^31 is taken, for the update time only one from 100 milliseconds to a day; otherwise the setting stays and a warning is given |
| ConfigRoundTrips.NotANumber | src/btop_config.cpp:850-853 | a word with anything but digits is no number, a sign included |
| ConfigRoundTrips.BareText | src/btop_config.cpp:858-868 | a string without quotes is the word up to the next space, if its setting accepts it |
| ConfigRoundTrips.QuotedText | src/btop_config.cpp:858-868 | a string between quotes is what stands between them, spaces and line breaks included |
| ConfigLocks.Config.Flip | src/btop_config.cpp:688-697 | flips the value, or the waiting value while locked |
| ConfigLocks.Config.Unlock | src/btop_config.cpp:723-763 | takes the selection if the list is shown, moves all waiting writes over it, and unlocks |
| ConfigLocks.Commit | src/btop_config.cpp:736-755 | waiting writes of one kind replace the values and are gone |
| ConfigLocks.WaitingWrite | src/btop_config.cpp:670-697 | a waiting write is a write to the merged configuration |
| ConfigLocks.RunRefines | src/btop_config.cpp:544-763 | in every run of writes, locks and unlocks readers see frozen values while locked, and all writes carried out in order after the unlock |
| ConfigLocks.LockedBatch | src/btop_config.cpp:670-763 | one locked stretch changes nothing for readers until the unlock carries out all writes at once |
| ConfigLocks.LastWriteShows | src/btop_config.cpp:670-697 | after any writes in order, a write that no later one overwrites shows: the value set, or the flag turned over |
| ConfigLocks.SelectionYields | src/btop_config.cpp:728-734 | the five selection keys take the process list's values only when it is shown and no write to them waits; all other keys are as if written directly |
| Layouts.Screen.CalcSizes | src/btop_draw.cpp:2899-3201 | the boxes placed one after another are the specified ones and divide the screen except in the crowded case |
| Layouts.Nearest | src/btop_draw.cpp:3087 | a percentage rounded to the nearest whole number |
| Layouts.Divides | src/btop_draw.cpp:2976-3196 | every place of the screen lies in exactly one shown box and none reaches beyond it |
| Layouts.Overlaps | src/btop_draw.cpp:2976-3103 | cpu and mem without net on fewer than 22 lines do not divide the screen |
| Layouts.PartitionIff | src/btop_draw.cpp:2976-3196 | on accepted terminals the boxes divide the screen if and only if it is not that case |
| Layouts.SidesAsAsked | src/btop_draw.cpp:2978-3196 | exactly the shown boxes have room, and each stands on the side the options ask for |
| Layouts.SharesOfHeight | src/btop_draw.cpp:2967-3191 | cpu has 32 in a hundred lines, rounded up and at least 8, or all of them alone; mem 40, 68 or 72 beside cpu and net, cpu, or net; net what mem leaves, which is 28; proc all but cpu's |
| Layouts.SharesOfWidth | src/btop_draw.cpp:2967-3191 | mem and net have 45 in a hundred columns beside proc, rounded to the nearest, and proc the rest; otherwise each has the whole width |
| Layouts.SmallestTerminals | src/btop_tools.cpp:124-153 | the smallest terminals accepted for all four boxes and for each alone |

## Left out

- ProcTree.TreeGen: the walk is modelled without a filter, and so are ProcTree.VisitChild and the results about it; `short_cmd` and the prefixes drawn in front of names are not modelled.
- Roots in `GenerateTrees`: rooted means that no process is the parent of the first group, as the collector arranges by giving orphans parent 0; that re-parenting is a precondition here.
- TreeSorting.TreeSort: the `collapsed` parameter of `tree_sort` is not modelled since no caller passes it.
- ProcTreeFacts.GenerateTrees: what it finds is what one walk adds to `filter_found`; where the collector resets that counter is not modelled.
- Sorting by name, command or user and the choice between sorts in `proc_sorter`: library sorts are taken by their contract.
- SoaSorting.SoaSort: keys are exact numbers, so the rounding of 64-bit integers to double is not modelled; a moved-from string is modelled as empty.
- LazySorting.Promote: usage is a real number, where the source has a double.
- `update_reset_colors`: the theme's reset colours are parameters, as is the theme's sequence for inactive text.
- Rendering.RenderKeepsWellFormed: asks that colour operands fit a byte and that an escape byte starts a control sequence; `LoneEscapeIsStored` shows what happens otherwise. Overflow of `int` in numeric parameters and cursor positions is not modelled.
- Wide characters: the renderer counts one cell a character, and so does the model; the wide branches of `uresize` and `luresize` are left out.
- The content of a terminal right after a resize is arbitrary in the model; the resize handler itself is not modelled.
- EventQueues.StepKeepsInv: interleaves sequentially consistent steps of one producer and one consumer, who also asks `empty()`; weaker memory orderings, several producers and capacities of 2^32 or more are not modelled.
- `TextEdit::operator()` and the input filter of menus; `text.max_size() - 20` is the constant `limit`.
- TextEditing.TextEdit.Command: a one-character key that starts with a continuation byte is excluded at the very start of the text, and TextEditing.TextEdit.constructor excludes texts that start with one; `StrayKeyIff` and `NewFieldIff` say why.
- Graphs in tty mode; the level of a value within a row is a parameter of `Style`, given in real arithmetic by GraphLevels, so the rounding of `float` and `double` is not modelled, nor is 64-bit overflow while scaling. The choice of symbol set and the default maximum happen before a `Style` is made.
- Graphs.Graph.Update: takes the collected samples as a list.
- GraphPictures.PictureOfRows: asks, as GraphPictures.PictureOfOneRow does, that symbols are single characters and that a gradient entry sets the text colour and nothing else; the tables of symbols and the themes are not modelled.
- RingBuffers.RingBuffer.Get: the reference to a static default returned by an empty buffer is modelled as no item; iterators are not modelled.
- ConfigRoundTrips.RestoredIff: the string validators are an arbitrary function of name and value (with `init_conf` set they depend on nothing else), the description table is any table with distinct proper names and comments whose lines start with a hash, and the texts of warnings are not modelled. File access, permissions and the choice of directory are left out.
- ConfigLocks.RunRefines: one thread; the spin on `writelock` and `wait_idle` are not modelled, nor is the `write_new` flag set by writes.
- Layouts.PartitionIff: the build without graphics cards; the inner boxes and titles are not modelled.
- The runner thread's start and stop protocol, signals, input decoding, menus, themes, collectors, logging and the bundled formatting library.
