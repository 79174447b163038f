# cea editing core in Dafny

A model of the editing core of `cea`, a small vi-like terminal editor written
in C (`main.c`). It covers five parts:

- **Line** (`TextLine.Line`): a growable byte buffer. It supports append,
  insert, remove, append-all and split. Capacity starts at 8 and doubles.
- **Lines** (`LineList.Lines`): the growable array of lines that makes up the
  document. It supports append, insert-after, remove and combine, plus the
  per-row line edits the key dispatch applies through `&lines.data[row]`.
- **Load splitter** (`Loader`): the loop of `editor_read_from_file` that cuts
  the file's bytes into lines at each line feed.
- **Key dispatch** (`Dispatch`): the Normal/Insert state machine of `main`.
  It is written twice:
  - `Next`, a function on editor states;
  - `Editor.Step`, a method on an `Editor` object that changes its cursor,
    mode and lines in place, proved to reach exactly the state `Next`
    prescribes.
- **Viewport** (`Viewports`): `viewport_update` and `viewport_write`, with
  the input loop that drives dispatch and redraw. The scroll offsets are
  specified by `Follow` and the rebuilt `content` snapshot by `Snapshot`.

The storage the C code reallocates is held in Dafny arrays and updated in
place: `Line.data` (the bytes of one line), `Lines.data` (the slot array of
the document) and `Viewport.content` (the snapshot). On these arrays the
shifting `memmove`s (main.c:183, 196, 269 and 283) and the `memcpy` at main.c:307 become parallel `forall`
assignments, and each `realloc` becomes a fresh array into which the elements
in use are copied. The `memmove` at main.c:218 that copies the tail of a split
line into its new storage becomes, in `Line.SplitAt`, a slice of the old bytes
passed to `Line.FromBytes`, which fills the fresh array from it. The lines inside the
document are values (`seq<byte>`) in the slots of `Lines.data`. So the byte
moves the key dispatch makes on them (main.c:183, 196, 218 and 307, through
`InsertByte`, `RemoveByte`, `SplitRow` and `Combine`) are sequence operations,
not `forall` assignments; "## Left out" says what this leaves out.

Every class has a `Valid()` invariant. `Lines.Valid` and `Viewport.Valid`
keep the capacity on the growth schedule 0, 8, 16, 32, …
(`Capacity.OnSchedule`), since those buffers only ever grow by `Grow`.
`Line.Valid` does not. A line's capacity grows by `Grow` on each append or
insert that finds it full, but it is exact after a split (`FromBytes` and
`SplitAt`, main.c:209-210) or after appending a whole line (`AppendAll`,
main.c:298-299). `Editor.Valid` holds the cursor invariant `Dispatch.Inv`
over a valid `Lines`.

Bounds checks that end the C program with `exit(1)` are modelled as
preconditions. Allocation failure cannot happen in Dafny. The quit key `'q'`
ends the input loop before any dispatch, so `Step` and `Next` require
`key != 'q'`.

Where the program's documented behaviour and `main.c` disagree, the model
follows `main.c`:
- **A trailing line with no final line feed:** the documentation says the
  loader still captures it. `main.c:396-404` drops it (`Loader.FileRoundTrip`).
  So a file with no line feed at all opens as an empty document, which no
  key can edit: every edit and every entry to Insert mode needs a line
  (`Dispatch.NoLineFeedOpensStuck`).
- **Keeping `cx` within the line in Normal mode:** the documentation says
  this holds after every key. `'j'` and `'k'` do not clamp `cx`, so the
  model keeps that bound only in Insert mode (`Dispatch.Inv`).
- **`'A'` with the cursor at the end of a line:** the documented scenario
  ("abc", cursor (3, 0), `'A'`, ENTER gives `["abc", "", "def"]`) is refused
  by the guard `cx < count` at `main.c:465`. `Dispatch.EndOfLineRefusedAtEnd`
  states what the code does. `Dispatch.EndOfLineThenEnter` states the
  scenario from (2, 0), where it holds.
- **Scroll offsets clamping to 0 when the buffer is small:** the
  documentation says `top`/`left` clamp to 0 when the buffer is smaller than
  the viewport. `main.c:128-139` only moves them as far as the cursor needs
  (`Viewports.Follow`).
- **How many columns a row shows:** the documentation says each row shows at
  most `width` bytes starting at column `left`. The column loop at
  `main.c:114` runs `j` from `left` while `j < width`, so a row shows columns
  `left` to `width-1`, which is `width-left` bytes, and none once
  `left >= width` (`Viewports.Cells`, `Viewports.NoColumnsPastWidth`). So
  once `cx >= width` the cursor's own column is outside the snapshot, even
  though `main.c:128-133` keeps `left <= cx <= left + width - 1`: on an
  80-column terminal (width 76) with cx = 76, `left` becomes 1 and each row
  shows columns 1 to 75. `Viewports.InView` states exactly this: the offsets
  hold the cursor and the content is `Snapshot` at them.
- **The tab key:** the documentation says a tab in Insert mode inserts spaces
  up to the next tab stop. `main.c:492-541` has no case for it. Byte 9 goes to
  the `default` case, fails the printable test `c >= 32` at `main.c:531` and
  leaves the editor unchanged (`Dispatch.TabIgnored`).

## Model

| member | source | states |
|---|---|---|
| `Capacity.Grow` | main.c:153 | a growth step always yields a strictly larger capacity (8 from nothing, else double) |
| `Capacity.GrowOnSchedule` | main.c:171-173 | growing keeps a capacity on the schedule 0, 8, 16, 32, … |
| `Seqs.RemoveInsert` | main.c:189-198 | removing at the index just inserted at gives back the original bytes |
| `TextLine.Line.Init` | main.c:144-148 | line_init: an empty line with capacity 0 |
| `TextLine.Line.FromBytes` | main.c:207-212 | the line line_split_at builds holds exactly the given bytes, in storage of exactly that size |
| `TextLine.Line.Realloc` | main.c:152-159 | reallocation to a size at least the count keeps every byte in use |
| `TextLine.Line.Reserve` | main.c:171-178 | afterwards there is room for one more byte; capacity grows by the policy only when full; contents unchanged |
| `TextLine.Line.Append` | main.c:150-162 | line_append: the contents become old contents + [c]; capacity grows only when full |
| `TextLine.Line.Insert` | main.c:164-187 | line_insert: the contents become old[..pos] + [c] + old[pos..] for every pos <= count (pos == count appends) |
| `TextLine.Line.Store` | main.c:180-186 | the byte moves of line_insert: the first count+1 slots hold the insertion of c at pos |
| `TextLine.Line.Remove` | main.c:189-198 | line_remove: the contents become old[..pos] + old[pos+1..]; storage and capacity unchanged |
| `TextLine.Line.AppendAll` | main.c:297-308 | the bytes of the other line are appended, growing to exactly the joint length only when needed |
| `TextLine.Line.SplitAt` | main.c:200-222 | line_split_at: the line keeps old[..pos], a fresh line holds old[pos..] with capacity count-pos, and their concatenation is the old contents, for every pos including 0 and count |
| `TextLine.InsertAsWritten` | main.c:183-185 | the as-written memmove leaves c at pos and a stale byte at the end |
| `TextLine.InsertAsWrittenAgreesIff` | main.c:183 | the as-written insert equals true insertion if and only if the stale byte equals the line's last byte |
| `TextLine.InsertAsWrittenLosesByte` | main.c:183 | inserting 'x' at 0 into "ab" as written does not give "xab" |
| `LineList.Landing` | main.c:266-270 | the slot the new line lands in is at most count |
| `LineList.Place` | main.c:266-272 | lines_insert on values: one more line; the new line lands at pos+1 when pos < count (slot pos unchanged), at count when pos == count; removing it gives back the old document |
| `LineList.PlaceInserts` | main.c:266-272 | Place is insertion at the landing slot |
| `LineList.Combined` | main.c:288-310 | lines_combine on values: one line fewer, and line a becomes old a ++ old b when a < b |
| `LineList.CombinedAdjacent` | main.c:517-518 | combining a with a+1: lines before a unchanged, a is a ++ a+1, later lines move down one slot |
| `LineList.CombinePlaced` | main.c:250-310 | inserting a line after pos and then combining pos with pos+1 appends that line's bytes to line pos |
| `LineList.PlaceNoLF` | main.c:250-273 | inserting a line without a line feed keeps every line free of them |
| `LineList.CombinedNoLF` | main.c:288-310 | combining lines without line feeds gives none |
| `LineList.Lines.Init` | main.c:229-234 | lines_init: no lines, capacity 0 |
| `LineList.Lines.Reserve` | main.c:257-264 | afterwards there is room for one more slot; capacity grows by the policy only when full; lines unchanged |
| `LineList.Lines.Append` | main.c:236-248 | lines_append: the document becomes old + [line] |
| `LineList.Lines.Insert` | main.c:250-273 | lines_insert: the document becomes Place(old, pos, line) |
| `LineList.Lines.PutLine` | main.c:266-272 | the slot moves of lines_insert: the first count+1 slots hold the insertion at the landing slot |
| `LineList.Lines.Remove` | main.c:275-286 | lines_remove: exactly slot pos is dropped, later lines move down one slot |
| `LineList.Lines.Combine` | main.c:288-310 | lines_combine: the document becomes Combined(old, a, b) |
| `LineList.Lines.LineLength` | main.c:463-465 | returns the length of line row |
| `LineList.Lines.InsertByte` | main.c:530-537 | line_insert on slot row: only that line changes, by insertion at pos |
| `LineList.Lines.RemoveByte` | main.c:481-487 | line_remove on slot row: only that line changes, by removal at pos |
| `LineList.Lines.SplitRow` | main.c:501-505 | line_split_at on slot row: the row keeps its head, the returned tail completes it |
| `Loader.SplitLines` | main.c:393-404 | the lines the split loop appends: never more lines than input bytes, since each line costs its line feed |
| `Loader.PendingNoLF` | main.c:396-404 | the line still being collected never holds a line feed |
| `Loader.PendingEmpty` | main.c:396-404 | nothing is pending exactly when the input is empty or ends in a line feed |
| `Loader.SplitLinesCount` | main.c:396-404 | the splitter yields one line per line feed byte |
| `Loader.SplitLinesNoLF` | main.c:396-404 | no loaded line contains a line feed |
| `Loader.JoinSplitLines` | main.c:396-404 | the loaded lines, each followed by a line feed, then the pending bytes, are the input |
| `Loader.FileRoundTrip` | main.c:396-404 | writing each loaded line followed by a line feed reproduces the input if and only if it is empty or ends in a line feed |
| `Loader.SplitNoLFSuffix` | main.c:396-404 | bytes without a line feed only extend the pending line |
| `Loader.DocRoundTrip` | main.c:396-404 | loading a document whose lines hold no line feed, written line by line with line feeds, gives back the same lines |
| `Loader.ReadLines` | main.c:393-404 | the split loop builds a fresh document holding SplitLines(contents) |
| `Dispatch.OpenBelow` | main.c:471-480 | 'o' adds exactly one line when the row names a line, and keeps the cursor invariant |
| `Dispatch.DeleteUnder` | main.c:481-487 | 'x' leaves cursor, mode and line count unchanged and keeps the invariant |
| `Dispatch.BreakLine` | main.c:499-511 | ENTER adds one line and puts the cursor at (0, cy+1) in Insert mode, keeping the invariant |
| `Dispatch.BreakLineThrough` | main.c:499-511 | cutting the row and placing its tail below it is exactly BreakLine |
| `Dispatch.Backspace` | main.c:512-529 | BACKSPACE stays in Insert mode and keeps the cursor invariant |
| `Dispatch.Type` | main.c:530-540 | a typed byte keeps the line count, the mode and the cursor invariant |
| `Dispatch.NormalKey` | main.c:435-490 | the Normal-mode switch, with 'j' and 'l' guarded: every Normal key keeps the cursor invariant |
| `Dispatch.InsertKey` | main.c:492-541 | the Insert-mode switch: ESC, ENTER, BACKSPACE and printable bytes each keep the cursor invariant |
| `Dispatch.Next` | main.c:433-541 | every key other than 'q' keeps the cursor invariant: the row names a line, or is 0 in an empty document, and every entry to Insert leaves cx <= the line's length |
| `Dispatch.Editor.Open` | main.c:421-424 | a fresh editor in the start state Opened(contents) (cursor (0, 0), Normal mode, SplitLines(contents)), sized to the terminal |
| `Dispatch.Editor.Step` | main.c:434-542 | one pass of the input loop moves the editor to Next(old state, key) and keeps it valid |
| `Dispatch.Editor.NormalStep` | main.c:435-490 | the Normal-mode switch reaches NormalKey(old state, key) |
| `Dispatch.Editor.OpenBelowStep` | main.c:471-480 | reaches OpenBelow(old state) |
| `Dispatch.Editor.DeleteUnderStep` | main.c:481-487 | reaches DeleteUnder(old state) |
| `Dispatch.Editor.InsertStep` | main.c:492-541 | the Insert-mode switch reaches InsertKey(old state, key) |
| `Dispatch.Editor.BreakLineStep` | main.c:499-511 | reaches BreakLine(old state) |
| `Dispatch.Editor.CutRow` | main.c:501-505 | the row keeps line[..cx] and the tail is line[cx..]; an empty line is not split |
| `Dispatch.Editor.BackspaceStep` | main.c:512-529 | reaches Backspace(old state) |
| `Dispatch.Editor.JoinAboveStep` | main.c:514-520 | at column 0 below the first row, reaches Backspace(old state) by joining onto the row above |
| `Dispatch.Editor.TypeStep` | main.c:530-540 | reaches Type(old state, key) |
| `Dispatch.BeforeQuit` | main.c:433 | the dispatched keys are a quit-free prefix of the input, stopped by a quit key or the end |
| `Dispatch.BeforeQuitPrefix` | main.c:433 | any quit-free prefix stopped by 'q' or the end is exactly BeforeQuit |
| `Dispatch.Run` | main.c:433-546 | the cursor invariant holds after any sequence of keys |
| `Dispatch.Opened` | main.c:421-424 | the start state satisfies the invariant and has one line per line feed of the file |
| `Dispatch.NoLineFeedOpensStuck` | main.c:396-404 | a file without a line feed opens as the empty document, and no key other than 'q' changes that state |
| `Dispatch.BreakLineThenJoin` | main.c:499-520 | backspace after ENTER gives back the state before ENTER |
| `Dispatch.EnterThenBackspace` | main.c:499-520 | ENTER then BACKSPACE restores both the document and the cursor |
| `Dispatch.TypeThenBackspace` | main.c:521-540 | a typed byte then BACKSPACE restores both the document and the cursor |
| `Dispatch.TabIgnored` | main.c:530-532 | in Insert mode the tab byte has no case of its own and fails the printable test, so the editor state is unchanged |
| `Dispatch.NormalKeepsNoLF` | main.c:435-490 | no Normal-mode key puts a line feed into a line |
| `Dispatch.BreakLineNoLF` | main.c:499-511 | ENTER's two halves contain no line feed |
| `Dispatch.InsertKeepsNoLF` | main.c:492-541 | no Insert-mode key puts a line feed into a line |
| `Dispatch.NextKeepsNoLF` | main.c:433-541 | no key puts a line feed into a line |
| `Dispatch.RunKeepsNoLF` | main.c:433-546 | no sequence of keys puts a line feed into a line |
| `Dispatch.EditedDocRoundTrip` | main.c:393-404 | after any keys, writing the lines with line feeds and loading them again gives the same lines |
| `Dispatch.MoveDownAsWritten` | main.c:440-443 | 'j' as written lets cy reach the line count |
| `Dispatch.MoveDownAsWrittenLeavesDoc` | main.c:441 | on the last line, 'j' as written leaves the cursor on a row with no line |
| `Dispatch.MoveDownStaysInDoc` | main.c:440-443 | in a non-empty document, the corrected 'j' moves down exactly when a line is below, so the row always names a line |
| `Dispatch.MoveRightAsWritten` | main.c:448-451 | 'l' as written, with size_t arithmetic, moves at most one column |
| `Dispatch.MoveRightAsWrittenPassesEnd` | main.c:449 | on an empty line, 'l' as written moves the cursor to column 1 |
| `Dispatch.MoveRightStaysOnLine` | main.c:448-451 | the corrected 'l' moves right only onto a byte of the line |
| `Dispatch.EndOfLineRefusedAtEnd` | main.c:462-470 | 'A' at (3, 0) on ["abc", "def"] is refused and ENTER in Normal mode does nothing |
| `Dispatch.EndOfLineThenEnter` | main.c:462-511 | 'A' at (2, 0) then ENTER on ["abc", "def"] gives ["abc", "", "def"] at (0, 1) |
| `Dispatch.BackspaceJoins` | main.c:514-520 | BACKSPACE at (0, 1) on ["abc", "def"] gives ["abcdef"] at (3, 0) |
| `Dispatch.DeleteUnderCursor` | main.c:481-487 | 'x' at (2, 0) on ["hello"] gives ["helo"], cursor unchanged |
| `Dispatch.TypeIntoEmptyLine` | main.c:530-540 | typing "hi" into one empty line gives ["hi"] at (2, 0) |
| `Viewports.Follow` | main.c:128-139 | afterwards offset <= pos <= offset+extent-1; unchanged when pos was already inside; otherwise the least movement that brings pos inside |
| `Viewports.Cells` | main.c:114-117 | the column loop emits max(width-left, 0) cells |
| `Viewports.CellsAt` | main.c:115 | cell c is the line's byte at left+c, or a space past its end, so no byte past count is read |
| `Viewports.RowsLength` | main.c:111-119 | each row shown takes the visible columns plus a line feed; rows past the buffer add nothing |
| `Viewports.RowsPrefix` | main.c:111-119 | the text of the first rows is a prefix of the text of more rows |
| `Viewports.RowsPastBuffer` | main.c:112 | rows at or past the end of the buffer add nothing |
| `Viewports.RowsRow` | main.c:111-119 | a shown row follows the text of the rows before it: its cells, then a line feed |
| `Viewports.Snapshot` | main.c:108-121 | the content viewport_write leaves never exceeds the visible area: at most `height` rows of the visible columns and a line feed |
| `Viewports.SnapshotShape` | main.c:108-121 | the snapshot holds (rows shown) * (visible columns + 1) bytes, and stops at the buffer's end |
| `Viewports.SnapshotRow` | main.c:111-119 | screen row r, when it shows line top+r, occupies bytes r*k .. (r+1)*k of the snapshot: its cells and a line feed |
| `Viewports.NoColumnsPastWidth` | main.c:114 | with left at or past width a row emits no cells |
| `Viewports.Viewport.Init` | main.c:422 | a zeroed viewport with an empty snapshot |
| `Viewports.Viewport.Insert` | main.c:95-106 | viewport_insert: the snapshot becomes old + [c]; capacity grows by the policy only when full |
| `Viewports.Viewport.WriteRow` | main.c:114-117 | the column loop appends Cells(line, left, width) |
| `Viewports.Viewport.PutRow` | main.c:112-119 | one pass of the row loop appends the row's text |
| `Viewports.Viewport.Write` | main.c:108-121 | viewport_write: the snapshot becomes Snapshot(doc, top, left, height, width) |
| `Viewports.Viewport.Scroll` | main.c:128-139 | left and top become Follow of the old offsets for the cursor |
| `Viewports.Viewport.Update` | main.c:123-142 | viewport_update: width = cols-4, height = rows-1, offsets by Follow, snapshot rebuilt |
| `Viewports.Pass` | main.c:434-545 | a dispatch then a redraw: the editor reaches Next, the viewport is sized to the terminal, its offsets hold the cursor (Follow) and its content is Snapshot(lines, top, left, height, width) |
| `Viewports.Session` | main.c:425-546 | after the start-up redraw and every key before 'q', the editor is in Run(start, keys), the viewport's offsets hold the cursor and its content is the Snapshot at those offsets |

## Left out

- Terminal raw mode, the `atexit` hook and the window-size `ioctl` (main.c:31-54, 320-330) are operating-system I/O. The terminal's columns and rows are parameters of `Editor.Open`.
- `render`, the ANSI escape macros and `mode_to_str` (main.c:21-24, 61-66, 332-363) are output formatting. No state changes there.
- File access (`stat`, `fopen`, `fread`, `fclose`, main.c:365-392, 406-407) is I/O. The file's bytes are the parameter of `Loader.ReadLines`.
- `argv` handling and the `read()` loop are I/O (main.c:411-419, 433). Keys are given as a sequence of bytes. The uninitialised upper bytes of `int c` are not modelled: each key is one byte.
- `realloc`/`malloc` failure and the `exit(1)` it causes cannot happen in Dafny.
- `line_free` and `lines_free` (main.c:224-227, 312-318) are left out because memory is garbage-collected. The `free` inside `lines_remove` is covered by its departure note.
- `LineList.Lines` holds each slot's bytes as a value (`seq<byte>`), the way `main.c` copies `Line` structs by value into its slots. So the storage and capacity of lines inside the document are not modelled. Nor is the sharing of a `data` buffer between a slot and the struct it was copied from. `TextLine.Line` models that storage for one line on its own; the loader and the start-up use it.
- `size_t` wrap-around is modelled explicitly only at main.c:449 (`Dispatch.MoveRightAsWritten`). Everywhere else, numbers are unbounded naturals.
- `Viewports.Viewport.Update` requires the terminal to be wider than the sidebar and taller than the status bar. On a smaller terminal `width`/`height` wrap in `size_t` at main.c:125-126. On a terminal of exactly 4 columns (or 1 row) nothing wraps there: the width (height) is 0, and the wrap happens in `v->left + v->width - 1` at main.c:131 (`v->top + v->height - 1` at main.c:137).
- `Dispatch.Editor.Step` requires the cursor invariant (`Dispatch.Inv`), which every reachable state satisfies (`Dispatch.Run`, `Viewports.Session`). States that break it are not modelled; in them the C code reads out of bounds or exits.
- `TextLine.Line.AppendAll`: main.c:300 reallocates `sizeof(Line)` bytes per byte. Only the byte count matters to the contents, so the model reallocates exactly the joint length.
- `LineList.Lines.Remove`: main.c:283 shifts `count-pos-1` bytes rather than that many `Line`s. main.c:284 then frees the storage of the line shifted into slot `pos`. The model removes slot `pos` and moves every later line down intact, which is the evident intent and what `test.c:63-114` expects.
- `test.c:116-157` call `editor_remove_char`, which `main.c` does not define. Those two scenarios are not modelled; BACKSPACE is covered by `Dispatch.BackspaceJoins` and `Dispatch.JoinAboveStep`.
- Redraw skipped by `continue` at main.c:516 (BACKSPACE at (0, 0)): `Dispatch.Backspace` leaves the state unchanged there. `Viewports.Pass` still redraws, which changes nothing visible because the state is unchanged.

## Findings

| source | as written | input that shows it | evidently intended | confidence | as-written member | corrected member |
|---|---|---|---|---|---|---|
| main.c:183 | `memmove` of `count-pos-1` bytes when inserting before the end | line "ab", insert 'x' at 0: "xa" plus a stale byte instead of "xab" | move the whole tail, `count-pos` bytes | high (not executed) | `TextLine.InsertAsWrittenLosesByte` | `TextLine.Line.Insert` |
| main.c:441 | 'j' tests `cy < lines.count` | on the last line, cy becomes lines.count, a row with no line that later keys index | `cy + 1 < lines.count` | high (not executed) | `Dispatch.MoveDownAsWrittenLeavesDoc` | `Dispatch.MoveDownStaysInDoc` |
| main.c:449 | 'l' tests `cx < data[cy].count - 1` in `size_t`, with `data[cy]` unguarded | empty line at (0, 0): `0 - 1` wraps to 2^64-1 and cx becomes 1, past the line | `cy < lines.count && cx + 1 < data[cy].count` | high (not executed) | `Dispatch.MoveRightAsWrittenPassesEnd` | `Dispatch.MoveRightStaysOnLine` |
