# Hitbox editor window of the Arc System Works collision editor, in Dafny

This project models the box editor window of the collision editor
(`src/app/boxes.rs`). The window opens a PAC archive and parses every file in it
as a JONBIN record. It lists the records by name. For the chosen record it lists
every hit box under a label derived from the box's raw `u32` kind. It then
redraws the record on a canvas. While drawing, it writes the rect of the chosen
box back over every box that has the same within-group position and whose
canvas label equals the chosen box's list label.

The model has three modules:

- `BoxKinds` (`box_kinds.dfy`): the 18-variant `BoxType`, its discriminants, the
  decoder `TryFrom`, the box-list label table (`ListLabel`) and the canvas label
  table (`RenderLabel`). It also proves how the two tables differ: five kinds
  take another kind's canvas label (`RenderAlias`), so a box picked from the
  list is written back over a set of boxes that `WriteBackTargets` states exactly.
- `JonBins` (`jonbin.dfy`): records as values (`HitBox`, `Rect`, `JonBin`,
  `PacFile`, `Pac`). It holds the write-back as functions over the box groups,
  proved to change exactly the selected boxes. It also holds the table that
  `read_pac` builds, as a left fold over the archive's files (`ReadFiles`), with
  lemmas for which names end up in the table and which record each name maps to.
- `BoxesWindows` (`boxes_window.dfy`): the `BoxesWindow` class with the source's
  fields. Its methods are: the derived `Default` (constructor), the file-list
  click (`SelectFile`), the box-list click (`SelectBox`), the write-back loops
  of `render_boxes` (`RewriteGroup`, `RewriteBoxes`, `RenderBoxes`), `Reset`,
  `ReadPac` and `OpenFile`. `RewriteGroup`, `RewriteBoxes`, `RenderBoxes`,
  `ReadPac` and `OpenFile` are proved against the functions above; the other
  methods state every field's new value. `Valid()` is the window invariant: a
  non-empty selected name is a key of the table. It makes the
  `get(&self.selected).unwrap()` lookups safe, and `PickThenRender` relies on
  it for them.

The `current_box.unwrap()` in the write-back panics when a box passes the
write-back test but no box has been picked. This is a precondition of
`RenderBoxes`. `FreshSelectionMatchesUndecodable` shows that the state a file
click leaves behind (index 0, empty label, no box) fails that precondition
exactly on the records that have, in any group, a box of undecodable kind
(above 17) at a position congruent to 0 modulo 2^32.
`SelectFileThenRender` shows that the draw following a file click is safe when
no such box exists.

External inputs are parameters. `GGSTJonBin::parse` lives in another library,
so it is a function-typed `Parser` argument of `ReadPac` and `OpenFile`. The
archive is the `Pac` value those methods receive.

## Model

| member | source | states |
|---|---|---|
| `BoxKinds.Discriminant` | src/app/boxes.rs:32-51 | every variant's explicit discriminant lies in 0..17 |
| `BoxKinds.TryFrom` | src/app/boxes.rs:53-79 | decoding succeeds exactly when the raw value is at most 17, and the decoded variant's discriminant is the raw value |
| `BoxKinds.RoundTrip` | src/app/boxes.rs:56-75 | decoding the discriminant of any variant returns that variant |
| `BoxKinds.DiscriminantsDistinct` | src/app/boxes.rs:32-51 | two variants with the same discriminant are the same variant |
| `BoxKinds.ListLabel` | src/app/boxes.rs:145-165 | the list label is empty exactly for kinds that do not decode |
| `BoxKinds.ListLabelInjective` | src/app/boxes.rs:145-165 | two decodable kinds never share a list label |
| `BoxKinds.RenderLabel` | src/app/boxes.rs:214-270 | the canvas label is empty exactly for kinds that do not decode |
| `BoxKinds.RenderAlias` | src/app/boxes.rs:214-270 | the alias of a kind differs from the kind exactly for ExPoint and Private0..3 |
| `BoxKinds.RenderLabelIsAliasListLabel` | src/app/boxes.rs:214-270 | the canvas label of a kind is the list label of its alias, and equals its own list label exactly when the kind is not ExPoint or Private0..3 |
| `BoxKinds.WriteBackTargets` | src/app/boxes.rs:271 | a box's canvas label equals the list label of a picked kind exactly when the box's alias is the picked kind, or when both kinds are undecodable |
| `BoxKinds.RenamedNeverWrittenBack` | src/app/boxes.rs:254-265 | the list label of ExPoint or Private0..3 is no kind's canvas label |
| `BoxKinds.BorrowedLabels` | src/app/boxes.rs:221-223 | ExPoint draws under Hitbox's label, Private0..2 under LLeg's, Private3 under SpGuard's |
| `JonBins.Selects` | src/app/boxes.rs:271 | a box passes the write-back test exactly when its position truncated to u32 is the selected index and the list label of its alias is the selected label |
| `JonBins.CopyRect` | src/app/boxes.rs:273-276 | copying the four rect fields keeps the box's kind and gives it exactly the source rect |
| `JonBins.WriteBackGroup` | src/app/boxes.rs:212-277 | the inner loop keeps a group's length and every kind, and gives the copied rect to exactly the boxes that pass the test, leaving every other rect alone |
| `JonBins.WriteBackBoxes` | src/app/boxes.rs:211-277 | the outer loop keeps the number of groups and rewrites every group with the inner loop, keyed by within-group position only |
| `JonBins.WriteBackFrame` | src/app/boxes.rs:271-277 | after the write-back a box has its old kind; if it passes the test its rect is the copied rect; otherwise it is unchanged |
| `JonBins.WriteBackNoneSelected` | src/app/boxes.rs:271-277 | when no box passes the test the record is unchanged |
| `JonBins.WriteBackIdempotent` | src/app/boxes.rs:211-277 | writing the same rect back a second time changes nothing more |
| `JonBins.EmptyLabelSelectsUndecodable` | src/app/boxes.rs:271 | with the empty label, the boxes that pass the test are exactly those at the selected position whose kind does not decode |
| `JonBins.FreshSelectionMatchesUndecodable` | src/app/boxes.rs:111-113 | the state after a file click (index 0, empty label) selects some box of a record exactly when some group has an undecodable box at a position congruent to 0, so the next draw unwraps an empty current box |
| `JonBins.WriteBackAfterPick` | src/app/boxes.rs:166-175 | after picking a box, the write-back leaves that box as it was, and a box changes only if it has the same position and its alias is the picked kind (or both kinds are undecodable); such a box gets the picked rect |
| `JonBins.RenamedPickLeavesRecord` | src/app/boxes.rs:148-162 | a picked ExPoint or Private0..3 box is never written back: the whole record is unchanged |
| `JonBins.HitboxPickRewritesExPoint` | src/app/boxes.rs:221-223 | picking Hitbox at position i also overwrites the rect of every ExPoint box at position i |
| `JonBins.InsertParsed` | src/app/boxes.rs:313-320 | one step of the read loop adds the file's name when its parse succeeds and maps it to the parsed record; every other name keeps its entry or stays absent |
| `JonBins.ReadFiles` | src/app/boxes.rs:311-323 | reading an archive never removes a name from the table |
| `JonBins.ReadFilesKeys` | src/app/boxes.rs:312-320 | after reading, a name is in the table exactly when it was before or some file of that name parses |
| `JonBins.ReadFilesLastWins` | src/app/boxes.rs:314-317 | a name maps to the record parsed from the last file of that name that parses |
| `JonBins.ReadFilesKeepsOthers` | src/app/boxes.rs:318-320 | a name that no parsing file carries keeps its old entry, or stays absent: failed parses are skipped |
| `BoxesWindows.BoxesWindow.Valid` | src/app/boxes.rs:137 | under the window invariant a non-empty selected name is a key of the table, so the `get(&self.selected).unwrap()` lookups of the box list and the canvas succeed |
| `BoxesWindows.BoxesWindow.constructor` | src/app/boxes.rs:81-99 | the derived default: empty table, empty selection, zero offsets, no current box, index 0, not GBVS |
| `BoxesWindows.BoxesWindow.SelectFile` | src/app/boxes.rs:107-116 | a file click selects the name and clears the current box, the index, the box label and the current name; the table is unchanged |
| `BoxesWindows.BoxesWindow.SelectBox` | src/app/boxes.rs:166-176 | a box click records the position truncated to u32, the box's list label and a copy of the box; nothing else changes |
| `BoxesWindows.BoxesWindow.RewriteGroup` | src/app/boxes.rs:212-277 | the inner loop turns a group into its write-back, given that a box is picked whenever one passes the test |
| `BoxesWindows.BoxesWindow.RewriteBoxes` | src/app/boxes.rs:211-287 | the outer loop turns the groups into their write-back |
| `BoxesWindows.BoxesWindow.RenderBoxes` | src/app/boxes.rs:182-277 | the selected record is replaced by its write-back and every other record is untouched; it requires that a box is picked whenever one passes the test; with no box picked the table is unchanged; the window invariant is kept |
| `BoxesWindows.BoxesWindow.Reset` | src/app/boxes.rs:291-303 | reset empties the table and the selection and sets the offsets to (640, 802); the current name and the GBVS flag are kept |
| `BoxesWindows.BoxesWindow.ReadPac` | src/app/boxes.rs:311-323 | the table becomes the old table with each parsing file inserted in archive order; it never removes a name, so the window invariant is kept |
| `BoxesWindows.BoxesWindow.OpenFile` | src/app/boxes.rs:305-309 | opening always returns true and leaves the reset state, with the table built from the archive starting empty |
| `BoxesWindows.PickThenRender` | src/app/boxes.rs:119-125 | under the window invariant with a file selected, picking a box and then drawing in the same frame records the truncated position, the box's list label and the box; the selected record becomes its write-back from the picked rect, every other record and the selected name, path, current name, GBVS flag, offsets and cursor are unchanged; the picked box itself is left as it was and the invariant is kept |
| `BoxesWindows.SelectFileThenRender` | src/app/boxes.rs:110-125 | a file click followed by a draw is safe and changes no record when no box at a position congruent to 0 has an undecodable kind; it leaves the name selected, no current box, index 0, empty box label and empty current name, and path, GBVS flag, offsets and cursor unchanged |

## Left out

- Canvas drag and pan (`src/app/boxes.rs:184-209`): pointer deltas added to `f32` offsets, and the right-click reset of the offsets inside `render_boxes`. This is floating-point arithmetic on egui input. `RenderBoxes` models only the write-back part of that function.
- Drawing (`src/app/boxes.rs:213-270` colours, `278-285` rectangles): the colour chosen for each kind and the `rect_stroke` coordinates are rendering only.
- `box_info` (`src/app/boxes.rs:171-174`): float formatting of the picked rect into strings. `SelectBox` records the picked box itself. Other fields that the shown code never reads are also left out: `new_name`, `jonb_name`, `image_index`.
- The egui widgets in `ui` and `box_list` (combo boxes, labels, frames): clicks are modelled as the methods `SelectFile` and `SelectBox`. The per-frame order "file click, then box list, then canvas when a file is selected" appears only in the two client methods.
- The iteration order of the `BTreeMap` of records only affects the order of the file list, so the table is a `map`.
- `Rect` fields are `f32` values that this code only copies. They are modelled as 32-bit patterns, so no floating-point semantics are claimed.
- `GGSTJonBin`: only its box groups are modelled. The parser `GGSTJonBin::parse` and the archive parser `GGSTPac::parse` belong to another library, and the parser is a parameter. The error message printed for a failed parse is console output and is not modelled.
- The script-state browser (`collect_states`, `collect_ef_states` called from `src/app.rs`) is not part of this model. Its implementation and the window fields it would use are not in the repository's shown source.
- `src/render.rs`, `src/app.rs`, `src/lib.rs`, `src/main.rs`, `src/app/open.rs`: asset loading, GPU capture and app wiring, with no logic of the window's own.
