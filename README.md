# SmartReportDesigner spatial binding, in Dafny

This project models the spatial-binding core of the SmartReportDesigner React component
(`src/components/SmartReportDesigner.tsx`). A report template is a list of *smart components*
(text, table, chart, image, formula). Each component is bound to a cell range of a spreadsheet,
such as `B2:D5`. The designer draws one rectangle overlay per component on the sheet. It keeps
that overlay, the component list and three bookkeeping records in step while the user drops,
drags, resizes, edits, deletes, imports and exports components. Placements that would overlap
another component are refused with the warning `区域与现有组件冲突`.

Modules, following the structure of the program:

- `Common`: the `Option` type.
- `SmartComponent`: the component record of `src/types/SmartComponent.ts` and the per-type
  constants (colours, default sizes, display names). It also holds the list edits the designer
  applies: filter by id, replace by id, change one location.
- `RangeCodec`: column letters and indices (bijective base 26) and `parseRange`
  (`A1`/`B2:D5`, case-insensitive). It also holds `rangeToLocation`, whose output is always the
  two-corner form.
- `PixelMapper`: cumulative column widths and row heights, the pixel box `createShape` computes,
  the `snapToCell` scans capped at 100 cells, and the drop-point search of `handleDrop`.
- `ConflictDetector`: `checkConflict`, the half-open rectangle overlap test with an optional
  excluded id, as a loop proved against a predicate.
- `ConfigPayload`: the JSON configuration `handleExport` writes and `handleFileChange` reads,
  as values.
- `OverlayBook`: the four records a designer keeps, as one `Book` value:
  - the overlays on the canvas (keyed by name);
  - the handles (`shapesRef`);
  - the id→component map (`componentMapRef`);
  - the created set (`createdShapesRef`).
  `OverlayBook` also defines the pure transitions `createShape`, `removeShape`, the purge,
  `clearAllShapes` and the selection push over that value, and the invariant `Consistent`
  they all preserve. The canvas may also hold overlays the user inserted, which have no
  handle; the designer's transitions leave those alone.
- `Coordinator`: the class `Designer`, whose fields are the component's state and refs. Its
  methods are the event handlers, effects and API functions. Each of them is proved against the
  `OverlayBook` transitions. Every `setTimeout` becomes a `Task` in `pending`, which `RunPending`
  fires in any order.

Three behaviours of the code are modelled as written, where a reader might expect otherwise:

- An imported location is not upper-cased, while the properties panel upper-cases a typed one
  (`src/components/PropertiesPanel.tsx:104`). `ImportedLocationParsesAsUpper` shows that, with
  ASCII upper-casing, this changes no parsed range.
- When an overlay is moved to a conflicting range, the warning is shown but the new location is
  still committed. When a move does not conflict, an earlier warning is left to its own timer.
- While an edit's redraw timer is pending, deleting the component does not stop that timer.
  `DeleteDuringEdit` shows the overlay coming back for a component that is no longer listed.

A drop exactly on the left or top edge of a cell lands in the previous cell, since the search
advances only while the running sum is below the drop position (`DropCellLocates`).

## Model

| member | source | states |
|---|---|---|
| SmartComponent.BorderColor | src/components/SmartReportDesigner.tsx:233 | a non-empty style border colour wins; no style, no style border or an empty one gives the type's default border |
| SmartComponent.FillIgnoresStyle | src/components/SmartReportDesigner.tsx:234 | the overlay fill depends on the type only: changing a component's style never changes its fill |
| SmartComponent.DefaultSize | src/components/SmartReportDesigner.tsx:43-52 | every component type's default drop size spans at least one row and one column |
| SmartComponent.RemoveIds | src/components/SmartReportDesigner.tsx:373 | the filtered list keeps exactly the components whose id is not removed, and its id set is the old one minus the removed ids |
| SmartComponent.RemoveIdsAppend | src/components/SmartReportDesigner.tsx:373 | the filter distributes over concatenation, so the kept components keep their order and multiplicity |
| SmartComponent.RemoveIdsDisjoint | src/components/SmartReportDesigner.tsx:373 | a list with none of the filtered ids is kept whole |
| SmartComponent.RemoveNoIds | src/components/SmartReportDesigner.tsx:373 | filtering by no id gives back the whole list unchanged |
| SmartComponent.RemoveIdsTwice | src/components/SmartReportDesigner.tsx:371-378 | filtering by one set of ids and then another equals filtering once by their union, so the purge's per-id filters may run in any grouping |
| SmartComponent.ReplaceById | src/components/SmartReportDesigner.tsx:558 | same length and id set; an unknown id leaves the list as it is; a known id puts the update in the list; every other element is an old component with another id, and every old component with another id stays; position by position, an entry with the id becomes the update and every other entry is kept, so list order is preserved |
| SmartComponent.ReplaceByIdTwice | src/components/SmartReportDesigner.tsx:558 | applying the same edit twice is applying it once |
| SmartComponent.RemoveEdited | src/components/SmartReportDesigner.tsx:558-571 | deleting an edited component leaves the same list as deleting it before the edit |
| SmartComponent.SetLocation | src/components/SmartReportDesigner.tsx:359 | same length and id set; each matching component gets the new location, and the rest are unchanged |
| RangeCodec.ToUpper | src/components/SmartReportDesigner.tsx:172-180 | a letter becomes upper case; anything that is not a lower-case letter is unchanged |
| RangeCodec.UpperCase | src/components/SmartReportDesigner.tsx:172-180 | the length is kept; an all-letter string becomes all upper case; an upper-case string is unchanged |
| RangeCodec.LettersValue | src/components/SmartReportDesigner.tsx:24-30 | the accumulated base-26 value of upper-case letters is non-negative, and at least 1 when there is a letter |
| RangeCodec.ColLetterToIndex | src/components/SmartReportDesigner.tsx:24-30 | the loop computes the letters' base-26 value minus one |
| RangeCodec.Letters | src/components/SmartReportDesigner.tsx:32-41 | the column name is all upper case, and empty exactly when the one-based number is not positive |
| RangeCodec.ColIndexToLetter | src/components/SmartReportDesigner.tsx:32-41 | the loop builds the bijective base-26 name of index + 1 |
| RangeCodec.LettersValueOfLetters | src/components/SmartReportDesigner.tsx:24-41 | reading back the name of a non-negative number gives that number |
| RangeCodec.ColumnRoundTrip | src/components/SmartReportDesigner.tsx:24-41 | colLetterToIndex(colIndexToLetter(i)) == i for every index i >= 0, and the name is non-empty upper case |
| RangeCodec.LettersOfLettersValue | src/components/SmartReportDesigner.tsx:24-41 | every upper-case string is the name of its own value: the column naming is onto |
| RangeCodec.ColumnNameRoundTrip | src/components/SmartReportDesigner.tsx:24-41 | colIndexToLetter(colLetterToIndex(s)) == s for every non-empty upper-case s, whose index is non-negative |
| RangeCodec.DigitsValue | src/components/SmartReportDesigner.tsx:173 | the value of a digit string is non-negative |
| RangeCodec.NatToDecimal | src/components/SmartReportDesigner.tsx:189 | the decimal text of a number is a non-empty digit string |
| RangeCodec.IntToDecimal | src/components/SmartReportDesigner.tsx:189 | the text of any integer has no letter and no colon, and is the digit string for a non-negative one |
| RangeCodec.DecimalRoundTrip | src/components/SmartReportDesigner.tsx:173-189 | parseInt reads back the decimal text of every natural number |
| RangeCodec.LetterRun | src/components/SmartReportDesigner.tsx:168 | the length of the longest leading run of letters |
| RangeCodec.ColonIndex | src/components/SmartReportDesigner.tsx:168 | the position of the first colon, or the length when there is none |
| RangeCodec.ParseCellSplit | src/components/SmartReportDesigner.tsx:170-174 | a single cell of letters then digits parses to (upper-cased letters' index, digits' value - 1) |
| RangeCodec.ParseCellIff | src/components/SmartReportDesigner.tsx:170 | a cell text parses exactly when it matches `^[A-Z]+\d+$` (ignoring case) |
| RangeCodec.CellHasNoColon | src/components/SmartReportDesigner.tsx:170 | a text matching the single-cell form contains no colon |
| RangeCodec.TwoCornersAtFirstColon | src/components/SmartReportDesigner.tsx:168 | the two-corner pattern matches exactly when the text splits at its first colon into two cells |
| RangeCodec.TwoCornersAt | src/components/SmartReportDesigner.tsx:168 | a colon with a cell text on each side makes the text match the two-corner pattern |
| RangeCodec.FirstColonSplits | src/components/SmartReportDesigner.tsx:168 | in a text matching the two-corner pattern, both sides of the first colon are cell texts |
| RangeCodec.ColonSplitsAt | src/components/SmartReportDesigner.tsx:168 | the colon of a two-corner match is the first colon, and both sides of it are cells |
| RangeCodec.CornerColonIsFirst | src/components/SmartReportDesigner.tsx:168 | a colon that follows a cell text is the first colon of the text |
| RangeCodec.NoColonBefore | src/components/SmartReportDesigner.tsx:168-170 | no character of a cell-shaped prefix is a colon |
| RangeCodec.ColonIndexAt | src/components/SmartReportDesigner.tsx:168 | a colon with no colon before it is the one the split finds |
| RangeCodec.ParseRangeIff | src/components/SmartReportDesigner.tsx:166-184 | parseRange answers a range exactly when the text matches the two-corner or the single-cell pattern; a single cell is 1x1 |
| RangeCodec.SplitAtColon | src/components/SmartReportDesigner.tsx:168 | joining a colon-free left part, a colon and a right part puts the first colon after the left part, and the slices recover both parts |
| RangeCodec.ParseNamedCell | src/components/SmartReportDesigner.tsx:170-174 | a column name followed by a row number parses to that column index and number - 1 |
| RangeCodec.ParseCellAt | src/components/SmartReportDesigner.tsx:170-174 | a text of upper-case letters then digits, split between them, parses to the letters' column index and the digits' value - 1 |
| RangeCodec.CornerNameChars | src/components/SmartReportDesigner.tsx:186-190 | a corner text never has a colon, and its letters are upper case |
| RangeCodec.CornerNameParses | src/components/SmartReportDesigner.tsx:186-190 | a corner text written for a column and a non-negative row number parses back to that cell |
| RangeCodec.RangeRoundTrip | src/components/SmartReportDesigner.tsx:166-190 | parseRange(rangeToLocation(row, col, rowCount, colCount)) gives back the same four numbers whenever both written corners are in the sheet |
| RangeCodec.CornersParseAt | src/components/SmartReportDesigner.tsx:186-190 | the two corner names rangeToLocation writes for a range, joined by a colon, parse back to that range |
| RangeCodec.CornerSpan | src/components/SmartReportDesigner.tsx:186-190 | the span from the first corner rangeToLocation writes to its last has the range's start and both counts |
| RangeCodec.CornersParse | src/components/SmartReportDesigner.tsx:166-190 | a corner name, a colon and a second corner name parse to the span from the first cell to the second |
| RangeCodec.ParseTwoCorners | src/components/SmartReportDesigner.tsx:166-182 | a colon-free cell text, a colon and a second cell text parse to the span from the first cell to the second |
| RangeCodec.ValidRangeRoundTrip | src/components/SmartReportDesigner.tsx:166-190 | every range inside the sheet with at least one cell survives writing and parsing |
| RangeCodec.ParseRangeBounds | src/components/SmartReportDesigner.tsx:172-182 | a parsed range starts at column >= 0 and row >= -1 (row number 0 is accepted), and its last column and row number are non-negative |
| RangeCodec.SpanBounds | src/components/SmartReportDesigner.tsx:166-182 | the bounds of ParseRangeBounds for a location with a colon |
| RangeCodec.SingleBounds | src/components/SmartReportDesigner.tsx:170-184 | the bounds of ParseRangeBounds for a location without a colon |
| RangeCodec.ParseCellBounds | src/components/SmartReportDesigner.tsx:170-174 | a parsed cell has column >= 0 and row >= -1 |
| RangeCodec.ParseFormatParse | src/components/SmartReportDesigner.tsx:166-190 | writing out any parsed range and parsing it again gives the same range |
| RangeCodec.LocationUpper | src/components/SmartReportDesigner.tsx:186-190 | every letter rangeToLocation writes is upper case |
| RangeCodec.LocationShape | src/components/SmartReportDesigner.tsx:166-190 | rangeToLocation always writes the two-corner form, even for a 1x1 range |
| RangeCodec.ToUpperKeepsClass | src/components/SmartReportDesigner.tsx:172-180 | upper-casing keeps letters letters, digits digits and colons colons, and is idempotent |
| RangeCodec.UpperCaseKeepsClasses | src/components/SmartReportDesigner.tsx:172-180 | the same, position by position, for whole strings |
| RangeCodec.UpperCaseSlices | src/components/SmartReportDesigner.tsx:172-180 | upper-casing commutes with taking a prefix or a suffix |
| RangeCodec.UpperCaseTwice | src/components/SmartReportDesigner.tsx:172-180 | upper-casing twice is the same as upper-casing once |
| RangeCodec.LetterRunUpper | src/components/SmartReportDesigner.tsx:168 | the leading letter run is as long after upper-casing |
| RangeCodec.ColonIndexUpper | src/components/SmartReportDesigner.tsx:168 | the first colon is at the same place after upper-casing |
| RangeCodec.DigitsUpper | src/components/SmartReportDesigner.tsx:168 | a digit string is one after upper-casing and is unchanged by it |
| RangeCodec.ParseCellUpper | src/components/SmartReportDesigner.tsx:170-174 | a cell text parses the same before and after upper-casing |
| RangeCodec.SameCellParts | src/components/SmartReportDesigner.tsx:170-174 | two texts with the same letter run, the same digits and letters equal up to case parse to the same cell |
| RangeCodec.PartsUpper | src/components/SmartReportDesigner.tsx:166-174 | each side of a colon parses the same after the whole text is upper-cased |
| RangeCodec.ParseRangeCaseInsensitive | src/components/SmartReportDesigner.tsx:166-184 | parseRange gives the same answer for a location and its upper-case form (the `i` flag) |
| RangeCodec.SpanUpper | src/components/SmartReportDesigner.tsx:166-182 | the two-corner case: a location with a colon parses as its upper-case form does |
| RangeCodec.SingleUpper | src/components/SmartReportDesigner.tsx:170-184 | the single-cell case: a location without a colon parses as its upper-case form does |
| PixelMapper.SumSizes | src/components/SmartReportDesigner.tsx:237-240 | the loop adds the sizes of count cells from a start cell, and adds nothing for a non-positive count |
| PixelMapper.ShapeBounds | src/components/SmartReportDesigner.tsx:236-240 | the overlay box's x and y are the sizes of the columns and rows before the range, and its width and height are the sizes of the range's columns and rows |
| PixelMapper.StartCell | src/components/SmartReportDesigner.tsx:286-294 | the scan for the cell holding a position stops within the first 100 cells, at the cap at the latest |
| PixelMapper.SpanCells | src/components/SmartReportDesigner.tsx:306-312 | the scan for an extent never runs past the 100-cell cap |
| PixelMapper.Snap | src/components/SmartReportDesigner.tsx:282-325 | the snapped start lies in 0..100 and spans at least one cell; a range that starts before the cap ends within it; a start at the cap spans one cell |
| PixelMapper.ScanStart | src/components/SmartReportDesigner.tsx:286-294 | the while loop with its break finds StartCell's cell |
| PixelMapper.ScanExtent | src/components/SmartReportDesigner.tsx:306-322 | the extent loop counts SpanCells' cells, with zero raised to one |
| PixelMapper.SnapToCell | src/components/SmartReportDesigner.tsx:282-325 | the four loops compute Snap |
| PixelMapper.DropIndex | src/components/SmartReportDesigner.tsx:499-504 | the drop scan stops within the 100-cell cap |
| PixelMapper.DropCell | src/components/SmartReportDesigner.tsx:499-511 | the drop cell is below 100, and a position at or before the sheet origin lands in cell 0 |
| PixelMapper.DropCellSearch | src/components/SmartReportDesigner.tsx:499-511 | the loop followed by the step back computes DropCell |
| PixelMapper.DropRange | src/components/SmartReportDesigner.tsx:494-513 | a drop without a selection places the type's default size at a cell inside the scanned area |
| PixelMapper.SpanSumSplit | src/components/SmartReportDesigner.tsx:237-240 | the sizes of a + b cells are the sizes of the first a plus the sizes of the next b |
| PixelMapper.OffsetMonotone | src/components/SmartReportDesigner.tsx:237-238 | a later cell never starts before an earlier one |
| PixelMapper.NextOffset | src/components/SmartReportDesigner.tsx:237-238 | cell k + 1 starts where cell k ends |
| PixelMapper.SpanSumStrict | src/components/SmartReportDesigner.tsx:237-240 | with positive sizes, more cells cover strictly more pixels |
| PixelMapper.StartCellAt | src/components/SmartReportDesigner.tsx:286-294 | a position inside cell k is found at cell k |
| PixelMapper.StartCellHolds | src/components/SmartReportDesigner.tsx:286-294 | the cell the scan stops at below the cap does contain the position |
| PixelMapper.SpanCellsExact | src/components/SmartReportDesigner.tsx:306-312 | with positive sizes, the extent of n cells is counted as exactly n cells |
| PixelMapper.SpanCellsStep | src/components/SmartReportDesigner.tsx:306-312 | a cell that starts short of the extent is counted, and the scan goes on from the next cell |
| PixelMapper.AxisRecovers | src/components/SmartReportDesigner.tsx:237-312 | snapping recovers, along one axis, the start and count that createShape laid out |
| PixelMapper.SnapRecoversRange | src/components/SmartReportDesigner.tsx:221-325 | snapping the box createShape draws for a range inside the 100x100 area gives back that range |
| PixelMapper.SnapStable | src/components/SmartReportDesigner.tsx:221-325 | snapping is idempotent: redrawing at a snapped range and snapping again gives the same range |
| PixelMapper.DropIndexAt | src/components/SmartReportDesigner.tsx:499-504 | the drop scan stops at the first cell whose end is not below the position |
| PixelMapper.DropIndexStep | src/components/SmartReportDesigner.tsx:499-504 | an edge short of the drop position moves the scan on to the next cell |
| PixelMapper.DropCellLocates | src/components/SmartReportDesigner.tsx:499-511 | a position after cell k's start and up to its end lands in cell k (a position exactly on a start lands in the cell before) |
| ConflictDetector.CheckConflict | src/components/SmartReportDesigner.tsx:205-220 | the scan reports a conflict exactly when some component is not excluded, its location parses and its range overlaps the candidate |
| ConflictDetector.OverlapsIffSharedCell | src/components/SmartReportDesigner.tsx:211-216 | for non-empty ranges the overlap test holds exactly when the two ranges share a cell |
| ConflictDetector.OverlapsSymmetric | src/components/SmartReportDesigner.tsx:211-216 | which range is the candidate does not matter |
| ConflictDetector.TouchingRangesDoNotOverlap | src/components/SmartReportDesigner.tsx:211-216 | a range starting right after another's last column or row does not conflict with it |
| ConflictDetector.ExcludeIsRemoval | src/components/SmartReportDesigner.tsx:207 | excluding a non-empty id is the same as checking the list without that component |
| ConflictDetector.EmptyExcludeSkipsNothing | src/components/SmartReportDesigner.tsx:207 | an empty excluded id skips no component |
| ConflictDetector.UnparsedNeverConflicts | src/components/SmartReportDesigner.tsx:208-209 | a component whose location does not parse never causes a conflict |
| ConflictDetector.NoConflictWhenAllMiss | src/components/SmartReportDesigner.tsx:205-220 | no conflict when every parsed range misses the candidate |
| ConfigPayload.Export | src/components/SmartReportDesigner.tsx:575-583 | empty template id and version, and one entry per component in order, every field but shapeId |
| ConfigPayload.ImportEntries | src/components/SmartReportDesigner.tsx:623-630 | one component per entry in order, with a fresh id drawn for entry i when its id is missing |
| ConfigPayload.Import | src/components/SmartReportDesigner.tsx:609-630 | the file is accepted exactly when it is JSON with a component_list array, and then yields one component per entry |
| ConfigPayload.ExportImportRoundTrip | src/components/SmartReportDesigner.tsx:575-630 | importing an export gives back the components in order, without shape ids, and draws no fresh id when every id is set |
| ConfigPayload.ImportExportFillsIds | src/components/SmartReportDesigner.tsx:575-630 | exporting an import gives back the entries with their missing ids filled in |
| ConfigPayload.ImportedIdsPresent | src/components/SmartReportDesigner.tsx:624 | every imported component has an id when the uuid source never yields an empty one |
| ConfigPayload.ImportedLocationParsesAsUpper | src/components/SmartReportDesigner.tsx:625 | an imported location is stored as written and parses as its ASCII upper-case form does |
| OverlayBook.CreateStep | src/components/SmartReportDesigner.tsx:221-268 | nothing changes for an id already created, before the workbook exists, or for an unparsable location; otherwise an overlay at the range's box with the component's name and colours is added and recorded in all three records; other ids are untouched |
| OverlayBook.RemoveStep | src/components/SmartReportDesigner.tsx:270-280 | with a workbook, an id that has a handle leaves the canvas and all three records; otherwise nothing changes; other ids are untouched |
| OverlayBook.CreateAllPrefix | src/components/SmartReportDesigner.tsx:440-442 | creating for one more component of a list is one more createShape |
| OverlayBook.CreateAllSnoc | src/components/SmartReportDesigner.tsx:440-442 | creating for a list is creating for all but its last component, then createShape for the last |
| OverlayBook.RemoveAllPrefix | src/components/SmartReportDesigner.tsx:617-619 | removing for one more id of a list is one more removeShape |
| OverlayBook.Missing | src/components/SmartReportDesigner.tsx:371-372 | an id is purged exactly when it has a handle, no overlay on the canvas and no update in progress |
| OverlayBook.SelectOnly | src/components/SmartReportDesigner.tsx:445-468 | the push changes only the selection flags of overlays that have a handle, and keeps every overlay |
| OverlayBook.CreateStepConsistent | src/components/SmartReportDesigner.tsx:221-268 | createShape keeps the bookkeeping invariant |
| OverlayBook.RemoveStepConsistent | src/components/SmartReportDesigner.tsx:270-280 | removeShape keeps the bookkeeping invariant |
| OverlayBook.CreateAllConsistent | src/components/SmartReportDesigner.tsx:440-442 | creating for a whole list keeps the invariant |
| OverlayBook.RemoveAllConsistent | src/components/SmartReportDesigner.tsx:617-619 | removing for a whole list keeps the invariant |
| OverlayBook.ForgetConsistent | src/components/SmartReportDesigner.tsx:367-379 | forgetting any ids keeps the invariant: the purge, also when it runs in the middle of a removal |
| OverlayBook.ForgetNothing | src/components/SmartReportDesigner.tsx:367-379 | a purge that finds no id changes nothing |
| OverlayBook.RaisedGone | src/components/SmartReportDesigner.tsx:367-372 | the ids a ShapeRemoved raised inside removeShape purges: handles only, never an updating id, the removed id unless it is updating, and otherwise only handles whose overlay was already gone |
| OverlayBook.RaisedRemoval | src/components/SmartReportDesigner.tsx:270-280 | removing the overlay, purging, then forgetting the id equals removeShape followed by forgetting the purged ids |
| OverlayBook.CommitRaisedConsistent | src/components/SmartReportDesigner.tsx:558-562 | recording an edit and removing its overlay keeps the invariant, with or without the purge in the middle |
| OverlayBook.ClearAllConsistent | src/components/SmartReportDesigner.tsx:652-675 | clearAllShapes keeps the invariant and leaves exactly the overlays without a handle, unchanged |
| OverlayBook.RelocateConsistent | src/components/SmartReportDesigner.tsx:359-360 | committing a parsable new location to the map keeps the invariant |
| OverlayBook.CommitConsistent | src/components/SmartReportDesigner.tsx:558-562 | recording an edited component and removing its shape keeps the invariant whatever its location |
| OverlayBook.CreateStepCanvas | src/components/SmartReportDesigner.tsx:221-268 | on a ready workbook where every created id is still drawn, createShape adds an overlay exactly for a parsable location |
| OverlayBook.ParsedIdsSnoc | src/components/SmartReportDesigner.tsx:230-231 | the ids with a parsable location grow by the appended component's id exactly when its location parses |
| OverlayBook.CreateAllCanvas | src/components/SmartReportDesigner.tsx:434-443 | creating for a list adds overlays for exactly the listed ids whose location parses |
| OverlayBook.CreateAllNotReady | src/components/SmartReportDesigner.tsx:226 | without a workbook, creating for a list changes nothing |
| OverlayBook.RemoveAllExact | src/components/SmartReportDesigner.tsx:617-619 | removing for a list of ids (as handleFileChange and clearComponents do) forgets exactly the listed ids that have handles, in all four records |
| OverlayBook.RemoveAllNotReady | src/components/SmartReportDesigner.tsx:271 | without a workbook, removing overlays changes nothing |
| OverlayBook.PurgeSettles | src/components/SmartReportDesigner.tsx:367-379 | purging twice purges nothing more |
| OverlayBook.PurgeKeepsLive | src/components/SmartReportDesigner.tsx:371-372 | an id still drawn, or one being updated, keeps its handle, created mark and mapped component |
| OverlayBook.SelectOnlyOne | src/components/SmartReportDesigner.tsx:445-468 | after the push at most one overlay with a handle is selected, and the selected id's overlay is when it has a handle; overlays without a handle keep their state; no box or text changes |
| OverlayBook.IdsOfStep | src/components/SmartReportDesigner.tsx:679-683 | with distinct ids, each saved component adds a new id |
| OverlayBook.RestoreOne | src/components/SmartReportDesigner.tsx:679-683 | restoring one more saved component restores its overlay, handle, created mark and map entry |
| OverlayBook.RestoredStep | src/components/SmartReportDesigner.tsx:679-683 | adding one saved component's overlay, handle, created mark and map entry to a restored prefix restores the longer prefix |
| OverlayBook.RestoreStep | src/components/SmartReportDesigner.tsx:652-684 | restoring a prefix of the saved components rebuilds exactly their ids |
| OverlayBook.ClearThenRestore | src/components/SmartReportDesigner.tsx:652-684 | clearAllShapes then restoreAllShapes gives back every handle, created mark and map entry; each handle's overlay is drawn afresh from its stored location (createShape's box and colours), not restored from its last box; the overlays without a handle stay as they were |
| OverlayBook.RestoredNone | src/components/SmartReportDesigner.tsx:652-675 | right after clearAllShapes nothing is rebuilt and only the overlays without a handle remain |
| OverlayBook.RestoredAll | src/components/SmartReportDesigner.tsx:679-684 | a restore that rebuilt every handle has the old handles, created marks and map entries, and the canvas holds the old overlays plus the redrawn ones, each drawn from its stored component |
| OverlayBook.SubsetOfSameSize | src/components/SmartReportDesigner.tsx:652-684 | a subset as large as its superset is that set |
| OverlayBook.IdsCardinality | src/components/SmartReportDesigner.tsx:659-663 | k saved components with distinct ids carry k ids |
| Coordinator.IdsInOrder | src/components/SmartReportDesigner.tsx:617 | one id per component, and the ids listed are exactly the list's id set |
| Coordinator.RemoveListed | src/components/SmartReportDesigner.tsx:617-619 | removing the overlays of a list removes exactly its ids that have a handle, in all four records, and leaves every other handle and overlay (an orphan a pending redraw recorded included) |
| Coordinator.EditKeepsListed | src/components/SmartReportDesigner.tsx:558-561 | an edited component survives a purge that spares its id |
| Coordinator.DroppedComponentParses | src/components/SmartReportDesigner.tsx:524-532 | a dropped component's location parses back to its target range, and its name numbers it after the listed components |
| Coordinator.CollectMissing | src/components/SmartReportDesigner.tsx:367-379 | the purge loop collects exactly the handles with no overlay and no update, and filters the list by exactly those ids |
| Coordinator.SelectOverlays | src/components/SmartReportDesigner.tsx:445-468 | the loop over the handles and the select step compute SelectOnly; overlays without a handle are untouched |
| Coordinator.SaveHandles | src/components/SmartReportDesigner.tsx:652-675 | the save loop saves one mapped component per handle, each once, and removes exactly the handled overlays |
| Coordinator.SaveOneMore | src/components/SmartReportDesigner.tsx:659-663 | saving one more handle keeps the saved list one entry per handle |
| Coordinator.SaveProgressStep | src/components/SmartReportDesigner.tsx:658-668 | one more pass of the save loop keeps its invariant: the saved list matches the handles seen so far, whose overlays are gone |
| Coordinator.RemoveOneMore | src/components/SmartReportDesigner.tsx:664-668 | removing one more handled overlay is removing the overlays of the grown set of handles seen |
| Coordinator.Designer.constructor | src/components/SmartReportDesigner.tsx:125-137 | the initial state: the given components, no workbook, empty refs, nothing selected, no warning, no timer |
| Coordinator.Designer.HandleWorkbookReady | src/components/SmartReportDesigner.tsx:160-164 | the workbook becomes available and the invariant holds |
| Coordinator.Designer.CreateShape | src/components/SmartReportDesigner.tsx:221-268 | the new bookkeeping is CreateStep of the old one |
| Coordinator.Designer.RemoveShape | src/components/SmartReportDesigner.tsx:270-280 | without the event, the new bookkeeping is RemoveStep of the old; when the widget raises ShapeRemoved as the overlay goes, the purge runs in between: RemoveStep and the RaisedGone ids forgotten, and those ids filtered from the list; the invariant is kept |
| Coordinator.Designer.RemoveQuietly | src/components/SmartReportDesigner.tsx:274-278 | the overlay leaves the canvas and then the three records forget the id: RemoveStep |
| Coordinator.Designer.RemoveRaising | src/components/SmartReportDesigner.tsx:274-278 | the overlay leaves the canvas, handleShapeRemoved purges, then the records forget the id: RemoveStep plus the RaisedGone ids, which also leave the list |
| Coordinator.Designer.CreateEach | src/components/SmartReportDesigner.tsx:440-442 | createShape over a list in order is CreateAll |
| Coordinator.Designer.RemoveEach | src/components/SmartReportDesigner.tsx:617-619 | removeShape over a list in order is RemoveAll |
| Coordinator.Designer.CreateShapesEffect | src/components/SmartReportDesigner.tsx:434-443 | the effect draws the overlays of the current list |
| Coordinator.Designer.PurgeMissingShapes | src/components/SmartReportDesigner.tsx:367-379 | the missing ids leave the list and all three records; the invariant is kept |
| Coordinator.Designer.HandleShapeRemoved | src/components/SmartReportDesigner.tsx:367-379 | the purge |
| Coordinator.Designer.HandleShapeSelectionChanged | src/components/SmartReportDesigner.tsx:381-414 | ignored during an internal selection; otherwise the purge, then the clicked component is selected if it is still known, or a click on empty space clears a selection that has a handle |
| Coordinator.Designer.PushSelection | src/components/SmartReportDesigner.tsx:445-468 | the designer's overlays show exactly the selected one as selected, other overlays are untouched, and canvas events are ignored until the timer fires |
| Coordinator.SnappedRange | src/components/SmartReportDesigner.tsx:282-283 | the range a move snaps to starts at a row and column index between 0 and the scan cap of 100, and spans at least one cell; with no workbook it is A1 |
| Coordinator.Designer.HandleShapeChanged | src/components/SmartReportDesigner.tsx:340-365 | the moved overlay's own box on the canvas is snapped; a move to a different location commits the snapped location to the list and the map; a conflict also raises the warning and its timer; anything else changes nothing |
| Coordinator.Designer.CommitMove | src/components/SmartReportDesigner.tsx:350-360 | the moved component's new location is written to the list and the map; a conflict also raises the warning and schedules its clearing |
| Coordinator.Designer.HandleDrop | src/components/SmartReportDesigner.tsx:470-537 | no workbook, no type or no host: nothing; a conflicting target: the warning and its timer; otherwise the new component is appended, selected and scheduled for drawing |
| Coordinator.Designer.PlaceDrop | src/components/SmartReportDesigner.tsx:515-536 | a conflicting target raises the warning and schedules its clearing and adds nothing; otherwise the numbered new component is appended, selected and scheduled for drawing |
| Coordinator.Designer.HandleUpdateComponent | src/components/SmartReportDesigner.tsx:544-567 | a conflicting move of a known component is refused with the warning; otherwise the component is replaced, marked as updating, its overlay removed (with or without the ShapeRemoved purge in between) and a redraw scheduled; a listed edited component stays listed either way |
| Coordinator.Designer.CommitUpdate | src/components/SmartReportDesigner.tsx:558-566 | the accepted edit: replace, record, mark, remove the overlay, schedule the redraw; the updating mark set before the removal keeps the edited component listed even when the removal raises the purge |
| Coordinator.Designer.RecordEdit | src/components/SmartReportDesigner.tsx:558-561 | the list and the map take the edited component and its id is marked as updating |
| Coordinator.Designer.HandleDeleteComponent | src/components/SmartReportDesigner.tsx:569-573 | the overlay and records go, with the RaisedGone ids as well when the removal raises the purge; the component (and those ids) leave the list; nothing is selected |
| Coordinator.Designer.LoadComponents | src/components/SmartReportDesigner.tsx:821-836 | the overlays of the current list go, exactly for its ids with a handle, other handles stay, the created set is emptied, the new list is taken and its drawing scheduled |
| Coordinator.Designer.HandleFileChange | src/components/SmartReportDesigner.tsx:601-649 | an unreadable file or one without a component_list array changes nothing; otherwise the imported list is loaded as by loadComponents |
| Coordinator.Designer.ClearComponents | src/components/SmartReportDesigner.tsx:814-818 | the overlays of the listed components go, exactly for their ids with a handle, other handles stay, the list is emptied and nothing is selected |
| Coordinator.Designer.AddComponent | src/components/SmartReportDesigner.tsx:881-886 | the copy with a fresh id is appended and scheduled for drawing, without a conflict check |
| Coordinator.Designer.SetSelectedComponent | src/components/SmartReportDesigner.tsx:813 | the selection becomes the given id |
| Coordinator.Designer.ClearAllShapes | src/components/SmartReportDesigner.tsx:652-675 | without a workbook nothing; otherwise the saved list holds each handled component once and the bookkeeping is ClearAll |
| Coordinator.Designer.RestoreAllShapes | src/components/SmartReportDesigner.tsx:678-684 | createShape for every saved component |
| Coordinator.Designer.RunPending | src/components/SmartReportDesigner.tsx:563-566 | any pending timer (the redraw after an edit here, and the timers of handleShapeChanged, the selection effect, handleDrop and handleFileChange) leaves the queue and does its step: clear the warning, draw one component, redraw an edited one and end its update, draw a loaded list, or end the internal selection |
| Coordinator.Designer.UserRemovesOverlay | src/components/SmartReportDesigner.tsx:368-369 | the overlay leaves the canvas the purge inspects |
| Coordinator.Designer.UserMovesOverlay | src/components/SmartReportDesigner.tsx:345 | the dragged overlay takes the new box, which handleShapeChanged then reads and snaps |
| Coordinator.Designer.UserAddsOverlay | src/components/SmartReportDesigner.tsx:368-369 | an overlay the user inserts, pastes or restores joins the canvas under an unused name; the invariant is kept |
| Coordinator.DragThenCommit | src/components/SmartReportDesigner.tsx:340-360 | a drag followed by its ShapeChanged event stores the location the new box snaps to, and that location parses back to the snapped range |
| Coordinator.EditThenRedraw | src/components/SmartReportDesigner.tsx:544-567 | an accepted edit followed by its timer draws the edited component at its new range and ends its update |
| Coordinator.DeleteDuringEdit | src/components/SmartReportDesigner.tsx:544-573 | deleting while the redraw timer is pending leaves an overlay and a handle for a component that is no longer listed |
| Coordinator.Orphan | src/components/SmartReportDesigner.tsx:558-573 | for the books of that sequence: the edit removes the overlay, the delete finds no handle, the redraw draws the overlay and records its handle |

## Left out

- ConfigPayload.ImportedLocationParsesAsUpper: compares with ASCII upper-casing only. JavaScript's
  `toUpperCase`, used by the properties panel, also maps some non-ASCII letters to ASCII ones
  (`ſ` to `S`, `ı` to `I`), which the `[A-Z]` pattern without the `u` flag does not match; for
  such a location the stored text and its upper-cased form parse differently. Strings here
  have no Unicode case mapping.
- Rendering, the JSX layout, drag-over highlighting, the side panels and the callbacks to the
  host (`onComponentsChange`, `onSelectComponent`, `onSpreadReady`, `onConflict`, `onExport`).
  These are notifications with no effect on the state modelled here.
- The DOM lookups of `handleDrop`. The host element's presence and the drop point relative to
  it are a parameter (`None` when no host is found).
- `getSelectionRange` is not modelled. The sheet's selection is a parameter of `HandleDrop`.
- The spreadsheet widget is a map of overlays by name plus column-width and row-height
  functions. Two details follow:
  - Adding an overlay whose name is already used is modelled as failing; the widget's real
    answer is not part of this model.
  - Size functions take any integer, because `createShape` asks for row -1 when a location
    names row 0. Resizing columns and rows is not modelled.
- `FileReader`, `JSON.parse`, the file picker (`handleImport`), the case of no file chosen,
  `alert`, and the JSON text of the export with its `Blob` download. A file's content reaches
  the model as a parsed `ImportPayload`.
- Entries of `component_list` that are not objects, whose failure inside `map` leaves the old
  overlays removed (the catch path); imported entries are well-typed records here.
- `uuidv4` is not modelled. Fresh ids are parameters (`newId`, `freshId`).
- The Excel functions `handleExportExcel`, `handleImportExcel`, `handleExcelFileChange` and
  `exportCleanExcel` are not part of this model, because they depend on the ExcelIO library.
  Their shape bookkeeping, `clearAllShapes` then `restoreAllShapes`, is modelled
  (`ClearThenRestore`).
- The getters `getComponents`, `getSpread` and `getDesigner`, the window debugging object and
  `setLicenseKey`.
- React scheduling: state updates are applied at once. The ref copies of `spread`,
  `components` and `selectedId` are the state itself, without their one-render lag. Effects
  and timers run when the environment calls `CreateShapesEffect`, `PushSelection` or
  `RunPending`, in any order, and the timers' delays are not modelled.
- Floating-point pixels: positions and sizes are integers, and `parseInt` of a very long digit
  string is exact here.
- Entries for `List`, `Milestone` and `Gantt` in the size and name tables, and the fallback
  colours `#9ca3af` and `rgba(156, 163, 175, 0.2)` for an unknown type. The component type is
  the closed five-value type of `src/types/SmartComponent.ts`. `handleFileChange` copies an
  imported `type` unchecked, so a file can carry another type string and reach those
  fallbacks; the model takes imported types to be one of the five, and other type strings are
  not modelled.
- Widget events arrive between handlers, with one exception: `RemoveShape` (and so
  `HandleUpdateComponent` and `HandleDeleteComponent`) takes a flag `raised` for a ShapeRemoved
  the widget raises synchronously while `sheet.shapes.remove` runs.
- Coordinator.Designer.RemoveEach: removes with no event between the steps of each removal, so
  `LoadComponents`, `ClearComponents` and `HandleFileChange` do too. With the event, each purge
  would also filter the current list, which these handlers then replace, and would forget
  handles left without an overlay.
- Coordinator.Designer.ClearAllShapes: does not model a ShapeRemoved raised synchronously by
  each `sheet.shapes.remove` inside its loop. With that event, every saved component that is
  not being updated would be filtered out of the component list, and a handle purged before
  the loop reaches it would not be saved.
- Handles are names here. A handle whose overlay the user deleted, and whose name a new overlay
  then takes, refers to the new overlay in this model (`SelectOnly`, `PushSelection`), whereas
  the source's handle object still refers to the deleted one.
- SmartComponent.FillColor: stated only through FillIgnoresStyle, because the fill is the
  type's constant background.
- Coordinator.Designer.HandleShapeChanged: the overlay itself is not moved to the snapped
  range, as in the code; the model keeps the user's box.
