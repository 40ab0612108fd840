/** The pixel <-> cell geometry of src/components/SmartReportDesigner.tsx: the overlay
    bounds computed by `createShape`, the cell snapping of `snapToCell` and the drop-point
    search of `handleDrop`. Column widths and row heights come from the sheet, which the
    model takes as two size functions. */
module PixelMapper {
  import opened RangeCodec
  import opened SmartComponent

  /** `sheet.getColumnWidth` and `sheet.getRowHeight`: whole pixels, never negative. */
  datatype Sizes = Sizes(colWidth: int -> nat, rowHeight: int -> nat)

  /** An overlay rectangle in sheet pixels. */
  datatype PixelBox = PixelBox(x: int, y: int, width: int, height: int)

  /** Every scan over columns or rows stops after this many cells. */
  const ScanLimit: nat := 100

  /** Total size of the `count` cells starting at `from` (nothing when count <= 0). */
  function SpanSum(size: int -> nat, from: int, count: int): nat
    decreases count
  {
    if count <= 0 then 0 else SpanSum(size, from, count - 1) + size(from + count - 1)
  }

  /** Pixel offset of the leading edge of cell `k`. */
  function Offset(size: int -> nat, k: int): nat
  {
    SpanSum(size, 0, k)
  }

  /** Where createShape places the overlay of a range. */
  function BoxOf(r: CellRange, s: Sizes): PixelBox
  {
    PixelBox(SpanSum(s.colWidth, 0, r.col), SpanSum(s.rowHeight, 0, r.row),
             SpanSum(s.colWidth, r.col, r.colCount), SpanSum(s.rowHeight, r.row, r.rowCount))
  }

  /** One of createShape's accumulator loops: `for (i = 0; i < count; i++) t += size(from + i)`. */
  method SumSizes(size: int -> nat, from: int, count: int) returns (total: nat)
    ensures total == SpanSum(size, from, count)
  {
    total := 0;
    var i := 0;
    while i < count
      invariant 0 <= i <= if count >= 0 then count else 0
      invariant total == SpanSum(size, from, i)
    {
      total := total + size(from + i);
      i := i + 1;
    }
  }

  /** createShape's four loops: x and y are the offsets of the start cell, width and height
      the sizes of the covered cells. */
  method ShapeBounds(r: CellRange, s: Sizes) returns (box: PixelBox)
    ensures box == BoxOf(r, s)
  {
    var x := SumSizes(s.colWidth, 0, r.col);
    var y := SumSizes(s.rowHeight, 0, r.row);
    var width := SumSizes(s.colWidth, r.col, r.colCount);
    var height := SumSizes(s.rowHeight, r.row, r.rowCount);
    box := PixelBox(x, y, width, height);
  }

  // ---------------------------------------------------------------------------
  // snapToCell
  // ---------------------------------------------------------------------------

  /** The start-cell scan from cell `i` whose leading edge is at `acc`: the first cell whose
      half-open pixel interval holds `pos`, or ScanLimit when none of the first ScanLimit does. */
  function StartCell(pos: int, size: int -> nat, i: nat, acc: int): (c: nat)
    requires i <= ScanLimit
    ensures i <= c <= ScanLimit
    decreases ScanLimit - i
  {
    if i >= ScanLimit then ScanLimit
    else if acc <= pos < acc + size(i) then i
    else StartCell(pos, size, i + 1, acc + size(i))
  }

  /** The extent scan from cell `c` with `acc` pixels covered so far: how many more cells are
      taken before the covered pixels reach `extent` or the scan reaches ScanLimit. */
  function SpanCells(extent: int, size: int -> nat, c: nat, acc: int): (n: nat)
    requires c <= ScanLimit
    ensures n <= ScanLimit - c
    decreases ScanLimit - c
  {
    if acc < extent && c < ScanLimit then 1 + SpanCells(extent, size, c + 1, acc + size(c)) else 0
  }

  /** snapToCell on a ready sheet: start cell of the top-left corner, then enough cells to
      cover the width and height, at least one of each. */
  function Snap(box: PixelBox, s: Sizes): (r: CellRange)
    ensures 0 <= r.row <= ScanLimit && 0 <= r.col <= ScanLimit
    ensures r.rowCount >= 1 && r.colCount >= 1
    ensures r.row < ScanLimit ==> r.row + r.rowCount <= ScanLimit
    ensures r.col < ScanLimit ==> r.col + r.colCount <= ScanLimit
    ensures r.row == ScanLimit ==> r.rowCount == 1
    ensures r.col == ScanLimit ==> r.colCount == 1
  {
    var col := StartCell(box.x, s.colWidth, 0, 0);
    var row := StartCell(box.y, s.rowHeight, 0, 0);
    var colCount := SpanCells(box.width, s.colWidth, col, 0);
    var rowCount := SpanCells(box.height, s.rowHeight, row, 0);
    CellRange(row, col, if rowCount == 0 then 1 else rowCount, if colCount == 0 then 1 else colCount)
  }

  /** The start-cell loop of snapToCell: walk the cells until one holds `pos`. */
  method ScanStart(pos: int, size: int -> nat) returns (cell: nat)
    ensures cell == StartCell(pos, size, 0, 0)
  {
    var acc := 0;
    cell := 0;
    while cell < ScanLimit
      invariant 0 <= cell <= ScanLimit && acc == Offset(size, cell)
      invariant forall j | 0 <= j < cell :: !(Offset(size, j) <= pos < Offset(size, j + 1))
    {
      var cellSize := size(cell);
      if pos >= acc && pos < acc + cellSize {
        NextOffset(size, cell);
        StartCellAt(pos, size, 0, cell);
        return;
      }
      NextOffset(size, cell);
      acc := acc + cellSize;
      cell := cell + 1;
    }
    StartCellHolds(pos, size, 0);
  }

  /** The trailing edge of cell k is its leading edge plus its size. */
  lemma NextOffset(size: int -> nat, k: nat)
    ensures Offset(size, k + 1) == Offset(size, k) + size(k)
  {
  }

  /** The count loop of snapToCell: take cells from `start` until `extent` pixels are
      covered, then at least one. */
  method ScanExtent(extent: int, size: int -> nat, start: nat) returns (count: nat)
    requires start <= ScanLimit
    ensures count == (if SpanCells(extent, size, start, 0) == 0 then 1 else SpanCells(extent, size, start, 0))
  {
    var acc, c := 0, start;
    count := 0;
    while acc < extent && c < ScanLimit
      invariant start <= c <= ScanLimit && count == c - start
      invariant count + SpanCells(extent, size, c, acc) == SpanCells(extent, size, start, 0)
    {
      acc := acc + size(c);
      count := count + 1;
      c := c + 1;
    }
    if count == 0 {
      count := 1;
    }
  }

  /** snapToCell's four scanning loops, one start scan and one count scan per axis. */
  method SnapToCell(box: PixelBox, s: Sizes) returns (r: CellRange)
    ensures r == Snap(box, s)
  {
    var col := ScanStart(box.x, s.colWidth);
    var row := ScanStart(box.y, s.rowHeight);
    var colCount := ScanExtent(box.width, s.colWidth, col);
    var rowCount := ScanExtent(box.height, s.rowHeight, row);
    r := CellRange(row, col, rowCount, colCount);
  }

  // ---------------------------------------------------------------------------
  // The drop-point search of handleDrop
  // ---------------------------------------------------------------------------

  /** The drop scan from cell `i` whose leading edge is at `acc`: advance while the covered
      pixels are still short of `pos` and fewer than ScanLimit cells were taken. */
  function DropIndex(pos: int, size: int -> nat, i: nat, acc: int): (n: nat)
    requires i <= ScanLimit
    ensures i <= n <= ScanLimit
    decreases ScanLimit - i
  {
    if acc < pos && i < ScanLimit then DropIndex(pos, size, i + 1, acc + size(i)) else i
  }

  /** The cell a drop point falls in: one back from where the scan stopped. */
  function DropCell(pos: int, size: int -> nat): (cell: nat)
    ensures cell < ScanLimit
    ensures pos <= 0 ==> cell == 0
  {
    var n := DropIndex(pos, size, 0, 0);
    if n > 0 then n - 1 else 0
  }

  /** One of handleDrop's two scanning loops, followed by its `if (col > 0) col--`. */
  method DropCellSearch(pos: int, size: int -> nat) returns (cell: nat)
    ensures cell == DropCell(pos, size)
  {
    var acc, i := 0, 0;
    while acc < pos && i < ScanLimit
      invariant 0 <= i <= ScanLimit
      invariant DropIndex(pos, size, i, acc) == DropIndex(pos, size, 0, 0)
    {
      acc := acc + size(i);
      i := i + 1;
    }
    cell := if i > 0 then i - 1 else 0;
  }

  /** The range a dropped component gets when no positive selection exists: the drop cell
      as its top-left corner and the type's default size. */
  function DropRange(kind: ComponentType, dropX: int, dropY: int, s: Sizes): (r: CellRange)
    ensures 0 <= r.row < ScanLimit && 0 <= r.col < ScanLimit
    ensures (r.rowCount, r.colCount) == DefaultSize(kind)
  {
    var size := DefaultSize(kind);
    CellRange(DropCell(dropY, s.rowHeight), DropCell(dropX, s.colWidth), size.0, size.1)
  }

  // ---------------------------------------------------------------------------
  // Properties
  // ---------------------------------------------------------------------------

  /** Every one of the first ScanLimit cells has a positive size. */
  predicate PositiveSizes(size: int -> nat)
  {
    forall i | 0 <= i < ScanLimit :: size(i) > 0
  }

  lemma {:induction false} SpanSumSplit(size: int -> nat, from: int, a: nat, b: nat)
    ensures SpanSum(size, from, a + b) == SpanSum(size, from, a) + SpanSum(size, from + a, b)
    decreases b
  {
    if b > 0 {
      SpanSumSplit(size, from, a, b - 1);
    }
  }

  /** Offsets never decrease. */
  lemma OffsetMonotone(size: int -> nat, j: nat, k: nat)
    requires j <= k
    ensures Offset(size, j) <= Offset(size, k)
  {
    SpanSumSplit(size, 0, j, k - j);
  }

  /** With positive sizes, a span of at least one cell inside the scan limit is wider than
      any of its proper prefixes. */
  lemma SpanSumStrict(size: int -> nat, from: nat, j: nat, n: nat)
    requires PositiveSizes(size) && j < n && from + n <= ScanLimit
    ensures SpanSum(size, from, j) < SpanSum(size, from, n)
  {
    SpanSumSplit(size, from, j, n - j);
    SpanSumSplit(size, from + j, 1, n - j - 1);
    assert SpanSum(size, from + j, 1) == size(from + j);
  }

  /** The start scan finds cell k when pos lies in its pixel interval. */
  lemma {:induction false} StartCellAt(pos: int, size: int -> nat, i: nat, k: nat)
    requires i <= k < ScanLimit
    requires Offset(size, k) <= pos < Offset(size, k + 1)
    ensures StartCell(pos, size, i, Offset(size, i)) == k
    decreases k - i
  {
    var acc := Offset(size, i);
    assert Offset(size, i + 1) == acc + size(i);
    if i < k {
      OffsetMonotone(size, i + 1, k);
      StartCellAt(pos, size, i + 1, k);
    }
  }

  /** Conversely, a start cell before the scan limit holds pos in its pixel interval. */
  lemma {:induction false} StartCellHolds(pos: int, size: int -> nat, i: nat)
    requires i <= ScanLimit
    ensures var c := StartCell(pos, size, i, Offset(size, i));
      c < ScanLimit ==> Offset(size, c) <= pos < Offset(size, c + 1)
    decreases ScanLimit - i
  {
    if i < ScanLimit {
      var acc := Offset(size, i);
      assert Offset(size, i + 1) == acc + size(i);
      if !(acc <= pos < acc + size(i)) {
        assert StartCell(pos, size, i, acc) == StartCell(pos, size, i + 1, Offset(size, i + 1));
        StartCellHolds(pos, size, i + 1);
      }
    }
  }

  /** The extent scan over an exact span of n cells takes exactly those n cells. */
  lemma {:induction false} SpanCellsExact(size: int -> nat, col: nat, n: nat, j: nat)
    requires PositiveSizes(size) && j <= n && col + n <= ScanLimit
    ensures SpanCells(SpanSum(size, col, n), size, col + j, SpanSum(size, col, j)) == n - j
    decreases n - j
  {
    if j < n {
      SpanSumStrict(size, col, j, n);
      assert SpanSum(size, col, j + 1) == SpanSum(size, col, j) + size(col + j);
      SpanCellsStep(SpanSum(size, col, n), size, col + j, SpanSum(size, col, j), SpanSum(size, col, j + 1));
      SpanCellsExact(size, col, n, j + 1);
    } else {
      assert SpanCells(SpanSum(size, col, n), size, col + j, SpanSum(size, col, j)) == 0;
    }
  }

  /** One step of the extent scan: a cell starting short of the extent is counted. */
  lemma SpanCellsStep(extent: int, size: int -> nat, c: nat, acc: int, next: int)
    requires c < ScanLimit && acc < extent && next == acc + size(c)
    ensures SpanCells(extent, size, c, acc) == 1 + SpanCells(extent, size, c + 1, next)
  {
  }

  /** On one axis: the scans of snapToCell, run over the pixels of an exact span, find its
      start cell and its cell count. */
  lemma AxisRecovers(size: int -> nat, start: nat, count: nat)
    requires PositiveSizes(size) && count >= 1 && start + count <= ScanLimit
    ensures StartCell(Offset(size, start), size, 0, 0) == start
    ensures SpanCells(SpanSum(size, start, count), size, start, 0) == count
  {
    SpanSumSplit(size, 0, start, 1);
    assert Offset(size, start + 1) == Offset(size, start) + size(start);
    StartCellAt(Offset(size, start), size, 0, start);
    SpanCellsExact(size, start, count, 0);
  }

  /** Snapping the overlay createShape drew for a range that lies inside the scanned area
      gives back that range: an overlay left where it was keeps its location. */
  lemma SnapRecoversRange(r: CellRange, s: Sizes)
    requires PositiveSizes(s.colWidth) && PositiveSizes(s.rowHeight)
    requires r.row >= 0 && r.col >= 0 && r.rowCount >= 1 && r.colCount >= 1
    requires r.row + r.rowCount <= ScanLimit && r.col + r.colCount <= ScanLimit
    ensures Snap(BoxOf(r, s), s) == r
  {
    AxisRecovers(s.colWidth, r.col, r.colCount);
    AxisRecovers(s.rowHeight, r.row, r.rowCount);
  }

  /** Snapping is idempotent: an overlay redrawn at a snapped range snaps to the same range,
      as long as the snapped start cell lies inside the scanned area. */
  lemma SnapStable(box: PixelBox, s: Sizes)
    requires PositiveSizes(s.colWidth) && PositiveSizes(s.rowHeight)
    requires Snap(box, s).row < ScanLimit && Snap(box, s).col < ScanLimit
    ensures Snap(BoxOf(Snap(box, s), s), s) == Snap(box, s)
  {
    SnapRecoversRange(Snap(box, s), s);
  }

  /** The drop scan from cell i reaches n when every earlier edge is short of pos and the
      edge of n (if inside the limit) is not. */
  lemma {:induction false} DropIndexAt(pos: int, size: int -> nat, i: nat, n: nat)
    requires i <= n <= ScanLimit
    requires n > i ==> Offset(size, n - 1) < pos
    requires n < ScanLimit ==> pos <= Offset(size, n)
    ensures DropIndex(pos, size, i, Offset(size, i)) == n
    decreases n - i
  {
    if i < n {
      OffsetMonotone(size, i, n - 1);
      NextOffset(size, i);
      DropIndexStep(pos, size, i, Offset(size, i), Offset(size, i + 1));
      DropIndexAt(pos, size, i + 1, n);
    } else {
      assert DropIndex(pos, size, i, Offset(size, i)) == i;
    }
  }

  /** One step of the drop scan: an edge short of pos moves the scan to the next cell. */
  lemma DropIndexStep(pos: int, size: int -> nat, i: nat, acc: int, next: int)
    requires i < ScanLimit && acc < pos && next == acc + size(i)
    ensures DropIndex(pos, size, i, acc) == DropIndex(pos, size, i + 1, next)
  {
  }

  /** A drop strictly right of the leading edge of cell k and at most at its trailing edge
      lands in cell k; past the last scanned edge it lands in the last scanned cell. A drop
      exactly on a leading edge therefore lands in the cell before it. */
  lemma DropCellLocates(pos: int, size: int -> nat, k: nat)
    requires k < ScanLimit
    requires Offset(size, k) < pos
    requires k + 1 < ScanLimit ==> pos <= Offset(size, k + 1)
    ensures DropCell(pos, size) == k
  {
    DropIndexAt(pos, size, 0, k + 1);
  }
}
