/**
 * The part of an openpyxl worksheet the report writers touch: cell values keyed by
 * 1-based (row, column), the cells given a fill, the column widths, and the sheet's
 * extent, which grows as cells are touched.
 */
module Worksheets {

  /** What a finished sheet holds: its title, its cell values, the filled cells and the
      column widths (by 1-based column index). */
  datatype Report = Report(title: string, cells: map<(int, int), string>, filled: set<(int, int)>, widths: map<int, nat>)

  /** `str(cell.value)`: a cell inside the sheet's extent that holds no value is None. */
  function Rendered(cells: map<(int, int), string>, row: int, col: int): string {
    if (row, col) in cells then cells[(row, col)] else "None"
  }

  class Worksheet {
    var title: string
    var cells: map<(int, int), string>
    var filled: set<(int, int)>
    var widths: map<int, nat>
    var maxRow: int  // `ws.max_row`
    var maxCol: int  // `ws.max_column`

    ghost predicate Valid()
      reads this
    {
      1 <= maxRow && 1 <= maxCol
      && (forall p :: p in cells ==> 1 <= p.0 <= maxRow && 1 <= p.1 <= maxCol)
      && (forall p :: p in filled ==> 1 <= p.0 <= maxRow && 1 <= p.1 <= maxCol)
    }

    /** The active sheet of a new `Workbook()`: empty, titled "Sheet". */
    constructor ()
      ensures Valid() && title == "Sheet" && cells == map[] && filled == {} && widths == map[]
      ensures maxRow == 1 && maxCol == 1
    {
      title := "Sheet";
      cells := map[];
      filled := {};
      widths := map[];
      maxRow := 1;
      maxCol := 1;
    }

    /** `ws.cell(row=row, column=col, value=value)` with a value that is not None. */
    method SetCell(row: int, col: int, value: string)
      requires Valid() && 1 <= row && 1 <= col
      modifies this
      ensures Valid() && cells == old(cells)[(row, col) := value]
      ensures filled == old(filled) && widths == old(widths) && title == old(title)
      ensures maxRow == (if row > old(maxRow) then row else old(maxRow))
      ensures maxCol == (if col > old(maxCol) then col else old(maxCol))
    {
      cells := cells[(row, col) := value];
      if row > maxRow { maxRow := row; }
      if col > maxCol { maxCol := col; }
    }

    /** `ws.cell(row=row, column=col).fill = red_fill`; the cell is created if need be. */
    method SetFill(row: int, col: int)
      requires Valid() && 1 <= row && 1 <= col
      modifies this
      ensures Valid() && filled == old(filled) + {(row, col)}
      ensures cells == old(cells) && widths == old(widths) && title == old(title)
      ensures maxRow == (if row > old(maxRow) then row else old(maxRow))
      ensures maxCol == (if col > old(maxCol) then col else old(maxCol))
    {
      filled := filled + {(row, col)};
      if row > maxRow { maxRow := row; }
      if col > maxCol { maxCol := col; }
    }

    /** `ws.column_dimensions[letter].width = width`. */
    method SetWidth(col: int, width: nat)
      requires Valid()
      modifies this
      ensures Valid() && widths == old(widths)[col := width]
      ensures cells == old(cells) && filled == old(filled) && title == old(title)
      ensures maxRow == old(maxRow) && maxCol == old(maxCol)
    {
      widths := widths[col := width];
    }
  }

  /** `w` is the longest rendered value among rows 1..rows of column `col`, plus 2. */
  ghost predicate IsWidth(cells: map<(int, int), string>, col: int, rows: int, w: int) {
    (forall r :: 1 <= r <= rows ==> |Rendered(cells, r, col)| + 2 <= w)
    && (exists r :: 1 <= r <= rows && |Rendered(cells, r, col)| + 2 == w)
  }

  /** The width loop: `max_length` over every cell of the column, then `max_length + 2`. */
  method ColumnWidth(ws: Worksheet, col: int) returns (width: nat)
    requires ws.Valid() && 1 <= col
    ensures IsWidth(ws.cells, col, ws.maxRow, width)
  {
    var maxLength := 0;
    ghost var longest := 1;
    for r := 1 to ws.maxRow + 1
      invariant 1 <= longest <= ws.maxRow && (r > 1 ==> longest < r)
      invariant forall q :: 1 <= q < r ==> |Rendered(ws.cells, q, col)| <= maxLength
      invariant r > 1 ==> |Rendered(ws.cells, longest, col)| == maxLength
    {
      var length := |Rendered(ws.cells, r, col)|;
      if r == 1 || length > maxLength {
        maxLength := length;
        longest := r;
      }
    }
    width := maxLength + 2;
  }

  /** The width block of both writers: every column of the sheet gets its width. */
  method AutoFitColumns(ws: Worksheet)
    requires ws.Valid()
    modifies ws
    ensures ws.Valid()
    ensures ws.cells == old(ws.cells) && ws.filled == old(ws.filled) && ws.title == old(ws.title)
    ensures ws.maxRow == old(ws.maxRow) && ws.maxCol == old(ws.maxCol)
    ensures forall c :: c in ws.widths <==> c in old(ws.widths) || 1 <= c <= ws.maxCol
    ensures forall c :: c in old(ws.widths) && !(1 <= c <= ws.maxCol) ==> ws.widths[c] == old(ws.widths)[c]
    ensures forall c :: 1 <= c <= ws.maxCol ==> IsWidth(ws.cells, c, ws.maxRow, ws.widths[c])
  {
    for c := 1 to ws.maxCol + 1
      invariant ws.Valid()
      invariant ws.cells == old(ws.cells) && ws.filled == old(ws.filled) && ws.title == old(ws.title)
      invariant ws.maxRow == old(ws.maxRow) && ws.maxCol == old(ws.maxCol)
      invariant forall c' :: c' in ws.widths <==> c' in old(ws.widths) || 1 <= c' < c
      invariant forall c' :: c' in old(ws.widths) && !(1 <= c' < c) ==> ws.widths[c'] == old(ws.widths)[c']
      invariant forall c' :: 1 <= c' < c ==> IsWidth(ws.cells, c', ws.maxRow, ws.widths[c'])
    {
      var width := ColumnWidth(ws, c);
      ws.SetWidth(c, width);
    }
  }

  /** A column has only one width: the two conditions of IsWidth pin it down. */
  lemma WidthUnique(cells: map<(int, int), string>, col: int, rows: int, w1: int, w2: int)
    requires IsWidth(cells, col, rows, w1) && IsWidth(cells, col, rows, w2)
    ensures w1 == w2
  {
    var r1 :| 1 <= r1 <= rows && |Rendered(cells, r1, col)| + 2 == w1;
    var r2 :| 1 <= r2 <= rows && |Rendered(cells, r2, col)| + 2 == w2;
    assert w1 <= w2 && w2 <= w1;
  }
}
