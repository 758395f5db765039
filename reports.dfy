/**
 * The two report writers, `save_batch_results_to_excel` and `save_single_result_to_excel`:
 * a fresh sheet with a header row, one row per result, a fill on every cell of a
 * "Match Found" row, and each column as wide as its longest value plus 2.
 */
module Reports {
  import opened Lookup
  import opened Worksheets

  /** One entry of the batch's `results` list. */
  datatype ResultRow = ResultRow(name: string, dob: string, cnic: string, status: string)

  const Headers: seq<string> := ["Name", "DOB", "CNIC", "Status"]
  const SheetTitle: string := "KYC Results"
  const DobPlaceholder: string := "DD/MM/YYYY"

  /** The four cells of a result, in header order: Name, DOB, CNIC, Status. */
  function ResultCells(r: ResultRow): (cells: seq<string>)
    ensures |cells| == |Headers|
    ensures cells[0] == r.name && cells[1] == r.dob && cells[2] == r.cnic && cells[3] == r.status
  {
    [r.name, r.dob, r.cnic, r.status]
  }

  function Rows(results: seq<ResultRow>): (data: seq<seq<string>>)
    ensures |data| == |results|
    ensures forall k :: 0 <= k < |results| ==> data[k] == ResultCells(results[k])
  {
    seq(|results|, k requires 0 <= k < |results| => ResultCells(results[k]))
  }

  /** Every data row has one value per header. */
  predicate Rect(data: seq<seq<string>>) {
    forall j :: 0 <= j < |data| ==> |data[j]| == |Headers|
  }

  /** `p` lies in the first `rows` rows of the four report columns. */
  predicate InGrid(p: (int, int), rows: int) {
    1 <= p.0 <= rows && 1 <= p.1 <= |Headers|
  }

  /** The value a finished report holds at `p`: a header in row 1, data row `r - 2` below. */
  function Expected(data: seq<seq<string>>, p: (int, int)): string
    requires Rect(data) && InGrid(p, |data| + 1)
  {
    if p.0 == 1 then Headers[p.1 - 1] else data[p.0 - 2][p.1 - 1]
  }

  /** `p` is in a data row whose Status is exactly "Match Found". */
  predicate Highlighted(data: seq<seq<string>>, p: (int, int))
    requires Rect(data) && InGrid(p, |data| + 1)
  {
    p.0 >= 2 && data[p.0 - 2][3] == MatchFound
  }

  /** The cells and fills hold the header and the first `k` data rows, and nothing else. */
  ghost predicate Holds(cells: map<(int, int), string>, filled: set<(int, int)>, data: seq<seq<string>>, k: nat)
    requires Rect(data) && k <= |data|
  {
    (forall p :: p in cells <==> InGrid(p, k + 1))
    && (forall p :: p in cells ==> cells[p] == Expected(data, p))
    && (forall p :: p in filled <==> InGrid(p, k + 1) && Highlighted(data, p))
  }

  /** `rep` is the finished report for `data`: title, cells and fills as Holds says for
      all of `data`, and exactly the four columns sized. */
  ghost predicate IsSheetFor(rep: Report, data: seq<seq<string>>) {
    Rect(data) && rep.title == SheetTitle
    && Holds(rep.cells, rep.filled, data, |data|)
    && (forall c :: c in rep.widths <==> 1 <= c <= |Headers|)
    && (forall c :: 1 <= c <= |Headers| ==> IsWidth(rep.cells, c, |data| + 1, rep.widths[c]))
  }

  /** The header loop of both writers, on a fresh sheet. */
  method WriteHeaders(ws: Worksheet)
    requires ws.Valid() && ws.cells == map[] && ws.filled == {} && ws.maxRow == 1 && ws.maxCol == 1
    modifies ws
    ensures ws.Valid() && ws.maxRow == 1 && ws.maxCol == |Headers|
    ensures ws.filled == {} && ws.widths == old(ws.widths) && ws.title == old(ws.title)
    ensures forall p :: p in ws.cells <==> InGrid(p, 1)
    ensures forall p :: p in ws.cells ==> ws.cells[p] == Headers[p.1 - 1]
  {
    for col := 1 to |Headers| + 1
      invariant ws.Valid() && ws.maxRow == 1 && ws.maxCol == (if col == 1 then 1 else col - 1)
      invariant ws.filled == {} && ws.widths == old(ws.widths) && ws.title == old(ws.title)
      invariant forall p :: p in ws.cells <==> p.0 == 1 && 1 <= p.1 < col
      invariant forall p :: p in ws.cells ==> ws.cells[p] == Headers[p.1 - 1]
    {
      ws.SetCell(1, col, Headers[col - 1]);
    }
  }

  /** The fill loop of both writers (KYC_Sentinel/main.py:389-390): every one of the four
      cells of `row` gets the red fill. */
  method HighlightRow(ws: Worksheet, row: int)
    requires ws.Valid() && 1 <= row <= ws.maxRow && ws.maxCol == |Headers|
    modifies ws
    ensures ws.Valid() && ws.cells == old(ws.cells) && ws.widths == old(ws.widths) && ws.title == old(ws.title)
    ensures ws.maxRow == old(ws.maxRow) && ws.maxCol == old(ws.maxCol)
    ensures forall p :: p in ws.filled <==> p in old(ws.filled) || (p.0 == row && 1 <= p.1 <= |Headers|)
  {
    for col := 1 to |Headers| + 1
      invariant ws.Valid() && ws.cells == old(ws.cells) && ws.widths == old(ws.widths) && ws.title == old(ws.title)
      invariant ws.maxRow == old(ws.maxRow) && ws.maxCol == old(ws.maxCol)
      invariant forall p :: p in ws.filled <==> p in old(ws.filled) || (p.0 == row && 1 <= p.1 < col)
    {
      ws.SetFill(row, col);
    }
  }

  /** `cells2` is `cells` with row `row` set to `values`, one per column. */
  ghost predicate RowAdded(cells: map<(int, int), string>, cells2: map<(int, int), string>, row: int, values: seq<string>)
    requires |values| == |Headers|
  {
    (forall p :: p in cells2 <==> p in cells || (p.0 == row && 1 <= p.1 <= |Headers|))
    && (forall p :: p in cells2 ==> cells2[p] == if p.0 == row && 1 <= p.1 <= |Headers| then values[p.1 - 1] else cells[p])
  }

  /** `filled2` is `filled` plus, when `on`, every cell of row `row`. */
  ghost predicate FillsAdded(filled: set<(int, int)>, filled2: set<(int, int)>, row: int, on: bool) {
    forall p :: p in filled2 <==> p in filled || (on && p.0 == row && 1 <= p.1 <= |Headers|)
  }

  /** The four `ws.cell(row=row, column=c, value=...)` statements that write one result. */
  method WriteRow(ws: Worksheet, row: int, values: seq<string>)
    requires ws.Valid() && 1 <= row && ws.maxCol == |Headers| && |values| == |Headers|
    modifies ws
    ensures ws.Valid() && RowAdded(old(ws.cells), ws.cells, row, values)
    ensures ws.filled == old(ws.filled) && ws.widths == old(ws.widths) && ws.title == old(ws.title)
    ensures ws.maxRow == (if row > old(ws.maxRow) then row else old(ws.maxRow)) && ws.maxCol == old(ws.maxCol)
  {
    ghost var cells := ws.cells;
    ws.SetCell(row, 1, values[0]);
    ws.SetCell(row, 2, values[1]);
    ws.SetCell(row, 3, values[2]);
    ws.SetCell(row, 4, values[3]);
    RowAddedByUpdates(cells, row, values);
  }

  /** The four single-cell updates of WriteRow add exactly row `row`. */
  lemma RowAddedByUpdates(cells: map<(int, int), string>, row: int, values: seq<string>)
    requires |values| == |Headers|
    ensures RowAdded(cells, cells[(row, 1) := values[0]][(row, 2) := values[1]][(row, 3) := values[2]][(row, 4) := values[3]], row, values)
  {
    var cells2 := cells[(row, 1) := values[0]][(row, 2) := values[1]][(row, 3) := values[2]][(row, 4) := values[3]];
    forall p | p in cells2
      ensures cells2[p] == if p.0 == row && 1 <= p.1 <= |Headers| then values[p.1 - 1] else cells[p]
    {
      if p.0 == row && 1 <= p.1 <= |Headers| {
        assert p == (row, p.1);
      }
    }
  }

  /** Writing data row k (and filling it when its Status is "Match Found") extends what
      the sheet holds from the first k data rows to the first k + 1. */
  lemma HoldsAfterRow(cells: map<(int, int), string>, filled: set<(int, int)>,
                      cells2: map<(int, int), string>, filled2: set<(int, int)>,
                      data: seq<seq<string>>, k: nat)
    requires Rect(data) && k < |data|
    requires Holds(cells, filled, data, k)
    requires RowAdded(cells, cells2, k + 2, data[k])
    requires FillsAdded(filled, filled2, k + 2, data[k][3] == MatchFound)
    ensures Holds(cells2, filled2, data, k + 1)
  {
    forall p | p in cells2 ensures cells2[p] == Expected(data, p) {
      if p.0 != k + 2 {
        assert p in cells;
      }
    }
  }

  /** The data loop of the batch writer: `for row_idx, result in enumerate(results, 2)`. */
  method WriteResultRows(ws: Worksheet, results: seq<ResultRow>)
    requires ws.Valid() && ws.maxRow == 1 && ws.maxCol == |Headers|
    requires Holds(ws.cells, ws.filled, Rows(results), 0)
    modifies ws
    ensures ws.Valid() && ws.maxRow == |results| + 1 && ws.maxCol == |Headers|
    ensures ws.title == old(ws.title) && ws.widths == old(ws.widths)
    ensures Holds(ws.cells, ws.filled, Rows(results), |results|)
  {
    ghost var data := Rows(results);
    for k := 0 to |results|
      invariant ws.Valid() && ws.title == old(ws.title) && ws.widths == old(ws.widths)
      invariant ws.maxRow == k + 1 && ws.maxCol == |Headers|
      invariant Holds(ws.cells, ws.filled, data, k)
    {
      ghost var cells, filled := ws.cells, ws.filled;
      var rowIdx := k + 2;
      var result := results[k];
      assert data[k] == [result.name, result.dob, result.cnic, result.status];
      WriteRow(ws, rowIdx, [result.name, result.dob, result.cnic, result.status]);
      if result.status == MatchFound {
        HighlightRow(ws, rowIdx);
      }
      assert FillsAdded(filled, ws.filled, rowIdx, data[k][3] == MatchFound);
      HoldsAfterRow(cells, filled, ws.cells, ws.filled, data, k);
    }
  }

  /** The batch report: row 1 is the header, row k + 2 holds result k, a row is filled
      exactly when its Status is "Match Found", and each column is as wide as its
      longest value plus 2. Built on a new workbook, so it depends on `results` alone. */
  method SaveBatchResults(results: seq<ResultRow>) returns (report: Report)
    ensures IsSheetFor(report, Rows(results))
  {
    var ws := new Worksheet();
    ws.title := SheetTitle;
    WriteHeaders(ws);
    assert Holds(ws.cells, ws.filled, Rows(results), 0);
    WriteResultRows(ws, results);
    AutoFitColumns(ws);
    report := Report(ws.title, ws.cells, ws.filled, ws.widths);
  }

  /** The DOB cell of the single report (KYC_Sentinel/main.py:336): empty when the DOB is
      empty or still the placeholder, the DOB otherwise. */
  function ReportDob(dob: string): (cell: string)
    ensures cell == "" <==> dob == "" || dob == DobPlaceholder
    ensures cell != "" ==> cell == dob
  {
    if dob != "" && dob != DobPlaceholder then dob else ""
  }

  /** The single data row of the manual report. */
  function SingleRowCells(name: string, dob: string, cnic: string, status: string): seq<string> {
    [name, ReportDob(dob), cnic, status]
  }

  /** The single report: the batch layout with one data row, whose DOB cell is empty
      when the DOB was left blank or at its placeholder. */
  method SaveSingleResult(name: string, dob: string, cnic: string, status: string) returns (report: Report)
    ensures IsSheetFor(report, [SingleRowCells(name, dob, cnic, status)])
  {
    ghost var data := [SingleRowCells(name, dob, cnic, status)];
    var ws := new Worksheet();
    ws.title := SheetTitle;
    WriteHeaders(ws);
    assert Holds(ws.cells, ws.filled, data, 0);
    ghost var cells, filled := ws.cells, ws.filled;
    WriteRow(ws, 2, [name, ReportDob(dob), cnic, status]);
    if status == MatchFound {
      HighlightRow(ws, 2);
    }
    HoldsAfterRow(cells, filled, ws.cells, ws.filled, data, 0);
    AutoFitColumns(ws);
    report := Report(ws.title, ws.cells, ws.filled, ws.widths);
  }

  /** A report is determined by its data rows: nothing from an earlier sheet survives. */
  lemma SheetDetermined(r1: Report, r2: Report, data: seq<seq<string>>)
    requires IsSheetFor(r1, data) && IsSheetFor(r2, data)
    ensures r1 == r2
  {
    assert r1.cells == r2.cells;
    assert r1.filled == r2.filled;
    forall c | 1 <= c <= |Headers| ensures r1.widths[c] == r2.widths[c] {
      WidthUnique(r1.cells, c, |data| + 1, r1.widths[c], r2.widths[c]);
    }
    assert forall c :: c in r1.widths <==> c in r2.widths;
    assert r1.widths == r2.widths;
  }

  /** The manual report is the batch report of the one result it describes. */
  lemma SingleIsBatchOfOne(single: Report, batch: Report, name: string, dob: string, cnic: string, status: string)
    requires IsSheetFor(single, [SingleRowCells(name, dob, cnic, status)])
    requires IsSheetFor(batch, Rows([ResultRow(name, ReportDob(dob), cnic, status)]))
    ensures single == batch
  {
    assert Rows([ResultRow(name, ReportDob(dob), cnic, status)]) == [SingleRowCells(name, dob, cnic, status)];
    SheetDetermined(single, batch, [SingleRowCells(name, dob, cnic, status)]);
  }

  /** Every cell of result k's row is filled exactly when its Status is "Match Found";
      no header cell is filled. */
  lemma FilledIffMatchFound(rep: Report, results: seq<ResultRow>, k: int, c: int)
    requires IsSheetFor(rep, Rows(results)) && 1 <= c <= |Headers|
    ensures (1, c) !in rep.filled
    ensures 0 <= k < |results| ==> ((k + 2, c) in rep.filled <==> results[k].status == MatchFound)
  {
    var data := Rows(results);
    assert !Highlighted(data, (1, c));
    if 0 <= k < |results| {
      assert InGrid((k + 2, c), |data| + 1);
      assert data[k] == ResultCells(results[k]);
    }
  }

  /** Each column is at least as wide as its header plus 2, and at least as wide as any
      of its result values plus 2. */
  lemma WidthCoversHeaderAndValues(rep: Report, results: seq<ResultRow>, k: int, c: int)
    requires IsSheetFor(rep, Rows(results)) && 1 <= c <= |Headers|
    ensures rep.widths[c] >= |Headers[c - 1]| + 2
    ensures 0 <= k < |results| ==> rep.widths[c] >= |ResultCells(results[k])[c - 1]| + 2
  {
    var data := Rows(results);
    WidthCoversCell(rep, data, 1, c);
    assert Expected(data, (1, c)) == Headers[c - 1];
    if 0 <= k < |results| {
      WidthCoversCell(rep, data, k + 2, c);
      assert Expected(data, (k + 2, c)) == data[k][c - 1];
      assert data[k] == ResultCells(results[k]);
    }
  }

  /** The width of a column covers the value of each of its cells. */
  lemma WidthCoversCell(rep: Report, data: seq<seq<string>>, r: int, c: int)
    requires IsSheetFor(rep, data) && InGrid((r, c), |data| + 1)
    ensures rep.widths[c] >= |Expected(data, (r, c))| + 2
  {
    assert IsWidth(rep.cells, c, |data| + 1, rep.widths[c]);
    assert (r, c) in rep.cells && rep.cells[(r, c)] == Expected(data, (r, c));
    assert |Rendered(rep.cells, r, c)| + 2 <= rep.widths[c];
  }
}
