/**
 * The batch pipeline, `_process_batch_check`: the required-column check, the loop that
 * normalises each row, looks its name up and appends one result, and the progress bar.
 * The CSV arrives already parsed; the thread, the text log and the message boxes are
 * not modelled.
 */
module Batch {
  import opened Wrappers
  import opened Text
  import opened Lookup
  import opened Records
  import opened Worksheets
  import opened Reports

  /** A parsed CSV file: its header and its rows. */
  datatype Table = Table(columns: seq<string>, rows: seq<Row>)

  /** Every row has a cell for every column, as a DataFrame does. */
  predicate WellFormed(t: Table) {
    forall i, c :: 0 <= i < |t.rows| && c in t.columns ==> c in t.rows[i]
  }

  const RequiredColumns: seq<string> := ["Name", "DOB", "CNIC"]
  const ErrorPrefix: string := "Error: "
  const NoNameStatus: string := "Error: No name provided"

  /** `r` is `s` with some elements deleted, the rest kept in order. */
  predicate IsSubsequence(r: seq<string>, s: seq<string>)
    decreases |s|
  {
    if r == [] then true
    else if s == [] then false
    else if r[0] == s[0] then IsSubsequence(r[1..], s[1..])
    else IsSubsequence(r, s[1..])
  }

  /** The columns of `wanted` that `header` lacks, in the order of `wanted` and with their
      repetitions (KYC_Sentinel/main.py:251). */
  function Absent(wanted: seq<string>, header: seq<string>): (missing: seq<string>)
    ensures forall c :: c in missing <==> c in wanted && c !in header
    ensures forall c :: multiset(missing)[c] == if c in header then 0 else multiset(wanted)[c]
    ensures |missing| <= |wanted|
    ensures IsSubsequence(missing, wanted)
  {
    if wanted == [] then []
    else
      var rest := Absent(wanted[1..], header);
      assert wanted == [wanted[0]] + wanted[1..];
      if wanted[0] in header then rest else [wanted[0]] + rest
  }

  /** The required columns the header lacks, in the order Name, DOB, CNIC. */
  function MissingColumns(header: seq<string>): (missing: seq<string>)
    ensures forall c :: c in missing <==> c in RequiredColumns && c !in header
    ensures IsSubsequence(missing, RequiredColumns)
  {
    Absent(RequiredColumns, header)
  }

  const MissingPrefix: string := "CSV missing required columns: "

  /** The message box text when columns are missing (KYC_Sentinel/main.py:254). */
  function MissingMessage(missing: seq<string>): string {
    MissingPrefix + Join(missing, ", ")
  }

  /** The message names every missing column, in order, separated by ", ". */
  lemma MissingMessageLists(header: seq<string>)
    ensures var missing := MissingColumns(header);
      var msg := MissingMessage(missing);
      |missing| <= 3
      && (|missing| == 1 ==> msg == MissingPrefix + missing[0])
      && (|missing| == 2 ==> msg == MissingPrefix + (missing[0] + ", " + missing[1]))
      && (|missing| == 3 ==> msg == MissingPrefix + (missing[0] + ", " + missing[1] + ", " + missing[2]))
  {
    JoinFew(MissingColumns(header), ", ");
  }

  /** A header with CNIC but neither Name nor DOB lacks exactly Name and DOB, in that order. */
  lemma MissingNameAndDob()
    ensures var missing := MissingColumns(["CNIC"]);
      |missing| == 2 && missing[0] == "Name" && missing[1] == "DOB"
  {
    var header := ["CNIC"];
    assert "Name" !in header;
    assert RequiredColumns[1..] == ["DOB", "CNIC"];
    var later := Absent(RequiredColumns[1..], header);
    MissingDob();
    assert Absent(RequiredColumns, header) == [RequiredColumns[0]] + later;
  }

  /** Of DOB and CNIC, a header with only CNIC lacks DOB. */
  lemma MissingDob()
    ensures var later := Absent(["DOB", "CNIC"], ["CNIC"]);
      |later| == 1 && later[0] == "DOB"
  {
    var header := ["CNIC"];
    var rest := ["DOB", "CNIC"];
    assert "DOB" !in header && "CNIC" in header;
    assert rest[1..] == ["CNIC"];
    assert Absent(rest[1..], header) == [];
    assert Absent(rest, header) == [rest[0]] + Absent(rest[1..], header);
  }

  /** Its message names the two columns separated by ", ". */
  lemma MissingNameAndDobMessage()
    ensures MissingMessage(MissingColumns(["CNIC"])) == MissingPrefix + ("Name" + ", " + "DOB")
  {
    MissingNameAndDob();
    JoinFew(MissingColumns(["CNIC"]), ", ");
  }

  predicate AllHaveRequired(rows: seq<Row>) {
    forall i :: 0 <= i < |rows| ==> HasRequired(rows[i])
  }

  /** With no column missing, every row of a well-formed table can be normalised. */
  lemma RequiredColumnsInRows(t: Table)
    requires WellFormed(t) && MissingColumns(t.columns) == []
    ensures AllHaveRequired(t.rows)
  {
    assert "Name" in RequiredColumns && "DOB" in RequiredColumns && "CNIC" in RequiredColumns;
    assert "Name" in t.columns && "DOB" in t.columns && "CNIC" in t.columns;
  }

  function NormalizeAll(rows: seq<Row>): (recs: seq<Record>)
    requires AllHaveRequired(rows)
    ensures |recs| == |rows| && forall i :: 0 <= i < |rows| ==> recs[i] == NormalizeRow(rows[i])
  {
    seq(|rows|, i requires 0 <= i < |rows| => NormalizeRow(rows[i]))
  }

  /** The names looked up for the first `n` records, in order: those whose name is not
      blank. */
  function LookupNames(recs: seq<Record>, n: nat): (names: seq<string>)
    requires n <= |recs|
    ensures |names| <= n
  {
    if n == 0 then []
    else LookupNames(recs, n - 1) + (if IsBlankName(recs[n - 1].name) then [] else [recs[n - 1].name])
  }

  /** The number of lookups made before row i. */
  function CallsBefore(recs: seq<Record>, i: nat): nat
    requires i <= |recs|
  {
    |LookupNames(recs, i)|
  }

  /** What the lookup of row i answered, or None when its name is blank and no lookup is
      made. */
  function RowAnswer(recs: seq<Record>, lookup: Oracle, i: nat): Option<Answer>
    requires i < |recs|
  {
    if IsBlankName(recs[i].name) then None else Some(lookup(CallsBefore(recs, i), recs[i].name))
  }

  /** The result of one row: the record's fields with the status the loop gives it. */
  function ScreenRow(rec: Record, answer: Option<Answer>): ResultRow {
    var status :=
      match answer
      case None => NoNameStatus
      case Some(Raised(message)) => ErrorPrefix + message
      case Some(Parsed(body)) => Classify(body).status;
    ResultRow(rec.name, rec.dob, rec.cnic, status)
  }

  /** A row's result keeps its record's fields; its status is the "no name" error when no
      lookup was made, the raised message after "Error: " when the lookup raised, and
      otherwise "Match Found" exactly when the body held a match and "Clear" exactly when
      it held none. */
  lemma ScreenRowStatus(rec: Record, answer: Option<Answer>)
    ensures var r := ScreenRow(rec, answer);
      r.name == rec.name && r.dob == rec.dob && r.cnic == rec.cnic
      && (answer.None? ==> r.status == NoNameStatus)
      && (answer.Some? && answer.value.Raised? ==> r.status == ErrorPrefix + answer.value.message)
      && (r.status == MatchFound <==> answer.Some? && answer.value.Parsed? && MatchesOf(answer.value.body) != [])
      && (r.status == Clear <==> answer.Some? && answer.value.Parsed? && MatchesOf(answer.value.body) == [])
  {
    var r := ScreenRow(rec, answer);
    if answer.None? || answer.value.Raised? {
      assert r.status[0] == 'E';
    }
  }

  /** The results of the first `i` rows, as the loop appends them. */
  function ResultsUpTo(recs: seq<Record>, lookup: Oracle, i: nat): (results: seq<ResultRow>)
    requires i <= |recs|
    ensures |results| == i
  {
    if i == 0 then [] else ResultsUpTo(recs, lookup, i - 1) + [ScreenRow(recs[i - 1], RowAnswer(recs, lookup, i - 1))]
  }

  /** Entry j of the accumulated results is the screening of row j. */
  lemma {:induction false} ResultsUpToAt(recs: seq<Record>, lookup: Oracle, i: nat, j: nat)
    requires j < i <= |recs|
    ensures ResultsUpTo(recs, lookup, i)[j] == ScreenRow(recs[j], RowAnswer(recs, lookup, j))
  {
    if j < i - 1 {
      ResultsUpToAt(recs, lookup, i - 1, j);
    } else if i > 1 {
      ResultsUpToAt(recs, lookup, i - 1, 0);
    }
  }

  predicate Raises(answer: Option<Answer>) {
    answer.Some? && answer.value.Raised?
  }

  /** The bar's value after row `i` of `n` (KYC_Sentinel/main.py:284), in exact arithmetic:
      the share of rows done, scaled from 10 to 90. */
  function RowProgress(i: nat, n: nat): real
    requires i < n
  {
    ((i + 1) as real / n as real) * 80.0 + 10.0
  }

  /** One value given to the progress bar: a fixed percentage, or the value set after row
      `index` of `total`. Kept symbolic so that the loop's bookkeeping does not carry the
      division. */
  datatype Progress = Percent(percent: real) | AfterRow(index: nat, total: nat)

  predicate ValidProgress(p: Progress) {
    p.AfterRow? ==> p.index < p.total
  }

  function ProgressValue(p: Progress): real
    requires ValidProgress(p)
  {
    match p
    case Percent(v) => v
    case AfterRow(i, n) => RowProgress(i, n)
  }

  /** The progress entries set while processing `recs[..i]`: one per row whose lookup did
      not raise. */
  function SuccessProgress(recs: seq<Record>, lookup: Oracle, i: nat): seq<Progress>
    requires i <= |recs|
  {
    if i == 0 then []
    else SuccessProgress(recs, lookup, i - 1)
         + (if Raises(RowAnswer(recs, lookup, i - 1)) then [] else [AfterRow(i - 1, |recs|)])
  }

  /** The outcome of one batch run. `progress` lists every value given to the progress bar,
      `calls` every name passed to the lookup. */
  datatype BatchRun =
    | Aborted(progress: seq<Progress>, message: string)
    | Finished(progress: seq<Progress>, calls: seq<string>, results: seq<ResultRow>, report: Report, summary: string)

  const SummaryHead: string := "Batch processing completed. "
  const SummaryTail: string := " records processed."

  /** The completion text of the status label (KYC_Sentinel/main.py:311). */
  function Summary(count: nat): string {
    SummaryHead + Decimal(count) + SummaryTail
  }

  /** The completion text is the fixed head and tail around a run of digits that reads
      back as the count. */
  lemma SummaryCount(count: nat)
    ensures var s := Summary(count);
      |SummaryHead| + |SummaryTail| < |s|
      && s[..|SummaryHead|] == SummaryHead && s[|s| - |SummaryTail|..] == SummaryTail
      && var digits := s[|SummaryHead|..|s| - |SummaryTail|];
         AllDigits(digits) && DecimalValue(digits) == count
  {
    var s := Summary(count);
    var d := Decimal(count);
    assert s[|SummaryHead|..|s| - |SummaryTail|] == d;
    DecimalRoundTrip(count);
  }

  /** `results` holds one entry per row, in row order, each the screening of that row;
      `calls` lists the names looked up, in order. */
  ghost predicate Screened(rows: seq<Row>, lookup: Oracle, results: seq<ResultRow>, calls: seq<string>)
    requires AllHaveRequired(rows)
  {
    var recs := NormalizeAll(rows);
    |results| == |recs|
    && (forall i :: 0 <= i < |recs| ==> results[i] == ScreenRow(recs[i], RowAnswer(recs, lookup, i)))
    && calls == LookupNames(recs, |recs|)
  }

  /** What row i adds to the calls, the results and the progress entries of the rows before
      it. */
  lemma ScreenStep(recs: seq<Record>, lookup: Oracle, i: nat)
    requires i < |recs|
    ensures RowAnswer(recs, lookup, i)
      == if IsBlankName(recs[i].name) then None else Some(lookup(|LookupNames(recs, i)|, recs[i].name))
    ensures LookupNames(recs, i + 1)
      == LookupNames(recs, i) + (if IsBlankName(recs[i].name) then [] else [recs[i].name])
    ensures ResultsUpTo(recs, lookup, i + 1)
      == ResultsUpTo(recs, lookup, i) + [ScreenRow(recs[i], RowAnswer(recs, lookup, i))]
    ensures SuccessProgress(recs, lookup, i + 1)
      == SuccessProgress(recs, lookup, i) + (if Raises(RowAnswer(recs, lookup, i)) then [] else [AfterRow(i, |recs|)])
  {
  }

  /** The body of the row loop for one normalised record, `made` lookups having been made
      before it: no lookup for a blank name, otherwise one lookup whose answer decides the
      status. */
  method CheckRecord(rec: Record, lookup: Oracle, made: nat) returns (result: ResultRow, looked: bool, raised: bool)
    ensures looked == !IsBlankName(rec.name)
    ensures var answer := if looked then Some(lookup(made, rec.name)) else None;
      result == ScreenRow(rec, answer) && raised == Raises(answer)
  {
    var status: string;
    looked, raised := false, false;
    if IsBlankName(rec.name) {
      status := NoNameStatus;
    } else {
      looked := true;
      var answer := lookup(made, rec.name);
      match answer
      case Raised(message) =>
        // the except branch: the row's own fields, the exception's text as status
        status := ErrorPrefix + message;
        raised := true;
      case Parsed(body) =>
        status := Classify(body).status;
    }
    result := ResultRow(rec.name, rec.dob, rec.cnic, status);
  }

  /** The row loop: one result per row in order, a lookup exactly for the non-blank
      names, and a progress value for every row whose lookup did not raise. */
  method ScreenRows(rows: seq<Row>, lookup: Oracle) returns (results: seq<ResultRow>, calls: seq<string>, progress: seq<Progress>)
    requires AllHaveRequired(rows)
    ensures Screened(rows, lookup, results, calls)
    ensures progress == SuccessProgress(NormalizeAll(rows), lookup, |rows|)
  {
    ghost var recs := NormalizeAll(rows);
    results, calls, progress := [], [], [];
    var totalRows := |rows|;
    for i := 0 to totalRows
      invariant totalRows == |recs|
      invariant results == ResultsUpTo(recs, lookup, i)
      invariant calls == LookupNames(recs, i)
      invariant progress == SuccessProgress(recs, lookup, i)
    {
      ScreenStep(recs, lookup, i);
      var rec := NormalizeRow(rows[i]);
      assert rec == recs[i];
      var result, looked, raised := CheckRecord(rec, lookup, |calls|);
      if looked {
        calls := calls + [rec.name];
      }
      results := results + [result];
      if !raised {
        progress := progress + [AfterRow(i, totalRows)];
      }
    }
    assert recs[..totalRows] == recs;
    forall j | 0 <= j < |recs| ensures results[j] == ScreenRow(recs[j], RowAnswer(recs, lookup, j)) {
      ResultsUpToAt(recs, lookup, |recs|, j);
    }
  }

  /** The batch: aborted before any row when a column is missing; otherwise the rows
      screened as ScreenRows says, progress 10, the per-row values, 90, the report, then
      100. */
  method ProcessBatch(table: Table, lookup: Oracle) returns (run: BatchRun)
    requires WellFormed(table)
    ensures run.Aborted? <==> MissingColumns(table.columns) != []
    ensures run.Aborted? ==> run.progress == [Percent(10.0)] && run.message == MissingMessage(MissingColumns(table.columns))
    ensures run.Finished? ==>
      AllHaveRequired(table.rows)
      && Screened(table.rows, lookup, run.results, run.calls)
      && run.progress == [Percent(10.0)] + SuccessProgress(NormalizeAll(table.rows), lookup, |table.rows|) + [Percent(90.0)] + [Percent(100.0)]
      && IsSheetFor(run.report, Rows(run.results))
      && run.summary == Summary(|run.results|)
  {
    var progress := [Percent(10.0)];
    var missing := MissingColumns(table.columns);
    if missing != [] {
      return Aborted(progress, MissingMessage(missing));
    }
    RequiredColumnsInRows(table);
    var results, calls, rowProgress := ScreenRows(table.rows, lookup);
    progress := progress + rowProgress + [Percent(90.0)];
    var report := SaveBatchResults(results);
    progress := progress + [Percent(100.0)];
    run := Finished(progress, calls, results, report, Summary(|results|));
  }
}
