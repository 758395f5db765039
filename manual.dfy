/**
 * Manual mode, `run_manual_check`: the three entry fields are trimmed, an empty name
 * stops the check, otherwise one lookup is made, its verdict is shown as text and
 * written to a one-row report. The message boxes, the status label and the window
 * refresh are not modelled.
 */
module Manual {
  import opened Wrappers
  import opened Text
  import opened Lookup
  import opened Worksheets
  import opened Reports

  const NotProvided: string := "Not provided"
  const NotAvailable: string := "N/A"
  const FailurePrefix: string := "Check failed: "
  /** How many matches the text lists at most. */
  const Shown: nat := 3

  /** The DOB line's value: the DOB, unless it is empty or still the placeholder. */
  function DobShown(dob: string): (shown: string) {
    if dob != "" && dob != DobPlaceholder then dob else NotProvided
  }

  /** The CNIC line's value: the CNIC, unless it is empty. */
  function CnicShown(cnic: string): (shown: string) {
    if cnic != "" then cnic else NotProvided
  }

  /** One field of a match as printed: its value, or "N/A" when the key is absent
      (KYC_Sentinel/main.py:209-211). */
  function FieldText(field: Option<string>): (text: string)
    ensures field.Some? ==> text == field.value
    ensures field.None? ==> text == NotAvailable
  {
    field.GetOr(NotAvailable)
  }

  /** The four lines listing one match, numbered `i`, and the blank line after them. */
  function MatchBlock(i: nat, hit: Hit): string {
    "Match " + Decimal(i) + ":\n"
    + "  Name: " + FieldText(hit.name) + "\n"
    + "  Dataset: " + FieldText(hit.dataset) + "\n"
    + "  Score: " + FieldText(hit.score) + "\n\n"
  }

  /** The blocks listed for the first three matches (KYC_Sentinel/main.py:207): at most
      three, the k-th numbered k + 1 and listing match k. */
  function MatchBlocks(matches: seq<Hit>): (blocks: seq<string>)
    ensures |blocks| == Min(Shown, |matches|) <= Shown
    ensures forall k :: 0 <= k < |blocks| ==> blocks[k] == MatchBlock(k + 1, matches[k])
  {
    seq(Min(Shown, |matches|), k requires 0 <= k < Min(Shown, |matches|) => MatchBlock(k + 1, matches[k]))
  }

  /** The parts written one after the other. */
  function Concat(parts: seq<string>): string {
    if parts == [] then "" else Concat(parts[..|parts| - 1]) + parts[|parts| - 1]
  }

  /** The text shown after a successful check. */
  function ManualText(name: string, dob: string, cnic: string, v: Verdict): string {
    var head := "Name: " + name + "\n"
      + "DOB: " + DobShown(dob) + "\n"
      + "CNIC: " + CnicShown(cnic) + "\n"
      + "Status: " + v.status + "\n"
      + Repeat('-', 50) + "\n";
    if v.matches != [] then
      head + "Found " + Decimal(|v.matches|) + " potential matches:\n\n" + Concat(MatchBlocks(v.matches))
    else head
  }

  /** The loop appending one block per listed match (KYC_Sentinel/main.py:207-211). */
  method ListMatches(matches: seq<Hit>) returns (text: string)
    ensures text == Concat(MatchBlocks(matches))
  {
    ghost var blocks := MatchBlocks(matches);
    text := "";
    var count := Min(Shown, |matches|);
    for i := 0 to count
      invariant text == Concat(blocks[..i])
    {
      assert blocks[..i + 1][..i] == blocks[..i];
      text := text + MatchBlock(i + 1, matches[i]);
    }
    assert blocks[..count] == blocks;
  }

  /** The appends that build the text shown after a check (KYC_Sentinel/main.py:199-211). */
  method ShowVerdict(name: string, dob: string, cnic: string, v: Verdict) returns (text: string)
    ensures text == ManualText(name, dob, cnic, v)
  {
    text := "Name: " + name + "\n";
    text := text + "DOB: " + DobShown(dob) + "\n";
    text := text + "CNIC: " + CnicShown(cnic) + "\n";
    text := text + "Status: " + v.status + "\n";
    text := text + Repeat('-', 50) + "\n";
    if v.matches != [] {
      text := text + "Found " + Decimal(|v.matches|) + " potential matches:\n\n";
      var listing := ListMatches(v.matches);
      text := text + listing;
    }
  }

  datatype ManualOutcome =
    | NameRequired
    | CheckFailed(error: string)
    | Checked(display: string, report: Report)

  /** A manual check: the names passed to the lookup, every value given to the progress
      bar, and how it ended. */
  datatype ManualRun = ManualRun(calls: seq<string>, progress: seq<real>, outcome: ManualOutcome)

  /** A lookup that answered: the verdict shown as text and saved as the one-row report. */
  method ReportVerdict(name: string, dob: string, cnic: string, body: Body) returns (outcome: ManualOutcome)
    ensures outcome.Checked?
    ensures outcome.display == ManualText(name, dob, cnic, Classify(body))
    ensures IsSheetFor(outcome.report, [SingleRowCells(name, dob, cnic, Classify(body).status)])
  {
    var v := Classify(body);
    var text := ShowVerdict(name, dob, cnic, v);
    var report := SaveSingleResult(name, dob, cnic, v.status);
    outcome := Checked(text, report);
  }

  /** `run_manual_check` on the three entry fields. */
  method RunManualCheck(nameEntry: string, dobEntry: string, cnicEntry: string, lookup: Oracle) returns (run: ManualRun)
    ensures run.outcome.NameRequired? <==> Strip(nameEntry) == []
    ensures run.outcome.NameRequired? ==> run.calls == [] && run.progress == []
    ensures !run.outcome.NameRequired? ==> run.calls == [Strip(nameEntry)]
    ensures run.outcome.CheckFailed? <==> Strip(nameEntry) != [] && lookup(0, Strip(nameEntry)).Raised?
    ensures run.outcome.CheckFailed? ==>
      run.outcome.error == FailurePrefix + lookup(0, Strip(nameEntry)).message && run.progress == [50.0, 0.0]
    ensures run.outcome.Checked? ==>
      var v := Classify(lookup(0, Strip(nameEntry)).body);
      run.progress == [50.0, 100.0]
      && run.outcome.display == ManualText(Strip(nameEntry), Strip(dobEntry), Strip(cnicEntry), v)
      && IsSheetFor(run.outcome.report, [SingleRowCells(Strip(nameEntry), Strip(dobEntry), Strip(cnicEntry), v.status)])
  {
    var name := Strip(nameEntry);
    var dob := Strip(dobEntry);
    var cnic := Strip(cnicEntry);
    if name == [] {
      return ManualRun([], [], NameRequired);
    }
    // the bar is set to 50 before the lookup, then to 0 on failure or 100 on success
    var answer := lookup(0, name);
    match answer
    case Raised(message) =>
      run := ManualRun([name], [50.0, 0.0], CheckFailed(FailurePrefix + message));
    case Parsed(body) =>
      var outcome := ReportVerdict(name, dob, cnic, body);
      run := ManualRun([name], [50.0, 100.0], outcome);
  }

  /** The text and the report agree on the DOB: the report cell is empty exactly when the
      text says "Not provided" for a DOB that was blank or the placeholder, and otherwise
      both carry the DOB itself. */
  lemma DobAgreement(dob: string)
    ensures ReportDob(dob) == "" <==> dob == "" || dob == DobPlaceholder
    ensures ReportDob(dob) == "" ==> DobShown(dob) == NotProvided
    ensures ReportDob(dob) != "" ==> DobShown(dob) == ReportDob(dob) == dob
  {
  }

  /** Only the status, the number of matches and the first three matches reach the text. */
  lemma TextShowsFirstThree(name: string, dob: string, cnic: string, v1: Verdict, v2: Verdict)
    requires v1.status == v2.status && |v1.matches| == |v2.matches|
    requires v1.matches[..Min(Shown, |v1.matches|)] == v2.matches[..Min(Shown, |v2.matches|)]
    ensures ManualText(name, dob, cnic, v1) == ManualText(name, dob, cnic, v2)
  {
    var b1 := MatchBlocks(v1.matches);
    var b2 := MatchBlocks(v2.matches);
    forall k | 0 <= k < |b1| ensures b1[k] == b2[k] {
      assert v1.matches[k] == v1.matches[..Min(Shown, |v1.matches|)][k];
      assert v2.matches[k] == v2.matches[..Min(Shown, |v2.matches|)][k];
    }
    assert b1 == b2;
  }

  /** The manual report's data row is filled exactly when the lookup found a match; the
      header row never is. */
  lemma ManualHighlight(report: Report, name: string, dob: string, cnic: string, body: Body, c: int)
    requires IsSheetFor(report, [SingleRowCells(name, dob, cnic, Classify(body).status)])
    requires 1 <= c <= |Headers|
    ensures (1, c) !in report.filled
    ensures (2, c) in report.filled <==> MatchesOf(body) != []
  {
    var results := [ResultRow(name, ReportDob(dob), cnic, Classify(body).status)];
    assert Rows(results) == [SingleRowCells(name, dob, cnic, Classify(body).status)];
    FilledIffMatchFound(report, results, 0, c);
  }
}
