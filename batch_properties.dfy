/**
 * What the batch pipeline promises across rows and calls: the progress trace, the
 * alignment of rows with lookup calls, and the isolation of a failing lookup.
 */
module BatchProperties {
  import opened Lookup
  import opened Records
  import opened Reports
  import opened Batch

  /** After any row, the bar lies in (10, 90], and it reaches 90 exactly at the last row. */
  lemma RowProgressRange(i: nat, n: nat)
    requires i < n
    ensures 10.0 < RowProgress(i, n) <= 90.0
    ensures RowProgress(i, n) == 90.0 <==> i == n - 1
  {
    var f := (i + 1) as real / n as real;
    assert f * n as real == (i + 1) as real;
    assert 0.0 < f <= 1.0;
    assert f == 1.0 <==> i + 1 == n;
  }

  /** A later row sets a strictly larger value. */
  lemma RowProgressIncreasing(i: nat, j: nat, n: nat)
    requires i < j < n
    ensures RowProgress(i, n) < RowProgress(j, n)
  {
    var f := (i + 1) as real / n as real;
    var g := (j + 1) as real / n as real;
    assert f * n as real == (i + 1) as real;
    assert g * n as real == (j + 1) as real;
    assert (g - f) * n as real == (j - i) as real;
    assert f < g;
  }

  /** Every entry of `p` is the value after one of the first `i` rows of `n`, and the rows
      come in strictly increasing order. */
  predicate OrderedRowEntries(p: seq<Progress>, i: nat, n: nat) {
    (forall k :: 0 <= k < |p| ==> p[k].AfterRow? && p[k].index < i && p[k].total == n)
    && (forall k, l :: 0 <= k < l < |p| ==> p[k].index < p[l].index)
  }

  /** The per-row progress entries of the first `i` rows are row entries of earlier rows,
      in strictly increasing row order. */
  lemma {:induction false} SuccessProgressOrdered(recs: seq<Record>, lookup: Oracle, i: nat)
    requires i <= |recs|
    ensures OrderedRowEntries(SuccessProgress(recs, lookup, i), i, |recs|)
  {
    if i > 0 {
      SuccessProgressOrdered(recs, lookup, i - 1);
      var p := SuccessProgress(recs, lookup, i - 1);
      var q := SuccessProgress(recs, lookup, i);
      assert q[..|p|] == p;
      assert |q| > |p| ==> q[|p|] == AfterRow(i - 1, |recs|);
      forall k | 0 <= k < |q| ensures q[k].AfterRow? && q[k].index < i && q[k].total == |recs| {
        if k < |p| { assert q[k] == p[k]; }
      }
      forall k, l | 0 <= k < l < |q| ensures q[k].index < q[l].index {
        assert q[k] == p[k];
        if l < |p| { assert q[l] == p[l]; }
      }
    }
  }

  /** Row j has a progress entry exactly when its lookup did not raise. */
  lemma {:induction false} SuccessProgressEntries(recs: seq<Record>, lookup: Oracle, i: nat)
    requires i <= |recs|
    ensures forall j :: 0 <= j < i ==>
      (AfterRow(j, |recs|) in SuccessProgress(recs, lookup, i) <==> !Raises(RowAnswer(recs, lookup, j)))
  {
    if i > 0 {
      SuccessProgressEntries(recs, lookup, i - 1);
      SuccessProgressOrdered(recs, lookup, i - 1);
      var p := SuccessProgress(recs, lookup, i - 1);
      var step := if Raises(RowAnswer(recs, lookup, i - 1)) then [] else [AfterRow(i - 1, |recs|)];
      assert SuccessProgress(recs, lookup, i) == p + step;
      assert forall k :: 0 <= k < |p| ==> p[k] != AfterRow(i - 1, |recs|);
      assert AfterRow(i - 1, |recs|) !in p;
      forall j | 0 <= j < i
        ensures AfterRow(j, |recs|) in p + step <==> AfterRow(j, |recs|) in p || AfterRow(j, |recs|) in step
      {
      }
    }
  }

  /** The whole batch trace, 10, the row values, 90, 100: it starts at 10, ends at 100, and
      never goes down. */
  lemma BatchProgressMonotone(recs: seq<Record>, lookup: Oracle)
    ensures var trace := [Percent(10.0)] + SuccessProgress(recs, lookup, |recs|) + [Percent(90.0)] + [Percent(100.0)];
      (forall k :: 0 <= k < |trace| ==> ValidProgress(trace[k]))
      && ProgressValue(trace[0]) == 10.0 && ProgressValue(trace[|trace| - 1]) == 100.0
      && (forall k :: 0 <= k < |trace| - 1 ==> ProgressValue(trace[k]) <= ProgressValue(trace[k + 1]))
  {
    var p := SuccessProgress(recs, lookup, |recs|);
    var trace := [Percent(10.0)] + p + [Percent(90.0)] + [Percent(100.0)];
    SuccessProgressOrdered(recs, lookup, |recs|);
    assert forall k :: 0 <= k < |p| ==> trace[k + 1] == p[k];
    forall k | 0 <= k < |trace| - 1
      ensures ValidProgress(trace[k]) && ProgressValue(trace[k]) <= ProgressValue(trace[k + 1])
    {
      if k == 0 {
        if p != [] {
          RowProgressRange(p[0].index, |recs|);
        }
      } else if k < |p| {
        RowProgressIncreasing(p[k - 1].index, p[k].index, |recs|);
      } else if k == |p| {
        RowProgressRange(p[k - 1].index, |recs|);
      }
    }
  }

  /** The names looked up for the first j rows begin the names looked up for the first i. */
  lemma {:induction false} LookupNamesPrefix(recs: seq<Record>, j: nat, i: nat)
    requires j <= i <= |recs|
    ensures LookupNames(recs, j) <= LookupNames(recs, i)
  {
    if j < i {
      LookupNamesPrefix(recs, j, i - 1);
      var a := LookupNames(recs, j);
      var b := LookupNames(recs, i - 1);
      var c := LookupNames(recs, i);
      assert c[..|b|] == b;
      assert c[..|a|] == b[..|a|] == a;
    }
  }

  /** No blank name is ever passed to the lookup. */
  lemma {:induction false} CalledNamesNotBlank(recs: seq<Record>, n: nat)
    requires n <= |recs|
    ensures forall k :: 0 <= k < |LookupNames(recs, n)| ==> !IsBlankName(LookupNames(recs, n)[k])
  {
    if n > 0 {
      CalledNamesNotBlank(recs, n - 1);
    }
  }

  /** A blank row makes no call; any other row makes exactly the next call, with its own
      name. */
  lemma CallOfRow(recs: seq<Record>, i: nat)
    requires i < |recs|
    ensures IsBlankName(recs[i].name) ==> CallsBefore(recs, i + 1) == CallsBefore(recs, i)
    ensures !IsBlankName(recs[i].name) ==>
      CallsBefore(recs, i + 1) == CallsBefore(recs, i) + 1
      && CallsBefore(recs, i) < |LookupNames(recs, |recs|)|
      && LookupNames(recs, |recs|)[CallsBefore(recs, i)] == recs[i].name
  {
    LookupNamesPrefix(recs, i + 1, |recs|);
  }

  /** What the batch records for row i: the row's trimmed fields, and a status that is the
      "no name" error for a blank name, and otherwise comes from the row's own call, which
      carries the row's name: "Error: " and the message when that call raised, the
      classification of the body when it answered. */
  lemma RowOutcome(rows: seq<Row>, lookup: Oracle, results: seq<ResultRow>, calls: seq<string>, i: nat)
    requires AllHaveRequired(rows) && Screened(rows, lookup, results, calls) && i < |rows|
    ensures var rec := NormalizeRow(rows[i]);
      results[i].name == rec.name && results[i].dob == rec.dob && results[i].cnic == rec.cnic
      && (IsBlankName(rec.name) ==> results[i].status == NoNameStatus)
      && (!IsBlankName(rec.name) ==>
            var c := CallsBefore(NormalizeAll(rows), i);
            c < |calls| && calls[c] == rec.name
            && (lookup(c, rec.name).Raised? ==> results[i].status == ErrorPrefix + lookup(c, rec.name).message)
            && (lookup(c, rec.name).Parsed? ==> results[i].status == Classify(lookup(c, rec.name).body).status))
  {
    var recs := NormalizeAll(rows);
    CallOfRow(recs, i);
    ScreenRowStatus(recs[i], RowAnswer(recs, lookup, i));
  }

  /** A lookup that misbehaves spoils only its own row: the calls made do not depend on the
      answers, and two lookups that answer alike on every call but call k give the same
      result on every row other than the one that makes call k. */
  lemma FailureIsolated(rows: seq<Row>, lookup1: Oracle, lookup2: Oracle, k: nat,
                        results1: seq<ResultRow>, calls1: seq<string>,
                        results2: seq<ResultRow>, calls2: seq<string>)
    requires AllHaveRequired(rows)
    requires Screened(rows, lookup1, results1, calls1) && Screened(rows, lookup2, results2, calls2)
    requires forall c, name :: c != k ==> lookup1(c, name) == lookup2(c, name)
    ensures calls1 == calls2 && |results1| == |results2| == |rows|
    ensures forall i :: 0 <= i < |rows| ==>
      (IsBlankName(NormalizeRow(rows[i]).name) || CallsBefore(NormalizeAll(rows), i) != k) ==> results1[i] == results2[i]
  {
    var recs := NormalizeAll(rows);
    forall i | 0 <= i < |rows| && (IsBlankName(NormalizeRow(rows[i]).name) || CallsBefore(recs, i) != k)
      ensures results1[i] == results2[i]
    {
      var rec := recs[i];
      assert rec == NormalizeRow(rows[i]);
      if !IsBlankName(rec.name) {
        var c := CallsBefore(recs, i);
        assert lookup1(c, rec.name) == lookup2(c, rec.name);
      }
      assert RowAnswer(recs, lookup1, i) == RowAnswer(recs, lookup2, i);
    }
  }
}
