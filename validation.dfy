/**
 * Row validation after coercion: rows whose DATA or TMEDIA could not be converted are
 * counted, column by column, and dropped; a table left empty stops the run.
 */
module Validation {
  import opened Wrappers
  import opened Dates
  import opened Subsequences

  /**
   * One table row as the converters leave it: `None` where `pd.to_datetime` gave NaT or
   * `pd.to_numeric` gave NaN. TMIN and TMAX are also `None` when they were not mapped.
   */
  datatype CoercedRow = CoercedRow(date: Option<Date>, tmedia: Option<real>, tmin: Option<real>, tmax: Option<real>)

  /** A row that survived `dropna(subset=["DATA", "TMEDIA"])`. */
  datatype Row = Row(date: Date, tmedia: real, tmin: Option<real>, tmax: Option<real>)

  /** The same row, seen again as a coerced row. */
  function Lift(r: Row): CoercedRow {
    CoercedRow(Some(r.date), Some(r.tmedia), r.tmin, r.tmax)
  }

  function LiftAll(rows: seq<Row>): (lifted: seq<CoercedRow>)
    ensures |lifted| == |rows|
    ensures forall i :: 0 <= i < |rows| ==> lifted[i] == Lift(rows[i])
  {
    seq(|rows|, i requires 0 <= i < |rows| => Lift(rows[i]))
  }

  predicate Usable(r: CoercedRow) {
    r.date.Some? && r.tmedia.Some?
  }

  /** `df1["DATA"].isna().sum()`. */
  function InvalidDates(rows: seq<CoercedRow>): (n: nat)
    ensures n <= |rows|
    ensures n == 0 <==> forall i :: 0 <= i < |rows| ==> rows[i].date.Some?
  {
    if rows == [] then 0
    else
      assert forall i :: 1 <= i < |rows| ==> rows[1..][i - 1] == rows[i];
      (if rows[0].date.None? then 1 else 0) + InvalidDates(rows[1..])
  }

  /** `df1["TMEDIA"].isna().sum()`. */
  function InvalidMeans(rows: seq<CoercedRow>): (n: nat)
    ensures n <= |rows|
    ensures n == 0 <==> forall i :: 0 <= i < |rows| ==> rows[i].tmedia.Some?
  {
    if rows == [] then 0
    else
      assert forall i :: 1 <= i < |rows| ==> rows[1..][i - 1] == rows[i];
      (if rows[0].tmedia.None? then 1 else 0) + InvalidMeans(rows[1..])
  }

  /**
   * The number of rows lacking both values; each of them is in both counts above.
   * DroppedRowsCounted relates it to the rows DropInvalid removes.
   */
  function InvalidBoth(rows: seq<CoercedRow>): (n: nat)
    ensures n <= InvalidDates(rows) && n <= InvalidMeans(rows)
  {
    if rows == [] then 0
    else (if rows[0].date.None? && rows[0].tmedia.None? then 1 else 0) + InvalidBoth(rows[1..])
  }

  /** `dropna(subset=["DATA", "TMEDIA"])`: the usable rows, in their original order. */
  function DropInvalid(rows: seq<CoercedRow>): (kept: seq<Row>)
    ensures |kept| <= |rows|
    ensures forall r :: r in kept <==> Lift(r) in rows
    ensures kept == [] <==> forall i :: 0 <= i < |rows| ==> !Usable(rows[i])
  {
    if rows == [] then []
    else
      var rest := DropInvalid(rows[1..]);
      assert forall c :: c in rows <==> c == rows[0] || c in rows[1..];
      assert forall i :: 1 <= i < |rows| ==> rows[1..][i - 1] == rows[i];
      if Usable(rows[0]) then
        [Row(rows[0].date.value, rows[0].tmedia.value, rows[0].tmin, rows[0].tmax)] + rest
      else rest
  }

  /** Dropping works row by row, so it keeps the order of the table. */
  lemma {:induction false} DropInvalidAppend(a: seq<CoercedRow>, b: seq<CoercedRow>)
    ensures DropInvalid(a + b) == DropInvalid(a) + DropInvalid(b)
  {
    if a == [] {
      assert a + b == b;
    } else {
      assert (a + b)[0] == a[0];
      assert (a + b)[1..] == a[1..] + b;
      DropInvalidAppend(a[1..], b);
    }
  }

  /** The kept rows, seen as coerced rows, are a subsequence of the table. */
  lemma {:induction false} DropInvalidIsSubsequence(rows: seq<CoercedRow>)
    ensures IsSubsequence(LiftAll(DropInvalid(rows)), rows)
  {
    if rows != [] {
      DropInvalidIsSubsequence(rows[1..]);
      var rest := DropInvalid(rows[1..]);
      assert rows == [rows[0]] + rows[1..];
      if Usable(rows[0]) {
        var r := Row(rows[0].date.value, rows[0].tmedia.value, rows[0].tmin, rows[0].tmax);
        assert LiftAll([r] + rest) == [rows[0]] + LiftAll(rest);
        KeepHead(rows[0], LiftAll(rest), rows[1..]);
      } else {
        DropHead(rows[0], LiftAll(rest), rows[1..]);
      }
    }
  }

  /** Lifting keeps subsequences: `Lift` loses nothing. */
  lemma {:induction false} LiftAllSubsequence(a: seq<Row>, b: seq<Row>)
    requires IsSubsequence(a, b)
    ensures IsSubsequence(LiftAll(a), LiftAll(b))
    decreases |b|
  {
    if a != [] {
      assert LiftAll(b)[1..] == LiftAll(b[1..]);
      if a[0] == b[0] {
        assert LiftAll(a)[1..] == LiftAll(a[1..]);
        LiftAllSubsequence(a[1..], b[1..]);
      } else {
        LiftAllSubsequence(a, b[1..]);
      }
    }
  }

  /** A table that is already clean passes unchanged. */
  lemma {:induction false} DropInvalidClean(rows: seq<Row>)
    ensures DropInvalid(LiftAll(rows)) == rows
  {
    if rows != [] {
      assert LiftAll(rows)[1..] == LiftAll(rows[1..]);
      DropInvalidClean(rows[1..]);
    }
  }

  /**
   * Every dropped row is counted at least once, and a row lacking both values is counted
   * twice: the rows removed are the two counts less the rows they share.
   */
  lemma {:induction false} DroppedRowsCounted(rows: seq<CoercedRow>)
    ensures |rows| - |DropInvalid(rows)| == InvalidDates(rows) + InvalidMeans(rows) - InvalidBoth(rows)
  {
    if rows != [] {
      DroppedRowsCounted(rows[1..]);
    }
  }

  /** The warning is shown exactly when some row is dropped. */
  lemma WarningIffDropped(rows: seq<CoercedRow>)
    ensures InvalidDates(rows) > 0 || InvalidMeans(rows) > 0 <==> |DropInvalid(rows)| < |rows|
  {
    DroppedRowsCounted(rows);
  }

  datatype Validated = Validated(rows: seq<Row>, invalidDates: nat, invalidMeans: nat)

  datatype ValidationError = NoValidRows

  /** The validation stage of main.py: count the invalid values, drop the unusable rows, and stop when nothing is left. */
  function Validate(rows: seq<CoercedRow>): (r: Result<Validated, ValidationError>)
    ensures r.Err? <==> forall i :: 0 <= i < |rows| ==> !Usable(rows[i])
    ensures r.Ok? ==> r.value.rows != [] && r.value.rows == DropInvalid(rows)
    ensures r.Ok? ==> r.value.invalidDates == InvalidDates(rows) && r.value.invalidMeans == InvalidMeans(rows)
  {
    var kept := DropInvalid(rows);
    if kept == [] then
      Err(NoValidRows)
    else
      Ok(Validated(kept, InvalidDates(rows), InvalidMeans(rows)))
  }
}
