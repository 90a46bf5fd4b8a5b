/**
 * The period filter: the user picks a start and an end date (by default the earliest and
 * the latest date of the table) and the rows between them, both included, are kept.
 */
module Period {
  import opened Wrappers
  import opened Dates
  import opened Subsequences
  import opened Validation

  /** The mask `(DATA >= start) & (DATA <= end)`. */
  predicate InPeriod(r: Row, start: Date, end: Date) {
    NotAfter(start, r.date) && NotAfter(r.date, end)
  }

  /** `df1.loc[mask]`: the rows inside the period, in table order. */
  function SelectPeriod(rows: seq<Row>, start: Date, end: Date): (sel: seq<Row>)
    ensures |sel| <= |rows|
    ensures forall r :: r in sel <==> r in rows && InPeriod(r, start, end)
    ensures sel == [] <==> forall i :: 0 <= i < |rows| ==> !InPeriod(rows[i], start, end)
  {
    if rows == [] then []
    else
      var rest := SelectPeriod(rows[1..], start, end);
      assert forall r :: r in rows <==> r == rows[0] || r in rows[1..];
      assert forall i :: 1 <= i < |rows| ==> rows[1..][i - 1] == rows[i];
      if InPeriod(rows[0], start, end) then [rows[0]] + rest else rest
  }

  /** The mask is applied row by row, so the selection keeps the order of the table. */
  lemma {:induction false} SelectPeriodAppend(a: seq<Row>, b: seq<Row>, start: Date, end: Date)
    ensures SelectPeriod(a + b, start, end) == SelectPeriod(a, start, end) + SelectPeriod(b, start, end)
  {
    if a == [] {
      assert a + b == b;
    } else {
      assert (a + b)[0] == a[0];
      assert (a + b)[1..] == a[1..] + b;
      SelectPeriodAppend(a[1..], b, start, end);
    }
  }

  lemma {:induction false} SelectPeriodIsSubsequence(rows: seq<Row>, start: Date, end: Date)
    ensures IsSubsequence(SelectPeriod(rows, start, end), rows)
  {
    if rows != [] {
      SelectPeriodIsSubsequence(rows[1..], start, end);
      assert rows == [rows[0]] + rows[1..];
      if InPeriod(rows[0], start, end) {
        KeepHead(rows[0], SelectPeriod(rows[1..], start, end), rows[1..]);
      } else {
        DropHead(rows[0], SelectPeriod(rows[1..], start, end), rows[1..]);
      }
    }
  }

  /** Every selected row lies inside the period. */
  lemma SelectedInPeriod(rows: seq<Row>, start: Date, end: Date)
    ensures forall i :: 0 <= i < |SelectPeriod(rows, start, end)| ==> InPeriod(SelectPeriod(rows, start, end)[i], start, end)
  {
    var sel := SelectPeriod(rows, start, end);
    assert forall i :: 0 <= i < |sel| ==> sel[i] in sel;
  }

  /** Rows already inside the period all pass. */
  lemma {:induction false} SelectPeriodKeepsAll(rows: seq<Row>, start: Date, end: Date)
    requires forall i :: 0 <= i < |rows| ==> InPeriod(rows[i], start, end)
    ensures SelectPeriod(rows, start, end) == rows
  {
    if rows != [] {
      SelectPeriodKeepsAll(rows[1..], start, end);
    }
  }

  /** Selecting twice with the same period changes nothing. */
  lemma SelectPeriodIdempotent(rows: seq<Row>, start: Date, end: Date)
    ensures SelectPeriod(SelectPeriod(rows, start, end), start, end) == SelectPeriod(rows, start, end)
  {
    var sel := SelectPeriod(rows, start, end);
    assert forall i :: 0 <= i < |sel| ==> sel[i] in sel;
    SelectPeriodKeepsAll(sel, start, end);
  }

  datatype PeriodError = StartAfterEnd | EmptyPeriod

  /** The period stage of main.py: reject an inverted period, filter, and stop when nothing is left. */
  function FilterPeriod(rows: seq<Row>, start: Date, end: Date): (r: Result<seq<Row>, PeriodError>)
    ensures r == Err(StartAfterEnd) <==> Before(end, start)
    ensures r == Err(EmptyPeriod) <==>
      NotAfter(start, end) && forall i :: 0 <= i < |rows| ==> !InPeriod(rows[i], start, end)
    ensures r.Ok? ==> r.value == SelectPeriod(rows, start, end) && r.value != []
  {
    if Before(end, start) then Err(StartAfterEnd)
    else
      var sel := SelectPeriod(rows, start, end);
      if sel == [] then Err(EmptyPeriod) else Ok(sel)
  }

  /** Filtering the filtered table again with the same period gives it back unchanged. */
  lemma FilterPeriodIdempotent(rows: seq<Row>, start: Date, end: Date)
    requires FilterPeriod(rows, start, end).Ok?
    ensures FilterPeriod(FilterPeriod(rows, start, end).value, start, end) == FilterPeriod(rows, start, end)
  {
    SelectPeriodIdempotent(rows, start, end);
  }

  /** `df1["DATA"].min()`. */
  function EarliestDate(rows: seq<Row>): (d: Date)
    requires rows != []
    ensures exists i :: 0 <= i < |rows| && rows[i].date == d
    ensures forall i :: 0 <= i < |rows| ==> NotAfter(d, rows[i].date)
  {
    if |rows| == 1 then rows[0].date
    else
      var rest := EarliestDate(rows[1..]);
      assert forall i :: 1 <= i < |rows| ==> rows[1..][i - 1] == rows[i];
      if NotAfter(rows[0].date, rest) then rows[0].date else rest
  }

  /** `df1["DATA"].max()`. */
  function LatestDate(rows: seq<Row>): (d: Date)
    requires rows != []
    ensures exists i :: 0 <= i < |rows| && rows[i].date == d
    ensures forall i :: 0 <= i < |rows| ==> NotAfter(rows[i].date, d)
  {
    if |rows| == 1 then rows[0].date
    else
      var rest := LatestDate(rows[1..]);
      assert forall i :: 1 <= i < |rows| ==> rows[1..][i - 1] == rows[i];
      if NotAfter(rest, rows[0].date) then rows[0].date else rest
  }

  /** With the default period, from the earliest to the latest date, no row is lost. */
  lemma DefaultPeriodKeepsAll(rows: seq<Row>)
    requires rows != []
    ensures FilterPeriod(rows, EarliestDate(rows), LatestDate(rows)) == Ok(rows)
  {
    SelectPeriodKeepsAll(rows, EarliestDate(rows), LatestDate(rows));
  }
}
