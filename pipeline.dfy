/**
 * The whole script from the uploaded header to the summary line: map the columns, rename
 * them, validate the coerced rows, filter the period, and add up the degree days. Each
 * `st.stop()` becomes an error result naming the stage that stopped.
 */
module Pipeline {
  import opened Wrappers
  import opened Dates
  import opened Subsequences
  import opened ColumnMapping
  import opened Validation
  import opened Period
  import opened DegreeDays

  datatype Stop =
    | MappingStopped(mapping: MappingError)
    | ValidationStopped(validation: ValidationError)
    | PeriodStopped(period: PeriodError)

  datatype Report = Report(
    mapping: Mapping,
    invalidDates: nat,
    invalidMeans: nat,
    rows: seq<Row>,
    gg: seq<real>,
    total: real,
    heading: string)

  const HEADING_PREFIX: string := "Gradi Giorno dal "
  const HEADING_MIDDLE: string := " al "

  /** The summary line without its total: `Gradi Giorno dal DD/MM/YYYY al DD/MM/YYYY`. */
  function Heading(start: Date, end: Date): (h: string)
    requires Valid(start) && Valid(end)
    ensures |h| == 41 && h[..17] == HEADING_PREFIX && h[27..31] == HEADING_MIDDLE
    ensures Parse(h[17..27]) == Some(start) && Parse(h[31..]) == Some(end)
  {
    ParseFormat(start);
    ParseFormat(end);
    var h := HEADING_PREFIX + Format(start) + HEADING_MIDDLE + Format(end);
    assert h[17..27] == Format(start);
    assert h[31..] == Format(end);
    h
  }

  /** The stages after renaming: validation, the period filter and the degree days. */
  function Analyse(m: Mapping, table: seq<CoercedRow>, start: Date, end: Date): (r: Result<Report, Stop>)
    requires Valid(start) && Valid(end)
    ensures r.Err? ==> !r.error.MappingStopped?
    ensures r.Ok? ==> r.value.mapping == m
    ensures r.Ok? ==> r.value.rows != []
    ensures r.Ok? ==> forall i :: 0 <= i < |r.value.rows| ==> InPeriod(r.value.rows[i], start, end)
    ensures r.Ok? ==> |r.value.gg| == |r.value.rows|
    ensures r.Ok? ==> forall i :: 0 <= i < |r.value.rows| ==> r.value.gg[i] == DailyDegreeDays(r.value.rows[i].tmedia)
    ensures r.Ok? ==> r.value.total == Sum(r.value.gg) && r.value.total >= 0.0
    ensures r.Ok? ==> r.value.heading == Heading(start, end)
    ensures r.Ok? ==> r.value.rows == SelectPeriod(DropInvalid(table), start, end)
    ensures r.Ok? ==> r.value.invalidDates == InvalidDates(table) && r.value.invalidMeans == InvalidMeans(table)
    ensures r == Err(ValidationStopped(NoValidRows)) <==> forall i :: 0 <= i < |table| ==> !Usable(table[i])
    ensures (exists i :: 0 <= i < |table| && Usable(table[i])) ==>
      (r == Err(PeriodStopped(StartAfterEnd)) <==> Before(end, start))
    ensures (exists i :: 0 <= i < |table| && Usable(table[i])) ==>
      (r == Err(PeriodStopped(EmptyPeriod)) <==> NotAfter(start, end) && SelectPeriod(DropInvalid(table), start, end) == [])
  {
    match Validate(table)
    case Err(e) => Err(ValidationStopped(e))
    case Ok(v) =>
      match FilterPeriod(v.rows, start, end)
      case Err(e) => Err(PeriodStopped(e))
      case Ok(sel) =>
        SelectedInPeriod(v.rows, start, end);
        Ok(Report(m, v.invalidDates, v.invalidMeans, sel, GGColumn(sel), TotalDegreeDays(sel), Heading(start, end)))
  }

  /**
   * One run of the script. `select` stands for the user at the column selectors, `coerce`
   * for reading the renamed table and converting its DATA, TMEDIA, TMIN and TMAX columns,
   * and `start`/`end` for the two date pickers.
   */
  function Run(header: seq<string>, select: Selector, coerce: seq<string> -> seq<CoercedRow>,
               start: Date, end: Date): (r: Result<Report, Stop>)
    requires SelectsOffered(select)
    requires Valid(start) && Valid(end)
    ensures ChooseColumns(header, select).Err? <==> r.Err? && r.error.MappingStopped?
    ensures r.Ok? ==> Sound(header, r.value.mapping) && HasRequired(r.value.mapping)
  {
    match ChooseColumns(header, select)
    case Err(e) => Err(MappingStopped(e))
    case Ok(m) =>
      ChooseColumnsSound(header, select);
      Analyse(m, coerce(RenamedSafely(header, m)), start, end)
  }

  /** The table the run reads: the coerced rows of the header renamed after the mapping. */
  function Table(header: seq<string>, select: Selector, coerce: seq<string> -> seq<CoercedRow>): seq<CoercedRow>
    requires ChooseColumns(header, select).Ok?
  {
    coerce(RenamedSafely(header, ChooseColumns(header, select).value))
  }

  /** The report's rows are the usable rows of the table, selected by the period. */
  lemma RunRows(header: seq<string>, select: Selector, coerce: seq<string> -> seq<CoercedRow>,
                start: Date, end: Date)
    requires SelectsOffered(select)
    requires Valid(start) && Valid(end)
    requires Run(header, select, coerce, start, end).Ok?
    ensures Run(header, select, coerce, start, end).value.rows ==
      SelectPeriod(DropInvalid(Table(header, select, coerce)), start, end)
  {
  }

  /**
   * The rows of the report are rows of the table, in table order, and they are exactly
   * the usable rows of the table that fall in the period.
   */
  lemma RunRowsFromTable(header: seq<string>, select: Selector, coerce: seq<string> -> seq<CoercedRow>,
                         start: Date, end: Date)
    requires SelectsOffered(select)
    requires Valid(start) && Valid(end)
    requires Run(header, select, coerce, start, end).Ok?
    ensures var rows := Run(header, select, coerce, start, end).value.rows;
      IsSubsequence(LiftAll(rows), Table(header, select, coerce)) &&
      forall x :: x in rows <==> Lift(x) in Table(header, select, coerce) && InPeriod(x, start, end)
  {
    var table := Table(header, select, coerce);
    var kept := DropInvalid(table);
    var rows := Run(header, select, coerce, start, end).value.rows;
    RunRows(header, select, coerce, start, end);
    SelectPeriodIsSubsequence(kept, start, end);
    LiftAllSubsequence(rows, kept);
    DropInvalidIsSubsequence(table);
    SubsequenceTransitive(LiftAll(rows), LiftAll(kept), table);
  }

  /** The run stops at the period stage exactly when the period is inverted or holds no usable row. */
  lemma RunPeriodStop(header: seq<string>, select: Selector, coerce: seq<string> -> seq<CoercedRow>,
                      start: Date, end: Date)
    requires SelectsOffered(select)
    requires Valid(start) && Valid(end)
    requires ChooseColumns(header, select).Ok?
    requires exists i :: 0 <= i < |Table(header, select, coerce)| && Usable(Table(header, select, coerce)[i])
    ensures Run(header, select, coerce, start, end) == Err(PeriodStopped(StartAfterEnd)) <==> Before(end, start)
    ensures Run(header, select, coerce, start, end) == Err(PeriodStopped(EmptyPeriod)) <==>
      NotAfter(start, end) && forall x :: Lift(x) in Table(header, select, coerce) ==> !InPeriod(x, start, end)
  {
    var table := Table(header, select, coerce);
    var kept := DropInvalid(table);
    assert forall i :: 0 <= i < |kept| ==> kept[i] in kept;
  }
}
