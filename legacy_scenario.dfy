/** The scenario class of the older module src/deflex/scenario_tools.py:
    the number of time steps `initialise_energy_system` chooses, the year
    it reads from the "meta" table, and the NaN check `check_table`
    applies to one table. Its `NodeDict` is the one of `NodeRegistry`. */
module LegacyScenario {
  import opened Wrappers
  import opened ScenarioTables
  import PackageScenario

  /** `self.year` once set: an `int`, or a value of another type, such as
      a text. */
  datatype YearValue = IntYear(n: int) | TextYear(text: string)

  /** The energy system as far as the scenario sets it up: the year its
      index starts in, as the scenario holds it, and its hourly time
      index. */
  datatype SystemIndex = SystemIndex(start: YearValue, timeIndex: seq<nat>)

  // ---------------------------------------------------------------------
  // The time-step rule

  /** The rows of a DataFrame with the one-level index key `key`, in
      order: what `frame.loc[key]` selects. */
  function RowsWithKey(rows: seq<Row>, key: string): (r: seq<Row>)
    ensures forall i :: 0 <= i < |r| ==> r[i] in rows && r[i].key == [key]
    ensures forall i :: 0 <= i < |rows| && rows[i].key == [key] ==> rows[i] in r
    ensures |r| <= |rows|
  {
    if |rows| == 0 then []
    else if rows[0].key == [key] then [rows[0]] + RowsWithKey(rows[1..], key)
    else RowsWithKey(rows[1..], key)
  }

  /** `int(table_collection["meta"].loc["year"])`. The loaders read
      "meta" as a DataFrame with one value column, so `.loc["year"]` is
      that row, and `int` accepts it when it holds exactly one cell; for
      a Series it is the entry itself. A missing row raises a
      `KeyError`; two "year" rows, a row of several cells or a cell that
      is no integer raise a `TypeError` or `ValueError`. */
  function MetaYear(sheets: seq<Sheet>): (r: Result<int, ScenarioError>)
    ensures Lookup(sheets, "meta").None? ==> r == Failure(MissingTable("meta"))
    ensures r.Success? ==> Lookup(sheets, "meta").Some?
    ensures r.Success? && Lookup(sheets, "meta").value.Series? ==>
      exists c :: SeriesAt(Lookup(sheets, "meta").value.entries, "year") == Some(c) && IntOf(c) == Some(r.value)
    ensures r.Success? && Lookup(sheets, "meta").value.Frame? ==>
      var found := RowsWithKey(Lookup(sheets, "meta").value.rows, "year");
      |found| == 1 && |found[0].cells| == 1 && IntOf(found[0].cells[0]) == Some(r.value)
    ensures forall name, c :: Lookup(sheets, "meta") == Some(Series(name, [Entry(["year"], c)])) && IntOf(c).Some? ==>
      r == Success(IntOf(c).value)
    ensures forall c, column :: Lookup(sheets, "meta") == Some(Frame([column], [Row(["year"], [c])])) && IntOf(c).Some? ==>
      r == Success(IntOf(c).value)
    ensures Lookup(sheets, "meta").Some? && Lookup(sheets, "meta").value.Frame? ==>
      (RowsWithKey(Lookup(sheets, "meta").value.rows, "year") == [] ==> r == Failure(MissingEntry("meta", "year")))
  {
    match Lookup(sheets, "meta")
    case None => Failure(MissingTable("meta"))
    case Some(t) =>
      if t.Series? then
        match SeriesAt(t.entries, "year")
        case None => Failure(MissingEntry("meta", "year"))
        case Some(c) =>
          match IntOf(c)
          case None => Failure(NotAnInteger("meta", "year"))
          case Some(n) => Success(n)
      else
        var found := RowsWithKey(t.rows, "year");
        if |found| == 0 then Failure(MissingEntry("meta", "year"))
        else if |found| > 1 || |found[0].cells| != 1 then Failure(NotAnInteger("meta", "year"))
        else
          match IntOf(found[0].cells[0])
          case None => Failure(NotAnInteger("meta", "year"))
          case Some(n) => Success(n)
  }

  /** The year the scenario holds after `initialise_energy_system`: the
      one it was given, or else the one of "meta". */
  function YearAfter(year: Option<YearValue>, sheets: seq<Sheet>): (r: Result<YearValue, ScenarioError>)
    ensures year.Some? ==> r == Success(year.value)
    ensures year.None? && r.Success? ==> r.value.IntYear? && MetaYear(sheets) == Success(r.value.n)
    ensures year.None? && r.Failure? ==> MetaYear(sheets).Failure? && r.error == MetaYear(sheets).error
  {
    if year.Some? then Success(year.value)
    else
      var n :- MetaYear(sheets);
      Success(IntYear(n))
  }

  /** The number of steps asked for: an explicit `int` count, else 3 in
      debug mode, else the hours of the year; `calendar.isleap` raises a
      `TypeError` for a year that is not a number. */
  function RequestedSteps(year: YearValue, explicit: Option<int>, debug: bool): Result<int, ScenarioError>
  {
    if explicit.Some? then Success(explicit.value)
    else if debug then Success(3)
    else
      match year
      case IntYear(n) => Success(PackageScenario.HoursOfYear(n))
      case TextYear(t) => Failure(YearTypeError(t))
  }

  /** `len(table_collection["demand_series"])` when that table exists. */
  function DemandLength(sheets: seq<Sheet>): Option<nat>
  {
    match Lookup(sheets, "demand_series")
    case None => None
    case Some(t) => Some(Length(t))
  }

  /** The number of time steps: the requested count, cut down to the
      length of the demand series when that is shorter. */
  function TimeSteps(year: YearValue, explicit: Option<int>, debug: bool, demandLength: Option<nat>): Result<int, ScenarioError>
  {
    var n :- RequestedSteps(year, explicit, debug);
    Success(if demandLength.Some? && demandLength.value < n then demandLength.value else n)
  }

  /** An explicit count wins over debug mode and the year, and debug mode
      wins over the year; a year only matters, and a non-numeric one only
      fails, when neither is given. A leap year asks for 8784 hours and
      any other year for 8760. */
  lemma RequestedStepsOrder(year: YearValue, explicit: Option<int>, debug: bool)
    ensures RequestedSteps(year, explicit, debug).Failure? <==> explicit.None? && !debug && year.TextYear?
    ensures explicit.Some? ==> RequestedSteps(year, explicit, debug) == Success(explicit.value)
    ensures explicit.None? && debug ==> RequestedSteps(year, explicit, debug) == Success(3)
    ensures explicit.None? && !debug && year.IntYear? ==>
      && (RequestedSteps(year, explicit, debug) == Success(8784) <==> PackageScenario.IsLeap(year.n))
      && (RequestedSteps(year, explicit, debug) == Success(8760) <==> !PackageScenario.IsLeap(year.n))
  {
  }

  /** The time steps never outnumber the rows of the demand series, and
      they are exactly the requested count whenever the demand series
      has at least that many rows (or is absent). */
  lemma TimeStepsCapped(year: YearValue, explicit: Option<int>, debug: bool, demandLength: Option<nat>)
    ensures TimeSteps(year, explicit, debug, demandLength).Success? <==> RequestedSteps(year, explicit, debug).Success?
    ensures TimeSteps(year, explicit, debug, demandLength).Success? ==>
      var n := RequestedSteps(year, explicit, debug).value;
      var steps := TimeSteps(year, explicit, debug, demandLength).value;
      && steps <= n
      && (demandLength.Some? ==> steps <= demandLength.value)
      && (demandLength.None? || n <= demandLength.value ==> steps == n)
      && (steps == n || (demandLength.Some? && steps == demandLength.value))
  {
  }

  /** `initialise_energy_system(number_of_time_steps)`: the year, the
      number of steps, then `pd.date_range(..., periods=steps, freq="H")`,
      which refuses a negative count. */
  function InitialiseSpec(year: Option<YearValue>, sheets: seq<Sheet>, explicit: Option<int>, debug: bool): Result<SystemIndex, ScenarioError>
  {
    var y :- YearAfter(year, sheets);
    var steps :- TimeSteps(y, explicit, debug, DemandLength(sheets));
    if steps < 0 then Failure(NegativePeriods(steps))
    else Success(SystemIndex(y, HourlyIndex(steps)))
  }

  /** A created energy system starts in the scenario's year (the "meta"
      year when none was set), has at most as many hourly steps as the
      demand series has rows, and has exactly the requested number when
      the demand series is long enough; without a year, an explicit count
      or debug mode, a missing "meta" table is the error, and a "meta" frame
      in the form the loaders read gives its "year" cell. */
  lemma InitialiseFacts(year: Option<YearValue>, sheets: seq<Sheet>, explicit: Option<int>, debug: bool)
    ensures year.None? && Lookup(sheets, "meta").None? ==> InitialiseSpec(year, sheets, explicit, debug) == Failure(MissingTable("meta"))
    ensures forall column, c :: year.None? && Lookup(sheets, "meta") == Some(Frame([column], [Row(["year"], [c])])) && IntOf(c).Some? ==>
      YearAfter(year, sheets) == Success(IntYear(IntOf(c).value))
    ensures year.Some? && year.value.TextYear? && explicit.None? && !debug ==>
      InitialiseSpec(year, sheets, explicit, debug) == Failure(YearTypeError(year.value.text))
    ensures InitialiseSpec(year, sheets, explicit, debug).Success? ==>
      var e := InitialiseSpec(year, sheets, explicit, debug).value;
      && YearAfter(year, sheets) == Success(e.start)
      && (year.Some? ==> e.start == year.value)
      && (DemandLength(sheets).Some? ==> |e.timeIndex| <= DemandLength(sheets).value)
      && RequestedSteps(e.start, explicit, debug).Success?
      && (DemandLength(sheets).None? || RequestedSteps(e.start, explicit, debug).value <= DemandLength(sheets).value ==>
            |e.timeIndex| == RequestedSteps(e.start, explicit, debug).value)
  {
    if InitialiseSpec(year, sheets, explicit, debug).Success? {
      var y := YearAfter(year, sheets).value;
      TimeStepsCapped(y, explicit, debug, DemandLength(sheets));
    }
  }

  // ---------------------------------------------------------------------
  // check_table

  /** `table[column].isnull().any()` for the column at position `j`. */
  predicate ColumnHasEmpty(rows: seq<Row>, j: nat)
  {
    exists i :: 0 <= i < |rows| && j < |rows[i].cells| && rows[i].cells[j] == Empty
  }

  /** The names of the first `n` columns that hold an empty cell, in
      column order. */
  function NullColumns(columns: seq<string>, rows: seq<Row>, n: nat): seq<string>
    requires n <= |columns|
  {
    if n == 0 then []
    else NullColumns(columns, rows, n - 1) + (if ColumnHasEmpty(rows, n - 1) then [columns[n - 1]] else [])
  }

  /** The list names exactly the columns holding an empty cell. */
  lemma {:induction false} NullColumnsExactly(columns: seq<string>, rows: seq<Row>, n: nat)
    requires n <= |columns|
    ensures forall c :: c in NullColumns(columns, rows, n) <==>
      exists j :: 0 <= j < n && columns[j] == c && ColumnHasEmpty(rows, j)
    decreases n
  {
    if n > 0 {
      NullColumnsExactly(columns, rows, n - 1);
      forall c | (exists j :: 0 <= j < n && columns[j] == c && ColumnHasEmpty(rows, j))
        ensures c in NullColumns(columns, rows, n)
      {
        var j :| 0 <= j < n && columns[j] == c && ColumnHasEmpty(rows, j);
        if j < n - 1 {
          assert c in NullColumns(columns, rows, n - 1);
        }
      }
    }
  }

  /** `check_table(table_name)`: a table without empty cells passes; one
      with empty cells raises a `ValueError` naming the columns that hold
      them (a Series has no columns, so it fails when it is asked for
      them). */
  function CheckTableSpec(sheets: seq<Sheet>, name: string): Outcome<ScenarioError>
  {
    match Lookup(sheets, name)
    case None => Fail(MissingTable(name))
    case Some(t) =>
      if !HasEmpty(t) then Pass
      else if t.Series? then Fail(NotAFrame(name))
      else Fail(NaNColumns(name, NullColumns(t.columns, t.rows, |t.columns|)))
  }

  /** In a frame with one cell per column in every row, `check_table` fails
      exactly when some column holds an empty cell, and the error then
      names at least one column. */
  lemma CheckTableRaisesIff(sheets: seq<Sheet>, name: string)
    requires Lookup(sheets, name).Some? && Lookup(sheets, name).value.Frame?
    requires Rectangular(Lookup(sheets, name).value)
    ensures var t := Lookup(sheets, name).value;
      && (CheckTableSpec(sheets, name).Fail? <==> exists j :: 0 <= j < |t.columns| && ColumnHasEmpty(t.rows, j))
      && (CheckTableSpec(sheets, name).Fail? ==>
            CheckTableSpec(sheets, name) == Fail(NaNColumns(name, NullColumns(t.columns, t.rows, |t.columns|)))
            && |NullColumns(t.columns, t.rows, |t.columns|)| > 0)
  {
    var t := Lookup(sheets, name).value;
    NullColumnsExactly(t.columns, t.rows, |t.columns|);
    if HasEmpty(t) {
      var i :| 0 <= i < |t.rows| && Empty in t.rows[i].cells;
      var j :| 0 <= j < |t.rows[i].cells| && t.rows[i].cells[j] == Empty;
      assert ColumnHasEmpty(t.rows, j);
      assert t.columns[j] in NullColumns(t.columns, t.rows, |t.columns|);
    }
    if exists j :: 0 <= j < |t.columns| && ColumnHasEmpty(t.rows, j) {
      var j :| 0 <= j < |t.columns| && ColumnHasEmpty(t.rows, j);
      var i :| 0 <= i < |t.rows| && j < |t.rows[i].cells| && t.rows[i].cells[j] == Empty;
      assert Empty in t.rows[i].cells;
    }
  }

  // ---------------------------------------------------------------------
  // The class

  /** The scenario: its year (`None` until set), its debug flag (only
      `debug=True` counts) and its table collection. */
  class Scenario {
    var year: Option<YearValue>
    var debug: bool
    var tableCollection: seq<Sheet>

    constructor (year: Option<YearValue>, debug: bool, tableCollection: seq<Sheet>)
      ensures this.year == year && this.debug == debug && this.tableCollection == tableCollection
    {
      this.year := year;
      this.debug := debug;
      this.tableCollection := tableCollection;
    }

    /** `initialise_energy_system(number_of_time_steps)`: a missing year is
        first read from "meta" and kept, even when a later step raises. */
    method InitialiseEnergySystem(numberOfTimeSteps: Option<int>) returns (r: Result<SystemIndex, ScenarioError>)
      modifies this
      ensures r == InitialiseSpec(old(year), tableCollection, numberOfTimeSteps, debug)
      ensures year == (if YearAfter(old(year), tableCollection).Success? then Some(YearAfter(old(year), tableCollection).value) else old(year))
      ensures tableCollection == old(tableCollection) && debug == old(debug)
    {
      if year.None? {
        var n := MetaYear(tableCollection);
        if n.Failure? {
          return Failure(n.error);
        }
        year := Some(IntYear(n.value));
      }
      var steps: int;
      if numberOfTimeSteps.Some? {
        steps := numberOfTimeSteps.value;
      } else if debug {
        steps := 3;
      } else {
        match year.value
        case IntYear(y) =>
          steps := PackageScenario.HoursOfYear(y);
        case TextYear(t) =>
          return Failure(YearTypeError(t));
      }
      var demand := DemandLength(tableCollection);
      if demand.Some? && demand.value < steps {
        steps := demand.value;
      }
      if steps < 0 {
        return Failure(NegativePeriods(steps));
      }
      r := Success(SystemIndex(year.value, HourlyIndex(steps)));
    }

    /** `check_table(table_name)`: the loop over the columns collects those
        holding an empty cell. */
    method CheckTable(name: string) returns (r: Outcome<ScenarioError>)
      ensures r == CheckTableSpec(tableCollection, name)
    {
      var t := Lookup(tableCollection, name);
      if t.None? {
        return Fail(MissingTable(name));
      }
      if !HasEmpty(t.value) {
        return Pass;
      }
      if t.value.Series? {
        return Fail(NotAFrame(name));
      }
      var columns := t.value.columns;
      var rows := t.value.rows;
      var c: seq<string> := [];
      var j := 0;
      while j < |columns|
        invariant 0 <= j <= |columns|
        invariant c == NullColumns(columns, rows, j)
      {
        if ColumnHasEmpty(rows, j) {
          c := c + [columns[j]];
        }
        j := j + 1;
      }
      r := Fail(NaNColumns(name, c));
    }
  }
}
