/** The scenario class of the package variant src/deflex/scenario/scenario.py.
    It shares the tables, the energy-system rule, the meta update and the
    suffix rule with src/deflex/scenario.py, and differs in two places: a
    leap year whose number of time steps is not 8784 is only warned
    about, and `check_input_data` first drops the rows and columns
    without any value, then either raises at the first table with an
    empty cell or, with `warning=True`, only warns. */
module PackageScenario {
  import opened Wrappers
  import opened ScenarioTables

  /** The warnings the class issues. */
  datatype Warning =
    | LeapYearSteps(year: int, steps: int)
    | EmptyCells(table: string)

  /** `calendar.isleap(year)` */
  predicate IsLeap(year: int)
  {
    year % 4 == 0 && (year % 100 != 0 || year % 400 == 0)
  }

  /** The hours of a year: 8784 in a leap year, 8760 otherwise. */
  function HoursOfYear(year: int): (h: nat)
    ensures IsLeap(year) <==> h == 8784
    ensures !IsLeap(year) <==> h == 8760
  {
    (if IsLeap(year) then 366 else 365) * 24
  }

  /** The warning of `initialise_energy_system`, issued once "general"
      gives the year and the number of time steps. */
  function LeapYearWarnings(sheets: seq<Sheet>): seq<Warning>
  {
    if |sheets| == 0 then []
    else
      match (GeneralInt(sheets, "year"), GeneralInt(sheets, "number of time steps"))
      case (Success(year), Success(steps)) => LeapYearWarning(year, steps)
      case _ => []
  }

  /** `if calendar.isleap(year) and time_steps != 8784: warnings.warn(...)` */
  function LeapYearWarning(year: int, steps: int): seq<Warning>
  {
    if IsLeap(year) && steps != 8784 then [LeapYearSteps(year, steps)] else []
  }

  /** There is at most one warning, and there is one exactly when "general"
      gives a leap year and a number of time steps other than the hours
      of that year. */
  lemma LeapYearWarningsExact(sheets: seq<Sheet>)
    ensures |LeapYearWarnings(sheets)| <= 1
    ensures |LeapYearWarnings(sheets)| == 1 <==>
      && |sheets| > 0
      && GeneralInt(sheets, "year").Success?
      && GeneralInt(sheets, "number of time steps").Success?
      && IsLeap(GeneralInt(sheets, "year").value)
      && GeneralInt(sheets, "number of time steps").value != HoursOfYear(GeneralInt(sheets, "year").value)
    ensures |LeapYearWarnings(sheets)| == 1 ==>
      LeapYearWarnings(sheets)[0] == LeapYearSteps(GeneralInt(sheets, "year").value, GeneralInt(sheets, "number of time steps").value)
  {
  }

  // ---------------------------------------------------------------------
  // Dropping the rows and columns without any value

  /** Column `j` holds a value in some row. */
  predicate ColumnHasValue(rows: seq<Row>, j: nat)
  {
    exists i :: 0 <= i < |rows| && j < |rows[i].cells| && rows[i].cells[j] != Empty
  }

  /** The positions, in order, of the first `n` columns that hold a value. */
  function ValueColumns(rows: seq<Row>, n: nat): (r: seq<nat>)
    ensures forall k :: 0 <= k < |r| ==> r[k] < n && ColumnHasValue(rows, r[k])
    ensures forall j :: 0 <= j < n && ColumnHasValue(rows, j) ==> j in r
  {
    if n == 0 then []
    else ValueColumns(rows, n - 1) + (if ColumnHasValue(rows, n - 1) then [n - 1] else [])
  }

  /** The elements of `s` at the positions `idx`. */
  function Pick<T>(s: seq<T>, idx: seq<nat>, default: T): (r: seq<T>)
    ensures |r| == |idx|
    ensures forall k :: 0 <= k < |idx| && idx[k] < |s| ==> r[k] == s[idx[k]]
  {
    seq(|idx|, k requires 0 <= k < |idx| => if idx[k] < |s| then s[idx[k]] else default)
  }

  /** `table.dropna(thresh=1, axis=0)` and then
      `table.dropna(thresh=1, axis=1)`: a DataFrame without its rows and
      then its columns that hold no value; a Series is left as it is. */
  function TrimEmpty(t: Table): Table
  {
    match t
    case Series(_, _) => t
    case Frame(columns, rows) =>
      var kept := KeepFilled(rows, 1);
      var idx := ValueColumns(kept, |columns|);
      Frame(Pick(columns, idx, ""),
            seq(|kept|, i requires 0 <= i < |kept| => Row(kept[i].key, Pick(kept[i].cells, idx, Empty))))
  }

  /** The trimmed table has one cell per column. */
  lemma TrimEmptyRectangular(t: Table)
    ensures Rectangular(TrimEmpty(t))
  {
  }

  /** A kept row with a value keeps one once the empty columns are gone. */
  lemma PickedRowHasValue(kept: seq<Row>, width: nat, i: nat)
    requires i < |kept| && |kept[i].cells| == width && Filled(kept[i].cells) >= 1
    ensures Filled(Pick(kept[i].cells, ValueColumns(kept, width), Empty)) >= 1
  {
    var idx := ValueColumns(kept, width);
    var j :| 0 <= j < |kept[i].cells| && kept[i].cells[j] != Empty;
    assert ColumnHasValue(kept, j);
    var k :| 0 <= k < |idx| && idx[k] == j;
    assert Pick(kept[i].cells, idx, Empty)[k] != Empty;
  }

  /** On a DataFrame with one cell per column, every row of the trimmed
      table holds a value. */
  lemma TrimEmptyRowsHaveValues(t: Table)
    requires t.Frame? && Rectangular(t)
    ensures forall i :: 0 <= i < |TrimEmpty(t).rows| ==> Filled(TrimEmpty(t).rows[i].cells) >= 1
  {
    var kept := KeepFilled(t.rows, 1);
    var r := TrimEmpty(t);
    forall i | 0 <= i < |r.rows|
      ensures Filled(r.rows[i].cells) >= 1
    {
      assert kept[i] in t.rows;
      PickedRowHasValue(kept, |t.columns|, i);
    }
  }

  /** Every column of the trimmed table holds a value. */
  lemma TrimEmptyColumnsHaveValues(t: Table)
    requires t.Frame?
    ensures forall k :: 0 <= k < |TrimEmpty(t).columns| ==> ColumnHasValue(TrimEmpty(t).rows, k)
  {
    var kept := KeepFilled(t.rows, 1);
    var idx := ValueColumns(kept, |t.columns|);
    var r := TrimEmpty(t);
    forall k | 0 <= k < |r.columns|
      ensures ColumnHasValue(r.rows, k)
    {
      var i :| 0 <= i < |kept| && idx[k] < |kept[i].cells| && kept[i].cells[idx[k]] != Empty;
      assert r.rows[i].cells[k] == kept[i].cells[idx[k]];
    }
  }

  /** On a DataFrame with one cell per column, trimming creates no empty
      cell. */
  lemma TrimEmptyAddsNoEmptyCell(t: Table)
    requires t.Frame? && Rectangular(t)
    ensures HasEmpty(TrimEmpty(t)) ==> HasEmpty(t)
  {
    var kept := KeepFilled(t.rows, 1);
    var idx := ValueColumns(kept, |t.columns|);
    var r := TrimEmpty(t);
    if HasEmpty(r) {
      var i :| 0 <= i < |r.rows| && Empty in r.rows[i].cells;
      var k :| 0 <= k < |idx| && r.rows[i].cells[k] == Empty;
      assert |kept[i].cells| == |t.columns|;
      assert kept[i].cells[idx[k]] == Empty;
      assert kept[i] in t.rows;
    }
  }

  // ---------------------------------------------------------------------
  // check_input_data

  /** The table after the in-place drops. */
  function Trimmed(s: Sheet): Sheet
  {
    Sheet(s.name, TrimEmpty(s.table))
  }

  /** The table once checked: trimmed, and a DataFrame reduced to its
      complete rows. */
  function Checked(s: Sheet): Sheet
  {
    Sheet(s.name, DropIncomplete(TrimEmpty(s.table)))
  }

  /** The table still has an empty cell after the in-place drops. */
  predicate Flagged(s: Sheet)
  {
    HasEmpty(TrimEmpty(s.table))
  }

  /** The first flagged table. */
  function FirstFlagged(sheets: seq<Sheet>): (r: Option<nat>)
    ensures r.Some? ==> r.value < |sheets| && Flagged(sheets[r.value])
    ensures r.Some? ==> forall k :: 0 <= k < r.value ==> !Flagged(sheets[k])
    ensures r.None? <==> forall k :: 0 <= k < |sheets| ==> !Flagged(sheets[k])
    decreases |sheets|
  {
    if |sheets| == 0 then None
    else if Flagged(sheets[0]) then Some(0)
    else
      match FirstFlagged(sheets[1..])
      case None => None
      case Some(k) => Some(k + 1)
  }

  /** One warning per flagged table, in table order. */
  function FlaggedWarnings(sheets: seq<Sheet>): seq<Warning>
    decreases |sheets|
  {
    if |sheets| == 0 then []
    else
      var n := |sheets| - 1;
      FlaggedWarnings(sheets[..n]) + (if Flagged(sheets[n]) then [EmptyCells(sheets[n].name)] else [])
  }

  /** The warnings name exactly the flagged tables. */
  lemma {:induction false} FlaggedWarningsExact(sheets: seq<Sheet>)
    ensures forall n :: EmptyCells(n) in FlaggedWarnings(sheets) <==>
      exists i :: 0 <= i < |sheets| && sheets[i].name == n && Flagged(sheets[i])
    ensures forall k :: 0 <= k < |FlaggedWarnings(sheets)| ==> FlaggedWarnings(sheets)[k].EmptyCells?
    decreases |sheets|
  {
    if |sheets| > 0 {
      var n := |sheets| - 1;
      var front := sheets[..n];
      FlaggedWarningsExact(front);
      assert forall i :: 0 <= i < n ==> front[i] == sheets[i];
      var tail := if Flagged(sheets[n]) then [EmptyCells(sheets[n].name)] else [];
      assert FlaggedWarnings(sheets) == FlaggedWarnings(front) + tail;
      forall name: string
        ensures EmptyCells(name) in FlaggedWarnings(sheets) <==>
          exists i :: 0 <= i < |sheets| && sheets[i].name == name && Flagged(sheets[i])
      {
        if EmptyCells(name) in FlaggedWarnings(front) {
          var i :| 0 <= i < n && front[i].name == name && Flagged(front[i]);
          assert sheets[i].name == name && Flagged(sheets[i]);
        } else if EmptyCells(name) in tail {
          assert sheets[n].name == name && Flagged(sheets[n]);
        } else {
          forall i | 0 <= i < |sheets| && sheets[i].name == name
            ensures !Flagged(sheets[i])
          {
            if i < n {
              assert front[i] == sheets[i];
            }
          }
        }
      }
    }
  }

  /** One more table for `FlaggedWarnings`. */
  lemma FlaggedWarningsNext(sheets: seq<Sheet>, i: nat)
    requires i < |sheets|
    ensures FlaggedWarnings(sheets[..i + 1]) ==
      FlaggedWarnings(sheets[..i]) + (if Flagged(sheets[i]) then [EmptyCells(sheets[i].name)] else [])
  {
    assert sheets[..i + 1][..i] == sheets[..i];
  }

  /** The tables when table `i` raises: those before it checked, it
      trimmed, the rest untouched. */
  function RaisedAt(sheets: seq<Sheet>, i: nat): (r: seq<Sheet>)
    ensures |r| == |sheets|
  {
    seq(|sheets|, k requires 0 <= k < |sheets| =>
      if k < i then Checked(sheets[k]) else if k == i then Trimmed(sheets[k]) else sheets[k])
  }

  /** The first `i` tables checked, the rest untouched. */
  function CheckedUpTo(sheets: seq<Sheet>, i: nat): (r: seq<Sheet>)
    ensures |r| == |sheets|
  {
    seq(|sheets|, k requires 0 <= k < |sheets| => if k < i then Checked(sheets[k]) else sheets[k])
  }

  /** How one step of the loop moves between the states above. */
  lemma CheckedUpToStep(sheets: seq<Sheet>, i: nat)
    requires i < |sheets|
    ensures CheckedUpTo(sheets, i)[i] == sheets[i]
    ensures CheckedUpTo(sheets, i)[i := Checked(sheets[i])] == CheckedUpTo(sheets, i + 1)
    ensures CheckedUpTo(sheets, i)[i := Trimmed(sheets[i])] == RaisedAt(sheets, i)
  {
  }

  /** The first flagged table when none before `i` is. */
  lemma FirstFlaggedAt(sheets: seq<Sheet>, i: nat)
    requires i < |sheets| && Flagged(sheets[i])
    requires forall k :: 0 <= k < i ==> !Flagged(sheets[k])
    ensures FirstFlagged(sheets) == Some(i)
  {
    var first := FirstFlagged(sheets);
    assert first.Some? && first.value <= i;
  }

  /** Every table checked. */
  function CheckAll(sheets: seq<Sheet>): (r: seq<Sheet>)
    ensures |r| == |sheets|
    ensures forall i :: 0 <= i < |sheets| ==> r[i] == Checked(sheets[i])
  {
    seq(|sheets|, i requires 0 <= i < |sheets| => Checked(sheets[i]))
  }

  /** `check_input_data(warning)`: the tables afterwards, the outcome and
      the warnings. Without `warning` the first flagged table raises; the
      tables before it are checked, it is left trimmed and the rest are
      untouched. Otherwise all tables are checked, each flagged one warned
      about, and "volatile plants" becomes a DataFrame. */
  function PackageCheckSpec(sheets: seq<Sheet>, warning: bool): (seq<Sheet>, Outcome<ScenarioError>, seq<Warning>)
  {
    var first := FirstFlagged(sheets);
    if !warning && first.Some? then
      var i := first.value;
      (RaisedAt(sheets, i), Fail(NaNInTable(sheets[i].name)), [])
    else
      var cleaned := CheckAll(sheets);
      var warnings := if warning then FlaggedWarnings(sheets) else [];
      match Find(cleaned, "volatile plants")
      case None => (cleaned, Fail(MissingTable("volatile plants")), warnings)
      case Some(k) => (cleaned[k := Sheet(cleaned[k].name, SeriesToFrame(cleaned[k].table))], Pass, warnings)
  }

  /** Without `warning`, a table with an empty cell left after the drops
      raises, naming the first such table, and nothing is warned; with
      `warning`, empty cells never raise and each such table is warned
      about. */
  lemma PackageCheckOutcome(sheets: seq<Sheet>, warning: bool)
    ensures !warning ==> PackageCheckSpec(sheets, warning).2 == []
    ensures !warning && (exists i :: 0 <= i < |sheets| && Flagged(sheets[i])) ==>
      exists i :: 0 <= i < |sheets| && Flagged(sheets[i]) && (forall k :: 0 <= k < i ==> !Flagged(sheets[k]))
        && PackageCheckSpec(sheets, warning).1 == Fail(NaNInTable(sheets[i].name))
    ensures warning ==> PackageCheckSpec(sheets, warning).1 in {Pass, Fail(MissingTable("volatile plants"))}
    ensures warning ==> forall n :: EmptyCells(n) in PackageCheckSpec(sheets, warning).2 <==>
      exists i :: 0 <= i < |sheets| && sheets[i].name == n && Flagged(sheets[i])
    ensures PackageCheckSpec(sheets, warning).1 == Pass <==>
      Lookup(sheets, "volatile plants").Some? && (warning || forall i :: 0 <= i < |sheets| ==> !Flagged(sheets[i]))
  {
    var cleaned := CheckAll(sheets);
    assert Names(cleaned) == Names(sheets);
    FindSameNames(cleaned, sheets, "volatile plants");
    FlaggedWarningsExact(sheets);
  }

  /** With `warning`, `check_input_data` keeps no empty cell in any DataFrame with
      one cell per column, even in the tables it warned about. */
  lemma WarnedFramesAreComplete(sheets: seq<Sheet>, i: nat)
    requires i < |sheets| && sheets[i].table.Frame? && Rectangular(sheets[i].table)
    ensures !HasEmpty(PackageCheckSpec(sheets, true).0[i].table)
  {
    var cleaned := CheckAll(sheets);
    TrimEmptyRectangular(sheets[i].table);
    DropIncompleteFacts(TrimEmpty(sheets[i].table));
    assert !HasEmpty(cleaned[i].table);
    match Find(cleaned, "volatile plants")
    case None =>
    case Some(k) =>
      if k == i {
        assert cleaned[k].table.Frame?;
      }
  }

  /** The loop of `check_input_data` over the tables, on the list of
      tables: the tables afterwards, the outcome and the warnings. */
  method CheckSheets(sheets: seq<Sheet>, warning: bool) returns (tables: seq<Sheet>, r: Outcome<ScenarioError>, warnings: seq<Warning>)
    ensures r.Pass? <==> warning || FirstFlagged(sheets).None?
    ensures r.Pass? ==> tables == CheckAll(sheets)
    ensures r.Pass? ==> warnings == if warning then FlaggedWarnings(sheets) else []
    ensures r.Fail? ==> (tables, r, warnings) == PackageCheckSpec(sheets, warning)
  {
    tables := sheets;
    warnings := [];
    var i := 0;
    assert tables == CheckedUpTo(sheets, 0);
    while i < |tables|
      invariant 0 <= i <= |tables| == |sheets|
      invariant tables == CheckedUpTo(sheets, i)
      invariant warning ==> warnings == FlaggedWarnings(sheets[..i])
      invariant !warning ==> warnings == [] && forall k :: 0 <= k < i ==> !Flagged(sheets[k])
    {
      CheckedUpToStep(sheets, i);
      var sheet := tables[i];
      FlaggedWarningsNext(sheets, i);
      tables := tables[i := Trimmed(sheet)];
      if Flagged(sheet) {
        if warning {
          warnings := warnings + [EmptyCells(sheet.name)];
        } else {
          FirstFlaggedAt(sheets, i);
          return tables, Fail(NaNInTable(sheet.name)), warnings;
        }
      }
      tables := tables[i := Checked(sheet)];
      i := i + 1;
    }
    assert sheets[..i] == sheets;
    assert tables == CheckAll(sheets);
    assert !warning ==> FirstFlagged(sheets).None?;
    r := Pass;
  }

  class Scenario {
    var meta: map<seq<string>, MetaValue>
    var inputData: seq<Sheet>
    var es: Option<EnergySystem>

    /** `Scenario(**kwargs)` */
    constructor (meta: map<seq<string>, MetaValue>, inputData: seq<Sheet>)
      ensures this.meta == meta && this.inputData == inputData && es == None
    {
      this.meta := meta;
      this.inputData := inputData;
      es := None;
    }

    /** `initialise_energy_system`: the leap-year check only warns, so the
        outcome and the energy system are those of the rule without it. */
    method InitialiseEnergySystem() returns (r: Outcome<ScenarioError>, warnings: seq<Warning>)
      modifies this
      ensures meta == old(meta) && inputData == old(inputData)
      ensures match EnergySystemSpec(inputData)
        case Success(e) => r == Pass && es == Some(e)
        case Failure(err) => r == Fail(err) && es == old(es)
      ensures warnings == LeapYearWarnings(inputData)
    {
      warnings := [];
      if |inputData| == 0 {
        return Fail(NoInputData), warnings;
      }
      var year := GeneralInt(inputData, "year");
      if year.Failure? {
        return Fail(year.error), warnings;
      }
      var steps := GeneralInt(inputData, "number of time steps");
      if steps.Failure? {
        return Fail(steps.error), warnings;
      }
      warnings := LeapYearWarning(year.value, steps.value);
      var tables := SeriesSheets(inputData);
      var i := 0;
      while i < |tables|
        invariant 0 <= i <= |tables|
        invariant FirstLengthMismatch(tables, steps.value) == FirstLengthMismatch(tables[i..], steps.value)
      {
        if steps.value != Length(tables[i].table) {
          return Fail(SeriesLengthMismatch(tables[i].name, steps.value, Length(tables[i].table))), warnings;
        }
        assert tables[i..][1..] == tables[i + 1..];
        i := i + 1;
      }
      if steps.value < 0 {
        return Fail(NegativePeriods(steps.value)), warnings;
      }
      es := Some(EnergySystem(year.value, HourlyIndex(steps.value)));
      r := Pass;
    }

    /** The loop of `check_input_data` over the tables. */
    method CheckTables(warning: bool) returns (r: Outcome<ScenarioError>, warnings: seq<Warning>)
      modifies this
      ensures r.Pass? <==> warning || FirstFlagged(old(inputData)).None?
      ensures r.Pass? ==> inputData == CheckAll(old(inputData))
      ensures r.Pass? ==> warnings == if warning then FlaggedWarnings(old(inputData)) else []
      ensures r.Fail? ==> (inputData, r, warnings) == PackageCheckSpec(old(inputData), warning)
      ensures meta == old(meta) && es == old(es)
    {
      inputData, r, warnings := CheckSheets(inputData, warning);
    }

    /** `check_input_data(warning)` */
    method CheckInputData(warning: bool) returns (r: Outcome<ScenarioError>, warnings: seq<Warning>)
      modifies this
      ensures (inputData, r, warnings) == PackageCheckSpec(old(inputData), warning)
      ensures meta == old(meta) && es == old(es)
    {
      r, warnings := CheckTables(warning);
      if r.Fail? {
        return;
      }
      var k := Find(inputData, "volatile plants");
      if k.None? {
        r := Fail(MissingTable("volatile plants"));
        return;
      }
      var volatile := inputData[k.value];
      if volatile.table.Series? {
        inputData := inputData[k.value := Sheet(volatile.name, SeriesToFrame(volatile.table))];
      } else {
        assert inputData == inputData[k.value := Sheet(volatile.name, SeriesToFrame(volatile.table))];
      }
    }

    /** `add_meta_data` */
    method AddMetaData() returns (r: Outcome<ScenarioError>)
      modifies this
      ensures (meta, r) == MetaUpdate(old(meta), inputData)
      ensures inputData == old(inputData) && es == old(es)
    {
      var info := Lookup(inputData, "info");
      if info.Some? {
        meta := meta + ToDict(info.value);
      }
      var general := Lookup(inputData, "general");
      if general.None? {
        return Fail(MissingTable("general"));
      }
      meta := meta + ToDict(general.value);
      r := Pass;
    }
  }
}
