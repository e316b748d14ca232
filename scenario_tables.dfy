/** The raw input tables of a scenario, as the `input_data` dictionary of
    the scenario classes holds them (src/deflex/scenario.py and
    src/deflex/scenario/scenario.py), and the pure rules both classes
    apply to them: reading the energy-system settings from the "general"
    table, the length check of the time-series tables, dropping
    incomplete rows, the meta update and the file-name suffix rule. */
module ScenarioTables {
  import opened Wrappers
  import opened Strings

  /** A table cell: a number, a text, or an empty cell (NaN). */
  datatype Cell = Num(value: real) | Text(text: string) | Empty

  /** A DataFrame row: its index key and one cell per column. */
  datatype Row = Row(key: seq<string>, cells: seq<Cell>)

  /** A Series entry: its index key and its cell. */
  datatype Entry = Entry(key: seq<string>, cell: Cell)

  datatype Table =
    | Frame(columns: seq<string>, rows: seq<Row>)
    | Series(name: string, entries: seq<Entry>)

  /** One named table of the input dictionary. */
  datatype Sheet = Sheet(name: string, table: Table)

  /** The exceptions raised while a scenario is checked and initialised. */
  datatype ScenarioError =
    | NoInputData
    | MissingTable(name: string)
    | MissingEntry(table: string, key: string)
    | NotAnInteger(table: string, key: string)
    | SeriesLengthMismatch(table: string, steps: int, length: nat)
    | NegativePeriods(steps: int)
    | NaNTables(names: seq<string>)
    | NaNInTable(name: string)
    | YearTypeError(text: string)
    | NaNColumns(table: string, columns: seq<string>)
    | NotAFrame(name: string)

  /** `len(table)`: its number of rows. */
  function Length(t: Table): nat
  {
    match t
    case Frame(_, rows) => |rows|
    case Series(_, entries) => |entries|
  }

  /** `table.isnull().any()` (applied twice for a DataFrame). */
  predicate HasEmpty(t: Table)
  {
    match t
    case Frame(_, rows) => exists i :: 0 <= i < |rows| && Empty in rows[i].cells
    case Series(_, entries) => exists i :: 0 <= i < |entries| && entries[i].cell == Empty
  }

  /** Every row of a DataFrame has one cell per column. */
  predicate Rectangular(t: Table)
  {
    t.Frame? ==> forall i :: 0 <= i < |t.rows| ==> |t.rows[i].cells| == |t.columns|
  }

  // ---------------------------------------------------------------------
  // The input dictionary

  function Names(sheets: seq<Sheet>): (r: seq<string>)
    ensures |r| == |sheets|
    ensures forall i :: 0 <= i < |sheets| ==> r[i] == sheets[i].name
  {
    seq(|sheets|, i requires 0 <= i < |sheets| => sheets[i].name)
  }

  /** A dictionary holds each key once. */
  predicate DistinctNames(sheets: seq<Sheet>)
  {
    forall i, j :: 0 <= i < j < |sheets| ==> sheets[i].name != sheets[j].name
  }

  /** The position of the table `name` in the input dictionary. */
  function Find(sheets: seq<Sheet>, name: string): (r: Option<nat>)
    ensures r.Some? ==> r.value < |sheets| && sheets[r.value].name == name
    ensures r.Some? ==> forall k :: 0 <= k < r.value ==> sheets[k].name != name
    ensures r.None? <==> forall k :: 0 <= k < |sheets| ==> sheets[k].name != name
    decreases |sheets|
  {
    if |sheets| == 0 then None
    else if sheets[0].name == name then Some(0)
    else
      match Find(sheets[1..], name)
      case None => None
      case Some(k) => Some(k + 1)
  }

  /** Where a table is found depends only on the table names. */
  lemma {:induction false} FindSameNames(a: seq<Sheet>, b: seq<Sheet>, name: string)
    requires Names(a) == Names(b)
    ensures Find(a, name) == Find(b, name)
    decreases |a|
  {
    if |a| > 0 {
      assert forall i :: 0 <= i < |a| ==> a[i].name == Names(a)[i] == Names(b)[i] == b[i].name;
      assert Names(a[1..]) == Names(b[1..]);
      FindSameNames(a[1..], b[1..], name);
    }
  }

  /** `input_data[name]`, `None` standing for the `KeyError`. */
  function Lookup(sheets: seq<Sheet>, name: string): (r: Option<Table>)
    ensures r.Some? <==> exists k :: 0 <= k < |sheets| && sheets[k].name == name
    ensures r.Some? ==> Sheet(name, r.value) in sheets
  {
    match Find(sheets, name)
    case None => None
    case Some(k) => Some(sheets[k].table)
  }

  // ---------------------------------------------------------------------
  // Python's int() on a cell

  /** `int(x)` of a float: truncation towards zero. */
  function Trunc(x: real): (n: int)
    ensures x >= 0.0 ==> n as real <= x < n as real + 1.0
    ensures x < 0.0 ==> n as real - 1.0 < x <= n as real
  {
    if x >= 0.0 then x.Floor else -((-x).Floor)
  }

  predicate IsDigit(ch: char)
  {
    '0' <= ch <= '9'
  }

  predicate AllDigits(s: string)
  {
    forall i :: 0 <= i < |s| ==> IsDigit(s[i])
  }

  /** The value of a string of decimal digits. */
  function DigitsValue(s: string): nat
    requires AllDigits(s)
    decreases |s|
  {
    if |s| == 0 then 0
    else DigitsValue(s[..|s| - 1]) * 10 + (s[|s| - 1] as int - '0' as int)
  }

  /** `int(text)` of an unsigned decimal number. */
  function ParseNat(s: string): (r: Option<nat>)
    ensures r.Some? <==> |s| > 0 && AllDigits(s)
  {
    if |s| > 0 && AllDigits(s) then Some(DigitsValue(s)) else None
  }

  /** `int(text)` for a decimal integer with an optional sign and no
      surrounding blanks or digit-group underscores; `None` stands for
      the `ValueError` raised on texts that are not digits. Python also
      accepts " 12" and "1_0", which this model refuses. */
  function ParseInt(s: string): (r: Option<int>)
  {
    if |s| > 0 && s[0] == '-' then
      match ParseNat(s[1..])
      case None => None
      case Some(v) => Some(-(v as int))
    else if |s| > 0 && s[0] == '+' then
      match ParseNat(s[1..])
      case None => None
      case Some(v) => Some(v as int)
    else
      match ParseNat(s)
      case None => None
      case Some(v) => Some(v as int)
  }

  /** The decimal digits of a natural number. */
  function NatDigits(n: nat): (s: string)
    ensures |s| > 0 && AllDigits(s)
  {
    var d := [('0' as int + n % 10) as char];
    if n < 10 then d else NatDigits(n / 10) + d
  }

  /** `str(n)` of an integer. */
  function Show(n: int): string
  {
    if n < 0 then "-" + NatDigits(-n) else NatDigits(n)
  }

  /** Reading the digits of a number gives the number back. */
  lemma {:induction false} DigitsOfNat(n: nat)
    ensures DigitsValue(NatDigits(n)) == n
    decreases n
  {
    var s := NatDigits(n);
    if n >= 10 {
      DigitsOfNat(n / 10);
      assert s[..|s| - 1] == NatDigits(n / 10);
    }
  }

  /** `int(str(n)) == n` */
  lemma ParseShow(n: int)
    ensures ParseInt(Show(n)) == Some(n)
  {
    if n < 0 {
      DigitsOfNat(-n);
      assert Show(n)[1..] == NatDigits(-n);
    } else {
      DigitsOfNat(n);
      assert IsDigit(Show(n)[0]);
    }
  }

  /** `int(cell)`: numbers are truncated, texts parsed, and an empty cell
      raises a `ValueError` (`None`). */
  function IntOf(c: Cell): (r: Option<int>)
    ensures c == Empty ==> r.None?
    ensures c.Num? ==> r.Some? && (r.value as real - 1.0 < c.value < r.value as real + 1.0)
  {
    match c
    case Num(v) => Some(Trunc(v))
    case Text(s) => ParseInt(s)
    case Empty => None
  }

  /** `series[key]` for a key of the one-level index. */
  function SeriesAt(entries: seq<Entry>, key: string): (r: Option<Cell>)
    ensures r.Some? ==> Entry([key], r.value) in entries
    ensures r.None? <==> forall i :: 0 <= i < |entries| ==> entries[i].key != [key]
    decreases |entries|
  {
    if |entries| == 0 then None
    else if entries[0].key == [key] then Some(entries[0].cell)
    else SeriesAt(entries[1..], key)
  }

  /** `int(input_data["general"][key])` */
  function GeneralInt(sheets: seq<Sheet>, key: string): (r: Result<int, ScenarioError>)
    ensures Lookup(sheets, "general").None? ==> r == Failure(MissingTable("general"))
    ensures r.Success? ==> Lookup(sheets, "general").Some? && Lookup(sheets, "general").value.Series?
    ensures r.Success? ==> exists c :: SeriesAt(Lookup(sheets, "general").value.entries, key) == Some(c) && IntOf(c) == Some(r.value)
  {
    match Lookup(sheets, "general")
    case None => Failure(MissingTable("general"))
    case Some(t) =>
      if !t.Series? then Failure(NotAnInteger("general", key))
      else
        match SeriesAt(t.entries, key)
        case None => Failure(MissingEntry("general", key))
        case Some(c) =>
          match IntOf(c)
          case None => Failure(NotAnInteger("general", key))
          case Some(n) => Success(n)
  }

  // ---------------------------------------------------------------------
  // The energy system and the time-series check

  /** The energy system as far as the scenario sets it up: its year and
      its hourly time index, each step counted in hours from 1 January of
      the year. */
  datatype EnergySystem = EnergySystem(year: int, timeIndex: seq<nat>)

  /** `pd.date_range("1/1/year", periods=n, freq="H")` as hour offsets. */
  function HourlyIndex(n: nat): (r: seq<nat>)
    ensures |r| == n
    ensures n > 0 ==> r[0] == 0
    ensures forall i :: 0 <= i < n - 1 ==> r[i + 1] == r[i] + 1
  {
    seq(n, i requires 0 <= i < n => i)
  }

  /** `[t for t in input_data.keys() if "series" in t]`, as tables. */
  function SeriesSheets(sheets: seq<Sheet>): (r: seq<Sheet>)
    ensures forall i :: 0 <= i < |r| ==> r[i] in sheets && Contains(r[i].name, "series")
    ensures forall i :: 0 <= i < |sheets| && Contains(sheets[i].name, "series") ==> sheets[i] in r
    decreases |sheets|
  {
    if |sheets| == 0 then []
    else (if Contains(sheets[0].name, "series") then [sheets[0]] else []) + SeriesSheets(sheets[1..])
  }

  /** The first table whose length is not `steps`. */
  function FirstLengthMismatch(tables: seq<Sheet>, steps: int): (r: Option<Sheet>)
    ensures r.None? <==> forall i :: 0 <= i < |tables| ==> Length(tables[i].table) == steps
    ensures r.Some? ==> r.value in tables && Length(r.value.table) != steps
    decreases |tables|
  {
    if |tables| == 0 then None
    else if Length(tables[0].table) != steps then Some(tables[0])
    else
      var rest := FirstLengthMismatch(tables[1..], steps);
      assert rest.None? ==> forall i :: 1 <= i < |tables| ==> Length(tables[i].table) == Length(tables[1..][i - 1].table);
      rest
  }

  /** `initialise_energy_system` without its warning: the outcome and the
      energy system it creates. */
  function EnergySystemSpec(sheets: seq<Sheet>): Result<EnergySystem, ScenarioError>
  {
    if |sheets| == 0 then Failure(NoInputData)
    else
      var year :- GeneralInt(sheets, "year");
      var steps :- GeneralInt(sheets, "number of time steps");
      match FirstLengthMismatch(SeriesSheets(sheets), steps)
      case Some(s) => Failure(SeriesLengthMismatch(s.name, steps, Length(s.table)))
      case None =>
        if steps < 0 then Failure(NegativePeriods(steps))
        else Success(EnergySystem(year, HourlyIndex(steps)))
  }

  /** Empty input is refused; a created energy system has the year and
      exactly the number of time steps of "general", and every "series"
      table then has one row per time step; a length error names a
      "series" table whose length is not the number of time steps. */
  lemma EnergySystemSpecFacts(sheets: seq<Sheet>)
    ensures |sheets| == 0 ==> EnergySystemSpec(sheets) == Failure(NoInputData)
    ensures EnergySystemSpec(sheets).Success? ==>
      var e := EnergySystemSpec(sheets).value;
      && GeneralInt(sheets, "year") == Success(e.year)
      && GeneralInt(sheets, "number of time steps") == Success(|e.timeIndex|)
      && forall i :: 0 <= i < |sheets| && Contains(sheets[i].name, "series") ==> Length(sheets[i].table) == |e.timeIndex|
    ensures EnergySystemSpec(sheets).Failure? && EnergySystemSpec(sheets).error.SeriesLengthMismatch? ==>
      var err := EnergySystemSpec(sheets).error;
      exists i :: 0 <= i < |sheets| && sheets[i].name == err.table && Contains(sheets[i].name, "series")
        && Length(sheets[i].table) == err.length != err.steps
  {
    if |sheets| > 0 {
      var year := GeneralInt(sheets, "year");
      var steps := GeneralInt(sheets, "number of time steps");
      if year.Success? && steps.Success? {
        EnergySystemSpecSteps(sheets, year.value, steps.value);
      }
    }
  }

  /** `EnergySystemSpecFacts` once "general" gives the year and the number
      of time steps. */
  lemma EnergySystemSpecSteps(sheets: seq<Sheet>, year: int, steps: int)
    requires |sheets| > 0
    requires GeneralInt(sheets, "year") == Success(year)
    requires GeneralInt(sheets, "number of time steps") == Success(steps)
    ensures EnergySystemSpec(sheets).Success? ==>
      EnergySystemSpec(sheets).value == EnergySystem(year, HourlyIndex(steps)) && steps >= 0 &&
      forall i :: 0 <= i < |sheets| && Contains(sheets[i].name, "series") ==> Length(sheets[i].table) == steps
    ensures EnergySystemSpec(sheets).Failure? && EnergySystemSpec(sheets).error.SeriesLengthMismatch? ==>
      var err := EnergySystemSpec(sheets).error;
      exists i :: 0 <= i < |sheets| && sheets[i].name == err.table && Contains(sheets[i].name, "series")
        && Length(sheets[i].table) == err.length != err.steps
  {
    var tables := SeriesSheets(sheets);
    var first := FirstLengthMismatch(tables, steps);
    var spec := if first.Some? then Failure(SeriesLengthMismatch(first.value.name, steps, Length(first.value.table)))
      else if steps < 0 then Failure(NegativePeriods(steps))
      else Success(EnergySystem(year, HourlyIndex(steps)));
    assert EnergySystemSpec(sheets) == spec;
    if first.Some? {
      var j :| 0 <= j < |tables| && tables[j] == first.value;
      assert first.value in sheets;
    } else {
      forall i | 0 <= i < |sheets| && Contains(sheets[i].name, "series")
        ensures Length(sheets[i].table) == steps
      {
        assert sheets[i] in tables;
        var j :| 0 <= j < |tables| && tables[j] == sheets[i];
      }
    }
  }

  // ---------------------------------------------------------------------
  // Dropping rows and columns

  /** The number of non-empty cells. */
  function Filled(cells: seq<Cell>): (n: nat)
    ensures n <= |cells|
    ensures n == |cells| <==> Empty !in cells
    ensures n >= 1 <==> exists j :: 0 <= j < |cells| && cells[j] != Empty
    decreases |cells|
  {
    if |cells| == 0 then 0
    else
      assert cells == [cells[0]] + cells[1..];
      (if cells[0] == Empty then 0 else 1) + Filled(cells[1..])
  }

  /** `dropna(thresh=n)` over rows: the rows with at least `n` non-empty
      cells, in their order. */
  function KeepFilled(rows: seq<Row>, n: nat): (r: seq<Row>)
    ensures |r| <= |rows|
    ensures forall i :: 0 <= i < |r| ==> r[i] in rows && Filled(r[i].cells) >= n
    ensures forall i :: 0 <= i < |rows| && Filled(rows[i].cells) >= n ==> rows[i] in r
    decreases |rows|
  {
    if |rows| == 0 then []
    else (if Filled(rows[0].cells) >= n then [rows[0]] else []) + KeepFilled(rows[1..], n)
  }

  /** `table.dropna(thresh=len(table.columns))`: the rows of a DataFrame
      with no empty cell; a Series is left as it is. */
  function DropIncomplete(t: Table): Table
  {
    match t
    case Series(_, _) => t
    case Frame(columns, rows) => Frame(columns, KeepFilled(rows, |columns|))
  }

  /** Dropping keeps the columns and the kind of table; on a DataFrame
      with one cell per column it leaves no empty cell and keeps every
      row that has none. */
  lemma DropIncompleteFacts(t: Table)
    ensures DropIncomplete(t).Frame? <==> t.Frame?
    ensures t.Frame? ==> DropIncomplete(t).columns == t.columns && |DropIncomplete(t).rows| <= |t.rows|
    ensures Rectangular(t) ==> Rectangular(DropIncomplete(t)) && (t.Frame? ==> !HasEmpty(DropIncomplete(t)))
    ensures t.Frame? && Rectangular(t) ==>
      forall i :: 0 <= i < |t.rows| && Empty !in t.rows[i].cells ==> t.rows[i] in DropIncomplete(t).rows
  {
  }

  /** `pd.DataFrame(series, columns=[series.name])`: a Series becomes a
      DataFrame with one column; a DataFrame is left as it is. */
  function SeriesToFrame(t: Table): (r: Table)
    ensures r.Frame?
    ensures t.Frame? ==> r == t
    ensures t.Series? ==> Rectangular(r)
    ensures t.Series? ==> r.columns == [t.name] && |r.rows| == |t.entries|
    ensures t.Series? ==> forall i :: 0 <= i < |t.entries| ==> r.rows[i].key == t.entries[i].key && r.rows[i].cells == [t.entries[i].cell]
    ensures t.Series? ==> (HasEmpty(r) <==> HasEmpty(t))
  {
    match t
    case Frame(_, _) => t
    case Series(name, entries) =>
      var r := Frame([name], seq(|entries|, i requires 0 <= i < |entries| => Row(entries[i].key, [entries[i].cell])));
      assert HasEmpty(r) ==> HasEmpty(t) by {
        if HasEmpty(r) {
          var i :| 0 <= i < |r.rows| && Empty in r.rows[i].cells;
          assert entries[i].cell == Empty;
        }
      }
      assert HasEmpty(t) ==> HasEmpty(r) by {
        if HasEmpty(t) {
          var i :| 0 <= i < |entries| && entries[i].cell == Empty;
          assert Empty in r.rows[i].cells;
        }
      }
      r
  }

  // ---------------------------------------------------------------------
  // Meta data

  /** A value of `table.to_dict()`: a cell for a Series, a column
      dictionary for a DataFrame. */
  datatype MetaValue = Scalar(cell: Cell) | Column(cells: map<seq<string>, Cell>)

  /** A dictionary built from key/value pairs in order: a later pair
      overwrites an earlier one with the same key. */
  function EntriesDict(entries: seq<Entry>): (m: map<seq<string>, Cell>)
    ensures forall k :: k in m <==> exists i :: 0 <= i < |entries| && entries[i].key == k
    decreases |entries|
  {
    if |entries| == 0 then map[]
    else
      var n := |entries| - 1;
      var m := EntriesDict(entries[..n]);
      assert forall i :: 0 <= i < n ==> entries[..n][i] == entries[i];
      m[entries[n].key := entries[n].cell]
  }

  /** The last pair with a key gives that key's value. */
  lemma {:induction false} LastEntryWins(entries: seq<Entry>, i: nat)
    requires i < |entries|
    requires forall j :: i < j < |entries| ==> entries[j].key != entries[i].key
    ensures EntriesDict(entries)[entries[i].key] == entries[i].cell
    decreases |entries|
  {
    var n := |entries| - 1;
    var front := entries[..n];
    assert EntriesDict(entries) == EntriesDict(front)[entries[n].key := entries[n].cell];
    if i < n {
      assert front[i] == entries[i];
      assert forall j :: i < j < n ==> front[j] == entries[j];
      LastEntryWins(front, i);
    }
  }

  /** Column `j` of a DataFrame as key/value pairs. */
  function ColumnEntries(rows: seq<Row>, j: nat): (r: seq<Entry>)
    ensures |r| == |rows|
  {
    seq(|rows|, i requires 0 <= i < |rows| =>
      Entry(rows[i].key, if j < |rows[i].cells| then rows[i].cells[j] else Empty))
  }

  /** `{column: {index: value}}` over the first `n` columns. */
  function ColumnsDict(columns: seq<string>, rows: seq<Row>, n: nat): (m: map<seq<string>, MetaValue>)
    requires n <= |columns|
    ensures forall k :: k in m <==> exists j :: 0 <= j < n && k == [columns[j]]
  {
    if n == 0 then map[]
    else ColumnsDict(columns, rows, n - 1)[[columns[n - 1]] := Column(EntriesDict(ColumnEntries(rows, n - 1)))]
  }

  /** `table.to_dict()` */
  function ToDict(t: Table): (m: map<seq<string>, MetaValue>)
    ensures t.Series? ==> forall k :: k in m <==> exists i :: 0 <= i < |t.entries| && t.entries[i].key == k
    ensures t.Frame? ==> forall k :: k in m <==> exists j :: 0 <= j < |t.columns| && k == [t.columns[j]]
  {
    match t
    case Series(_, entries) =>
      var d := EntriesDict(entries);
      map k | k in d :: Scalar(d[k])
    case Frame(columns, rows) => ColumnsDict(columns, rows, |columns|)
  }

  /** `input_data[name].to_dict()`, empty when the table is missing. */
  function SheetDict(sheets: seq<Sheet>, name: string): map<seq<string>, MetaValue>
  {
    match Lookup(sheets, name)
    case None => map[]
    case Some(t) => ToDict(t)
  }

  /** `_add_meta_data`: the meta dictionary after the update by "info"
      (when present) and then by "general", and the `KeyError` when
      "general" is missing (the "info" update has then happened). */
  function MetaUpdate(meta: map<seq<string>, MetaValue>, sheets: seq<Sheet>): (r: (map<seq<string>, MetaValue>, Outcome<ScenarioError>))
    ensures r.1 == Pass <==> Lookup(sheets, "general").Some?
    ensures r.1.Fail? ==> r.1.error == MissingTable("general")
    ensures forall k :: k in r.0 <==> k in meta || k in SheetDict(sheets, "info") || k in SheetDict(sheets, "general")
    ensures forall k :: k in SheetDict(sheets, "general") ==> r.0[k] == SheetDict(sheets, "general")[k]
    ensures forall k :: k in SheetDict(sheets, "info") && k !in SheetDict(sheets, "general") ==>
      r.0[k] == SheetDict(sheets, "info")[k]
    ensures forall k :: k in meta && k !in SheetDict(sheets, "info") && k !in SheetDict(sheets, "general") ==>
      r.0[k] == meta[k]
  {
    var withInfo := match Lookup(sheets, "info") case None => meta case Some(info) => meta + ToDict(info);
    match Lookup(sheets, "general")
    case None => (withInfo, Fail(MissingTable("general")))
    case Some(general) => (withInfo + ToDict(general), Pass)
  }

  // ---------------------------------------------------------------------
  // File names

  /** `filename` if its last dot-suffix is `ext`, else `filename + "." + ext`. */
  function WithSuffix(filename: string, ext: string): string
  {
    if LastPiece(filename, '.') == ext then filename else filename + "." + ext
  }

  /** The result ends with the suffix, starts with the given name, and
      adding the suffix a second time changes nothing. */
  lemma WithSuffixEnds(filename: string, ext: string)
    requires '.' !in ext
    ensures LastPiece(WithSuffix(filename, ext), '.') == ext
    ensures filename <= WithSuffix(filename, ext)
    ensures WithSuffix(WithSuffix(filename, ext), ext) == WithSuffix(filename, ext)
    ensures WithSuffix(filename, ext) == filename <==> LastPiece(filename, '.') == ext
  {
    if LastPiece(filename, '.') != ext {
      LastPieceAfter(filename, ext, '.');
      SplitNoSeparator(ext, '.');
      assert filename + "." + ext == filename + ['.'] + ext;
    }
  }
}
