/** The power-line tables of src/deflex/creator/transmission.py: the
    reverse direction of a line table, the default table, the capacity
    and distance rule for the renpass grid data, and the choice between
    the two in `scenario_transmission`. The grid data are an input whose
    `capacity_calc` column is already computed. */
module Transmission {
  import opened Wrappers
  import opened Strings
  import ScenarioTables
  import ScenarioNodes
  import Views

  /** A cell of a line table: a number, infinity, or NaN (a cell that was
      never set). */
  datatype Value = Num(x: real) | Inf | NaN

  datatype LineRow = LineRow(capacity: Value, efficiency: Value, distance: Value)

  /** A line table: the line names (the index), one row per name, and the
      names of the columns the frame has. */
  datatype Lines = Lines(names: seq<string>, rows: seq<LineRow>, columns: seq<string>)

  datatype TransmissionError =
    | NoDash(name: string)            // IndexError in `id_inverter` or the region ids
    | NotAnId(name: string)           // ValueError of `int(...)` on a region id
    | NoCapacityColumn                // KeyError: no line got a capacity
    | NoEfficiency                    // NotImplementedError: no default efficiency

  predicate WellFormed(t: Lines)
  {
    |t.rows| == |t.names|
  }

  // ---------------------------------------------------------------------
  // Reverse direction

  /** `id_inverter(name)`: the second dash-separated part, a dash and the
      first part, so "A-B-C" gives "B-A"; a name without a dash has no
      second part. */
  function IdInverter(name: string): (r: Option<string>)
    ensures r.None? <==> '-' !in name
  {
    var parts := Split(name, '-');
    SplitCount(name, '-');
    CountZero(name, '-');
    if |parts| < 2 then None else Some(parts[1] + "-" + parts[0])
  }

  lemma {:induction false} CountZero(s: string, c: char)
    ensures Count(s, c) == 0 <==> c !in s
    decreases |s|
  {
    if |s| > 0 {
      CountZero(s[1..], c);
      assert s == [s[0]] + s[1..];
    }
  }

  /** On names with exactly one dash `id_inverter` is an involution. */
  lemma IdInverterInvolution(name: string)
    requires Count(name, '-') == 1
    ensures IdInverter(name).Some?
    ensures var inv := IdInverter(name).value;
      Count(inv, '-') == 1 && IdInverter(inv) == Some(name)
  {
    var parts := Split(name, '-');
    SplitCount(name, '-');
    JoinSplit(name, '-');
    var a, b := parts[0], parts[1];
    assert parts == [a, b];
    assert name == a + "-" + b;
    assert a + "-" + b == a + ['-'] + b;
    var inv := b + "-" + a;
    assert inv == b + ['-'] + a;
    SplitPair(b, a, '-');
    SplitCount(inv, '-');
  }

  /** `index.map(id_inverter)`: the first name without a dash is the error. */
  function InvertNames(names: seq<string>): (r: Result<seq<string>, TransmissionError>)
    ensures r.Success? ==> |r.value| == |names| && forall i :: 0 <= i < |names| ==> Some(r.value[i]) == IdInverter(names[i])
    ensures r.Failure? <==> exists i :: 0 <= i < |names| && '-' !in names[i]
    decreases |names|
  {
    if |names| == 0 then Success([])
    else
      match IdInverter(names[0])
      case None => Failure(NoDash(names[0]))
      case Some(n) =>
        var rest := InvertNames(names[1..]);
        assert forall i :: 1 <= i < |names| ==> names[1..][i - 1] == names[i];
        if rest.Failure? then rest else Success([n] + rest.value)
  }

  /** The frame `add_reverse_direction` returns: the rows, then the same
      rows under the inverted names. */
  function Reversed(t: Lines): Result<Lines, TransmissionError>
  {
    match InvertNames(t.names)
    case Failure(e) => Failure(e)
    case Success(inv) => Success(Lines(t.names + inv, t.rows + t.rows, t.columns))
  }

  /** The reverse table doubles the rows: the original rows first, then
      every row again under its inverted name. */
  lemma ReversedFacts(t: Lines)
    requires WellFormed(t)
    ensures (forall i :: 0 <= i < |t.names| ==> '-' in t.names[i]) <==> Reversed(t).Success?
    ensures Reversed(t).Success? ==>
      var r := Reversed(t).value;
      WellFormed(r) && |r.rows| == 2 * |t.rows| && r.names[..|t.names|] == t.names && r.columns == t.columns &&
      forall i :: 0 <= i < |t.names| ==>
        r.rows[i] == t.rows[i] && r.rows[|t.names| + i] == t.rows[i] &&
        Some(r.names[|t.names| + i]) == IdInverter(t.names[i])
  {
  }

  /** Reversing a table whose names all have one dash twice gives the names
      of the original back in the second half. */
  lemma ReversedTwice(t: Lines)
    requires WellFormed(t)
    requires forall i :: 0 <= i < |t.names| ==> Count(t.names[i], '-') == 1
    ensures Reversed(t).Success?
    ensures var inv := Reversed(t).value.names[|t.names|..];
      InvertNames(inv) == Success(t.names)
  {
    forall i | 0 <= i < |t.names|
      ensures '-' in t.names[i]
    {
      CountZero(t.names[i], '-');
    }
    var inv := InvertNames(t.names).value;
    assert Reversed(t).value.names[|t.names|..] == inv;
    forall i | 0 <= i < |inv|
      ensures IdInverter(inv[i]) == Some(t.names[i]) && '-' in inv[i]
    {
      IdInverterInvolution(t.names[i]);
    }
    InvertAllBack(t.names, inv);
  }

  lemma {:induction false} InvertAllBack(names: seq<string>, inv: seq<string>)
    requires |inv| == |names|
    requires forall i :: 0 <= i < |inv| ==> IdInverter(inv[i]) == Some(names[i])
    ensures InvertNames(inv) == Success(names)
    decreases |names|
  {
    if |names| > 0 {
      assert forall i :: 0 <= i < |inv| - 1 ==> inv[1..][i] == inv[i + 1];
      InvertAllBack(names[1..], inv[1..]);
      assert names == [names[0]] + names[1..];
    }
  }

  /** The caller's DataFrame: `add_reverse_direction` rewrites its index. */
  class LineFrame {
    var table: Lines

    constructor(t: Lines)
      ensures table == t
    {
      table := t;
    }
  }

  /** `add_reverse_direction(df)`: the caller's frame keeps its rows under
      the inverted names, and the result is the old frame followed by it.
      A name without a dash raises before anything is changed. */
  method AddReverseDirection(df: LineFrame) returns (r: Result<Lines, TransmissionError>)
    modifies df
    ensures r == Reversed(old(df.table))
    ensures r.Success? ==> df.table == old(df.table).(names := r.value.names[|old(df.table.names)|..])
    ensures r.Failure? ==> df.table == old(df.table)
  {
    var values := df.table;
    var inv := InvertNames(df.table.names);
    if inv.Failure? {
      return Failure(inv.error);
    }
    df.table := df.table.(names := inv.value);
    r := Success(Lines(values.names + df.table.names, values.rows + df.table.rows, values.columns));
    assert r.value.names[|values.names|..] == inv.value;
  }

  // ---------------------------------------------------------------------
  // Default table

  /** The row of every line in the default table. */
  const DefaultRow := LineRow(Inf, Num(1.0), NaN)

  /** The table the loop of `get_electrical_transmission_default` fills:
      one row per distinct line name; a frame that was never written has
      no columns. */
  function DefaultLines(powerLines: seq<string>): (t: Lines)
  {
    var names := Views.Distinct(powerLines);
    Lines(names, seq(|names|, i => DefaultRow), if |powerLines| > 0 then ["capacity", "efficiency"] else [])
  }

  /** `get_electrical_transmission_default(power_lines, both_directions)` */
  function TransmissionDefaultSpec(powerLines: seq<string>, both: bool): Result<Lines, TransmissionError>
  {
    if both then Reversed(DefaultLines(powerLines)) else Success(DefaultLines(powerLines))
  }

  /** The default table has each line once with infinite capacity,
      efficiency 1 and no distance column. */
  lemma DefaultLinesFacts(powerLines: seq<string>)
    ensures var t := DefaultLines(powerLines);
      WellFormed(t) && "distance" !in t.columns &&
      (forall n :: n in t.names <==> n in powerLines) &&
      (forall i, j :: 0 <= i < j < |t.names| ==> t.names[i] != t.names[j]) &&
      forall i :: 0 <= i < |t.rows| ==> t.rows[i].capacity == Inf && t.rows[i].efficiency == Num(1.0)
  {
  }

  /** `get_electrical_transmission_default`, with its loop over the names:
      `.loc` on a name already present writes the same values again. */
  method TransmissionDefault(powerLines: seq<string>, both: bool) returns (r: Result<Lines, TransmissionError>)
    ensures r == TransmissionDefaultSpec(powerLines, both)
  {
    var names: seq<string> := [];
    var i := 0;
    while i < |powerLines|
      invariant 0 <= i <= |powerLines|
      invariant names == Views.Distinct(powerLines[..i])
    {
      assert powerLines[..i + 1][..i] == powerLines[..i];
      if powerLines[i] !in names {
        names := names + [powerLines[i]];
      }
      i := i + 1;
    }
    assert powerLines[..i] == powerLines;
    var trans := Lines(names, seq(|names|, k => DefaultRow), if |powerLines| > 0 then ["capacity", "efficiency"] else []);
    if both {
      var frame := new LineFrame(trans);
      r := AddReverseDirection(frame);
    } else {
      r := Success(trans);
    }
  }

  // ---------------------------------------------------------------------
  // Renpass grid

  /** A row of the renpass grid table. */
  datatype GridRow = GridRow(plusRegionId: int, minusRegionId: int, scenarioName: string, capacityCalc: real, distance: real)

  const GridScenario := "status_quo_2012_distance"

  /** The rows `grid.query(...)` selects. */
  function Matching(grid: seq<GridRow>, plus: int, minus: int): (r: seq<GridRow>)
    ensures forall g :: g in r <==> g in grid && g.plusRegionId == plus && g.minusRegionId == minus && g.scenarioName == GridScenario
    decreases |grid|
  {
    if |grid| == 0 then []
    else
      var g := grid[0];
      var rest := Matching(grid[1..], plus, minus);
      assert forall x :: x in grid <==> x == g || x in grid[1..];
      if g.plusRegionId == plus && g.minusRegionId == minus && g.scenarioName == GridScenario then [g] + rest else rest
  }

  function Capacities(rows: seq<GridRow>): (r: seq<real>)
    ensures |r| == |rows| && forall i :: 0 <= i < |rows| ==> r[i] == rows[i].capacityCalc
  {
    seq(|rows|, i requires 0 <= i < |rows| => rows[i].capacityCalc)
  }

  /** `get_grid_capacity(grid, plus, minus)`: the summed capacity and the
      first distance of the matching rows, or (0, 0) without a match. */
  function GridCapacity(grid: seq<GridRow>, plus: int, minus: int): (real, real)
  {
    var m := Matching(grid, plus, minus);
    if |m| > 0 then (ScenarioNodes.Sum(Capacities(m)), m[0].distance) else (0.0, 0.0)
  }

  /** The capacity of a pair only depends on the rows of that pair in the
      status-quo scenario: other rows can be added anywhere. */
  lemma {:induction false} GridCapacityIgnoresOthers(grid: seq<GridRow>, other: GridRow, plus: int, minus: int, k: nat)
    requires k <= |grid|
    requires other.plusRegionId != plus || other.minusRegionId != minus || other.scenarioName != GridScenario
    ensures GridCapacity(grid[..k] + [other] + grid[k..], plus, minus) == GridCapacity(grid, plus, minus)
    decreases k
  {
    MatchingSkips(grid, other, plus, minus, k);
  }

  lemma {:induction false} MatchingSkips(grid: seq<GridRow>, other: GridRow, plus: int, minus: int, k: nat)
    requires k <= |grid|
    requires other.plusRegionId != plus || other.minusRegionId != minus || other.scenarioName != GridScenario
    ensures Matching(grid[..k] + [other] + grid[k..], plus, minus) == Matching(grid, plus, minus)
    decreases k
  {
    var s := grid[..k] + [other] + grid[k..];
    if k == 0 {
      assert s[1..] == grid;
      assert s[0] == other;
    } else {
      var tail := grid[1..];
      assert s[1..] == tail[..k - 1] + [other] + tail[k - 1..];
      MatchingSkips(tail, other, plus, minus, k - 1);
      assert s[0] == grid[0];
    }
  }

  /** With non-negative capacities the summed capacity is non-negative, and
      it is zero when nothing matches. */
  lemma GridCapacityFacts(grid: seq<GridRow>, plus: int, minus: int)
    requires forall i :: 0 <= i < |grid| ==> grid[i].capacityCalc >= 0.0
    ensures GridCapacity(grid, plus, minus).0 >= 0.0
    ensures |Matching(grid, plus, minus)| == 0 ==> GridCapacity(grid, plus, minus) == (0.0, 0.0)
  {
    var m := Matching(grid, plus, minus);
    forall i | 0 <= i < |m|
      ensures Capacities(m)[i] >= 0.0
    {
      assert m[i] in grid;
    }
    SumNonNegative(Capacities(m));
  }

  lemma {:induction false} SumNonNegative(s: seq<real>)
    requires forall i :: 0 <= i < |s| ==> s[i] >= 0.0
    ensures ScenarioNodes.Sum(s) >= 0.0
    decreases |s|
  {
    if |s| > 0 {
      SumNonNegative(s[1..]);
    }
  }

  /** The renpass rule for one line from the capacities and distances of
      both directions; None leaves the row unset. */
  function Combine(c1: (real, real), c2: (real, real)): Option<(real, real)>
  {
    if c1.0 == 0.0 && c2.0 == 0.0 then Some((0.0, 0.0))
    else if c1.0 == 0.0 then Some(c2)
    else if c2.0 == 0.0 then Some(c1)
    else None
  }

  /** The row is set exactly when one direction has no capacity; it then
      carries the capacity of the two directions together and the distance
      of the direction that has one. The rule does not depend on the order
      of the directions. */
  lemma CombineFacts(c1: (real, real), c2: (real, real))
    ensures Combine(c1, c2).Some? <==> c1.0 == 0.0 || c2.0 == 0.0
    ensures Combine(c1, c2).Some? ==> Combine(c1, c2).value.0 == c1.0 + c2.0
    ensures Combine(c1, c2).Some? && c1.0 != 0.0 ==> Combine(c1, c2).value.1 == c1.1
    ensures Combine(c1, c2).Some? && c2.0 != 0.0 ==> Combine(c1, c2).value.1 == c2.1
    ensures Combine(c1, c2) == Combine(c2, c1)
  {
  }

  /** `int("110{0}".format(part[2:]))` */
  function RegionId(part: string): Option<int>
  {
    ScenarioTables.ParseInt("110" + (if |part| >= 2 then part[2..] else ""))
  }

  /** The two region ids of a line name "DEaa-DEbb". The first id is
      parsed before the second part is looked up, so a bad first region
      raises the `ValueError` even in a name without a dash. */
  function LineIds(name: string): (r: Result<(int, int), TransmissionError>)
    ensures RegionId(Split(name, '-')[0]).None? ==> r == Failure(NotAnId(name))
    ensures |Split(name, '-')| >= 2 <==> '-' in name
    ensures RegionId(Split(name, '-')[0]).Some? && '-' !in name ==> r == Failure(NoDash(name))
    ensures r.Success? <==>
      && |Split(name, '-')| >= 2
      && RegionId(Split(name, '-')[0]).Some?
      && RegionId(Split(name, '-')[1]).Some?
    ensures r.Success? ==> r.value == (RegionId(Split(name, '-')[0]).value, RegionId(Split(name, '-')[1]).value)
  {
    var parts := Split(name, '-');
    SplitCount(name, '-');
    CountZero(name, '-');
    match RegionId(parts[0])
    case None => Failure(NotAnId(name))
    case Some(a) =>
      if |parts| < 2 then Failure(NoDash(name))
      else
        match RegionId(parts[1])
        case None => Failure(NotAnId(name))
        case Some(b) => Success((a, b))
  }

  /** A name without a dash whose region part is not a number raises the
      `ValueError` of the first `int(...)`, not the missing second part. */
  lemma NoDashBadRegion()
    ensures LineIds("DEXX") == Failure(NotAnId("DEXX"))
  {
    assert Split("DEXX", '-')[0] == "DEXX" by {
      SplitNoSeparator("DEXX", '-');
    }
    assert "110" + "DEXX"[2..] == "110XX";
    assert !ScenarioTables.IsDigit("110XX"[3]);
  }


  /** The row of one line, from the two directions. */
  function RenpassRow(grid: seq<GridRow>, a: int, b: int): LineRow
  {
    match Combine(GridCapacity(grid, a, b), GridCapacity(grid, b, a))
    case Some(c) => LineRow(Num(c.0), NaN, Num(c.1))
    case None => LineRow(NaN, NaN, NaN)
  }

  /** The row of the line with the given name. */
  function RowOfLine(grid: seq<GridRow>, name: string): Result<LineRow, TransmissionError>
  {
    match LineIds(name)
    case Failure(e) => Failure(e)
    case Success(ids) => Success(RenpassRow(grid, ids.0, ids.1))
  }

  /** The rows of a loop that computes one row per name with `f`, up to
      the first error. */
  function CollectRows(names: seq<string>, f: string -> Result<LineRow, TransmissionError>): Result<seq<LineRow>, TransmissionError>
    decreases |names|
  {
    if |names| == 0 then Success([])
    else
      match CollectRows(names[..|names| - 1], f)
      case Failure(e) => Failure(e)
      case Success(rows) =>
        match f(names[|names| - 1])
        case Failure(e) => Failure(e)
        case Success(row) => Success(rows + [row])
  }

  /** The rows of the loop over the lines, up to the first bad name. */
  function RenpassRows(grid: seq<GridRow>, names: seq<string>): Result<seq<LineRow>, TransmissionError>
  {
    CollectRows(names, name => RowOfLine(grid, name))
  }

  predicate AnySet(rows: seq<LineRow>)
  {
    exists i :: 0 <= i < |rows| && rows[i].capacity != NaN
  }

  /** `get_electrical_transmission_renpass(both_directions)` on the lines of
      the de21 map. The capacity and distance columns only exist if some
      row was set. */
  function RenpassSpec(grid: seq<GridRow>, names: seq<string>, both: bool): Result<Lines, TransmissionError>
  {
    match RenpassRows(grid, names)
    case Failure(e) => Failure(e)
    case Success(rows) =>
      if !AnySet(rows) then Failure(NoCapacityColumn)
      else
        var t := Lines(names, rows, ["capacity", "distance"]);
        if both then Reversed(t) else Success(t)
  }

  /** `get_electrical_transmission_renpass`, with its loop over the lines. */
  method TransmissionRenpass(grid: seq<GridRow>, names: seq<string>, both: bool) returns (r: Result<Lines, TransmissionError>)
    ensures r == RenpassSpec(grid, names, both)
  {
    var rows: seq<LineRow> := [];
    var i := 0;
    while i < |names|
      invariant 0 <= i <= |names|
      invariant RenpassRows(grid, names[..i]) == Success(rows)
    {
      assert names[..i + 1][..i] == names[..i];
      var row := RowOfLine(grid, names[i]);
      if row.Failure? {
        RenpassRowsFailure(grid, names, i + 1);
        return Failure(row.error);
      }
      rows := rows + [row.value];
      i := i + 1;
    }
    assert names[..i] == names;
    if !AnySet(rows) {
      return Failure(NoCapacityColumn);
    }
    var t := Lines(names, rows, ["capacity", "distance"]);
    if both {
      var frame := new LineFrame(t);
      r := AddReverseDirection(frame);
    } else {
      r := Success(t);
    }
  }

  /** An error in a prefix of the loop is the error of the whole loop. */
  lemma {:induction false} CollectRowsFailure(names: seq<string>, f: string -> Result<LineRow, TransmissionError>, i: nat)
    requires i <= |names|
    requires CollectRows(names[..i], f).Failure?
    ensures CollectRows(names, f) == CollectRows(names[..i], f)
    decreases |names| - i
  {
    if i < |names| {
      assert names[..i + 1][..i] == names[..i];
      CollectRowsFailure(names, f, i + 1);
    } else {
      assert names[..i] == names;
    }
  }

  /** A successful loop has one row per name, the one `f` computes. */
  lemma {:induction false} CollectRowsFacts(names: seq<string>, f: string -> Result<LineRow, TransmissionError>)
    requires CollectRows(names, f).Success?
    ensures var rows := CollectRows(names, f).value;
      |rows| == |names| && forall i :: 0 <= i < |names| ==> f(names[i]) == Success(rows[i])
    decreases |names|
  {
    if |names| > 0 {
      var front := names[..|names| - 1];
      CollectRowsFacts(front, f);
      assert forall i :: 0 <= i < |front| ==> front[i] == names[i];
    }
  }

  /** An error on one line is the error of the whole loop. */
  lemma RenpassRowsFailure(grid: seq<GridRow>, names: seq<string>, i: nat)
    requires i <= |names|
    requires RenpassRows(grid, names[..i]).Failure?
    ensures RenpassRows(grid, names) == RenpassRows(grid, names[..i])
  {
    CollectRowsFailure(names, name => RowOfLine(grid, name), i);
  }

  /** Every line of the renpass table is one of the given lines, in order,
      and each row is the one the rule gives for its line. */
  lemma RenpassRowsFacts(grid: seq<GridRow>, names: seq<string>)
    requires RenpassRows(grid, names).Success?
    ensures var rows := RenpassRows(grid, names).value;
      |rows| == |names| &&
      forall i :: 0 <= i < |names| ==> RowOfLine(grid, names[i]) == Success(rows[i])
  {
    CollectRowsFacts(names, name => RowOfLine(grid, name));
  }

  // ---------------------------------------------------------------------
  // Scenario transmission

  /** `elec_trans["efficiency"] = e` */
  function WithEfficiency(t: Lines, e: real): (r: Lines)
    ensures |r.rows| == |t.rows| && r.names == t.names
  {
    Lines(t.names, seq(|t.rows|, i requires 0 <= i < |t.rows| => t.rows[i].(efficiency := Num(e))),
          if "efficiency" in t.columns then t.columns else t.columns + ["efficiency"])
  }

  const PatchLine := "DE22-DE01"
  const PatchRow := LineRow(Num(9999999.0), Num(0.999999), Num(0.0))

  /** The index of a name in the table, if it is there. */
  function IndexOf(names: seq<string>, name: string): (r: Option<nat>)
    ensures r.Some? ==> r.value < |names| && names[r.value] == name
    ensures r.None? ==> name !in names
    decreases |names|
  {
    if |names| == 0 then None
    else if names[|names| - 1] == name then Some(|names| - 1)
    else IndexOf(names[..|names| - 1], name)
  }

  /** The three `.loc["DE22-DE01", ...]` assignments: the row is
      overwritten, or appended when it is missing, and the distance column
      is created when needed (NaN for the other rows). */
  function Patched(t: Lines): (r: Lines)
  {
    var cols := if "distance" in t.columns then t.columns else t.columns + ["distance"];
    var cols2 := if "efficiency" in cols then cols else cols + ["efficiency"];
    var cols3 := if "capacity" in cols2 then cols2 else cols2 + ["capacity"];
    match IndexOf(t.names, PatchLine)
    case Some(k) => Lines(t.names, if k < |t.rows| then t.rows[k := PatchRow] else t.rows, cols3)
    case None => Lines(t.names + [PatchLine], t.rows + [PatchRow], cols3)
  }

  /** Every line whose name contains an offshore region gets an infinite
      capacity; the others keep their rows. */
  function Offshore(t: Lines, offshore: seq<string>): (r: Lines)
    ensures r.names == t.names && r.columns == t.columns && |r.rows| == |t.rows|
    ensures forall i :: 0 <= i < |t.rows| ==>
      r.rows[i] == if i < |t.names| && OnOffshore(t.names[i], offshore) then t.rows[i].(capacity := Inf) else t.rows[i]
  {
    Lines(t.names, seq(|t.rows|, i requires 0 <= i < |t.rows| =>
      if i < |t.names| && OnOffshore(t.names[i], offshore) then t.rows[i].(capacity := Inf) else t.rows[i]), t.columns)
  }

  predicate OnOffshore(name: string, offshore: seq<string>)
  {
    exists k :: 0 <= k < |offshore| && Contains(name, offshore[k])
  }

  /** The line table before the offshore lines and the de22 patch. */
  function BaseLines(grid: seq<GridRow>, de21Lines: seq<string>, lines: seq<string>,
                     rmap: string, copperplate: bool, efficiency: Option<real>): Result<Lines, TransmissionError>
  {
    if (rmap == "de21" || rmap == "de22") && !copperplate then
      match RenpassSpec(grid, de21Lines, false)
      case Failure(e) => Failure(e)
      case Success(t) => if efficiency.None? then Failure(NoEfficiency) else Success(WithEfficiency(t, efficiency.value))
    else TransmissionDefaultSpec(lines, false)
  }

  /** `scenario_transmission(regions, lines, rmap, copperplate)`, with the
      offshore regions of `regions` given as a list. The renpass table with
      the configured efficiency is used for the maps de21 and de22 without
      copperplate, the default table otherwise; the lines of offshore
      regions get an infinite capacity; the de22 line is patched when the
      configuration (not the arguments) names the map de22 without
      copperplate. A map or copperplate argument left out is taken from
      the configuration. */
  function ScenarioTransmission(grid: seq<GridRow>, de21Lines: seq<string>, lines: seq<string>, offshore: seq<string>,
                                rmap: Option<string>, copperplate: Option<bool>, efficiency: Option<real>,
                                cfgMap: string, cfgCopperplate: bool): (r: Result<Lines, TransmissionError>)
    ensures var base := BaseLines(grid, de21Lines, lines, rmap.GetOr(cfgMap), copperplate.GetOr(cfgCopperplate), efficiency);
      && (r.Failure? <==> base.Failure?)
      && (r.Failure? ==> r.error == base.error)
      && (r.Success? ==> |base.value.names| <= |r.value.names| && r.value.names[..|base.value.names|] == base.value.names)
    ensures r.Success? && !(cfgMap == "de22" && !cfgCopperplate) ==>
      forall i :: 0 <= i < |r.value.rows| && i < |r.value.names| && OnOffshore(r.value.names[i], offshore) ==>
        r.value.rows[i].capacity == Inf
  {
    match BaseLines(grid, de21Lines, lines, rmap.GetOr(cfgMap), copperplate.GetOr(cfgCopperplate), efficiency)
    case Failure(e) => Failure(e)
    case Success(t) =>
      var t' := Offshore(t, offshore);
      Success(if cfgMap == "de22" && !cfgCopperplate then Patched(t') else t')
  }

  /** With copperplate, or a map other than de21 and de22, every line has
      infinite capacity and efficiency 1 and there is no distance column,
      unless the configuration asks for the de22 patch. */
  lemma CopperplateLines(grid: seq<GridRow>, de21Lines: seq<string>, lines: seq<string>, offshore: seq<string>,
                         rmap: Option<string>, copperplate: Option<bool>, efficiency: Option<real>,
                         cfgMap: string, cfgCopperplate: bool)
    requires var m := rmap.GetOr(cfgMap); copperplate.GetOr(cfgCopperplate) || (m != "de21" && m != "de22")
    requires cfgMap != "de22" || cfgCopperplate
    ensures var r := ScenarioTransmission(grid, de21Lines, lines, offshore, rmap, copperplate, efficiency, cfgMap, cfgCopperplate);
      r.Success? && r.value.names == Views.Distinct(lines) && "distance" !in r.value.columns &&
      forall i :: 0 <= i < |r.value.rows| ==> r.value.rows[i].capacity == Inf && r.value.rows[i].efficiency == Num(1.0)
  {
  }

  /** Without copperplate on de21 or de22 the renpass lines are used, every
      row with the configured efficiency; without one the call fails. */
  lemma RenpassChosen(grid: seq<GridRow>, de21Lines: seq<string>, lines: seq<string>, offshore: seq<string>,
                      rmap: Option<string>, copperplate: Option<bool>, efficiency: Option<real>,
                      cfgMap: string, cfgCopperplate: bool)
    requires var m := rmap.GetOr(cfgMap); (m == "de21" || m == "de22") && !copperplate.GetOr(cfgCopperplate)
    requires cfgMap != "de22" || cfgCopperplate
    requires RenpassSpec(grid, de21Lines, false).Success?
    ensures var r := ScenarioTransmission(grid, de21Lines, lines, offshore, rmap, copperplate, efficiency, cfgMap, cfgCopperplate);
      (efficiency.None? <==> r == Failure(NoEfficiency)) &&
      (efficiency.Some? ==>
        (r.Success? && r.value.names == de21Lines &&
         forall i :: 0 <= i < |r.value.rows| ==> r.value.rows[i].efficiency == Num(efficiency.value)))
  {
  }

  /** The de22 patch follows the configuration even when the arguments name
      another map: a copperplate call on a de22 configuration still gets
      the fixed de22 line. */
  lemma PatchFollowsConfiguration(lines: seq<string>, efficiency: Option<real>)
    ensures var r := ScenarioTransmission([], [], lines, [], Some("de21"), Some(true), efficiency, "de22", false);
      r.Success? && PatchLine in r.value.names && "distance" in r.value.columns
  {
    var t := Offshore(DefaultLines(lines), []);
    PatchedFacts(t);
  }

  /** After the patch the de22 line has its fixed values and every other
      line keeps its row. */
  lemma PatchedFacts(t: Lines)
    requires WellFormed(t)
    ensures var r := Patched(t);
      WellFormed(r) && PatchLine in r.names && "distance" in r.columns &&
      (forall i :: 0 <= i < |r.names| && r.names[i] == PatchLine && (forall j :: i < j < |r.names| ==> r.names[j] != PatchLine) ==>
        r.rows[i] == PatchRow) &&
      forall i :: 0 <= i < |t.names| && t.names[i] != PatchLine ==> r.names[i] == t.names[i] && r.rows[i] == t.rows[i]
  {
    match IndexOf(t.names, PatchLine)
    case Some(k) =>
      LastIndexOf(t.names, PatchLine);
    case None =>
  }

  /** `IndexOf` finds the last occurrence. */
  lemma {:induction false} LastIndexOf(names: seq<string>, name: string)
    ensures IndexOf(names, name).Some? ==> forall j :: IndexOf(names, name).value < j < |names| ==> names[j] != name
    decreases |names|
  {
    if |names| > 0 && names[|names| - 1] != name {
      LastIndexOf(names[..|names| - 1], name);
    }
  }
}
