/** The scenario creator of src/deflex/creator/scenario_creator.py: the
    default decentralised-heat table, the assembly of the table
    collection in `create_scenario`, the "general" table and the cleaning
    of the time series. The tables the scenario_builder package computes
    (storages, power plants, feed-in, demand, commodity sources) are
    inputs. */
module Creator {
  import opened Wrappers
  import opened Strings
  import ScenarioTables
  import ScenarioNodes

  type Table = ScenarioTables.Table

  datatype CreatorError =
    | MissingTable(name: string)          // KeyError on the table collection
    | MissingColumn(table: string, column: string)
    | NoRows(table: string)               // IndexError of `.iloc[0]`
    | NotNumeric(table: string, column: string)
    | AmbiguousCapacity(key: seq<string>) // ValueError: truth value of a Series
    | NotInIndex(key: seq<string>)        // KeyError of `drop`

  // ---------------------------------------------------------------------
  // Decentralised heat

  /** A row of the decentralised-heat table, indexed by (region, fuel). */
  datatype HeatRow = HeatRow(region: string, fuel: string, efficiency: real, source: string, sourceRegion: string)

  /** The fuels of the default table with the commodity they draw on. */
  const HeatFuels: seq<(string, string)> := [
    ("gas", "natural gas"), ("hard coal", "hard coal"), ("lignite", "lignite"),
    ("natural gas", "natural gas"), ("oil", "oil"), ("other", "other"), ("re", "other")]

  /** The commodity a decentralised heat fuel is drawn from. */
  function HeatSource(fuel: string): string
  {
    if fuel == "gas" then "natural gas" else if fuel == "re" then "other" else fuel
  }

  function Fuels(rows: seq<HeatRow>): (r: seq<string>)
    ensures |r| == |rows| && forall i :: 0 <= i < |rows| ==> r[i] == rows[i].fuel
  {
    seq(|rows|, i requires 0 <= i < |rows| => rows[i].fuel)
  }

  /** The two `.loc[("DE", fuel), ...]` assignments: the row of the fuel is
      overwritten, or appended when it is missing. */
  function SetHeat(rows: seq<HeatRow>, fuel: string, source: string): (r: seq<HeatRow>)
    ensures fuel !in Fuels(rows) ==> r == rows + [HeatRow("DE", fuel, 0.85, source, "")]
    ensures fuel in Fuels(rows) ==> |r| == |rows|
    decreases |rows|
  {
    if |rows| == 0 then [HeatRow("DE", fuel, 0.85, source, "")]
    else if rows[0].fuel == fuel then [rows[0].(efficiency := 0.85, source := source)] + rows[1..]
    else
      assert Fuels(rows) == [rows[0].fuel] + Fuels(rows[1..]);
      [rows[0]] + SetHeat(rows[1..], fuel, source)
  }

  /** The default decentralised-heat table, one row per listed fuel. */
  function DefaultHeatRows(): (rows: seq<HeatRow>)
  {
    seq(|HeatFuels|, i requires 0 <= i < |HeatFuels| => HeatRow("DE", HeatFuels[i].0, 0.85, HeatFuels[i].1, "DE"))
  }

  /** The default table has one row per fuel with efficiency 0.85, its
      commodity as source and "DE" as region and as source region. */
  lemma DefaultHeatRowsFacts()
    ensures var rows := DefaultHeatRows();
      Fuels(rows) == ["gas", "hard coal", "lignite", "natural gas", "oil", "other", "re"] &&
      forall i :: 0 <= i < |rows| ==>
        rows[i].region == "DE" && rows[i].efficiency == 0.85 && rows[i].sourceRegion == "DE" &&
        rows[i].source == HeatSource(rows[i].fuel)
  {
    assert forall k :: 0 <= k < |HeatFuels| ==> HeatFuels[k].1 == HeatSource(HeatFuels[k].0);
  }

  /** `scenario_default_decentralised_heat()`, with its loop over the fuels. */
  method DefaultDecentralisedHeat() returns (rows: seq<HeatRow>)
    ensures rows == DefaultHeatRows()
  {
    rows := [];
    var i := 0;
    while i < |HeatFuels|
      invariant 0 <= i <= |HeatFuels|
      invariant |rows| == i
      invariant forall k :: 0 <= k < i ==> rows[k] == HeatRow("DE", HeatFuels[k].0, 0.85, HeatFuels[k].1, "")
    {
      var fuel := HeatFuels[i].0;
      assert forall k :: 0 <= k < i ==> HeatFuels[k].0 != fuel;
      assert fuel !in Fuels(rows);
      rows := SetHeat(rows, fuel, HeatFuels[i].1);
      i := i + 1;
    }
    rows := seq(|rows|, k requires 0 <= k < |rows| => rows[k].(sourceRegion := "DE"));
  }

  /** The heat table as the collection stores it. */
  function HeatTable(rows: seq<HeatRow>): (t: Table)
    ensures t.Frame? && |t.rows| == |rows| && ScenarioTables.Rectangular(t)
  {
    ScenarioTables.Frame(["efficiency", "source", "source region"],
      seq(|rows|, i requires 0 <= i < |rows| =>
        ScenarioTables.Row([rows[i].region, rows[i].fuel],
          [ScenarioTables.Num(rows[i].efficiency), ScenarioTables.Text(rows[i].source), ScenarioTables.Text(rows[i].sourceRegion)])))
  }

  // ---------------------------------------------------------------------
  // The table collection of `create_scenario`

  /** The table collection: a dictionary from table names to tables. */
  type Collection = map<string, Table>

  /** `"storage medium"` defaults to electricity for every storage. */
  function WithStorageMedium(t: Table): (r: Table)
  {
    match t
    case Frame(columns, rows) =>
      if "storage medium" in columns then t
      else ScenarioTables.Frame(columns + ["storage medium"],
        seq(|rows|, i requires 0 <= i < |rows| => rows[i].(cells := rows[i].cells + [ScenarioTables.Text("electricity")])))
    case Series(name, entries) =>
      if exists i :: 0 <= i < |entries| && entries[i].key == ["storage medium"] then t
      else ScenarioTables.Series(name, entries + [ScenarioTables.Entry(["storage medium"], ScenarioTables.Text("electricity"))])
  }

  /** Every storage ends up with a medium; a table that had one keeps it,
      and a table without one gets "electricity" in every row. */
  lemma StorageMediumFacts(t: Table)
    requires t.Frame? && ScenarioTables.Rectangular(t)
    ensures var r := WithStorageMedium(t);
      r.Frame? && ScenarioTables.Rectangular(r) && "storage medium" in r.columns && |r.rows| == |t.rows| &&
      ("storage medium" in t.columns ==> r == t) &&
      ("storage medium" !in t.columns ==>
        r.columns == t.columns + ["storage medium"] &&
        forall i :: 0 <= i < |r.rows| ==>
          r.rows[i].key == t.rows[i].key && r.rows[i].cells == t.rows[i].cells + [ScenarioTables.Text("electricity")])
  {
  }

  /** The position of a column. */
  function ColumnIndex(columns: seq<string>, name: string): (r: Option<nat>)
    ensures r.Some? ==> r.value < |columns| && columns[r.value] == name
    ensures r.None? <==> name !in columns
    decreases |columns|
  {
    if |columns| == 0 then None
    else if columns[0] == name then Some(0)
    else
      match ColumnIndex(columns[1..], name)
      case None => None
      case Some(k) => Some(k + 1)
  }

  function Without<T>(s: seq<T>, j: nat): (r: seq<T>)
    ensures j < |s| ==> |r| == |s| - 1
  {
    if j < |s| then s[..j] + s[j + 1..] else s
  }

  /** A cell divided by 1000; NaN stays NaN and a text raises. */
  function Kilo(c: ScenarioTables.Cell): Option<ScenarioTables.Cell>
  {
    match c
    case Num(x) => Some(ScenarioTables.Num(x / 1000.0))
    case Empty => Some(ScenarioTables.Empty)
    case Text(_) => None
  }

  /** `after` is `before` with its `k`-th cell divided by 1000. */
  predicate DividedRow(before: ScenarioTables.Row, after: ScenarioTables.Row, k: nat)
  {
    && after.key == before.key && |after.cells| == |before.cells|
    && (forall c :: 0 <= c < |before.cells| && c != k ==> after.cells[c] == before.cells[c])
    && (k < |before.cells| ==> Kilo(before.cells[k]) == Some(after.cells[k]))
  }

  /** `frame[column] /= 1000` for the column at index `k`: every row keeps
      its key and its other cells, its `k`-th cell is divided by 1000,
      and a text anywhere in the column raises. */
  function Divided(rows: seq<ScenarioTables.Row>, k: nat): (r: Option<seq<ScenarioTables.Row>>)
    ensures r.Some? ==> |r.value| == |rows| && forall i :: 0 <= i < |rows| ==> DividedRow(rows[i], r.value[i], k)
    ensures r.None? <==> exists i :: 0 <= i < |rows| && k < |rows[i].cells| && rows[i].cells[k].Text?
    decreases |rows|
  {
    if |rows| == 0 then Some([])
    else
      var row := rows[|rows| - 1];
      match Divided(rows[..|rows| - 1], k)
      case None => None
      case Some(front) =>
        if k < |row.cells| then
          match Kilo(row.cells[k])
          case None => None
          case Some(c) => Some(front + [row.(cells := row.cells[k := c])])
        else Some(front + [row])
  }

  /** The rows without their `j`-th cell. */
  function PopRows(rows: seq<ScenarioTables.Row>, j: nat): (r: seq<ScenarioTables.Row>)
    ensures |r| == |rows|
    ensures forall i :: 0 <= i < |rows| ==> r[i].key == rows[i].key && r[i].cells == Without(rows[i].cells, j)
  {
    seq(|rows|, i requires 0 <= i < |rows| => rows[i].(cells := Without(rows[i].cells, j)))
  }

  /** The commodity sources after `cs.pop("co2_price")` and
      `cs["emission"] /= 1000`, and the popped first price. */
  function MoveCo2Price(cs: Table): (r: Result<(ScenarioTables.Cell, Table), CreatorError>)
    ensures cs.Series? || "co2_price" !in cs.columns ==> r == Failure(MissingColumn("commodity sources", "co2_price"))
    ensures cs.Frame? && "co2_price" in cs.columns && |cs.rows| == 0 ==> r == Failure(NoRows("commodity sources"))
    ensures r.Success? ==>
      var j := ColumnIndex(cs.columns, "co2_price").value;
      var (price, t) := r.value;
      && cs.Frame? && "co2_price" in cs.columns && j < |cs.rows[0].cells| && price == cs.rows[0].cells[j]
      && t.Frame? && t.columns == Without(cs.columns, j) && |t.rows| == |cs.rows|
      && "emission" in t.columns
      && forall i :: 0 <= i < |t.rows| ==>
           DividedRow(cs.rows[i].(cells := Without(cs.rows[i].cells, j)), t.rows[i], ColumnIndex(t.columns, "emission").value)
  {
    if cs.Series? then Failure(MissingColumn("commodity sources", "co2_price"))
    else
      match ColumnIndex(cs.columns, "co2_price")
      case None => Failure(MissingColumn("commodity sources", "co2_price"))
      case Some(j) =>
        if |cs.rows| == 0 || j >= |cs.rows[0].cells| then Failure(NoRows("commodity sources"))
        else
          var columns := Without(cs.columns, j);
          match ColumnIndex(columns, "emission")
          case None => Failure(MissingColumn("commodity sources", "emission"))
          case Some(k) =>
            match Divided(PopRows(cs.rows, j), k)
            case None => Failure(NotNumeric("commodity sources", "emission"))
            case Some(divided) => Success((cs.rows[0].cells[j], ScenarioTables.Frame(columns, divided)))
  }

  /** No emission cell holds a text. */
  predicate NumericColumn(columns: seq<string>, rows: seq<ScenarioTables.Row>, name: string)
  {
    forall i, c :: 0 <= i < |rows| && 0 <= c < |columns| && c < |rows[i].cells| && columns[c] == name ==> !rows[i].cells[c].Text?
  }

  /** Taking a column out keeps the others in order. */
  lemma PopKeepsColumn(columns: seq<string>, rows: seq<ScenarioTables.Row>, j: nat, name: string)
    requires j < |columns| && columns[j] != name
    requires forall i :: 0 <= i < |rows| ==> |rows[i].cells| == |columns|
    requires NumericColumn(columns, rows, name)
    ensures name in columns ==> name in Without(columns, j)
    ensures NumericColumn(Without(columns, j), PopRows(rows, j), name)
  {
    var cols := Without(columns, j);
    if name in columns {
      var e :| 0 <= e < |columns| && columns[e] == name;
      if e < j { assert cols[e] == name; } else { assert cols[e - 1] == name; }
    }
    var popped := PopRows(rows, j);
    forall i, c | 0 <= i < |popped| && 0 <= c < |cols| && c < |popped[i].cells| && cols[c] == name
      ensures !popped[i].cells[c].Text?
    {
      if c < j {
        assert popped[i].cells[c] == rows[i].cells[c] && columns[c] == name;
      } else {
        assert popped[i].cells[c] == rows[i].cells[c + 1] && columns[c + 1] == name;
      }
    }
  }

  /** Once the price is popped, no column of that name is left. */
  lemma PopRemoves(columns: seq<string>, j: nat)
    requires j < |columns|
    requires forall a, b :: 0 <= a < b < |columns| ==> columns[a] != columns[b]
    ensures columns[j] !in Without(columns, j)
  {
    var cols := Without(columns, j);
    forall c | 0 <= c < |cols| ensures cols[c] != columns[j] {
      if c < j { assert cols[c] == columns[c]; } else { assert cols[c] == columns[c + 1]; }
    }
  }

  /** With an emission column of numbers and distinct column names,
      moving the co2 price succeeds exactly when there is a price column,
      and then no price column is left. */
  lemma MoveCo2PriceFacts(cs: Table)
    requires cs.Frame? && ScenarioTables.Rectangular(cs)
    requires |cs.rows| > 0 && "emission" in cs.columns
    requires forall a, b :: 0 <= a < b < |cs.columns| ==> cs.columns[a] != cs.columns[b]
    requires NumericColumn(cs.columns, cs.rows, "emission")
    ensures "co2_price" in cs.columns <==> MoveCo2Price(cs).Success?
    ensures MoveCo2Price(cs).Success? ==> "co2_price" !in MoveCo2Price(cs).value.1.columns
  {
    if "co2_price" in cs.columns {
      var j := ColumnIndex(cs.columns, "co2_price").value;
      PopKeepsColumn(cs.columns, cs.rows, j, "emission");
      PopRemoves(cs.columns, j);
      var columns := Without(cs.columns, j);
      var k := ColumnIndex(columns, "emission").value;
      DividedNumeric(PopRows(cs.rows, j), k, columns);
    }
  }

  lemma {:induction false} DividedNumeric(rows: seq<ScenarioTables.Row>, k: nat, columns: seq<string>)
    requires k < |columns| && NumericColumn(columns, rows, columns[k])
    ensures Divided(rows, k).Some?
    decreases |rows|
  {
    if |rows| > 0 {
      DividedNumeric(rows[..|rows| - 1], k, columns);
    }
  }

  /** `general_data(year, input_data)`. */
  datatype General = General(year: int, steps: nat, name: string)

  /** The name a created scenario gets: deflex, the year, the map, whether
      heat is modelled and whether the merit order is regional. */
  function ScenarioName(year: int, rmap: string, heat: bool, groupTransformer: bool): string
  {
    Join(["deflex", ScenarioTables.Show(year), rmap, if heat then "heat" else "no-heat",
          if groupTransformer then "no-reg-merit" else "reg-merit"], "_")
  }

  /** The number of time steps is the length of the electricity demand. */
  function GeneralData(year: int, tc: Collection, rmap: string, heat: bool, groupTransformer: bool): (r: Result<General, CreatorError>)
    ensures r.Failure? <==> "electricity demand series" !in tc
    ensures r.Success? ==>
      (r.value.year == year && r.value.steps == ScenarioTables.Length(tc["electricity demand series"]))
  {
    if "electricity demand series" !in tc then Failure(MissingTable("electricity demand series"))
    else Success(General(year, ScenarioTables.Length(tc["electricity demand series"]), ScenarioName(year, rmap, heat, groupTransformer)))
  }

  lemma {:induction false} NoUnderscoreInDigits(s: string)
    requires ScenarioTables.AllDigits(s)
    ensures '_' !in s
  {
    forall i | 0 <= i < |s| ensures s[i] != '_' {
      assert ScenarioTables.IsDigit(s[i]);
    }
  }

  /** The scenario name can be read back: for a map name without an
      underscore, its five pieces are the fixed prefix, the year, the map
      and the two settings. */
  lemma ScenarioNameParts(year: int, rmap: string, heat: bool, groupTransformer: bool)
    requires '_' !in rmap
    ensures var parts := Split(ScenarioName(year, rmap, heat, groupTransformer), '_');
      |parts| == 5 && parts[0] == "deflex" && ScenarioTables.ParseInt(parts[1]) == Some(year) && parts[2] == rmap &&
      (parts[3] == "heat" <==> heat) && (parts[4] == "no-reg-merit" <==> groupTransformer)
  {
    var y := ScenarioTables.Show(year);
    if year < 0 {
      NoUnderscoreInDigits(ScenarioTables.NatDigits(-year));
      assert y == "-" + ScenarioTables.NatDigits(-year);
    } else {
      NoUnderscoreInDigits(ScenarioTables.NatDigits(year));
    }
    var parts := ["deflex", y, rmap, if heat then "heat" else "no-heat", if groupTransformer then "no-reg-merit" else "reg-merit"];
    SplitJoin(parts, '_');
    ScenarioTables.ParseShow(year);
  }

  /** The rows `general_data` adds to the "general" table. */
  function GeneralRows(g: General): seq<ScenarioTables.Row>
  {
    [ScenarioTables.Row(["year"], [ScenarioTables.Num(g.year as real)]),
     ScenarioTables.Row(["number of time steps"], [ScenarioTables.Num(g.steps as real)]),
     ScenarioTables.Row(["name"], [ScenarioTables.Text(g.name)])]
  }

  /** `opsd_version`: before 2015 the 2019-06-05 release unless one is given. */
  function OpsdVersion(given: Option<string>, year: int): (r: Option<string>)
    ensures given.Some? ==> r == given
    ensures given.None? ==> (r.Some? <==> year < 2015)
  {
    if given.None? && year < 2015 then Some("2019-06-05") else given
  }

  /** The tables scenario_builder computes for `create_scenario`. */
  datatype BuilderTables = BuilderTables(
    storages: Table, volatilePlants: Table, powerPlants: Table, powerLines: Table,
    chpPlants: Table, chpPowerPlants: Table, commoditySources: Table, volatileSeries: Table,
    demand: Collection, info: Table)

  /** The collection after the storages, power plants, lines, CHP plants
      and decentralised heat are set. */
  function PlantStage(regionCount: nat, b: BuilderTables, heat: bool): (tc: Collection)
  {
    var tc := map["general" := ScenarioTables.Frame([], []), "storages" := WithStorageMedium(b.storages),
                  "volatile plants" := b.volatilePlants, "power plants" := b.powerPlants];
    var tc := if regionCount > 1 then tc["power lines" := b.powerLines] else tc;
    var tc := if heat then tc["heat-chp plants" := b.chpPlants]["power plants" := b.chpPowerPlants] else tc;
    if heat then tc["decentralised heat" := HeatTable(DefaultHeatRows())] else tc
  }

  /** `create_scenario(regions, year, name, lines)` without the mobility
      step: the collection is filled table by table, and the demand tables
      are merged in with `update`. */
  function CreateScenario(regionCount: nat, year: int, b: BuilderTables, rmap: string, heat: bool, groupTransformer: bool)
    : (r: Result<Collection, CreatorError>)
    ensures MoveCo2Price(b.commoditySources).Failure? ==> r == Failure(MoveCo2Price(b.commoditySources).error)
    ensures r.Success? ==>
      && MoveCo2Price(b.commoditySources).Success?
      && "info" in r.value && r.value["info"] == b.info
      && "general" in r.value && r.value["general"].Frame? && r.value["general"].columns == ["value"]
      && |r.value["general"].rows| > 0
      && r.value["general"].rows[0] == ScenarioTables.Row(["co2 price"], [MoveCo2Price(b.commoditySources).value.0])
  {
    match MoveCo2Price(b.commoditySources)
    case Failure(e) => Failure(e)
    case Success((price, cs)) =>
      var co2Row := ScenarioTables.Row(["co2 price"], [price]);
      var tc := PlantStage(regionCount, b, heat)["general" := ScenarioTables.Frame(["value"], [co2Row])]
                  ["commodity sources" := cs]["volatile series" := b.volatileSeries] + b.demand;
      match GeneralData(year, tc, rmap, heat, groupTransformer)
      case Failure(e) => Failure(e)
      case Success(g) =>
        Success(tc["general" := ScenarioTables.Frame(["value"], [co2Row] + GeneralRows(g))]["info" := b.info])
  }

  /** The plant tables: lines only for more than one region, the CHP
      plants and decentralised heat only with heat, and storages that all
      have a medium. */
  lemma PlantStageFacts(regionCount: nat, b: BuilderTables, heat: bool)
    ensures var tc := PlantStage(regionCount, b, heat);
      ("power lines" in tc <==> regionCount > 1) && (regionCount > 1 ==> tc["power lines"] == b.powerLines) &&
      ("decentralised heat" in tc <==> heat) && ("heat-chp plants" in tc <==> heat) &&
      "storages" in tc && tc["storages"] == WithStorageMedium(b.storages) &&
      "power plants" in tc && tc["power plants"] == (if heat then b.chpPowerPlants else b.powerPlants) &&
      "electricity demand series" !in tc && "commodity sources" !in tc && "info" !in tc
  {
  }

  /** `create_scenario` fails exactly when the commodity sources cannot
      give up their co2 price or there is no electricity demand series. */
  lemma CreateScenarioFails(regionCount: nat, year: int, b: BuilderTables, rmap: string, heat: bool, groupTransformer: bool)
    ensures CreateScenario(regionCount, year, b, rmap, heat, groupTransformer).Failure? <==>
      (MoveCo2Price(b.commoditySources).Failure? || "electricity demand series" !in b.demand)
  {
    PlantStageFacts(regionCount, b, heat);
  }

  /** A table the demand tables do not replace is the one set before:
      the lines exist only for more than one region, the decentralised
      heat only with heat, and the commodity sources are those without the
      co2 price. */
  lemma CreateScenarioTables(regionCount: nat, year: int, b: BuilderTables, rmap: string, heat: bool, groupTransformer: bool)
    requires CreateScenario(regionCount, year, b, rmap, heat, groupTransformer).Success?
    ensures var tc := CreateScenario(regionCount, year, b, rmap, heat, groupTransformer).value;
      ("power lines" !in b.demand ==> ("power lines" in tc <==> regionCount > 1)) &&
      ("decentralised heat" !in b.demand ==> ("decentralised heat" in tc <==> heat)) &&
      ("storages" !in b.demand ==> "storages" in tc && tc["storages"] == WithStorageMedium(b.storages)) &&
      ("commodity sources" !in b.demand ==> "commodity sources" in tc && tc["commodity sources"] == MoveCo2Price(b.commoditySources).value.1) &&
      forall name :: name in b.demand && name != "general" && name != "info" ==> name in tc && tc[name] == b.demand[name]
  {
    PlantStageFacts(regionCount, b, heat);
    var moved := MoveCo2Price(b.commoditySources).value;
    var co2Row := ScenarioTables.Row(["co2 price"], [moved.0]);
    var tc0 := PlantStage(regionCount, b, heat);
    var tc1 := tc0["general" := ScenarioTables.Frame(["value"], [co2Row])]
                 ["commodity sources" := moved.1]["volatile series" := b.volatileSeries] + b.demand;
    var g := GeneralData(year, tc1, rmap, heat, groupTransformer).value;
    var tc := tc1["general" := ScenarioTables.Frame(["value"], [co2Row] + GeneralRows(g))]["info" := b.info];
    assert CreateScenario(regionCount, year, b, rmap, heat, groupTransformer).value == tc;
    UpdatesKeep(tc0, b.demand, ScenarioTables.Frame(["value"], [co2Row]), ScenarioTables.Frame(["value"], [co2Row] + GeneralRows(g)),
                moved.1, b.volatileSeries, b.info);
  }

  /** What the updates of `create_scenario` leave of the plant tables and
      the demand tables. */
  lemma UpdatesKeep(tc0: Collection, demand: Collection, general1: Table, general2: Table, cs: Table, vs: Table, info: Table)
    ensures var tc := (tc0["general" := general1]["commodity sources" := cs]["volatile series" := vs] + demand)
                         ["general" := general2]["info" := info];
      && (forall name :: name in demand && name != "general" && name != "info" ==> name in tc && tc[name] == demand[name])
      && (forall name ::
            (name !in demand && name != "general" && name != "info" && name != "commodity sources" && name != "volatile series") ==>
              (name in tc <==> name in tc0) && (name in tc0 ==> tc[name] == tc0[name]))
      && ("commodity sources" !in demand ==> "commodity sources" in tc && tc["commodity sources"] == cs)
  {
  }

  /** The "general" table holds the co2 price and then the year, the
      number of time steps and the name, and "info" is the configuration. */
  lemma CreateScenarioGeneral(regionCount: nat, year: int, b: BuilderTables, rmap: string, heat: bool, groupTransformer: bool)
    requires CreateScenario(regionCount, year, b, rmap, heat, groupTransformer).Success?
    ensures var tc := CreateScenario(regionCount, year, b, rmap, heat, groupTransformer).value;
      "general" in tc && "info" in tc && tc["info"] == b.info &&
      tc["general"] == ScenarioTables.Frame(["value"],
        [ScenarioTables.Row(["co2 price"], [MoveCo2Price(b.commoditySources).value.0])] +
        GeneralRows(General(year, ScenarioTables.Length(b.demand["electricity demand series"]), ScenarioName(year, rmap, heat, groupTransformer))))
  {
    PlantStageFacts(regionCount, b, heat);
  }

  // ---------------------------------------------------------------------
  // Cleaning the time series

  /** A column of a time-series table and its values. */
  datatype Column = Column(key: seq<string>, values: seq<real>)

  /** A table of time series (a DataFrame with one column per series). */
  datatype SeriesTable = SeriesTable(name: string, columns: seq<Column>)

  /** A row of the "volatile plants" or "power plants" table; `None` is a
      NaN capacity. */
  datatype PlantRow = PlantRow(key: seq<string>, capacity: Option<real>)

  function Sum(c: Column): real
  {
    ScenarioNodes.Sum(c.values)
  }

  /** The columns of a table whose sum is not zero, in order. */
  function NonZeroColumns(columns: seq<Column>): (r: seq<Column>)
    ensures |r| <= |columns|
    ensures forall c :: c in r <==> c in columns && Sum(c) != 0.0
    decreases |columns|
  {
    if |columns| == 0 then []
    else
      var rest := NonZeroColumns(columns[..|columns| - 1]);
      var c := columns[|columns| - 1];
      assert forall x :: x in columns <==> x in columns[..|columns| - 1] || x == c;
      if Sum(c) == 0.0 then rest else rest + [c]
  }

  /** The first loop of `clean_time_series`: every table whose name
      contains "series" loses its zero-sum columns. */
  function CleanSeries(frames: seq<SeriesTable>): (r: seq<SeriesTable>)
    ensures |r| == |frames|
    ensures forall i :: 0 <= i < |frames| ==>
      r[i].name == frames[i].name &&
      r[i].columns == if Contains(frames[i].name, "series") then NonZeroColumns(frames[i].columns) else frames[i].columns
  {
    seq(|frames|, i requires 0 <= i < |frames| =>
      if Contains(frames[i].name, "series") then frames[i].(columns := NonZeroColumns(frames[i].columns)) else frames[i])
  }

  /** The rows of a plant table under a key. */
  function RowsOf(rows: seq<PlantRow>, key: seq<string>): (r: seq<PlantRow>)
    ensures forall x :: x in r <==> x in rows && x.key == key
    ensures (forall i :: 0 <= i < |rows| ==> rows[i].key != key) ==> r == []
    decreases |rows|
  {
    if |rows| == 0 then []
    else
      var rest := RowsOf(rows[..|rows| - 1], key);
      var x := rows[|rows| - 1];
      assert forall y :: y in rows <==> y in rows[..|rows| - 1] || y == x;
      if x.key == key then rest + [x] else rest
  }

  /** Whether a volatile series is kept: its plant must exist with a
      capacity other than 0 (a NaN capacity compares unequal to 0); two
      plants under the key make the comparison ambiguous. */
  function KeepVolatile(vp: seq<PlantRow>, key: seq<string>): Result<bool, CreatorError>
  {
    var m := RowsOf(vp, key);
    if |m| == 0 then Success(false)
    else if |m| == 1 then Success(m[0].capacity != Some(0.0))
    else Failure(AmbiguousCapacity(key))
  }

  /** The second loop: the volatile series are dropped one by one; an
      error leaves the series not yet looked at in place. */
  function VolatileFilter(columns: seq<Column>, kept: seq<Column>, vp: seq<PlantRow>): (seq<Column>, Option<CreatorError>)
    decreases |columns|
  {
    if |columns| == 0 then (kept, None)
    else
      match KeepVolatile(vp, columns[0].key)
      case Failure(e) => (kept + columns, Some(e))
      case Success(keep) => VolatileFilter(columns[1..], if keep then kept + [columns[0]] else kept, vp)
  }

  function Keys(rows: seq<PlantRow>): (r: seq<seq<string>>)
    ensures |r| == |rows| && forall i :: 0 <= i < |rows| ==> r[i] == rows[i].key
  {
    seq(|rows|, i requires 0 <= i < |rows| => rows[i].key)
  }

  /** `df.drop(key)`: every row under the label goes. */
  function DropKey(rows: seq<PlantRow>, key: seq<string>): (r: seq<PlantRow>)
    ensures forall x :: x in r <==> x in rows && x.key != key
    ensures |r| <= |rows|
    decreases |rows|
  {
    if |rows| == 0 then []
    else
      var rest := DropKey(rows[..|rows| - 1], key);
      var x := rows[|rows| - 1];
      assert forall y :: y in rows <==> y in rows[..|rows| - 1] || y == x;
      if x.key == key then rest else rest + [x]
  }

  /** The third loop: over the rows as they were at its start, every row
      with capacity 0 drops its label from the current table; a label that
      is already gone raises. */
  function DropZeroPlants(snapshot: seq<PlantRow>, current: seq<PlantRow>): (seq<PlantRow>, Option<CreatorError>)
    decreases |snapshot|
  {
    if |snapshot| == 0 then (current, None)
    else if snapshot[0].capacity == Some(0.0) then
      if snapshot[0].key !in Keys(current) then (current, Some(NotInIndex(snapshot[0].key)))
      else DropZeroPlants(snapshot[1..], DropKey(current, snapshot[0].key))
    else DropZeroPlants(snapshot[1..], current)
  }

  predicate DistinctKeys(rows: seq<PlantRow>)
  {
    forall i, j :: 0 <= i < j < |rows| ==> rows[i].key != rows[j].key
  }

  predicate DistinctColumns(columns: seq<Column>)
  {
    forall i, j :: 0 <= i < j < |columns| ==> columns[i].key != columns[j].key
  }

  /** The state `clean_time_series` leaves behind. */
  datatype Cleaned = Cleaned(frames: seq<SeriesTable>, powerPlants: Option<seq<PlantRow>>, outcome: Outcome<CreatorError>)

  function IndexOfTable(frames: seq<SeriesTable>, name: string): (r: Option<nat>)
    ensures r.Some? ==> r.value < |frames| && frames[r.value].name == name
    ensures r.None? ==> forall i :: 0 <= i < |frames| ==> frames[i].name != name
    decreases |frames|
  {
    if |frames| == 0 then None
    else if frames[|frames| - 1].name == name then Some(|frames| - 1)
    else IndexOfTable(frames[..|frames| - 1], name)
  }

  /** The tables after the first two loops, the volatile series being the
      `v`-th table. */
  function AfterSeries(frames: seq<SeriesTable>, v: nat, vp: seq<PlantRow>): (r: (seq<SeriesTable>, Option<CreatorError>))
    requires v < |frames|
  {
    var cleaned := CleanSeries(frames);
    var (kept, err) := VolatileFilter(cleaned[v].columns, [], vp);
    (cleaned[v := cleaned[v].(columns := kept)], err)
  }

  /** The last loop, once the series are clean. */
  function PlantStep(frames: seq<SeriesTable>, pp: Option<seq<PlantRow>>): Cleaned
  {
    if pp.None? then Cleaned(frames, pp, Fail(MissingTable("power plants")))
    else
      var dropped := DropZeroPlants(pp.value, pp.value);
      Cleaned(frames, Some(dropped.0), if dropped.1.Some? then Fail(dropped.1.value) else Pass)
  }

  /** `clean_time_series(table_collection)` */
  function CleanSpec(frames: seq<SeriesTable>, vp: Option<seq<PlantRow>>, pp: Option<seq<PlantRow>>): Cleaned
  {
    match IndexOfTable(frames, "volatile series")
    case None => Cleaned(frames, pp, Fail(MissingTable("volatile series")))
    case Some(v) =>
      if vp.None? then Cleaned(frames, pp, Fail(MissingTable("volatile plants")))
      else
        var after := AfterSeries(frames, v, vp.value);
        if after.1.Some? then Cleaned(after.0, pp, Fail(after.1.value)) else PlantStep(after.0, pp)
  }

  /** With distinct keys a plant table loses exactly its rows of capacity 0. */
  lemma {:induction false} DropZeroPlantsDistinct(snapshot: seq<PlantRow>, current: seq<PlantRow>)
    requires DistinctKeys(current) && DistinctKeys(snapshot)
    requires forall x :: x in snapshot ==> x in current
    ensures DropZeroPlants(snapshot, current).1.None?
    ensures forall x :: x in DropZeroPlants(snapshot, current).0 <==>
      x in current && !(x in snapshot && x.capacity == Some(0.0))
    decreases |snapshot|
  {
    if |snapshot| > 0 {
      var s := snapshot[0];
      var zero := s.capacity == Some(0.0);
      assert s in current;
      var next := if zero then DropKey(current, s.key) else current;
      if zero {
        assert s.key in Keys(current) by {
          var j :| 0 <= j < |current| && current[j] == s;
          assert Keys(current)[j] == s.key;
        }
        DropKeySub(current, s.key);
      }
      forall x | x in snapshot[1..] ensures x in next {
        var i :| 1 <= i < |snapshot| && snapshot[i] == x;
        assert snapshot[0].key != snapshot[i].key;
      }
      DropZeroPlantsDistinct(snapshot[1..], next);
      forall x ensures (x in DropZeroPlants(snapshot, current).0 <==> x in current && !(x in snapshot && x.capacity == Some(0.0))) {
        assert x in snapshot <==> x == s || x in snapshot[1..];
        if zero && x in current && x.key == s.key {
          SameKey(current, x, s);
        }
      }
    }
  }

  /** Under distinct keys a key names one row. */
  lemma SameKey(rows: seq<PlantRow>, x: PlantRow, y: PlantRow)
    requires DistinctKeys(rows) && x in rows && y in rows && x.key == y.key
    ensures x == y
  {
    var i :| 0 <= i < |rows| && rows[i] == x;
    var j :| 0 <= j < |rows| && rows[j] == y;
  }

  lemma DropKeySub(rows: seq<PlantRow>, key: seq<string>)
    requires DistinctKeys(rows)
    ensures DistinctKeys(DropKey(rows, key))
    decreases |rows|
  {
    if |rows| > 0 {
      DropKeySub(rows[..|rows| - 1], key);
      var rest := DropKey(rows[..|rows| - 1], key);
      var x := rows[|rows| - 1];
      if x.key != key {
        forall y | y in rest ensures y.key != x.key {
          var i :| 0 <= i < |rows| - 1 && rows[i] == y;
        }
      }
    }
  }

  /** With a unique plant per key, the volatile series kept are exactly
      those whose plant has a capacity other than 0. */
  lemma {:induction false} VolatileFilterUnique(columns: seq<Column>, kept: seq<Column>, vp: seq<PlantRow>)
    requires DistinctKeys(vp)
    ensures VolatileFilter(columns, kept, vp).1.None?
    ensures forall c :: c in VolatileFilter(columns, kept, vp).0 <==>
      c in kept || (c in columns && exists i :: 0 <= i < |vp| && vp[i].key == c.key && vp[i].capacity != Some(0.0))
    decreases |columns|
  {
    if |columns| > 0 {
      var c := columns[0];
      UniqueRows(vp, c.key);
      var keep := KeepVolatile(vp, c.key).value;
      assert keep <==> exists i :: 0 <= i < |vp| && vp[i].key == c.key && vp[i].capacity != Some(0.0);
      VolatileFilterUnique(columns[1..], if keep then kept + [c] else kept, vp);
      assert forall x :: x in columns <==> x == c || x in columns[1..];
    }
  }

  /** Under distinct keys a key matches at most one row. */
  lemma UniqueRows(vp: seq<PlantRow>, key: seq<string>)
    requires DistinctKeys(vp)
    ensures |RowsOf(vp, key)| <= 1
    ensures |RowsOf(vp, key)| == 1 <==> exists i :: 0 <= i < |vp| && vp[i].key == key
    ensures |RowsOf(vp, key)| == 1 ==> forall i :: 0 <= i < |vp| && vp[i].key == key ==> vp[i] == RowsOf(vp, key)[0]
    decreases |vp|
  {
    if |vp| > 0 {
      var front := vp[..|vp| - 1];
      UniqueRows(front, key);
      var x := vp[|vp| - 1];
      if x.key == key {
        assert forall i :: 0 <= i < |front| ==> front[i].key != key;
      }
    }
  }

  /** With one plant per key the cleaning does not fail, and its tables
      are those of the second loop. */
  lemma CleanSpecPasses(frames: seq<SeriesTable>, vp: seq<PlantRow>, pp: seq<PlantRow>)
    requires IndexOfTable(frames, "volatile series").Some?
    requires DistinctKeys(vp) && DistinctKeys(pp)
    ensures var v := IndexOfTable(frames, "volatile series").value;
      var c := CleanSpec(frames, Some(vp), Some(pp));
      c.outcome == Pass && c.frames == AfterSeries(frames, v, vp).0 &&
      c.powerPlants == Some(DropZeroPlants(pp, pp).0)
  {
    var v := IndexOfTable(frames, "volatile series").value;
    var cleaned := CleanSeries(frames);
    VolatileFilterUnique(cleaned[v].columns, [], vp);
    DropZeroPlantsDistinct(pp, pp);
  }

  /** Every "series" table other than the volatile series keeps exactly
      its columns with a non-zero sum; the other tables are untouched. */
  lemma CleanSpecSeries(frames: seq<SeriesTable>, vp: seq<PlantRow>, pp: seq<PlantRow>)
    requires IndexOfTable(frames, "volatile series").Some?
    requires DistinctKeys(vp) && DistinctKeys(pp)
    ensures var c := CleanSpec(frames, Some(vp), Some(pp));
      |c.frames| == |frames| &&
      forall i :: 0 <= i < |frames| ==>
        c.frames[i].name == frames[i].name &&
        (!Contains(frames[i].name, "series") ==> c.frames[i] == frames[i]) &&
        (frames[i].name != "volatile series" && Contains(frames[i].name, "series") ==>
          forall col :: col in c.frames[i].columns <==> col in frames[i].columns && Sum(col) != 0.0)
  {
    CleanSpecPasses(frames, vp, pp);
    var v := IndexOfTable(frames, "volatile series").value;
    var cleaned := CleanSeries(frames);
    var after := AfterSeries(frames, v, vp).0;
    assert after == cleaned[v := cleaned[v].(columns := VolatileFilter(cleaned[v].columns, [], vp).0)];
    VolatileSeriesIsSeries();
  }

  lemma VolatileSeriesIsSeries()
    ensures Contains("volatile series", "series")
  {
    assert "volatile series"[9..][..6] == "series";
    ContainsAt("volatile series", "series", 9);
  }

  /** The volatile series keep exactly the columns with a non-zero sum
      whose plant has a capacity other than 0. */
  lemma CleanSpecVolatile(frames: seq<SeriesTable>, vp: seq<PlantRow>, pp: seq<PlantRow>)
    requires IndexOfTable(frames, "volatile series").Some?
    requires DistinctKeys(vp) && DistinctKeys(pp)
    ensures var c := CleanSpec(frames, Some(vp), Some(pp));
      var v := IndexOfTable(frames, "volatile series").value;
      forall col :: col in c.frames[v].columns <==>
        col in frames[v].columns && Sum(col) != 0.0 &&
        exists k :: 0 <= k < |vp| && vp[k].key == col.key && vp[k].capacity != Some(0.0)
  {
    CleanSpecPasses(frames, vp, pp);
    var v := IndexOfTable(frames, "volatile series").value;
    var cleaned := CleanSeries(frames);
    VolatileSeriesIsSeries();
    VolatileFilterUnique(cleaned[v].columns, [], vp);
  }

  /** The power plants lose exactly their rows of capacity 0. */
  lemma CleanSpecPlants(frames: seq<SeriesTable>, vp: seq<PlantRow>, pp: seq<PlantRow>)
    requires IndexOfTable(frames, "volatile series").Some?
    requires DistinctKeys(vp) && DistinctKeys(pp)
    ensures var c := CleanSpec(frames, Some(vp), Some(pp));
      c.powerPlants.Some? && forall x :: x in c.powerPlants.value <==> x in pp && x.capacity != Some(0.0)
  {
    CleanSpecPasses(frames, vp, pp);
    DropZeroPlantsDistinct(pp, pp);
  }

  /** A substring found at a position is contained. */
  lemma {:induction false} ContainsAt(s: string, sub: string, k: nat)
    requires k + |sub| <= |s| && s[k..][..|sub|] == sub
    ensures Contains(s, sub)
    decreases k
  {
    if k > 0 {
      assert s[1..][k - 1..] == s[k..];
      ContainsAt(s[1..], sub, k - 1);
    }
  }

  /** The series, volatile plants and power plants of a table collection;
      `clean_time_series` changes them in place. */
  class TableCollection {
    var frames: seq<SeriesTable>
    var volatilePlants: Option<seq<PlantRow>>
    var powerPlants: Option<seq<PlantRow>>

    /** Every table holds each column label once. */
    predicate Valid()
      reads this
    {
      forall i :: 0 <= i < |frames| ==> DistinctColumns(frames[i].columns)
    }

    constructor(frames: seq<SeriesTable>, vp: Option<seq<PlantRow>>, pp: Option<seq<PlantRow>>)
      ensures this.frames == frames && volatilePlants == vp && powerPlants == pp
    {
      this.frames := frames;
      volatilePlants := vp;
      powerPlants := pp;
    }

    /** `clean_time_series(self)` */
    method CleanTimeSeries() returns (r: Outcome<CreatorError>)
      requires Valid()
      modifies this
      ensures var c := CleanSpec(old(frames), old(volatilePlants), old(powerPlants));
        frames == c.frames && powerPlants == c.powerPlants && r == c.outcome
      ensures volatilePlants == old(volatilePlants)
    {
      var c := CleanTables(frames, volatilePlants, powerPlants);
      frames := c.frames;
      powerPlants := c.powerPlants;
      r := c.outcome;
    }
  }

  /** The three loops of `clean_time_series` and the table lookups between
      them; the first missing table stops the cleaning. */
  method CleanTables(frames: seq<SeriesTable>, vp: Option<seq<PlantRow>>, pp: Option<seq<PlantRow>>) returns (c: Cleaned)
    ensures c == CleanSpec(frames, vp, pp)
  {
    var v := IndexOfTable(frames, "volatile series");
    if v.None? {
      return Cleaned(frames, pp, Fail(MissingTable("volatile series")));
    }
    if vp.None? {
      return Cleaned(frames, pp, Fail(MissingTable("volatile plants")));
    }
    var cleaned, err := CleanVolatile(frames, v.value, vp.value);
    if err.Some? {
      return Cleaned(cleaned, pp, Fail(err.value));
    }
    if pp.None? {
      return Cleaned(cleaned, pp, Fail(MissingTable("power plants")));
    }
    var plants, err2 := DropPlants(pp.value);
    c := Cleaned(cleaned, Some(plants), if err2.Some? then Fail(err2.value) else Pass);
  }

  /** The first two loops. */
  method CleanVolatile(frames: seq<SeriesTable>, v: nat, vp: seq<PlantRow>) returns (r: seq<SeriesTable>, err: Option<CreatorError>)
    requires v < |frames|
    ensures (r, err) == AfterSeries(frames, v, vp)
  {
    r := CleanSeriesFrames(frames);
    var kept;
    kept, err := FilterVolatile(r[v].columns, vp);
    r := r[v := r[v].(columns := kept)];
  }

  /** The first loop, table by table and column by column. */
  method CleanSeriesFrames(frames: seq<SeriesTable>) returns (r: seq<SeriesTable>)
    ensures r == CleanSeries(frames)
  {
    r := [];
    var i := 0;
    while i < |frames|
      invariant 0 <= i <= |frames|
      invariant r == CleanSeries(frames[..i])
    {
      var f := frames[i];
      if Contains(f.name, "series") {
        var kept := DropZeroColumns(f.columns);
        f := f.(columns := kept);
      }
      r := r + [f];
      i := i + 1;
      assert frames[..i][..i - 1] == frames[..i - 1];
    }
    assert frames[..i] == frames;
  }

  /** `del table[column]` for every column whose sum is zero. */
  method DropZeroColumns(columns: seq<Column>) returns (kept: seq<Column>)
    ensures kept == NonZeroColumns(columns)
  {
    kept := [];
    var i := 0;
    while i < |columns|
      invariant 0 <= i <= |columns|
      invariant kept == NonZeroColumns(columns[..i])
    {
      assert columns[..i + 1][..i] == columns[..i];
      if Sum(columns[i]) != 0.0 {
        kept := kept + [columns[i]];
      }
      i := i + 1;
    }
    assert columns[..i] == columns;
  }

  /** The loop over the volatile series. */
  method FilterVolatile(columns: seq<Column>, vp: seq<PlantRow>) returns (kept: seq<Column>, err: Option<CreatorError>)
    ensures (kept, err) == VolatileFilter(columns, [], vp)
  {
    kept := [];
    var i := 0;
    while i < |columns|
      invariant 0 <= i <= |columns|
      invariant VolatileFilter(columns, [], vp) == VolatileFilter(columns[i..], kept, vp)
    {
      assert columns[i..][1..] == columns[i + 1..];
      var keep := KeepVolatile(vp, columns[i].key);
      if keep.Failure? {
        return kept + columns[i..], Some(keep.error);
      }
      if keep.value {
        kept := kept + [columns[i]];
      }
      i := i + 1;
    }
    err := None;
  }

  /** The loop over the power plants. */
  method DropPlants(rows: seq<PlantRow>) returns (current: seq<PlantRow>, err: Option<CreatorError>)
    ensures (current, err) == DropZeroPlants(rows, rows)
  {
    current := rows;
    var i := 0;
    while i < |rows|
      invariant 0 <= i <= |rows|
      invariant DropZeroPlants(rows, rows) == DropZeroPlants(rows[i..], current)
    {
      assert rows[i..][1..] == rows[i + 1..];
      if rows[i].capacity == Some(0.0) {
        if rows[i].key !in Keys(current) {
          return current, Some(NotInIndex(rows[i].key));
        }
        current := DropKey(current, rows[i].key);
      }
      i := i + 1;
    }
    err := None;
  }

  /** Two power plants under one label, one of them without capacity: both
      rows are dropped, since `drop` removes a label and not a row. */
  lemma SharedLabelDropsBoth()
    ensures DropZeroPlants([PlantRow(["a"], Some(0.0)), PlantRow(["a"], Some(5.0))],
                           [PlantRow(["a"], Some(0.0)), PlantRow(["a"], Some(5.0))]) == ([], None)
  {
    var rows := [PlantRow(["a"], Some(0.0)), PlantRow(["a"], Some(5.0))];
    assert Keys(rows) == [["a"], ["a"]];
    assert DropKey(rows, ["a"]) == [];
  }
}
