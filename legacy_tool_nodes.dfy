/** The builder of the older scenario class in src/deflex/scenario_tools.py
    (`Scenario.create_nodes` and its `add_*` functions), as rule and table
    functions over the insert-only registry. Its tables differ from those
    of src/deflex/nodes.py: the demand series carry two column levels that
    one stage swaps in place, as the storages stage swaps the levels of its
    index; the commodity sources are read for Germany ("DE") only; and a
    power plant always draws from the German fuel bus. Where a rule of
    src/deflex/nodes.py does the same thing, it is reused from
    `LegacyNodes`. */
module LegacyToolNodes {
  import opened Wrappers
  import opened Strings
  import opened Labels
  import opened NodeRegistry
  import ScenarioNodes
  import Views
  import LegacyNodes

  type SeriesColumn = ScenarioNodes.SeriesColumn
  type VolatileRow = ScenarioNodes.VolatileRow
  type ChpRow = ScenarioNodes.ChpRow
  type LineRow = ScenarioNodes.LineRow
  type MobilityRow = ScenarioNodes.MobilityRow
  type StorageRow = ScenarioNodes.StorageRow

  // ------------------------------------------------------ two-level columns

  /** A column of a frame with two column levels, `(top, sub)`. */
  datatype Column = Column(top: string, sub: string, values: seq<real>)

  /** `columns.swaplevel()`: the two levels change places and the columns
      keep their order. */
  function SwapLevels(cols: seq<Column>): (r: seq<Column>)
    ensures |r| == |cols|
    ensures forall i :: 0 <= i < |cols| ==>
      r[i].top == cols[i].sub && r[i].sub == cols[i].top && r[i].values == cols[i].values
  {
    seq(|cols|, i requires 0 <= i < |cols| => Column(cols[i].sub, cols[i].top, cols[i].values))
  }

  /** Swapping the levels twice restores the frame. */
  lemma SwapLevelsTwice(cols: seq<Column>)
    ensures SwapLevels(SwapLevels(cols)) == cols
  {
    var r := SwapLevels(SwapLevels(cols));
    assert forall i :: 0 <= i < |cols| ==> r[i] == cols[i];
  }

  /** `top in frame`: some column has this top-level key. */
  predicate HasTop(cols: seq<Column>, top: string)
  {
    exists c :: c in cols && c.top == top
  }

  /** `frame[top]`: the columns under a top-level key, in frame order. */
  function Under(cols: seq<Column>, top: string): (r: seq<Column>)
    ensures forall c :: c in r <==> c in cols && c.top == top
    ensures |r| <= |cols|
    decreases |cols|
  {
    if |cols| == 0 then []
    else (if cols[0].top == top then [cols[0]] else []) + Under(cols[1..], top)
  }

  /** `frame[top, sub]`, `None` when there is no such column. */
  function ColumnValues(cols: seq<Column>, top: string, sub: string): (r: Option<seq<real>>)
    ensures r.Some? ==> exists c :: c in cols && c.top == top && c.sub == sub && c.values == r.value
    ensures r.None? ==> forall c :: c in cols ==> c.top != top || c.sub != sub
    decreases |cols|
  {
    if |cols| == 0 then None
    else if cols[0].top == top && cols[0].sub == sub then Some(cols[0].values)
    else ColumnValues(cols[1..], top, sub)
  }

  /** A column read as a series of the older builder: the region is the
      lower level, the name the upper one. */
  function AsSeries(c: Column): SeriesColumn
  {
    ScenarioNodes.SeriesColumn(c.sub, c.top, c.values)
  }

  // ------------------------------------------------------------ fuel names

  /** `name.replace(" ", "_")` */
  function Underscored(name: string): string
  {
    Replace(name, " ", "_")
  }

  /** Writing a fuel with "_" for " " is idempotent, and both spellings
      read back, with "_" as " ", to the same commodity name. */
  lemma UnderscoredNames(name: string)
    ensures ' ' !in Underscored(name)
    ensures Underscored(Underscored(name)) == Underscored(name)
    ensures ScenarioNodes.CommodityName(Underscored(name)) == ScenarioNodes.CommodityName(name)
  {
    var u := Underscored(name);
    ReplaceCharAt(name, ' ', '_');
    ReplaceCharAt(u, ' ', '_');
    ReplaceCharAt(u, '_', ' ');
    ReplaceCharAt(name, '_', ' ');
    assert forall i :: 0 <= i < |u| ==> u[i] != ' ';
    var uu := Underscored(u);
    assert |uu| == |u| && forall i :: 0 <= i < |u| ==> uu[i] == u[i];
    var a := ScenarioNodes.CommodityName(u);
    var b := ScenarioNodes.CommodityName(name);
    assert |a| == |b| && forall i :: 0 <= i < |a| ==> a[i] == b[i];
  }

  // ------------------------------------------------------ commodity sources

  /** A row of "commodity_source", indexed by (region, fuel); `co2Price`
      is `None` when the row has no "co2_price". */
  datatype CommoditySourceRow = CommoditySourceRow(region: string, fuel: string, emission: real, costs: real, co2Price: Option<real>)

  /** The rows of one region. */
  function RegionRows(rows: seq<CommoditySourceRow>, region: string): (r: seq<CommoditySourceRow>)
    ensures forall c :: c in r <==> c in rows && c.region == region
    decreases |rows|
  {
    if |rows| == 0 then []
    else (if rows[0].region == region then [rows[0]] else []) + RegionRows(rows[1..], region)
  }

  /** `table_collection["commodity_source"].loc["DE"]` */
  function GermanCommodities(table: Option<seq<CommoditySourceRow>>): (r: Result<seq<CommoditySourceRow>, BuildError>)
    ensures table.None? ==> r == Failure(MissingTable("commodity_source"))
    ensures table.Some? && (forall c :: c in table.value ==> c.region != "DE") ==>
      r == Failure(MissingRow("commodity_source", ["DE"]))
    ensures r.Success? ==> table.Some? && forall c :: c in r.value <==> c in table.value && c.region == "DE"
  {
    if table.None? then Failure(MissingTable("commodity_source"))
    else
      var rows := RegionRows(table.value, "DE");
      if |rows| == 0 then Failure(MissingRow("commodity_source", ["DE"]))
      else
        assert rows[0] in rows;
        Success(rows)
  }

  /** `cs.loc[fuel]` */
  function FindFuel(cs: seq<CommoditySourceRow>, fuel: string): (r: Option<CommoditySourceRow>)
    ensures r.Some? ==> r.value in cs && r.value.fuel == fuel
    ensures r.None? ==> forall c :: c in cs ==> c.fuel != fuel
    decreases |cs|
  {
    if |cs| == 0 then None
    else if cs[0].fuel == fuel then Some(cs[0])
    else FindFuel(cs[1..], fuel)
  }

  /** The output flow of a fuel source: the emission per MWh in kg priced
      per tonne at the row's co2 price (0 without one) plus the fuel costs,
      and no bound on the amount. */
  function FuelSourceFlow(row: CommoditySourceRow): (f: Flow)
    ensures f.nominal.None? && f.summedMax.None? && f.fix.None? && f.emission == row.emission
    ensures row.co2Price.None? ==> f.variableCosts == row.costs
    ensures row.co2Price.Some? ==> f.variableCosts == row.emission / 1000.0 * row.co2Price.value + row.costs
  {
    PlainFlow.(variableCosts := row.emission / 1000.0 * row.co2Price.GetOr(0.0) + row.costs, emission := row.emission)
  }

  /** `create_fuel_bus_with_source`: the bus, with the fuel written with
      "_" for " ", is created when missing; then the German row of the fuel,
      read with "_" as " ", must exist; then the source is added when
      missing. */
  function FuelBusWithSource(g: Registry, fuel: string, region: string, cs: seq<CommoditySourceRow>): (r: Result<Registry, BuildError>)
    ensures FindFuel(cs, ScenarioNodes.CommodityName(fuel)).None? <==>
      r == Failure(MissingRow("commodity_source", ["DE", ScenarioNodes.CommodityName(fuel)]))
    ensures r.Failure? ==> FindFuel(cs, ScenarioNodes.CommodityName(fuel)).None?
    ensures r.Success? ==>
      var bus := LegacyNodes.FuelBus(Underscored(fuel), region);
      var source := LegacyNodes.FuelSource(Underscored(fuel), region);
      && Extends(g, r.value)
      && bus in r.value.entries && source in r.value.entries
      && (forall k :: k in r.value.entries ==> k in g.entries || k == bus || k == source)
      && (bus !in g.entries ==> r.value.entries[bus] == Bus)
      && (source !in g.entries ==>
            r.value.entries[source] == Source(bus, FuelSourceFlow(FindFuel(cs, ScenarioNodes.CommodityName(fuel)).value)))
  {
    var name := Underscored(fuel);
    var bus := LegacyNodes.FuelBus(name, region);
    var g1 := EnsureBus(g, bus);
    match FindFuel(cs, ScenarioNodes.CommodityName(fuel))
    case None => Failure(MissingRow("commodity_source", ["DE", ScenarioNodes.CommodityName(fuel)]))
    case Some(row) =>
      var source := LegacyNodes.FuelSource(name, region);
      if source in g1.entries then Success(g1)
      else
        var r := Put(g1, source, Source(bus, FuelSourceFlow(row)));
        ExtendsTransitive(g, g1, r.value);
        r
  }

  /** A fuel written with " " and the same fuel written with "_" reach the
      same bus, the same row and the same source. */
  lemma FuelSpellingsAgree(g: Registry, fuel: string, region: string, cs: seq<CommoditySourceRow>)
    ensures FuelBusWithSource(g, Underscored(fuel), region, cs) == FuelBusWithSource(g, fuel, region, cs)
  {
    UnderscoredNames(fuel);
  }

  /** Once the call went through, calling it again changes nothing. */
  lemma FuelBusWithSourceTwice(g: Registry, fuel: string, region: string, cs: seq<CommoditySourceRow>)
    requires FuelBusWithSource(g, fuel, region, cs).Success?
    ensures FuelBusWithSource(FuelBusWithSource(g, fuel, region, cs).value, fuel, region, cs) ==
            FuelBusWithSource(g, fuel, region, cs)
  {
  }

  // -------------------------------------------------- decentralised heating

  /** A row of "decentralised_heat", indexed by (demand region, fuel). */
  datatype HeatRow = HeatRow(demandRegion: string, fuel: string, source: string, efficiency: real)

  /** `d_region.replace("_demand", "")` */
  function RegionName(dRegion: string): string
  {
    Replace(dRegion, "_demand", "")
  }

  /** The demand regions: "DE_demand" and the extra regions, each once. */
  function DemandRegions(extra: seq<string>): (r: seq<string>)
    ensures "DE_demand" in r && forall x :: x in extra ==> x in r
    ensures forall x :: x in r ==> x == "DE_demand" || x in extra
  {
    Views.Distinct(["DE_demand"] + extra)
  }

  /** The rows the region's systems are read from: the demand region's
      own when the table's first level holds the region name, the
      "DE_demand" rows otherwise. */
  function DataName(dh: seq<HeatRow>, dRegion: string): (r: string)
    ensures (exists row :: row in dh && row.demandRegion == RegionName(dRegion)) ==> r == dRegion
    ensures (forall row :: row in dh ==> row.demandRegion != RegionName(dRegion)) ==> r == "DE_demand"
  {
    if exists row :: row in dh && row.demandRegion == RegionName(dRegion) then dRegion else "DE_demand"
  }

  /** `dh.loc[name]` */
  function HeatRowsOf(dh: seq<HeatRow>, name: string): (r: seq<HeatRow>)
    ensures forall row :: row in r <==> row in dh && row.demandRegion == name
    decreases |dh|
  {
    if |dh| == 0 then []
    else (if dh[0].demandRegion == name then [dh[0]] else []) + HeatRowsOf(dh[1..], name)
  }

  /** The systems whose fuel has a column under the demand region. */
  function HeatFuels(rows: seq<HeatRow>, cols: seq<Column>, dRegion: string): (r: seq<HeatRow>)
    ensures forall row :: row in r <==> row in rows && ColumnValues(cols, dRegion, row.fuel).Some?
    decreases |rows|
  {
    if |rows| == 0 then []
    else (if ColumnValues(cols, dRegion, rows[0].fuel).Some? then [rows[0]] else []) + HeatFuels(rows[1..], cols, dRegion)
  }

  /** The bus a heating system draws from. */
  function HeatSourceBus(row: HeatRow, region: string): Label
  {
    LegacyNodes.FuelBus(Underscored(row.source), region)
  }

  function HeatTransformerLabel(row: HeatRow, region: string): Label
  {
    Label("trsf", "heat", Underscored(row.fuel), region)
  }

  function HeatDemandLabel(row: HeatRow, region: string): Label
  {
    Label("demand", "heat", Underscored(row.fuel), region)
  }

  /** The source bus of a heating system, created with its source when
      missing. */
  function HeatSourceRule(g: Registry, row: HeatRow, region: string, cs: seq<CommoditySourceRow>): (r: Result<Registry, BuildError>)
    ensures HeatSourceBus(row, region) in g.entries ==> r == Success(g)
    ensures HeatSourceBus(row, region) !in g.entries ==> r == FuelBusWithSource(g, row.source, region, cs)
    ensures r.Success? ==> Extends(g, r.value) && HeatSourceBus(row, region) in r.value.entries
    ensures r.Success? ==>
      r.value.entries.Keys == g.entries.Keys
        + (if HeatSourceBus(row, region) !in g.entries
           then {HeatSourceBus(row, region), LegacyNodes.FuelSource(Underscored(row.source), region)} else {})
  {
    if HeatSourceBus(row, region) in g.entries then Success(g) else FuelBusWithSource(g, row.source, region, cs)
  }

  /** One fuel of a demand region: the source bus with its source when the
      bus is missing; then a new heat bus, the heating transformer with the
      system's efficiency and the demand sink with the column as profile. */
  function HeatSystemRule(g: Registry, row: HeatRow, region: string, values: seq<real>, cs: seq<CommoditySourceRow>): (r: Result<Registry, BuildError>)
    ensures HeatSourceBus(row, region) !in g.entries && FindFuel(cs, ScenarioNodes.CommodityName(row.source)).None? ==>
      r == Failure(MissingRow("commodity_source", ["DE", ScenarioNodes.CommodityName(row.source)]))
    ensures HeatSourceBus(row, region) in g.entries && LegacyNodes.HeatBus(Underscored(row.fuel), region) in g.entries ==>
      r == Failure(DuplicateKey(LegacyNodes.HeatBus(Underscored(row.fuel), region)))
    ensures r.Success? ==>
      var heatBus := LegacyNodes.HeatBus(Underscored(row.fuel), region);
      && Extends(g, r.value)
      && HeatSourceBus(row, region) in r.value.entries
      && heatBus !in g.entries && heatBus in r.value.entries && r.value.entries[heatBus] == Bus
      && HeatTransformerLabel(row, region) in r.value.entries
      && r.value.entries[HeatTransformerLabel(row, region)] ==
           Transformer(map[HeatSourceBus(row, region) := PlainFlow], map[heatBus := PlainFlow], map[heatBus := row.efficiency])
      && HeatDemandLabel(row, region) in r.value.entries
      && r.value.entries[HeatDemandLabel(row, region)] == LegacyNodes.DemandSink(heatBus, values)
    ensures r.Success? ==>
      r.value.entries.Keys == g.entries.Keys
        + (if HeatSourceBus(row, region) !in g.entries
           then {HeatSourceBus(row, region), LegacyNodes.FuelSource(Underscored(row.source), region)} else {})
        + {LegacyNodes.HeatBus(Underscored(row.fuel), region), HeatTransformerLabel(row, region), HeatDemandLabel(row, region)}
  {
    var srcBus := HeatSourceBus(row, region);
    var g1 :- HeatSourceRule(g, row, region, cs);
    var heatBus := LegacyNodes.HeatBus(Underscored(row.fuel), region);
    var g2 :- Put(g1, heatBus, Bus);
    var g3 :- Put(g2, HeatTransformerLabel(row, region),
                  Transformer(map[srcBus := PlainFlow], map[heatBus := PlainFlow], map[heatBus := row.efficiency]));
    var r := Put(g3, HeatDemandLabel(row, region), LegacyNodes.DemandSink(heatBus, values));
    if r.Success? then
      assert r.value.entries.Keys == g1.entries.Keys + {heatBus, HeatTransformerLabel(row, region), HeatDemandLabel(row, region)};
      ExtendsTransitive(g, g1, g2);
      ExtendsTransitive(g, g2, g3);
      ExtendsTransitive(g, g3, r.value);
      r
    else r
  }

  function HeatSystemStep(region: string, cols: seq<Column>, dRegion: string, cs: seq<CommoditySourceRow>): (Registry, HeatRow) -> Result<Registry, BuildError>
  {
    (g: Registry, row: HeatRow) => HeatSystemRule(g, row, region, ColumnValues(cols, dRegion, row.fuel).GetOr([]), cs)
  }

  /** The labels one heating system may add: its source bus and source,
      its heat bus, its transformer and its demand. */
  function HeatSystemKeys(row: HeatRow, region: string): set<Label>
  {
    {HeatSourceBus(row, region), LegacyNodes.FuelSource(Underscored(row.source), region),
     LegacyNodes.HeatBus(Underscored(row.fuel), region), HeatTransformerLabel(row, region), HeatDemandLabel(row, region)}
  }

  /** The heat bus, the heating transformer and the demand sink of one
      heating system are in `h`, as the system's rule stores them. */
  ghost predicate HeatSystemPresent(h: Registry, row: HeatRow, region: string, values: seq<real>)
  {
    var heatBus := LegacyNodes.HeatBus(Underscored(row.fuel), region);
    && heatBus in h.entries && h.entries[heatBus] == Bus
    && HeatTransformerLabel(row, region) in h.entries
    && h.entries[HeatTransformerLabel(row, region)] ==
         Transformer(map[HeatSourceBus(row, region) := PlainFlow], map[heatBus := PlainFlow], map[heatBus := row.efficiency])
    && HeatDemandLabel(row, region) in h.entries
    && h.entries[HeatDemandLabel(row, region)] == LegacyNodes.DemandSink(heatBus, values)
  }

  /** A loop over heating systems that goes through holds every system's
      nodes and adds no other labels than theirs. */
  lemma {:induction false} HeatSystemsFold(g: Registry, rows: seq<HeatRow>, region: string, cols: seq<Column>, dRegion: string, cs: seq<CommoditySourceRow>)
    requires FoldRows(g, rows, HeatSystemStep(region, cols, dRegion, cs)).Success?
    ensures var h := FoldRows(g, rows, HeatSystemStep(region, cols, dRegion, cs)).value;
      && Extends(g, h)
      && (forall row :: row in rows ==> HeatSystemPresent(h, row, region, ColumnValues(cols, dRegion, row.fuel).GetOr([])))
      && (forall k :: k in h.entries && k !in g.entries ==> exists row :: row in rows && k in HeatSystemKeys(row, region))
    decreases |rows|
  {
    if |rows| > 0 {
      var step := HeatSystemStep(region, cols, dRegion, cs);
      var h1 := step(g, rows[0]).value;
      assert step(g, rows[0]) == HeatSystemRule(g, rows[0], region, ColumnValues(cols, dRegion, rows[0].fuel).GetOr([]), cs);
      HeatSystemsFold(h1, rows[1..], region, cols, dRegion, cs);
      var h := FoldRows(h1, rows[1..], step).value;
      ExtendsTransitive(g, h1, h);
      assert HeatSystemPresent(h1, rows[0], region, ColumnValues(cols, dRegion, rows[0].fuel).GetOr([]));
      forall row | row in rows
        ensures HeatSystemPresent(h, row, region, ColumnValues(cols, dRegion, row.fuel).GetOr([]))
      {
        if row != rows[0] {
          assert row in rows[1..];
        }
      }
      forall k | k in h.entries && k !in g.entries
        ensures exists row :: row in rows && k in HeatSystemKeys(row, region)
      {
        if k in h1.entries {
          assert k in HeatSystemKeys(rows[0], region);
        } else {
          var row :| row in rows[1..] && k in HeatSystemKeys(row, region);
          assert row in rows;
        }
      }
    }
  }

  /** One demand region of `add_decentralised_heating_systems`: the rows
      it reads must exist, then the demand region must be a top-level key
      of the demand series; then every listed fuel with a column. */
  function DemandRegionRule(g: Registry, dRegion: string, dh: seq<HeatRow>, cols: seq<Column>, cs: seq<CommoditySourceRow>): (r: Result<Registry, BuildError>)
    ensures |HeatRowsOf(dh, DataName(dh, dRegion))| == 0 ==> r == Failure(MissingRow("decentralised_heat", [DataName(dh, dRegion)]))
    ensures |HeatRowsOf(dh, DataName(dh, dRegion))| > 0 && !HasTop(cols, dRegion) ==>
      r == Failure(MissingColumn("demand_series", dRegion))
    ensures r.Success? ==>
      var fuels := HeatFuels(HeatRowsOf(dh, DataName(dh, dRegion)), cols, dRegion);
      && Extends(g, r.value)
      && (forall row :: row in fuels ==>
            HeatSystemPresent(r.value, row, RegionName(dRegion), ColumnValues(cols, dRegion, row.fuel).GetOr([])))
      && (forall k :: k in r.value.entries && k !in g.entries ==>
            exists row :: row in fuels && k in HeatSystemKeys(row, RegionName(dRegion)))
  {
    var rows := HeatRowsOf(dh, DataName(dh, dRegion));
    if |rows| == 0 then Failure(MissingRow("decentralised_heat", [DataName(dh, dRegion)]))
    else if !HasTop(cols, dRegion) then Failure(MissingColumn("demand_series", dRegion))
    else
      var r := FoldRows(g, HeatFuels(rows, cols, dRegion), HeatSystemStep(RegionName(dRegion), cols, dRegion, cs));
      if r.Success? then
        HeatSystemsFold(g, HeatFuels(rows, cols, dRegion), RegionName(dRegion), cols, dRegion, cs);
        r
      else r
  }

  function DemandRegionStep(dh: seq<HeatRow>, cols: seq<Column>, cs: seq<CommoditySourceRow>): (Registry, string) -> Result<Registry, BuildError>
  {
    (g, dRegion) => DemandRegionRule(g, dRegion, dh, cols, cs)
  }

  /** `add_decentralised_heating_systems`: the German commodity rows, the
      demand series and the heating table are read first. */
  function DecentralisedHeatSpec(g: Registry, t: ToolTables, extra: seq<string>): Result<Registry, BuildError>
  {
    var cs :- GermanCommodities(t.commoditySource);
    if t.demandSeries.None? then Failure(MissingTable("demand_series"))
    else if t.decentralisedHeat.None? then Failure(MissingTable("decentralised_heat"))
    else FoldRows(g, DemandRegions(extra), DemandRegionStep(t.decentralisedHeat.value, t.demandSeries.value, cs))
  }

  /** Two systems of the same fuel in one region, reached through two
      demand regions with the same region name, collide on the heat bus. */
  lemma SameHeatFuelCollides(g: Registry, first: HeatRow, second: HeatRow, region: string, v1: seq<real>, v2: seq<real>, cs: seq<CommoditySourceRow>)
    requires Underscored(first.fuel) == Underscored(second.fuel)
    requires HeatSystemRule(g, first, region, v1, cs).Success?
    ensures HeatSystemRule(HeatSystemRule(g, first, region, v1, cs).value, second, region, v2, cs).Failure?
  {
    var h := HeatSystemRule(g, first, region, v1, cs).value;
    if HeatSourceBus(second, region) !in h.entries {
      var s := FuelBusWithSource(h, second.source, region, cs);
      if s.Success? {
        assert LegacyNodes.HeatBus(Underscored(second.fuel), region) in s.value.entries;
      }
    }
  }

  // ---------------------------------------------------------------- demands

  /** One column under "electrical_load": for a positive total, the
      region's electricity bus (created when missing) and a demand sink
      labelled "all". */
  function ElectricityDemandColumnRule(g: Registry, c: Column): (r: Result<Registry, BuildError>)
    ensures ScenarioNodes.Sum(c.values) <= 0.0 ==> r == Success(g)
    ensures r.Success? ==> Extends(g, r.value)
    ensures ScenarioNodes.Sum(c.values) > 0.0 ==>
      r == Put(EnsureBus(g, LegacyNodes.ElectricityBus(c.sub)), Label("demand", "electricity", "all", c.sub),
               LegacyNodes.DemandSink(LegacyNodes.ElectricityBus(c.sub), c.values))
  {
    LegacyNodes.ElectricityDemandRule(g, ScenarioNodes.SeriesColumn(c.sub, "all", c.values))
  }

  /** The columns under "electrical_load" of the swapped frame, which must
      be a top-level key. */
  function ElectricityLoadSpec(g: Registry, cols: seq<Column>): (r: Result<Registry, BuildError>)
    ensures !HasTop(cols, "electrical_load") ==> r == Failure(MissingColumn("demand_series", "electrical_load"))
  {
    if !HasTop(cols, "electrical_load") then Failure(MissingColumn("demand_series", "electrical_load"))
    else FoldRows(g, Under(cols, "electrical_load"), ElectricityDemandColumnRule)
  }

  /** `add_electricity_demand` on the frame before its levels are swapped:
      it swaps them, then walks the columns under "electrical_load". */
  function ElectricityDemandSpec(g: Registry, series: Option<seq<Column>>): (r: Result<Registry, BuildError>)
    ensures series.None? ==> r == Failure(MissingTable("demand_series"))
    ensures series.Some? && (forall c :: c in series.value ==> c.sub != "electrical_load") ==>
      r == Failure(MissingColumn("demand_series", "electrical_load"))
  {
    if series.None? then Failure(MissingTable("demand_series"))
    else
      var cols := SwapLevels(series.value);
      assert forall c :: c in cols ==> exists d :: d in series.value && c.top == d.sub by {
        forall c | c in cols ensures exists d :: d in series.value && c.top == d.sub {
          var i :| 0 <= i < |cols| && cols[i] == c;
          assert series.value[i] in series.value;
        }
      }
      ElectricityLoadSpec(g, cols)
  }

  function DistrictHeatingColumnRule(g: Registry, c: Column): Result<Registry, BuildError>
  {
    LegacyNodes.DistrictHeatingRule(g, AsSeries(c))
  }

  /** `add_district_heating_systems` on the frame as the previous stage
      left it: nothing without a "district heating" key, otherwise a
      district heat bus and a demand sink per column of positive total. */
  function DistrictHeatingSpec(g: Registry, series: Option<seq<Column>>): (r: Result<Registry, BuildError>)
    ensures series.None? ==> r == Failure(MissingTable("demand_series"))
    ensures series.Some? && !HasTop(series.value, "district heating") ==> r == Success(g)
  {
    if series.None? then Failure(MissingTable("demand_series"))
    else if !HasTop(series.value, "district heating") then Success(g)
    else FoldRows(g, Under(series.value, "district heating"), DistrictHeatingColumnRule)
  }

  // ----------------------------------------------------------- power plants

  /** A numeric column of a row: absent from the table, NaN, or a value. */
  datatype Param = NoColumn | NaN | Value(x: real)

  /** A row of "transformer", indexed by (region, plant); `limitElecPp`
      is `None` when infinite. */
  datatype TransformerRow = TransformerRow(
    region: string,
    plant: string,
    fuel: string,
    capacity: real,
    efficiency: real,
    limitElecPp: Option<real>,
    downtimeFactor: Param,
    variableCosts: Param)

  /** A row of "chp_hp", indexed by (region, plant); the capacities are
      `None` when the table has no such column. */
  datatype ChpHpRow = ChpHpRow(
    region: string,
    plant: string,
    fuel: string,
    capacityHeatChp: Option<real>,
    efficiencyHeatChp: real,
    efficiencyElecChp: real,
    limitHeatChp: real,
    capacityHp: Option<real>,
    efficiencyHp: real,
    limitHp: real)

  /** `plant.replace(" - ", "_").replace(" ", "_").replace(".", "")` */
  function ToolPlantName(plant: string): (r: string)
    ensures ' ' !in r && '.' !in r
  {
    var a := Replace(plant, " - ", "_");
    var b := Replace(a, " ", "_");
    ReplaceCharRemoves(a, ' ', '_');
    DeleteCharRemoves(b, '.');
    DeleteCharKeeps(b, '.');
    Replace(b, ".", "")
  }

  /** Deleting a character brings in no other. */
  lemma {:induction false} DeleteCharKeeps(s: string, a: char)
    ensures forall c :: c in Replace(s, [a], "") ==> c in s
    decreases |s|
  {
    if |s| > 0 {
      DeleteCharKeeps(s[1..], a);
      if s[0] == a {
        assert Replace(s, [a], "") == Replace(s[1..], [a], "");
      } else {
        assert Replace(s, [a], "") == [s[0]] + Replace(s[1..], [a], "");
      }
    }
  }

  function PlantLabel(row: TransformerRow): Label
  {
    Label("trsf", "pp", ToolPlantName(row.plant), row.region)
  }

  /** The fuel bus every power plant draws from: the German one. */
  function GermanFuelBus(fuel: string): Label
  {
    LegacyNodes.FuelBus(Underscored(fuel), "DE")
  }

  /** The capacity reduced by the downtime factor when the column exists. */
  function PlantCapacity(row: TransformerRow): (c: real)
    ensures row.downtimeFactor.Value? ==> c == row.capacity * (1.0 - row.downtimeFactor.x)
    ensures !row.downtimeFactor.Value? ==> c == row.capacity
  {
    if row.downtimeFactor.Value? then row.capacity * (1.0 - row.downtimeFactor.x) else row.capacity
  }

  /** The power plant: German fuel in, the region's electricity out with
      the reduced capacity as nominal value, the annual limit as
      summed_max relative to it, and the variable costs when the column
      exists. */
  function PlantNode(row: TransformerRow): (n: Node)
    ensures n.Transformer? && n.inputs.Keys == {GermanFuelBus(row.fuel)}
    ensures n.outputs.Keys == {LegacyNodes.ElectricityBus(row.region)}
    ensures n.conversion == map[LegacyNodes.ElectricityBus(row.region) := row.efficiency]
    ensures var f := n.outputs[LegacyNodes.ElectricityBus(row.region)];
      && f.nominal == Some(PlantCapacity(row))
      && (row.limitElecPp.None? ==> f.summedMax.None?)
      && (row.limitElecPp.Some? && PlantCapacity(row) != 0.0 ==>
            f.summedMax.Some? && PlantCapacity(row) * f.summedMax.value == row.limitElecPp.value)
      && (row.variableCosts.Value? ==> f.variableCosts == row.variableCosts.x)
      && (row.variableCosts.NoColumn? ==> f.variableCosts == 0.0)
  {
    var elecBus := LegacyNodes.ElectricityBus(row.region);
    var vc := if row.variableCosts.Value? then Some(row.variableCosts.x) else None;
    Transformer(
      map[GermanFuelBus(row.fuel) := PlainFlow],
      map[elecBus := ScenarioNodes.PlantOutflow(PlantCapacity(row), row.limitElecPp, vc)],
      map[elecBus := row.efficiency])
  }

  /** One plant of a region: nothing for a capacity that is not positive;
      a NaN downtime factor or NaN variable costs raise; the German fuel
      bus, then the electricity bus must exist. */
  function PlantRule(g: Registry, row: TransformerRow): (r: Result<Registry, BuildError>)
    ensures row.capacity <= 0.0 ==> r == Success(g)
    ensures row.capacity > 0.0 && row.downtimeFactor.NaN? ==>
      r == Failure(NaNParameter("transformer", [row.region, row.plant], "downtime_factor"))
    ensures row.capacity > 0.0 && !row.downtimeFactor.NaN? && row.variableCosts.NaN? ==>
      r == Failure(NaNParameter("transformer", [row.region, row.plant], "variable_costs"))
    ensures row.capacity > 0.0 && !row.downtimeFactor.NaN? && !row.variableCosts.NaN? && GermanFuelBus(row.fuel) !in g.entries ==>
      r == Failure(MissingKey(GermanFuelBus(row.fuel)))
    ensures r.Success? ==> Extends(g, r.value)
    ensures r.Success? && row.capacity > 0.0 ==>
      && GermanFuelBus(row.fuel) in g.entries && LegacyNodes.ElectricityBus(row.region) in g.entries
      && PlantLabel(row) !in g.entries && r.value.entries == g.entries[PlantLabel(row) := PlantNode(row)]
  {
    if row.capacity <= 0.0 then Success(g)
    else if row.downtimeFactor.NaN? then Failure(NaNParameter("transformer", [row.region, row.plant], "downtime_factor"))
    else if row.variableCosts.NaN? then Failure(NaNParameter("transformer", [row.region, row.plant], "variable_costs"))
    else if GermanFuelBus(row.fuel) !in g.entries then Failure(MissingKey(GermanFuelBus(row.fuel)))
    else if LegacyNodes.ElectricityBus(row.region) !in g.entries then Failure(MissingKey(LegacyNodes.ElectricityBus(row.region)))
    else Put(g, PlantLabel(row), PlantNode(row))
  }

  /** The CHP and heat-plant row as the older builder's rule reads it: the
      fuel with "_" for " ", drawn from Germany. */
  function AsGermanChp(row: ChpHpRow): ChpRow
  {
    ScenarioNodes.ChpRow(row.region, row.plant, Underscored(row.fuel), "DE", row.capacityHeatChp, row.efficiencyHeatChp,
      row.efficiencyElecChp, row.limitHeatChp, row.capacityHp, row.efficiencyHp, row.limitHp)
  }

  /** The reused rule labels and wires the plants as `add_power_and_heat_plants`
      does: the labels carry the fuel with "_" for " " and the fuel bus is
      the German one. */
  lemma ChpAsWritten(row: ChpHpRow)
    ensures LegacyNodes.ChpLabel(AsGermanChp(row)) == Label("trsf", "chp", Underscored(row.fuel), row.region)
    ensures LegacyNodes.HeatPlantLabel(AsGermanChp(row)) == Label("trsf", "hp", Underscored(row.fuel), row.region)
    ensures LegacyNodes.ChpFuelBus(AsGermanChp(row)) == GermanFuelBus(row.fuel)
  {
    UnderscoredNames(row.fuel);
  }

  function ChpHpRule(g: Registry, row: ChpHpRow): Result<Registry, BuildError>
  {
    LegacyNodes.ChpRule(g, AsGermanChp(row))
  }

  /** The region whose fuel buses a region's plants create: the region
      itself when it is an extra region, Germany otherwise. */
  function FuelBusRegion(region: string, extra: seq<string>): string
  {
    if region in extra then region else "DE"
  }

  /** One fuel of a region: its bus with the source when the bus is missing. */
  function FuelBusRule(g: Registry, fuel: string, region: string, extra: seq<string>, cs: seq<CommoditySourceRow>): (r: Result<Registry, BuildError>)
    ensures r.Success? ==> Extends(g, r.value) && LegacyNodes.FuelBus(Underscored(fuel), FuelBusRegion(region, extra)) in r.value.entries
    ensures r.Success? ==> forall k :: k in r.value.entries ==>
      (k in g.entries
       || k == LegacyNodes.FuelBus(Underscored(fuel), FuelBusRegion(region, extra))
       || k == LegacyNodes.FuelSource(Underscored(fuel), FuelBusRegion(region, extra)))
  {
    var busRegion := FuelBusRegion(region, extra);
    UnderscoredNames(fuel);
    if LegacyNodes.FuelBus(Underscored(fuel), busRegion) in g.entries then Success(g)
    else FuelBusWithSource(g, Underscored(fuel), busRegion, cs)
  }

  function FuelBusStep(region: string, extra: seq<string>, cs: seq<CommoditySourceRow>): (Registry, string) -> Result<Registry, BuildError>
  {
    (g, fuel) => FuelBusRule(g, fuel, region, extra, cs)
  }

  /** The plants of one region, in table order. */
  function PlantsIn(trsf: seq<TransformerRow>, region: string): (r: seq<TransformerRow>)
    ensures forall row :: row in r <==> row in trsf && row.region == region
    decreases |trsf|
  {
    if |trsf| == 0 then []
    else (if trsf[0].region == region then [trsf[0]] else []) + PlantsIn(trsf[1..], region)
  }

  function ChpIn(chp: seq<ChpHpRow>, region: string): (r: seq<ChpHpRow>)
    ensures forall row :: row in r <==> row in chp && row.region == region
    decreases |chp|
  {
    if |chp| == 0 then []
    else (if chp[0].region == region then [chp[0]] else []) + ChpIn(chp[1..], region)
  }

  function PlantFuels(rows: seq<TransformerRow>): (r: seq<string>)
    ensures |r| == |rows| && forall i :: 0 <= i < |rows| ==> r[i] == rows[i].fuel
  {
    seq(|rows|, i requires 0 <= i < |rows| => rows[i].fuel)
  }

  function ChpFuels(rows: seq<ChpHpRow>): (r: seq<string>)
    ensures |r| == |rows| && forall i :: 0 <= i < |rows| ==> r[i] == rows[i].fuel
  {
    seq(|rows|, i requires 0 <= i < |rows| => rows[i].fuel)
  }

  /** The fuels of a region's plants, each once. */
  function RegionFuels(trsf: seq<TransformerRow>, chp: seq<ChpHpRow>, region: string): (r: seq<string>)
    ensures forall row :: row in trsf && row.region == region ==> row.fuel in r
    ensures forall row :: row in chp && row.region == region ==> row.fuel in r
  {
    var a := PlantFuels(PlantsIn(trsf, region));
    var b := ChpFuels(ChpIn(chp, region));
    assert forall row :: row in PlantsIn(trsf, region) ==> row.fuel in a by {
      forall row | row in PlantsIn(trsf, region) ensures row.fuel in a {
        var i :| 0 <= i < |PlantsIn(trsf, region)| && PlantsIn(trsf, region)[i] == row;
        assert a[i] == row.fuel;
      }
    }
    assert forall row :: row in ChpIn(chp, region) ==> row.fuel in b by {
      forall row | row in ChpIn(chp, region) ensures row.fuel in b {
        var i :| 0 <= i < |ChpIn(chp, region)| && ChpIn(chp, region)[i] == row;
        assert b[i] == row.fuel;
      }
    }
    Views.Distinct(a + b)
  }

  function PlantRegionsOf(trsf: seq<TransformerRow>): (r: seq<string>)
    ensures |r| == |trsf| && forall i :: 0 <= i < |trsf| ==> r[i] == trsf[i].region
  {
    seq(|trsf|, i requires 0 <= i < |trsf| => trsf[i].region)
  }

  function ChpRegionsOf(chp: seq<ChpHpRow>): (r: seq<string>)
    ensures |r| == |chp| && forall i :: 0 <= i < |chp| ==> r[i] == chp[i].region
  {
    seq(|chp|, i requires 0 <= i < |chp| => chp[i].region)
  }

  /** The regions of both tables, each once. */
  function PlantRegions(trsf: seq<TransformerRow>, chp: seq<ChpHpRow>): (r: seq<string>)
  {
    Views.Distinct(PlantRegionsOf(trsf) + ChpRegionsOf(chp))
  }

  /** One region of `add_power_and_heat_plants`: the district heat bus
      when missing, the fuel buses of the region's fuels, the power
      plants, then the CHP and heat plants. */
  function RegionRule(g: Registry, region: string, trsf: seq<TransformerRow>, chp: seq<ChpHpRow>, extra: seq<string>, cs: seq<CommoditySourceRow>): Result<Registry, BuildError>
  {
    var g1 := EnsureBus(g, LegacyNodes.DistrictHeatBus(region));
    var g2 :- FoldRows(g1, RegionFuels(trsf, chp, region), FuelBusStep(region, extra, cs));
    var g3 :- FoldRows(g2, PlantsIn(trsf, region), PlantRule);
    FoldRows(g3, ChpIn(chp, region), ChpHpRule)
  }

  function RegionStep(trsf: seq<TransformerRow>, chp: seq<ChpHpRow>, extra: seq<string>, cs: seq<CommoditySourceRow>): (Registry, string) -> Result<Registry, BuildError>
  {
    (g, region) => RegionRule(g, region, trsf, chp, extra, cs)
  }

  /** `add_power_and_heat_plants`: "transformer" must exist, "chp_hp" may
      be missing, and the German commodity rows are read before any
      region. */
  function PowerAndHeatPlantsSpec(g: Registry, t: ToolTables, extra: seq<string>): (r: Result<Registry, BuildError>)
    ensures t.transformer.None? ==> r == Failure(MissingTable("transformer"))
    ensures t.transformer.Some? && t.commoditySource.None? ==> r == Failure(MissingTable("commodity_source"))
  {
    if t.transformer.None? then Failure(MissingTable("transformer"))
    else
      var cs :- GermanCommodities(t.commoditySource);
      var chp := t.chpHp.GetOr([]);
      FoldRows(g, PlantRegions(t.transformer.value, chp), RegionStep(t.transformer.value, chp, extra, cs))
  }

  /** A fold whose steps never add `k` leaves `k` out. */
  lemma {:induction false} FoldRowsKeepsOut<R(!new)>(g: Registry, rows: seq<R>, step: (Registry, R) -> Result<Registry, BuildError>, k: Label)
    requires k !in g.entries
    requires forall h, x :: step(h, x).Success? && k !in h.entries ==> k !in step(h, x).value.entries
    ensures FoldRows(g, rows, step).Success? ==> k !in FoldRows(g, rows, step).value.entries
    decreases |rows|
  {
    if |rows| > 0 {
      match step(g, rows[0])
      case Failure(_) =>
      case Success(h) => FoldRowsKeepsOut(h, rows[1..], step, k);
    }
  }

  /** A fold that never adds `k` fails at a row that cannot do without it. */
  lemma {:induction false} FoldRowsNeedsKey<R(!new)>(g: Registry, rows: seq<R>, j: nat, step: (Registry, R) -> Result<Registry, BuildError>, k: Label)
    requires j < |rows| && k !in g.entries
    requires forall h, x :: step(h, x).Success? && k !in h.entries ==> k !in step(h, x).value.entries
    requires forall h: Registry :: k !in h.entries ==> step(h, rows[j]).Failure?
    ensures FoldRows(g, rows, step).Failure?
    decreases j
  {
    match step(g, rows[0])
    case Failure(_) =>
    case Success(h) =>
      if j > 0 {
        assert rows[1..][j - 1] == rows[j];
        FoldRowsNeedsKey(h, rows[1..], j - 1, step, k);
      }
  }

  /** The fuel buses of an extra region are created in that region, but
      its power plants look for the German fuel bus: when that bus is not
      there, the region raises `KeyError` at its first plant of positive
      capacity (once the NaN checks pass). */
  lemma ExtraRegionPlantNeedsGermanBus(g: Registry, region: string, trsf: seq<TransformerRow>, chp: seq<ChpHpRow>,
                                       extra: seq<string>, cs: seq<CommoditySourceRow>, j: nat)
    requires region in extra && region != "DE"
    requires j < |PlantsIn(trsf, region)|
    requires var row := PlantsIn(trsf, region)[j];
      row.capacity > 0.0 && !row.downtimeFactor.NaN? && !row.variableCosts.NaN? && GermanFuelBus(row.fuel) !in g.entries
    ensures RegionRule(g, region, trsf, chp, extra, cs).Failure?
  {
    var k := GermanFuelBus(PlantsIn(trsf, region)[j].fuel);
    var g1 := EnsureBus(g, LegacyNodes.DistrictHeatBus(region));
    var fuels := RegionFuels(trsf, chp, region);
    var fuelStep := FuelBusStep(region, extra, cs);
    forall h, x | fuelStep(h, x).Success? && k !in h.entries
      ensures k !in fuelStep(h, x).value.entries
    {
      assert fuelStep(h, x) == FuelBusRule(h, x, region, extra, cs);
    }
    FoldRowsKeepsOut(g1, fuels, fuelStep, k);
    var f := FoldRows(g1, fuels, fuelStep);
    if f.Success? {
      FoldRowsNeedsKey(f.value, PlantsIn(trsf, region), j, PlantRule, k);
    }
  }

  /** A fold of `FuelBusStep` holds the bus of every fuel it went over. */
  lemma {:induction false} FuelBusesCovered(g: Registry, fuels: seq<string>, region: string, extra: seq<string>, cs: seq<CommoditySourceRow>)
    requires FoldRows(g, fuels, FuelBusStep(region, extra, cs)).Success?
    ensures Extends(g, FoldRows(g, fuels, FuelBusStep(region, extra, cs)).value)
    ensures forall fuel :: fuel in fuels ==>
      LegacyNodes.FuelBus(Underscored(fuel), FuelBusRegion(region, extra)) in FoldRows(g, fuels, FuelBusStep(region, extra, cs)).value.entries
    decreases |fuels|
  {
    if |fuels| > 0 {
      var g1 := FuelBusRule(g, fuels[0], region, extra, cs).value;
      FuelBusesCovered(g1, fuels[1..], region, extra, cs);
      var h := FoldRows(g1, fuels[1..], FuelBusStep(region, extra, cs)).value;
      ExtendsTransitive(g, g1, h);
      forall fuel | fuel in fuels
        ensures LegacyNodes.FuelBus(Underscored(fuel), FuelBusRegion(region, extra)) in h.entries
      {
        if fuel != fuels[0] {
          assert fuel in fuels[1..];
        }
      }
    }
  }

  /** In a region that is not an extra region, once the fuel buses went
      through, every power plant of the region finds its German fuel bus. */
  lemma GermanRegionPlantsFindFuel(g: Registry, region: string, trsf: seq<TransformerRow>, chp: seq<ChpHpRow>,
                                   extra: seq<string>, cs: seq<CommoditySourceRow>)
    requires region !in extra
    requires FoldRows(g, RegionFuels(trsf, chp, region), FuelBusStep(region, extra, cs)).Success?
    ensures forall row :: row in trsf && row.region == region ==>
      GermanFuelBus(row.fuel) in FoldRows(g, RegionFuels(trsf, chp, region), FuelBusStep(region, extra, cs)).value.entries
  {
    FuelBusesCovered(g, RegionFuels(trsf, chp, region), region, extra, cs);
  }

  // -------------------------------------------------------------- storages

  /** A row of "storages", whose index is (region, type) as read and
      (type, region) once `add_storages` swapped it. */
  datatype StorageEntry = StorageEntry(top: string, sub: string, pump: real, turbine: real, energy: real, pumpEff: real, turbineEff: real)

  /** `index.swaplevel()` */
  function SwapStorageLevels(rows: seq<StorageEntry>): (r: seq<StorageEntry>)
    ensures |r| == |rows|
    ensures forall i :: 0 <= i < |rows| ==> r[i] == rows[i].(top := rows[i].sub, sub := rows[i].top)
  {
    seq(|rows|, i requires 0 <= i < |rows| => rows[i].(top := rows[i].sub, sub := rows[i].top))
  }

  lemma SwapStorageLevelsTwice(rows: seq<StorageEntry>)
    ensures SwapStorageLevels(SwapStorageLevels(rows)) == rows
  {
    var r := SwapStorageLevels(SwapStorageLevels(rows));
    assert forall i :: 0 <= i < |rows| ==> r[i] == rows[i];
  }

  /** The pumped hydro storage of a region as the older builder's storage
      rule reads it: pump and turbine as charge and discharge capacity,
      loss rate 0. */
  function PhesRow(e: StorageEntry): StorageRow
  {
    ScenarioNodes.StorageRow(e.sub, "phes", "electricity", e.pump, e.turbine, e.energy, 0.0, e.pumpEff, e.turbineEff)
  }

  /** `storages.loc["phes"]` on the swapped index, in table order. */
  function PumpedHydro(rows: seq<StorageEntry>): (r: seq<StorageRow>)
    ensures forall e :: e in rows && e.top == "phes" ==> PhesRow(e) in r
    ensures forall s :: s in r ==> exists e :: e in rows && e.top == "phes" && s == PhesRow(e)
    decreases |rows|
  {
    if |rows| == 0 then []
    else (if rows[0].top == "phes" then [PhesRow(rows[0])] else []) + PumpedHydro(rows[1..])
  }

  /** The pumped hydro storages of the swapped index, where "phes" must be
      a key. */
  function PumpedHydroSpec(g: Registry, rows: seq<StorageEntry>): (r: Result<Registry, BuildError>)
    ensures (forall e :: e in rows ==> e.top != "phes") ==> r == Failure(MissingRow("storages", ["phes"]))
  {
    if forall e :: e in rows ==> e.top != "phes" then Failure(MissingRow("storages", ["phes"]))
    else FoldRows(g, PumpedHydro(rows), LegacyNodes.StorageRule)
  }

  /** `add_storages`: the index levels are swapped first, then "phes"
      must be a key of the swapped index. */
  function StoragesSpec(g: Registry, storages: Option<seq<StorageEntry>>): (r: Result<Registry, BuildError>)
    ensures storages.None? ==> r == Failure(MissingTable("storages"))
    ensures storages.Some? && (forall e :: e in storages.value ==> e.sub != "phes") ==>
      r == Failure(MissingRow("storages", ["phes"]))
  {
    if storages.None? then Failure(MissingTable("storages"))
    else
      var rows := SwapStorageLevels(storages.value);
      assert forall e :: e in rows ==> exists d :: d in storages.value && e.top == d.sub by {
        forall e | e in rows ensures exists d :: d in storages.value && e.top == d.sub {
          var i :| 0 <= i < |rows| && rows[i] == e;
          assert storages.value[i] in storages.value;
        }
      }
      PumpedHydroSpec(g, rows)
  }

  /** Every pumped hydro storage is labelled "phes" in its region and sits
      at that region's electricity bus. */
  lemma PhesWiring(e: StorageEntry)
    ensures LegacyNodes.StorageLabel(PhesRow(e)) == Label("storage", "electricity", "phes", e.sub)
    ensures LegacyNodes.StorageNode(PhesRow(e)).bus == LegacyNodes.ElectricityBus(e.sub)
    ensures LegacyNodes.StorageNode(PhesRow(e)).lossRate == 0.0
  {
  }

  // ------------------------------------------------------ mobility and lines

  /** `add_mobility`: "mobility_series" is read before "mobility". */
  function MobilitySpec(g: Registry, t: ToolTables): (r: Result<Registry, BuildError>)
    ensures t.mobilitySeries.None? ==> r == Failure(MissingTable("mobility_series"))
    ensures t.mobilitySeries.Some? && t.mobility.None? ==> r == Failure(MissingTable("mobility"))
  {
    if t.mobilitySeries.None? then Failure(MissingTable("mobility_series"))
    else if t.mobility.None? then Failure(MissingTable("mobility"))
    else FoldRows(g, t.mobilitySeries.value, LegacyNodes.MobilityStep(t.mobility.value))
  }

  /** `add_transmission_lines_between_electricity_nodes` */
  function PowerLinesSpec(g: Registry, t: ToolTables): (r: Result<Registry, BuildError>)
    ensures t.transmission.None? ==> r == Failure(MissingTable("transmission"))
  {
    if t.transmission.None? then Failure(MissingTable("transmission"))
    else FoldRows(g, t.transmission.value, LegacyNodes.LineRule)
  }

  /** `add_volatile_sources` */
  function VolatileSourcesSpec(g: Registry, t: ToolTables): (r: Result<Registry, BuildError>)
    ensures t.volatileSource.None? ==> r == Failure(MissingTable("volatile_source"))
  {
    if t.volatileSource.None? then Failure(MissingTable("volatile_source"))
    else FoldRows(g, t.volatileSource.value, LegacyNodes.VolatileStep(t.volatileSeries))
  }

  // ------------------------------------------------------------ all tables

  /** The tables `create_nodes` reads; `None` is a table that is not in
      the collection. */
  datatype ToolTables = ToolTables(
    commoditySource: Option<seq<CommoditySourceRow>>,
    volatileSource: Option<seq<VolatileRow>>,
    volatileSeries: Option<seq<SeriesColumn>>,
    decentralisedHeat: Option<seq<HeatRow>>,
    demandSeries: Option<seq<Column>>,
    transformer: Option<seq<TransformerRow>>,
    chpHp: Option<seq<ChpHpRow>>,
    storages: Option<seq<StorageEntry>>,
    mobility: Option<seq<MobilityRow>>,
    mobilitySeries: Option<seq<SeriesColumn>>,
    transmission: Option<seq<LineRow>>)

  /** The number of table stages of `create_nodes`. */
  const StageCount: nat := 8

  /** Stage `k` of `create_nodes` on the tables as they are when it
      starts: volatile sources, decentralised heat (when its table is
      there), electricity demand, district heating, power and heat plants,
      storages (when there), mobility (when there), transmission. */
  function StageSpec(g: Registry, t: ToolTables, extra: seq<string>, k: nat): Result<Registry, BuildError>
  {
    if k == 0 then VolatileSourcesSpec(g, t)
    else if k == 1 then (if t.decentralisedHeat.Some? then DecentralisedHeatSpec(g, t, extra) else Success(g))
    else if k == 2 then ElectricityDemandSpec(g, t.demandSeries)
    else if k == 3 then DistrictHeatingSpec(g, t.demandSeries)
    else if k == 4 then PowerAndHeatPlantsSpec(g, t, extra)
    else if k == 5 then (if t.storages.Some? then StoragesSpec(g, t.storages) else Success(g))
    else if k == 6 then (if t.mobility.Some? then MobilitySpec(g, t) else Success(g))
    else if k == 7 then PowerLinesSpec(g, t)
    else Success(g)
  }

  /** The tables after stage `k`, which it changes in place before it can
      raise: the electricity demand stage swaps the demand series' column
      levels, the storages stage the storages' index levels. */
  function StageTables(t: ToolTables, k: nat): (r: ToolTables)
    ensures k != 2 && k != 5 ==> r == t
  {
    if k == 2 && t.demandSeries.Some? then t.(demandSeries := Some(SwapLevels(t.demandSeries.value)))
    else if k == 5 && t.storages.Some? then t.(storages := Some(SwapStorageLevels(t.storages.value)))
    else t
  }

  /** The stages from `k` on, then shortage and excess: the outcome and the
      tables as they are left behind. */
  function BuildFrom(g: Registry, t: ToolTables, extra: seq<string>, k: nat): (Result<Registry, BuildError>, ToolTables)
    decreases StageCount - k
  {
    if k >= StageCount then (LegacyNodes.ShortageExcessSpec(g), t)
    else
      match StageSpec(g, t, extra, k)
      case Failure(e) => (Failure(e), StageTables(t, k))
      case Success(h) => BuildFrom(h, StageTables(t, k), extra, k + 1)
  }

  /** A stage that went through hands its registry and tables on. */
  lemma BuildFromStage(g: Registry, t: ToolTables, extra: seq<string>, k: nat, h: Registry)
    requires k < StageCount && StageSpec(g, t, extra, k) == Success(h)
    ensures BuildFrom(g, t, extra, k) == BuildFrom(h, StageTables(t, k), extra, k + 1)
  {
  }

  /** A stage that raises ends the build with its exception. */
  lemma BuildFromFails(g: Registry, t: ToolTables, extra: seq<string>, k: nat)
    requires k < StageCount && StageSpec(g, t, extra, k).Failure?
    ensures BuildFrom(g, t, extra, k) == (Failure(StageSpec(g, t, extra, k).error), StageTables(t, k))
  {
  }

  /** `Scenario.create_nodes` from an empty dictionary. */
  function BuildSpec(t: ToolTables, extra: seq<string>): (Result<Registry, BuildError>, ToolTables)
  {
    BuildFrom(Registry([], map[]), t, extra, 0)
  }

  /** The layout a build leaves behind: both swaps done. */
  function Swapped(t: ToolTables): ToolTables
  {
    t.(demandSeries := if t.demandSeries.Some? then Some(SwapLevels(t.demandSeries.value)) else None,
       storages := if t.storages.Some? then Some(SwapStorageLevels(t.storages.value)) else None)
  }

  /** The tables after the stages from `k` on, when none raises. */
  function TablesFrom(t: ToolTables, k: nat): ToolTables
    decreases StageCount - k
  {
    if k >= StageCount then t else TablesFrom(StageTables(t, k), k + 1)
  }

  lemma {:induction false} BuildFromTables(g: Registry, t: ToolTables, extra: seq<string>, k: nat)
    requires BuildFrom(g, t, extra, k).0.Success?
    ensures BuildFrom(g, t, extra, k).1 == TablesFrom(t, k)
    ensures k <= 2 ==> t.demandSeries.Some?
    decreases StageCount - k
  {
    if k < StageCount {
      var h := StageSpec(g, t, extra, k).value;
      BuildFromTables(h, StageTables(t, k), extra, k + 1);
    }
  }

  lemma TablesFromStart(t: ToolTables)
    ensures TablesFrom(t, 0) == Swapped(t)
  {
    var t2 := StageTables(t, 2);
    assert TablesFrom(t, 0) == TablesFrom(t2, 3);
    var t5 := StageTables(t2, 5);
    assert TablesFrom(t2, 3) == TablesFrom(t5, 6);
    assert TablesFrom(t5, 6) == t5;
  }

  /** A build that goes through leaves the demand series with its column
      levels swapped and the storages with their index levels swapped, and
      changes no other table; the demand series must have been there. A
      second build on the same collection swaps them back. */
  lemma BuildSwapsTables(t: ToolTables, extra: seq<string>)
    requires BuildSpec(t, extra).0.Success?
    ensures t.demandSeries.Some?
    ensures BuildSpec(t, extra).1 == Swapped(t)
    ensures Swapped(Swapped(t)) == t
  {
    BuildFromTables(Registry([], map[]), t, extra, 0);
    TablesFromStart(t);
    SwapLevelsTwice(t.demandSeries.value);
    if t.storages.Some? {
      SwapStorageLevelsTwice(t.storages.value);
    }
  }

  /** Every key whose category contains "bus" gets an excess sink and a
      shortage source at costs 900 once the stages went through. */
  lemma BuildEndsWithShortageExcess(g: Registry, t: ToolTables, extra: seq<string>)
    requires LegacyNodes.ShortageExcessSpec(g).Success?
    ensures BuildFrom(g, t, extra, StageCount).0 == LegacyNodes.ShortageExcessSpec(g)
    ensures forall b :: b in g.order && Contains(b.cat, "bus") ==>
      var h := BuildFrom(g, t, extra, StageCount).0.value;
      && LegacyNodes.ExcessLabel(b) in h.entries
      && LegacyNodes.ShortageLabel(b) in h.entries
      && h.entries[LegacyNodes.ShortageLabel(b)] == Source(b, PlainFlow.(variableCosts := 900.0))
  {
    LegacyNodes.ShortageExcessCoversBusKeys(g);
  }
}
