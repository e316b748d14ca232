/** `Scenario.create_nodes` of src/deflex/scenario_tools.py as it runs:
    each `add_*` function walks its table and inserts into one `NodeDict`
    in place, and two of them swap the levels of a table of the scenario's
    collection in place. Every method is proved against its function in
    `LegacyToolNodes`: it passes exactly when that function succeeds and
    then leaves the dictionary holding the function's registry, and
    otherwise it fails with the function's error. */
module LegacyTools {
  import opened Wrappers
  import opened Labels
  import opened NodeRegistry
  import ScenarioNodes
  import LegacyNodes
  import LegacyBuilder
  import opened LegacyToolNodes

  /** The scenario's table collection, as the typed tables the builder
      reads. */
  class TableCollection {
    var commoditySource: Option<seq<CommoditySourceRow>>
    var volatileSource: Option<seq<VolatileRow>>
    var volatileSeries: Option<seq<SeriesColumn>>
    var decentralisedHeat: Option<seq<HeatRow>>
    var demandSeries: Option<seq<Column>>
    var transformer: Option<seq<TransformerRow>>
    var chpHp: Option<seq<ChpHpRow>>
    var storages: Option<seq<StorageEntry>>
    var mobility: Option<seq<MobilityRow>>
    var mobilitySeries: Option<seq<SeriesColumn>>
    var transmission: Option<seq<LineRow>>

    function Value(): ToolTables
      reads this
    {
      ToolTables(commoditySource, volatileSource, volatileSeries, decentralisedHeat, demandSeries,
                 transformer, chpHp, storages, mobility, mobilitySeries, transmission)
    }

    constructor (t: ToolTables)
      ensures Value() == t
    {
      commoditySource := t.commoditySource;
      volatileSource := t.volatileSource;
      volatileSeries := t.volatileSeries;
      decentralisedHeat := t.decentralisedHeat;
      demandSeries := t.demandSeries;
      transformer := t.transformer;
      chpHp := t.chpHp;
      storages := t.storages;
      mobility := t.mobility;
      mobilitySeries := t.mobilitySeries;
      transmission := t.transmission;
    }

    /** `dts.columns = dts.columns.swaplevel()` */
    method SwapDemandSeriesLevels()
      requires demandSeries.Some?
      modifies this
      ensures Value() == old(Value()).(demandSeries := Some(SwapLevels(old(demandSeries.value))))
    {
      demandSeries := Some(SwapLevels(demandSeries.value));
    }

    /** `storages.index = storages.index.swaplevel()` */
    method SwapStorageIndexLevels()
      requires storages.Some?
      modifies this
      ensures Value() == old(Value()).(storages := Some(SwapStorageLevels(old(storages.value))))
    {
      storages := Some(SwapStorageLevels(storages.value));
    }
  }

  // ------------------------------------------------------------ fuel sources

  /** `create_fuel_bus_with_source`. A missing German row raises after the
      fuel bus was created. */
  method CreateFuelBusWithSource(nodes: NodeDict, fuel: string, region: string, cs: seq<CommoditySourceRow>) returns (r: Outcome<BuildError>)
    requires nodes.Valid()
    modifies nodes
    ensures nodes.Valid()
    ensures Reports(r, FuelBusWithSource(old(nodes.Value()), fuel, region, cs), nodes.Value())
    ensures Extends(old(nodes.Value()), nodes.Value())
    ensures r.Fail? ==> nodes.Value() == EnsureBus(old(nodes.Value()), LegacyNodes.FuelBus(Underscored(fuel), region))
  {
    var name := Underscored(fuel);
    var bus := LegacyNodes.FuelBus(name, region);
    nodes.AddBusIfMissing(bus);
    var row := FindFuel(cs, ScenarioNodes.CommodityName(fuel));
    if row.None? {
      return Fail(MissingRow("commodity_source", ["DE", ScenarioNodes.CommodityName(fuel)]));
    }
    var source := LegacyNodes.FuelSource(name, region);
    if nodes.Has(source) {
      return Pass;
    }
    ghost var g1 := nodes.Value();
    r := nodes.Insert(source, Source(bus, FuelSourceFlow(row.value)));
    ExtendsTransitive(old(nodes.Value()), g1, nodes.Value());
  }

  // -------------------------------------------------- decentralised heating

  method AddHeatSource(nodes: NodeDict, row: HeatRow, region: string, cs: seq<CommoditySourceRow>) returns (r: Outcome<BuildError>)
    requires nodes.Valid()
    modifies nodes
    ensures nodes.Valid()
    ensures Reports(r, HeatSourceRule(old(nodes.Value()), row, region, cs), nodes.Value())
    ensures Extends(old(nodes.Value()), nodes.Value())
  {
    if nodes.Has(HeatSourceBus(row, region)) {
      return Pass;
    }
    r := CreateFuelBusWithSource(nodes, row.source, region, cs);
  }

  method AddHeatSystem(nodes: NodeDict, row: HeatRow, region: string, values: seq<real>, cs: seq<CommoditySourceRow>) returns (r: Outcome<BuildError>)
    requires nodes.Valid()
    modifies nodes
    ensures nodes.Valid()
    ensures Reports(r, HeatSystemRule(old(nodes.Value()), row, region, values, cs), nodes.Value())
    ensures Extends(old(nodes.Value()), nodes.Value())
  {
    var srcBus := HeatSourceBus(row, region);
    r := AddHeatSource(nodes, row, region, cs);
    if r.Fail? {
      return;
    }
    ghost var g1 := nodes.Value();
    var heatBus := LegacyNodes.HeatBus(Underscored(row.fuel), region);
    r := nodes.Insert(heatBus, Bus);
    if r.Fail? {
      return;
    }
    ghost var g2 := nodes.Value();
    ExtendsTransitive(old(nodes.Value()), g1, g2);
    r := nodes.Insert(HeatTransformerLabel(row, region),
                      Transformer(map[srcBus := PlainFlow], map[heatBus := PlainFlow], map[heatBus := row.efficiency]));
    if r.Fail? {
      return;
    }
    ghost var g3 := nodes.Value();
    ExtendsTransitive(old(nodes.Value()), g2, g3);
    r := nodes.Insert(HeatDemandLabel(row, region), LegacyNodes.DemandSink(heatBus, values));
    ExtendsTransitive(old(nodes.Value()), g3, nodes.Value());
  }

  /** One demand region: its heating systems, one per fuel with a column. */
  method AddDemandRegion(nodes: NodeDict, dRegion: string, dh: seq<HeatRow>, cols: seq<Column>, cs: seq<CommoditySourceRow>) returns (r: Outcome<BuildError>)
    requires nodes.Valid()
    modifies nodes
    ensures nodes.Valid()
    ensures Reports(r, DemandRegionRule(old(nodes.Value()), dRegion, dh, cols, cs), nodes.Value())
    ensures Extends(old(nodes.Value()), nodes.Value())
  {
    var dataName := DataName(dh, dRegion);
    var rows := HeatRowsOf(dh, dataName);
    if |rows| == 0 {
      return Fail(MissingRow("decentralised_heat", [dataName]));
    }
    if !HasTop(cols, dRegion) {
      return Fail(MissingColumn("demand_series", dRegion));
    }
    var region := RegionName(dRegion);
    var fuels := HeatFuels(rows, cols, dRegion);
    ghost var step := HeatSystemStep(region, cols, dRegion, cs);
    ghost var g0 := nodes.Value();
    var i := 0;
    while i < |fuels|
      invariant 0 <= i <= |fuels| && nodes.Valid()
      invariant FoldRows(g0, fuels[..i], step) == Success(nodes.Value())
      invariant Extends(g0, nodes.Value())
    {
      ghost var h := nodes.Value();
      FoldRowsNext(g0, fuels, i, h, step);
      r := AddHeatSystem(nodes, fuels[i], region, ColumnValues(cols, dRegion, fuels[i].fuel).GetOr([]), cs);
      ExtendsTransitive(g0, h, nodes.Value());
      if r.Fail? {
        return;
      }
      i := i + 1;
    }
    assert fuels[..i] == fuels;
    r := Pass;
  }

  /** `add_decentralised_heating_systems` */
  method AddDecentralisedHeatingSystems(nodes: NodeDict, t: ToolTables, extra: seq<string>) returns (r: Outcome<BuildError>)
    requires nodes.Valid()
    modifies nodes
    ensures nodes.Valid()
    ensures Reports(r, DecentralisedHeatSpec(old(nodes.Value()), t, extra), nodes.Value())
  {
    var cs := GermanCommodities(t.commoditySource);
    if cs.Failure? {
      return Fail(cs.error);
    }
    if t.demandSeries.None? {
      return Fail(MissingTable("demand_series"));
    }
    if t.decentralisedHeat.None? {
      return Fail(MissingTable("decentralised_heat"));
    }
    var regions := DemandRegions(extra);
    ghost var step := DemandRegionStep(t.decentralisedHeat.value, t.demandSeries.value, cs.value);
    ghost var g0 := nodes.Value();
    var i := 0;
    while i < |regions|
      invariant 0 <= i <= |regions| && nodes.Valid()
      invariant FoldRows(g0, regions[..i], step) == Success(nodes.Value())
    {
      ghost var h := nodes.Value();
      FoldRowsNext(g0, regions, i, h, step);
      r := AddDemandRegion(nodes, regions[i], t.decentralisedHeat.value, t.demandSeries.value, cs.value);
      if r.Fail? {
        return;
      }
      i := i + 1;
    }
    assert regions[..i] == regions;
    r := Pass;
  }

  // ---------------------------------------------------------------- demands

  /** The columns under "electrical_load" of the swapped demand series. */
  method AddElectricityLoad(nodes: NodeDict, cols: seq<Column>) returns (r: Outcome<BuildError>)
    requires nodes.Valid()
    modifies nodes
    ensures nodes.Valid()
    ensures Reports(r, ElectricityLoadSpec(old(nodes.Value()), cols), nodes.Value())
  {
    if !HasTop(cols, "electrical_load") {
      return Fail(MissingColumn("demand_series", "electrical_load"));
    }
    var load := Under(cols, "electrical_load");
    ghost var g0 := nodes.Value();
    var i := 0;
    while i < |load|
      invariant 0 <= i <= |load| && nodes.Valid()
      invariant FoldRows(g0, load[..i], ElectricityDemandColumnRule) == Success(nodes.Value())
    {
      ghost var h := nodes.Value();
      FoldRowsNext(g0, load, i, h, ElectricityDemandColumnRule);
      r := LegacyBuilder.AddElectricityDemandColumn(nodes, ScenarioNodes.SeriesColumn(load[i].sub, "all", load[i].values));
      if r.Fail? {
        return;
      }
      i := i + 1;
    }
    assert load[..i] == load;
    r := Pass;
  }

  /** `add_electricity_demand`: the column levels of the demand series are
      swapped in the collection before anything else. */
  method AddElectricityDemand(nodes: NodeDict, tables: TableCollection) returns (r: Outcome<BuildError>)
    requires nodes.Valid()
    modifies nodes, tables
    ensures nodes.Valid()
    ensures Reports(r, ElectricityDemandSpec(old(nodes.Value()), old(tables.Value()).demandSeries), nodes.Value())
    ensures tables.Value() == StageTables(old(tables.Value()), 2)
  {
    if tables.demandSeries.None? {
      return Fail(MissingTable("demand_series"));
    }
    tables.SwapDemandSeriesLevels();
    r := AddElectricityLoad(nodes, tables.demandSeries.value);
  }

  /** `add_district_heating_systems` */
  method AddDistrictHeatingSystems(nodes: NodeDict, series: Option<seq<Column>>) returns (r: Outcome<BuildError>)
    requires nodes.Valid()
    modifies nodes
    ensures nodes.Valid()
    ensures Reports(r, DistrictHeatingSpec(old(nodes.Value()), series), nodes.Value())
  {
    if series.None? {
      return Fail(MissingTable("demand_series"));
    }
    if !HasTop(series.value, "district heating") {
      return Pass;
    }
    var heat := Under(series.value, "district heating");
    ghost var g0 := nodes.Value();
    var i := 0;
    while i < |heat|
      invariant 0 <= i <= |heat| && nodes.Valid()
      invariant FoldRows(g0, heat[..i], DistrictHeatingColumnRule) == Success(nodes.Value())
    {
      ghost var h := nodes.Value();
      FoldRowsNext(g0, heat, i, h, DistrictHeatingColumnRule);
      r := LegacyBuilder.AddDistrictHeatingColumn(nodes, AsSeries(heat[i]));
      if r.Fail? {
        return;
      }
      i := i + 1;
    }
    assert heat[..i] == heat;
    r := Pass;
  }

  // ----------------------------------------------------------- power plants

  method AddFuelBus(nodes: NodeDict, fuel: string, region: string, extra: seq<string>, cs: seq<CommoditySourceRow>) returns (r: Outcome<BuildError>)
    requires nodes.Valid()
    modifies nodes
    ensures nodes.Valid()
    ensures Reports(r, FuelBusRule(old(nodes.Value()), fuel, region, extra, cs), nodes.Value())
  {
    var busRegion := FuelBusRegion(region, extra);
    UnderscoredNames(fuel);
    if nodes.Has(LegacyNodes.FuelBus(Underscored(fuel), busRegion)) {
      return Pass;
    }
    r := CreateFuelBusWithSource(nodes, Underscored(fuel), busRegion, cs);
  }

  /** The fuel buses of one region, fuel by fuel. */
  method AddRegionFuels(nodes: NodeDict, fuels: seq<string>, region: string, extra: seq<string>, cs: seq<CommoditySourceRow>) returns (r: Outcome<BuildError>)
    requires nodes.Valid()
    modifies nodes
    ensures nodes.Valid()
    ensures Reports(r, FoldRows(old(nodes.Value()), fuels, FuelBusStep(region, extra, cs)), nodes.Value())
  {
    ghost var step := FuelBusStep(region, extra, cs);
    ghost var g0 := nodes.Value();
    var i := 0;
    while i < |fuels|
      invariant 0 <= i <= |fuels| && nodes.Valid()
      invariant FoldRows(g0, fuels[..i], step) == Success(nodes.Value())
    {
      ghost var h := nodes.Value();
      FoldRowsNext(g0, fuels, i, h, step);
      r := AddFuelBus(nodes, fuels[i], region, extra, cs);
      if r.Fail? {
        return;
      }
      i := i + 1;
    }
    assert fuels[..i] == fuels;
    r := Pass;
  }

  /** One power plant: the NaN checks, then the German fuel bus and the
      electricity bus are looked up, then the transformer is stored. */
  method AddPlantRow(nodes: NodeDict, row: TransformerRow) returns (r: Outcome<BuildError>)
    requires nodes.Valid()
    modifies nodes
    ensures nodes.Valid()
    ensures Reports(r, PlantRule(old(nodes.Value()), row), nodes.Value())
  {
    if row.capacity <= 0.0 {
      return Pass;
    }
    if row.downtimeFactor.NaN? {
      return Fail(NaNParameter("transformer", [row.region, row.plant], "downtime_factor"));
    }
    if row.variableCosts.NaN? {
      return Fail(NaNParameter("transformer", [row.region, row.plant], "variable_costs"));
    }
    if !nodes.Has(GermanFuelBus(row.fuel)) {
      return Fail(MissingKey(GermanFuelBus(row.fuel)));
    }
    if !nodes.Has(LegacyNodes.ElectricityBus(row.region)) {
      return Fail(MissingKey(LegacyNodes.ElectricityBus(row.region)));
    }
    r := nodes.Insert(PlantLabel(row), PlantNode(row));
  }

  method AddRegionPowerPlants(nodes: NodeDict, rows: seq<TransformerRow>) returns (r: Outcome<BuildError>)
    requires nodes.Valid()
    modifies nodes
    ensures nodes.Valid()
    ensures Reports(r, FoldRows(old(nodes.Value()), rows, PlantRule), nodes.Value())
  {
    ghost var g0 := nodes.Value();
    var i := 0;
    while i < |rows|
      invariant 0 <= i <= |rows| && nodes.Valid()
      invariant FoldRows(g0, rows[..i], PlantRule) == Success(nodes.Value())
    {
      ghost var h := nodes.Value();
      FoldRowsNext(g0, rows, i, h, PlantRule);
      r := AddPlantRow(nodes, rows[i]);
      if r.Fail? {
        return;
      }
      i := i + 1;
    }
    assert rows[..i] == rows;
    r := Pass;
  }

  method AddRegionChps(nodes: NodeDict, rows: seq<ChpHpRow>) returns (r: Outcome<BuildError>)
    requires nodes.Valid()
    modifies nodes
    ensures nodes.Valid()
    ensures Reports(r, FoldRows(old(nodes.Value()), rows, ChpHpRule), nodes.Value())
  {
    ghost var g0 := nodes.Value();
    var i := 0;
    while i < |rows|
      invariant 0 <= i <= |rows| && nodes.Valid()
      invariant FoldRows(g0, rows[..i], ChpHpRule) == Success(nodes.Value())
    {
      ghost var h := nodes.Value();
      FoldRowsNext(g0, rows, i, h, ChpHpRule);
      r := LegacyBuilder.AddChpRow(nodes, AsGermanChp(rows[i]));
      if r.Fail? {
        return;
      }
      i := i + 1;
    }
    assert rows[..i] == rows;
    r := Pass;
  }

  /** One region of `add_power_and_heat_plants`. */
  method AddRegionPlants(nodes: NodeDict, region: string, trsf: seq<TransformerRow>, chp: seq<ChpHpRow>,
                         extra: seq<string>, cs: seq<CommoditySourceRow>) returns (r: Outcome<BuildError>)
    requires nodes.Valid()
    modifies nodes
    ensures nodes.Valid()
    ensures Reports(r, RegionRule(old(nodes.Value()), region, trsf, chp, extra, cs), nodes.Value())
  {
    nodes.AddBusIfMissing(LegacyNodes.DistrictHeatBus(region));
    r := AddRegionFuels(nodes, RegionFuels(trsf, chp, region), region, extra, cs);
    if r.Fail? {
      return;
    }
    r := AddRegionPowerPlants(nodes, PlantsIn(trsf, region));
    if r.Fail? {
      return;
    }
    r := AddRegionChps(nodes, ChpIn(chp, region));
  }

  /** `add_power_and_heat_plants` */
  method AddPowerAndHeatPlants(nodes: NodeDict, t: ToolTables, extra: seq<string>) returns (r: Outcome<BuildError>)
    requires nodes.Valid()
    modifies nodes
    ensures nodes.Valid()
    ensures Reports(r, PowerAndHeatPlantsSpec(old(nodes.Value()), t, extra), nodes.Value())
  {
    if t.transformer.None? {
      return Fail(MissingTable("transformer"));
    }
    var cs := GermanCommodities(t.commoditySource);
    if cs.Failure? {
      return Fail(cs.error);
    }
    var trsf := t.transformer.value;
    var chp := t.chpHp.GetOr([]);
    var regions := PlantRegions(trsf, chp);
    ghost var step := RegionStep(trsf, chp, extra, cs.value);
    ghost var g0 := nodes.Value();
    var i := 0;
    while i < |regions|
      invariant 0 <= i <= |regions| && nodes.Valid()
      invariant FoldRows(g0, regions[..i], step) == Success(nodes.Value())
    {
      ghost var h := nodes.Value();
      FoldRowsNext(g0, regions, i, h, step);
      r := AddRegionPlants(nodes, regions[i], trsf, chp, extra, cs.value);
      if r.Fail? {
        return;
      }
      i := i + 1;
    }
    assert regions[..i] == regions;
    r := Pass;
  }

  // -------------------------------------------------------------- storages

  /** The pumped hydro storages of the swapped "storages" index. */
  method AddPumpedHydro(nodes: NodeDict, entries: seq<StorageEntry>) returns (r: Outcome<BuildError>)
    requires nodes.Valid()
    modifies nodes
    ensures nodes.Valid()
    ensures Reports(r, PumpedHydroSpec(old(nodes.Value()), entries), nodes.Value())
  {
    if forall e :: e in entries ==> e.top != "phes" {
      return Fail(MissingRow("storages", ["phes"]));
    }
    var rows := PumpedHydro(entries);
    ghost var g0 := nodes.Value();
    var i := 0;
    while i < |rows|
      invariant 0 <= i <= |rows| && nodes.Valid()
      invariant FoldRows(g0, rows[..i], LegacyNodes.StorageRule) == Success(nodes.Value())
    {
      ghost var h := nodes.Value();
      FoldRowsNext(g0, rows, i, h, LegacyNodes.StorageRule);
      r := LegacyBuilder.AddStorageRow(nodes, rows[i]);
      if r.Fail? {
        return;
      }
      i := i + 1;
    }
    assert rows[..i] == rows;
    r := Pass;
  }

  /** `add_storages`: the index levels of "storages" are swapped in the
      collection before anything else. */
  method AddStorages(nodes: NodeDict, tables: TableCollection) returns (r: Outcome<BuildError>)
    requires nodes.Valid()
    modifies nodes, tables
    ensures nodes.Valid()
    ensures Reports(r, StoragesSpec(old(nodes.Value()), old(tables.Value()).storages), nodes.Value())
    ensures tables.Value() == StageTables(old(tables.Value()), 5)
  {
    if tables.storages.None? {
      return Fail(MissingTable("storages"));
    }
    tables.SwapStorageIndexLevels();
    r := AddPumpedHydro(nodes, tables.storages.value);
  }

  // ------------------------------------------------------ mobility and lines

  /** `add_mobility` */
  method AddMobility(nodes: NodeDict, t: ToolTables) returns (r: Outcome<BuildError>)
    requires nodes.Valid()
    modifies nodes
    ensures nodes.Valid()
    ensures Reports(r, MobilitySpec(old(nodes.Value()), t), nodes.Value())
  {
    if t.mobilitySeries.None? {
      return Fail(MissingTable("mobility_series"));
    }
    if t.mobility.None? {
      return Fail(MissingTable("mobility"));
    }
    var cols := t.mobilitySeries.value;
    ghost var step := LegacyNodes.MobilityStep(t.mobility.value);
    ghost var g0 := nodes.Value();
    var i := 0;
    while i < |cols|
      invariant 0 <= i <= |cols| && nodes.Valid()
      invariant FoldRows(g0, cols[..i], step) == Success(nodes.Value())
    {
      ghost var h := nodes.Value();
      FoldRowsNext(g0, cols, i, h, step);
      r := LegacyBuilder.AddMobilityColumn(nodes, cols[i], t.mobility.value);
      if r.Fail? {
        return;
      }
      i := i + 1;
    }
    assert cols[..i] == cols;
    r := Pass;
  }

  /** `add_transmission_lines_between_electricity_nodes` */
  method AddTransmissionLines(nodes: NodeDict, t: ToolTables) returns (r: Outcome<BuildError>)
    requires nodes.Valid()
    modifies nodes
    ensures nodes.Valid()
    ensures Reports(r, PowerLinesSpec(old(nodes.Value()), t), nodes.Value())
  {
    if t.transmission.None? {
      return Fail(MissingTable("transmission"));
    }
    var rows := t.transmission.value;
    ghost var g0 := nodes.Value();
    var i := 0;
    while i < |rows|
      invariant 0 <= i <= |rows| && nodes.Valid()
      invariant FoldRows(g0, rows[..i], LegacyNodes.LineRule) == Success(nodes.Value())
    {
      ghost var h := nodes.Value();
      FoldRowsNext(g0, rows, i, h, LegacyNodes.LineRule);
      r := LegacyBuilder.AddLineRow(nodes, rows[i]);
      if r.Fail? {
        return;
      }
      i := i + 1;
    }
    assert rows[..i] == rows;
    r := Pass;
  }

  /** `add_volatile_sources` */
  method AddVolatileSources(nodes: NodeDict, t: ToolTables) returns (r: Outcome<BuildError>)
    requires nodes.Valid()
    modifies nodes
    ensures nodes.Valid()
    ensures Reports(r, VolatileSourcesSpec(old(nodes.Value()), t), nodes.Value())
  {
    if t.volatileSource.None? {
      return Fail(MissingTable("volatile_source"));
    }
    var rows := t.volatileSource.value;
    ghost var step := LegacyNodes.VolatileStep(t.volatileSeries);
    ghost var g0 := nodes.Value();
    var i := 0;
    while i < |rows|
      invariant 0 <= i <= |rows| && nodes.Valid()
      invariant FoldRows(g0, rows[..i], step) == Success(nodes.Value())
    {
      ghost var h := nodes.Value();
      FoldRowsNext(g0, rows, i, h, step);
      r := LegacyBuilder.AddVolatileRow(nodes, rows[i], t.volatileSeries);
      if r.Fail? {
        return;
      }
      i := i + 1;
    }
    assert rows[..i] == rows;
    r := Pass;
  }

  // ------------------------------------------------------------ all tables

  /** One line of `create_nodes`: the `add_*` call of stage `k` when its
      table is in the collection. */
  method RunStage(nodes: NodeDict, tables: TableCollection, extra: seq<string>, k: nat) returns (r: Outcome<BuildError>)
    requires nodes.Valid()
    modifies nodes, tables
    ensures nodes.Valid()
    ensures Reports(r, StageSpec(old(nodes.Value()), old(tables.Value()), extra, k), nodes.Value())
    ensures tables.Value() == StageTables(old(tables.Value()), k)
  {
    var t := tables.Value();
    if k == 0 {
      r := AddVolatileSources(nodes, t);
    } else if k == 1 && t.decentralisedHeat.Some? {
      r := AddDecentralisedHeatingSystems(nodes, t, extra);
    } else if k == 2 {
      r := AddElectricityDemand(nodes, tables);
    } else if k == 3 {
      r := AddDistrictHeatingSystems(nodes, t.demandSeries);
    } else if k == 4 {
      r := AddPowerAndHeatPlants(nodes, t, extra);
    } else if k == 5 && t.storages.Some? {
      r := AddStorages(nodes, tables);
    } else if k == 6 && t.mobility.Some? {
      r := AddMobility(nodes, t);
    } else if k == 7 {
      r := AddTransmissionLines(nodes, t);
    } else {
      r := Pass;
    }
  }

  /** `Scenario.create_nodes`: a new dictionary, the stages in order,
      stopping at the first exception, then shortage and excess for every
      bus key. The collection is left as the stages that ran left it. */
  method CreateNodes(tables: TableCollection, extra: seq<string>) returns (nodes: NodeDict, r: Outcome<BuildError>)
    modifies tables
    ensures fresh(nodes) && nodes.Valid()
    ensures Reports(r, BuildSpec(old(tables.Value()), extra).0, nodes.Value())
    ensures tables.Value() == BuildSpec(old(tables.Value()), extra).1
  {
    nodes := new NodeDict();
    var k := 0;
    while k < StageCount
      invariant 0 <= k <= StageCount && nodes.Valid() && fresh(nodes)
      invariant BuildSpec(old(tables.Value()), extra) == BuildFrom(nodes.Value(), tables.Value(), extra, k)
    {
      ghost var before := nodes.Value();
      ghost var t := tables.Value();
      r := RunStage(nodes, tables, extra, k);
      if r.Fail? {
        BuildFromFails(before, t, extra, k);
        return;
      }
      BuildFromStage(before, t, extra, k, nodes.Value());
      k := k + 1;
    }
    r := LegacyBuilder.AddShortageExcess(nodes);
  }
}
