/** The older builder of src/deflex/nodes.py as it runs: each `add_*`
    function walks its table and inserts into one `NodeDict` in place.
    Every method is proved against its rule or table function in
    `LegacyNodes`: it passes exactly when that function succeeds and then
    leaves the dictionary holding the function's registry, and otherwise
    it fails with the function's error. */
module LegacyBuilder {
  import opened Wrappers
  import opened Strings
  import opened Labels
  import opened NodeRegistry
  import ScenarioNodes
  import Views
  import opened LegacyNodes

  // ------------------------------------------------------------ fuel sources

  /** `create_fuel_bus_with_source`. When the co2 price is missing, the
      exception comes after the fuel bus was created; a missing commodity
      row leaves the dictionary as it was. */
  method CreateFuelBusWithSource(nodes: NodeDict, fuel: string, region: string, data: InputData) returns (r: Outcome<BuildError>)
    requires nodes.Valid()
    modifies nodes
    ensures nodes.Valid()
    ensures Reports(r, FuelBusWithSource(old(nodes.Value()), fuel, region, data), nodes.Value())
    ensures Extends(old(nodes.Value()), nodes.Value())
    ensures r == Fail(MissingRow("general", ["co2 price"])) ==>
      nodes.Value() == EnsureBus(old(nodes.Value()), FuelBus(ScenarioNodes.CommodityName(fuel), region))
    ensures r.Fail? && r != Fail(MissingRow("general", ["co2 price"])) ==> nodes.Value() == old(nodes.Value())
  {
    var name := ScenarioNodes.CommodityName(fuel);
    if data.commoditySources.None? {
      return Fail(MissingTable("commodity sources"));
    }
    var row := FindCommodity(data.commoditySources.value, region, name);
    if row.None? {
      return Fail(MissingRow("commodity sources", [region, name]));
    }
    var bus := FuelBus(name, region);
    nodes.AddBusIfMissing(bus);
    if data.co2Price.None? {
      return Fail(MissingRow("general", ["co2 price"]));
    }
    var source := FuelSource(name, region);
    if nodes.Has(source) {
      return Pass;
    }
    ghost var g1 := nodes.Value();
    r := nodes.Insert(source, Source(bus, FuelFlow(row.value, data.co2Price.value)));
    ExtendsTransitive(old(nodes.Value()), g1, nodes.Value());
  }

  // ------------------------------------------------------------ in/out buses

  /** `create_electricity_bus` for every listed region. */
  method CreateElectricityBuses(nodes: NodeDict, regions: seq<string>)
    requires nodes.Valid()
    modifies nodes
    ensures nodes.Valid()
    ensures nodes.Value() == EnsureElectricityBuses(old(nodes.Value()), regions)
  {
    var i := 0;
    while i < |regions|
      invariant 0 <= i <= |regions| && nodes.Valid()
      invariant EnsureElectricityBuses(old(nodes.Value()), regions) ==
                EnsureElectricityBuses(nodes.Value(), regions[i..])
    {
      assert regions[i..][1..] == regions[i + 1..];
      nodes.AddBusIfMissing(ElectricityBus(regions[i]));
      i := i + 1;
    }
  }

  method CheckFuelPair(nodes: NodeDict, pair: (string, string), data: InputData) returns (r: Outcome<BuildError>)
    requires nodes.Valid()
    modifies nodes
    ensures nodes.Valid()
    ensures Reports(r, FuelPairRule(old(nodes.Value()), pair, data), nodes.Value())
    ensures Extends(old(nodes.Value()), nodes.Value())
  {
    if nodes.Has(FuelBus(pair.0, pair.1)) {
      return Pass;
    }
    r := CreateFuelBusWithSource(nodes, pair.0, pair.1, data);
  }

  /** `check_in_out_buses` */
  method CheckInOutBusesOf(nodes: NodeDict, pairs: seq<(string, string)>, regions: seq<string>, data: InputData) returns (r: Outcome<BuildError>)
    requires nodes.Valid()
    modifies nodes
    ensures nodes.Valid()
    ensures Reports(r, CheckInOutBuses(old(nodes.Value()), pairs, regions, data), nodes.Value())
    ensures Extends(old(nodes.Value()), nodes.Value())
  {
    var sources := Views.Distinct(pairs);
    ghost var g0 := nodes.Value();
    var i := 0;
    while i < |sources|
      invariant 0 <= i <= |sources| && nodes.Valid()
      invariant FoldRows(g0, sources[..i], FuelPairStep(data)) == Success(nodes.Value())
      invariant Extends(g0, nodes.Value())
    {
      ghost var h := nodes.Value();
      FoldRowsNext(g0, sources, i, h, FuelPairStep(data));
      r := CheckFuelPair(nodes, sources[i], data);
      ExtendsTransitive(g0, h, nodes.Value());
      if r.Fail? {
        return;
      }
      i := i + 1;
    }
    assert sources[..i] == sources;
    ghost var h := nodes.Value();
    CreateElectricityBuses(nodes, Views.Distinct(regions));
    ExtendsTransitive(g0, h, nodes.Value());
    r := Pass;
  }

  // ------------------------------------------------------------ power plants

  method AddPowerPlantRow(nodes: NodeDict, row: PowerPlantRow) returns (r: Outcome<BuildError>)
    requires nodes.Valid()
    modifies nodes
    ensures nodes.Valid()
    ensures Reports(r, PowerPlantRule(old(nodes.Value()), row), nodes.Value())
    ensures Extends(old(nodes.Value()), nodes.Value())
  {
    if row.capacity <= 0.0 {
      return Pass;
    }
    if !nodes.Has(PlantFuelBus(row)) {
      return Fail(MissingKey(PlantFuelBus(row)));
    }
    if !nodes.Has(ElectricityBus(row.region)) {
      return Fail(MissingKey(ElectricityBus(row.region)));
    }
    r := nodes.Insert(PlantLabel(row), PlantNode(row));
  }

  /** `add_power_plants` */
  method AddPowerPlants(nodes: NodeDict, data: InputData) returns (r: Outcome<BuildError>)
    requires nodes.Valid()
    modifies nodes
    ensures nodes.Valid()
    ensures Reports(r, PowerPlantsSpec(old(nodes.Value()), data), nodes.Value())
    ensures Extends(old(nodes.Value()), nodes.Value())
  {
    if data.powerPlants.None? {
      return Fail(MissingTable("power plants"));
    }
    var rows := data.powerPlants.value;
    r := CheckInOutBusesOf(nodes, PlantPairs(rows), ScenarioNodes.PowerPlantRegions(rows), data);
    if r.Fail? {
      return;
    }
    ghost var g0 := nodes.Value();
    var i := 0;
    while i < |rows|
      invariant 0 <= i <= |rows| && nodes.Valid()
      invariant FoldRows(g0, rows[..i], PowerPlantRule) == Success(nodes.Value())
      invariant Extends(g0, nodes.Value())
    {
      ghost var h := nodes.Value();
      FoldRowsNext(g0, rows, i, h, PowerPlantRule);
      r := AddPowerPlantRow(nodes, rows[i]);
      ExtendsTransitive(g0, h, nodes.Value());
      if r.Fail? {
        ExtendsTransitive(old(nodes.Value()), g0, nodes.Value());
        return;
      }
      i := i + 1;
    }
    assert rows[..i] == rows;
    ExtendsTransitive(old(nodes.Value()), g0, nodes.Value());
    r := Pass;
  }

  // --------------------------------------------------------- heat-chp plants

  method AddChpPart(nodes: NodeDict, row: ChpRow) returns (r: Outcome<BuildError>)
    requires nodes.Valid()
    modifies nodes
    ensures nodes.Valid()
    ensures Reports(r, AddChp(old(nodes.Value()), row), nodes.Value())
    ensures Extends(old(nodes.Value()), nodes.Value())
  {
    if !ScenarioNodes.HasChp(row) {
      return Pass;
    }
    if !nodes.Has(ChpFuelBus(row)) {
      return Fail(MissingKey(ChpFuelBus(row)));
    }
    if !nodes.Has(ElectricityBus(row.region)) {
      return Fail(MissingKey(ElectricityBus(row.region)));
    }
    if !nodes.Has(DistrictHeatBus(row.region)) {
      return Fail(MissingKey(DistrictHeatBus(row.region)));
    }
    r := nodes.Insert(ChpLabel(row), ChpNode(row));
  }

  method AddHeatPlantPart(nodes: NodeDict, row: ChpRow) returns (r: Outcome<BuildError>)
    requires nodes.Valid()
    modifies nodes
    ensures nodes.Valid()
    ensures Reports(r, AddHeatPlant(old(nodes.Value()), row), nodes.Value())
    ensures Extends(old(nodes.Value()), nodes.Value())
  {
    if !ScenarioNodes.HasHeatPlant(row) {
      return Pass;
    }
    if !nodes.Has(ChpFuelBus(row)) {
      return Fail(MissingKey(ChpFuelBus(row)));
    }
    if !nodes.Has(DistrictHeatBus(row.region)) {
      return Fail(MissingKey(DistrictHeatBus(row.region)));
    }
    r := nodes.Insert(HeatPlantLabel(row), HeatPlantNode(row));
  }

  method AddChpRow(nodes: NodeDict, row: ChpRow) returns (r: Outcome<BuildError>)
    requires nodes.Valid()
    modifies nodes
    ensures nodes.Valid()
    ensures Reports(r, ChpRule(old(nodes.Value()), row), nodes.Value())
    ensures Extends(old(nodes.Value()), nodes.Value())
  {
    r := AddChpPart(nodes, row);
    if r.Fail? {
      return;
    }
    ghost var g1 := nodes.Value();
    r := AddHeatPlantPart(nodes, row);
    ExtendsTransitive(old(nodes.Value()), g1, nodes.Value());
  }

  /** `add_heat_and_chp_plants` */
  method AddHeatAndChpPlants(nodes: NodeDict, data: InputData) returns (r: Outcome<BuildError>)
    requires nodes.Valid()
    modifies nodes
    ensures nodes.Valid()
    ensures Reports(r, ChpPlantsSpec(old(nodes.Value()), data), nodes.Value())
    ensures Extends(old(nodes.Value()), nodes.Value())
  {
    if data.chpPlants.None? {
      return Fail(MissingTable("heat-chp plants"));
    }
    var rows := data.chpPlants.value;
    r := CheckInOutBusesOf(nodes, ChpPairs(rows), ScenarioNodes.ChpRegions(rows), data);
    if r.Fail? {
      return;
    }
    ghost var g0 := nodes.Value();
    var i := 0;
    while i < |rows|
      invariant 0 <= i <= |rows| && nodes.Valid()
      invariant FoldRows(g0, rows[..i], ChpRule) == Success(nodes.Value())
      invariant Extends(g0, nodes.Value())
    {
      ghost var h := nodes.Value();
      FoldRowsNext(g0, rows, i, h, ChpRule);
      r := AddChpRow(nodes, rows[i]);
      ExtendsTransitive(g0, h, nodes.Value());
      if r.Fail? {
        ExtendsTransitive(old(nodes.Value()), g0, nodes.Value());
        return;
      }
      i := i + 1;
    }
    assert rows[..i] == rows;
    ExtendsTransitive(old(nodes.Value()), g0, nodes.Value());
    r := Pass;
  }

  // ------------------------------------------------------------ power lines

  method AddLineDirection(nodes: NodeDict, from: string, to: string, row: LineRow) returns (r: Outcome<BuildError>)
    requires nodes.Valid()
    modifies nodes
    ensures nodes.Valid()
    ensures Reports(r, LineDirectionRule(old(nodes.Value()), from, to, row), nodes.Value())
    ensures Extends(old(nodes.Value()), nodes.Value())
  {
    var busIn := ElectricityBus(from);
    var busOut := ElectricityBus(to);
    if !nodes.Has(busIn) {
      return Fail(MissingLineBus(busIn, busOut));
    }
    if !nodes.Has(busOut) {
      return Fail(MissingLineBus(busOut, busIn));
    }
    r := nodes.Insert(ScenarioNodes.LineLabel(from, to), LineNode(from, to, row));
  }

  method AddLineRow(nodes: NodeDict, row: LineRow) returns (r: Outcome<BuildError>)
    requires nodes.Valid()
    modifies nodes
    ensures nodes.Valid()
    ensures Reports(r, LineRule(old(nodes.Value()), row), nodes.Value())
    ensures Extends(old(nodes.Value()), nodes.Value())
  {
    var parts := Split(row.name, '-');
    if |parts| != 2 {
      return Fail(MalformedLineName(row.name));
    }
    r := AddLineDirection(nodes, parts[0], parts[1], row);
    if r.Fail? {
      return;
    }
    ghost var g1 := nodes.Value();
    r := AddLineDirection(nodes, parts[1], parts[0], row);
    ExtendsTransitive(old(nodes.Value()), g1, nodes.Value());
  }

  /** `add_transmission_lines_between_electricity_nodes` */
  method AddTransmissionLines(nodes: NodeDict, data: InputData) returns (r: Outcome<BuildError>)
    requires nodes.Valid()
    modifies nodes
    ensures nodes.Valid()
    ensures Reports(r, PowerLinesSpec(old(nodes.Value()), data), nodes.Value())
    ensures Extends(old(nodes.Value()), nodes.Value())
  {
    if data.powerLines.None? {
      return Fail(MissingTable("power lines"));
    }
    var rows := data.powerLines.value;
    ghost var g0 := nodes.Value();
    var i := 0;
    while i < |rows|
      invariant 0 <= i <= |rows| && nodes.Valid()
      invariant FoldRows(g0, rows[..i], LineRule) == Success(nodes.Value())
      invariant Extends(g0, nodes.Value())
    {
      ghost var h := nodes.Value();
      FoldRowsNext(g0, rows, i, h, LineRule);
      r := AddLineRow(nodes, rows[i]);
      ExtendsTransitive(g0, h, nodes.Value());
      if r.Fail? {
        return;
      }
      i := i + 1;
    }
    assert rows[..i] == rows;
    r := Pass;
  }

  // ------------------------------------------------- decentralised heating

  method AddHeatSource(nodes: NodeDict, region: string, source: string, data: InputData) returns (r: Outcome<BuildError>)
    requires nodes.Valid()
    modifies nodes
    ensures nodes.Valid()
    ensures Reports(r, HeatSourceRule(old(nodes.Value()), region, source, data), nodes.Value())
    ensures Extends(old(nodes.Value()), nodes.Value())
  {
    if source == "electricity" {
      nodes.AddBusIfMissing(ElectricityBus(region));
      r := Pass;
    } else if !nodes.Has(FuelBus(source, region)) {
      r := CreateFuelBusWithSource(nodes, source, region, data);
    } else {
      r := Pass;
    }
  }

  method AddDecentralisedHeatColumn(nodes: NodeDict, col: SeriesColumn, data: InputData) returns (r: Outcome<BuildError>)
    requires nodes.Valid() && data.decentralisedHeat.Some?
    modifies nodes
    ensures nodes.Valid()
    ensures Reports(r, DecentralisedHeatRule(old(nodes.Value()), col, data), nodes.Value())
    ensures Extends(old(nodes.Value()), nodes.Value())
  {
    ghost var g0 := nodes.Value();
    var fuel := ScenarioNodes.CommodityName(col.name);
    var sys := ScenarioNodes.FindHeatSystem(data.decentralisedHeat.value, col.region, col.name);
    if sys.None? {
      return Fail(MissingRow("decentralised heat", [col.region, col.name]));
    }
    var src := ScenarioNodes.CommodityName(sys.value.source);
    var srcBus := HeatSourceBus(col.region, src);
    r := AddHeatSource(nodes, col.region, src, data);
    if r.Fail? {
      return;
    }
    ghost var g1 := nodes.Value();
    var heatBus := HeatBus(fuel, col.region);
    r := nodes.Insert(heatBus, Bus);
    ExtendsTransitive(g0, g1, nodes.Value());
    if r.Fail? {
      return;
    }
    ghost var g2 := nodes.Value();
    if !nodes.Has(srcBus) {
      return Fail(MissingKey(srcBus));
    }
    r := nodes.Insert(Label("trsf", "heat", fuel, col.region),
      Transformer(map[srcBus := PlainFlow], map[heatBus := PlainFlow], map[heatBus := sys.value.efficiency]));
    ExtendsTransitive(g0, g2, nodes.Value());
    if r.Fail? {
      return;
    }
    ghost var g3 := nodes.Value();
    r := nodes.Insert(Label("demand", "heat", fuel, col.region), DemandSink(heatBus, col.values));
    ExtendsTransitive(g0, g3, nodes.Value());
  }

  /** `add_decentralised_heating_systems` */
  method AddDecentralisedHeatingSystems(nodes: NodeDict, data: InputData) returns (r: Outcome<BuildError>)
    requires nodes.Valid()
    modifies nodes
    ensures nodes.Valid()
    ensures Reports(r, DecentralisedHeatSpec(old(nodes.Value()), data), nodes.Value())
    ensures Extends(old(nodes.Value()), nodes.Value())
  {
    if data.heatDemandSeries.None? {
      return Fail(MissingTable("heat demand series"));
    }
    if data.decentralisedHeat.None? {
      return Fail(MissingTable("decentralised heat"));
    }
    var cols := ScenarioNodes.HeatColumns(data.heatDemandSeries.value, false);
    ghost var g0 := nodes.Value();
    var i := 0;
    while i < |cols|
      invariant 0 <= i <= |cols| && nodes.Valid()
      invariant FoldRows(g0, cols[..i], DecentralisedHeatStep(data)) == Success(nodes.Value())
      invariant Extends(g0, nodes.Value())
    {
      ghost var h := nodes.Value();
      FoldRowsNext(g0, cols, i, h, DecentralisedHeatStep(data));
      r := AddDecentralisedHeatColumn(nodes, cols[i], data);
      ExtendsTransitive(g0, h, nodes.Value());
      if r.Fail? {
        return;
      }
      i := i + 1;
    }
    assert cols[..i] == cols;
    r := Pass;
  }

  // ---------------------------------------------------------------- demands

  method AddElectricityDemandColumn(nodes: NodeDict, col: SeriesColumn) returns (r: Outcome<BuildError>)
    requires nodes.Valid()
    modifies nodes
    ensures nodes.Valid()
    ensures Reports(r, ElectricityDemandRule(old(nodes.Value()), col), nodes.Value())
    ensures Extends(old(nodes.Value()), nodes.Value())
  {
    if ScenarioNodes.Sum(col.values) <= 0.0 {
      return Pass;
    }
    var bus := ElectricityBus(col.region);
    nodes.AddBusIfMissing(bus);
    ghost var g1 := nodes.Value();
    r := nodes.Insert(Label("demand", "electricity", col.name, col.region), DemandSink(bus, col.values));
    ExtendsTransitive(old(nodes.Value()), g1, nodes.Value());
  }

  /** `add_electricity_demand` */
  method AddElectricityDemand(nodes: NodeDict, data: InputData) returns (r: Outcome<BuildError>)
    requires nodes.Valid()
    modifies nodes
    ensures nodes.Valid()
    ensures Reports(r, ElectricityDemandSpec(old(nodes.Value()), data), nodes.Value())
    ensures Extends(old(nodes.Value()), nodes.Value())
  {
    if data.electricityDemandSeries.None? {
      return Fail(MissingTable("electricity demand series"));
    }
    var cols := data.electricityDemandSeries.value;
    ghost var g0 := nodes.Value();
    var i := 0;
    while i < |cols|
      invariant 0 <= i <= |cols| && nodes.Valid()
      invariant FoldRows(g0, cols[..i], ElectricityDemandRule) == Success(nodes.Value())
      invariant Extends(g0, nodes.Value())
    {
      ghost var h := nodes.Value();
      FoldRowsNext(g0, cols, i, h, ElectricityDemandRule);
      r := AddElectricityDemandColumn(nodes, cols[i]);
      ExtendsTransitive(g0, h, nodes.Value());
      if r.Fail? {
        return;
      }
      i := i + 1;
    }
    assert cols[..i] == cols;
    r := Pass;
  }

  method AddDistrictHeatingColumn(nodes: NodeDict, col: SeriesColumn) returns (r: Outcome<BuildError>)
    requires nodes.Valid()
    modifies nodes
    ensures nodes.Valid()
    ensures Reports(r, DistrictHeatingRule(old(nodes.Value()), col), nodes.Value())
    ensures Extends(old(nodes.Value()), nodes.Value())
  {
    if ScenarioNodes.Sum(col.values) <= 0.0 {
      return Pass;
    }
    var bus := DistrictHeatBus(col.region);
    nodes.AddBusIfMissing(bus);
    ghost var g1 := nodes.Value();
    r := nodes.Insert(Label("demand", "heat", "district", col.region), DemandSink(bus, col.values));
    ExtendsTransitive(old(nodes.Value()), g1, nodes.Value());
  }

  /** `add_district_heating_demand` */
  method AddDistrictHeatingDemand(nodes: NodeDict, data: InputData) returns (r: Outcome<BuildError>)
    requires nodes.Valid()
    modifies nodes
    ensures nodes.Valid()
    ensures Reports(r, DistrictHeatingSpec(old(nodes.Value()), data), nodes.Value())
    ensures Extends(old(nodes.Value()), nodes.Value())
  {
    if data.heatDemandSeries.None? {
      return Fail(MissingTable("heat demand series"));
    }
    var cols := ScenarioNodes.HeatColumns(data.heatDemandSeries.value, true);
    ghost var g0 := nodes.Value();
    var i := 0;
    while i < |cols|
      invariant 0 <= i <= |cols| && nodes.Valid()
      invariant FoldRows(g0, cols[..i], DistrictHeatingRule) == Success(nodes.Value())
      invariant Extends(g0, nodes.Value())
    {
      ghost var h := nodes.Value();
      FoldRowsNext(g0, cols, i, h, DistrictHeatingRule);
      r := AddDistrictHeatingColumn(nodes, cols[i]);
      ExtendsTransitive(g0, h, nodes.Value());
      if r.Fail? {
        return;
      }
      i := i + 1;
    }
    assert cols[..i] == cols;
    r := Pass;
  }

  // ------------------------------------------------------- volatile sources

  method AddVolatileRow(nodes: NodeDict, row: VolatileRow, series: Option<seq<SeriesColumn>>) returns (r: Outcome<BuildError>)
    requires nodes.Valid()
    modifies nodes
    ensures nodes.Valid()
    ensures Reports(r, VolatileRule(old(nodes.Value()), row, series), nodes.Value())
    ensures Extends(old(nodes.Value()), nodes.Value())
  {
    var feedin := ScenarioNodes.LookupSeries(series, row.region, row.kind);
    if feedin.None? && row.capacity > 0.0 {
      return Fail(MissingTimeSeries(row.region, row.kind, row.capacity));
    }
    var f := feedin.GetOr([0.0]);
    var bus := ElectricityBus(row.region);
    nodes.AddBusIfMissing(bus);
    if row.capacity * ScenarioNodes.Sum(f) > 0.0 {
      ghost var g1 := nodes.Value();
      r := nodes.Insert(VolatileLabel(row), Source(bus, Flow(Some(row.capacity), None, 0.0, 0.0, Some(f))));
      ExtendsTransitive(old(nodes.Value()), g1, nodes.Value());
    } else {
      r := Pass;
    }
  }

  /** `add_volatile_sources` */
  method AddVolatileSources(nodes: NodeDict, data: InputData) returns (r: Outcome<BuildError>)
    requires nodes.Valid()
    modifies nodes
    ensures nodes.Valid()
    ensures Reports(r, VolatileSourcesSpec(old(nodes.Value()), data), nodes.Value())
    ensures Extends(old(nodes.Value()), nodes.Value())
  {
    if data.volatilePlants.None? {
      return Fail(MissingTable("volatile plants"));
    }
    var rows := data.volatilePlants.value;
    ghost var g0 := nodes.Value();
    var i := 0;
    while i < |rows|
      invariant 0 <= i <= |rows| && nodes.Valid()
      invariant FoldRows(g0, rows[..i], VolatileStep(data.volatileSeries)) == Success(nodes.Value())
      invariant Extends(g0, nodes.Value())
    {
      ghost var h := nodes.Value();
      FoldRowsNext(g0, rows, i, h, VolatileStep(data.volatileSeries));
      r := AddVolatileRow(nodes, rows[i], data.volatileSeries);
      ExtendsTransitive(g0, h, nodes.Value());
      if r.Fail? {
        return;
      }
      i := i + 1;
    }
    assert rows[..i] == rows;
    r := Pass;
  }

  // ---------------------------------------------------------------- storages

  method AddStorageRow(nodes: NodeDict, row: StorageRow) returns (r: Outcome<BuildError>)
    requires nodes.Valid()
    modifies nodes
    ensures nodes.Valid()
    ensures Reports(r, StorageRule(old(nodes.Value()), row), nodes.Value())
    ensures Extends(old(nodes.Value()), nodes.Value())
  {
    if !nodes.Has(ElectricityBus(row.region)) {
      return Fail(MissingKey(ElectricityBus(row.region)));
    }
    r := nodes.Insert(StorageLabel(row), StorageNode(row));
  }

  /** `add_electricity_storages` */
  method AddElectricityStorages(nodes: NodeDict, data: InputData) returns (r: Outcome<BuildError>)
    requires nodes.Valid()
    modifies nodes
    ensures nodes.Valid()
    ensures Reports(r, StoragesSpec(old(nodes.Value()), data), nodes.Value())
    ensures Extends(old(nodes.Value()), nodes.Value())
  {
    if data.electricityStorages.None? {
      return Fail(MissingTable("electricity storages"));
    }
    var rows := data.electricityStorages.value;
    ghost var g0 := nodes.Value();
    var i := 0;
    while i < |rows|
      invariant 0 <= i <= |rows| && nodes.Valid()
      invariant FoldRows(g0, rows[..i], StorageRule) == Success(nodes.Value())
      invariant Extends(g0, nodes.Value())
    {
      ghost var h := nodes.Value();
      FoldRowsNext(g0, rows, i, h, StorageRule);
      r := AddStorageRow(nodes, rows[i]);
      ExtendsTransitive(g0, h, nodes.Value());
      if r.Fail? {
        return;
      }
      i := i + 1;
    }
    assert rows[..i] == rows;
    r := Pass;
  }

  // ---------------------------------------------------------------- mobility

  method AddMobilityColumn(nodes: NodeDict, col: SeriesColumn, t: seq<MobilityRow>) returns (r: Outcome<BuildError>)
    requires nodes.Valid()
    modifies nodes
    ensures nodes.Valid()
    ensures Reports(r, MobilityRule(old(nodes.Value()), col, t), nodes.Value())
    ensures Extends(old(nodes.Value()), nodes.Value())
  {
    var m := ScenarioNodes.FindMobility(t, col.region, col.name);
    if m.None? {
      return Fail(MissingRow("mobility", [col.region, col.name]));
    }
    if ScenarioNodes.Sum(col.values) <= 0.0 {
      return Pass;
    }
    var bus := MobilityBus(col.name, col.region);
    var srcBus := MobilitySourceBus(col.name, m.value);
    nodes.AddBusIfMissing(bus);
    ghost var g0 := nodes.Value();
    nodes.AddBusIfMissing(srcBus);
    ghost var g1 := nodes.Value();
    ExtendsTransitive(old(nodes.Value()), g0, g1);
    r := nodes.Insert(Label("process", "fuel", col.name, col.region),
      Transformer(map[srcBus := PlainFlow], map[bus := PlainFlow], map[bus := m.value.efficiency]));
    ExtendsTransitive(old(nodes.Value()), g1, nodes.Value());
    if r.Fail? {
      return;
    }
    ghost var g2 := nodes.Value();
    r := nodes.Insert(Label("demand", "mobility", col.name, col.region), DemandSink(bus, col.values));
    ExtendsTransitive(old(nodes.Value()), g2, nodes.Value());
  }

  /** `add_mobility` */
  method AddMobility(nodes: NodeDict, data: InputData) returns (r: Outcome<BuildError>)
    requires nodes.Valid()
    modifies nodes
    ensures nodes.Valid()
    ensures Reports(r, MobilitySpec(old(nodes.Value()), data), nodes.Value())
    ensures Extends(old(nodes.Value()), nodes.Value())
  {
    if data.mobilityDemandSeries.None? {
      return Fail(MissingTable("mobility demand series"));
    }
    if data.mobility.None? {
      return Fail(MissingTable("mobility"));
    }
    var cols := data.mobilityDemandSeries.value;
    ghost var g0 := nodes.Value();
    var i := 0;
    while i < |cols|
      invariant 0 <= i <= |cols| && nodes.Valid()
      invariant FoldRows(g0, cols[..i], MobilityStep(data.mobility.value)) == Success(nodes.Value())
      invariant Extends(g0, nodes.Value())
    {
      ghost var h := nodes.Value();
      FoldRowsNext(g0, cols, i, h, MobilityStep(data.mobility.value));
      r := AddMobilityColumn(nodes, cols[i], data.mobility.value);
      ExtendsTransitive(g0, h, nodes.Value());
      if r.Fail? {
        return;
      }
      i := i + 1;
    }
    assert cols[..i] == cols;
    r := Pass;
  }

  // ------------------------------------------------------- shortage & excess

  method AddShortageExcessBus(nodes: NodeDict, bus: Label) returns (r: Outcome<BuildError>)
    requires nodes.Valid()
    modifies nodes
    ensures nodes.Valid()
    ensures Reports(r, ShortageExcessRule(old(nodes.Value()), bus), nodes.Value())
    ensures Extends(old(nodes.Value()), nodes.Value())
  {
    if !nodes.Has(bus) {
      return Fail(MissingKey(bus));
    }
    r := nodes.Insert(ExcessLabel(bus), Sink(bus, PlainFlow));
    if r.Fail? {
      return;
    }
    ghost var g1 := nodes.Value();
    r := nodes.Insert(ShortageLabel(bus), Source(bus, PlainFlow.(variableCosts := ShortageCosts)));
    ExtendsTransitive(old(nodes.Value()), g1, nodes.Value());
  }

  /** `add_shortage_excess`: the bus keys are collected before the loop. */
  method AddShortageExcess(nodes: NodeDict) returns (r: Outcome<BuildError>)
    requires nodes.Valid()
    modifies nodes
    ensures nodes.Valid()
    ensures Reports(r, ShortageExcessSpec(old(nodes.Value())), nodes.Value())
    ensures Extends(old(nodes.Value()), nodes.Value())
  {
    var keys := BusKeys(nodes.order);
    ghost var g0 := nodes.Value();
    var i := 0;
    while i < |keys|
      invariant 0 <= i <= |keys| && nodes.Valid()
      invariant FoldRows(g0, keys[..i], ShortageExcessRule) == Success(nodes.Value())
      invariant Extends(g0, nodes.Value())
    {
      ghost var h := nodes.Value();
      FoldRowsNext(g0, keys, i, h, ShortageExcessRule);
      r := AddShortageExcessBus(nodes, keys[i]);
      ExtendsTransitive(g0, h, nodes.Value());
      if r.Fail? {
        return;
      }
      i := i + 1;
    }
    assert keys[..i] == keys;
    r := Pass;
  }

  // -------------------------------------------------------------- all tables

  /** One line of `create_solph_nodes_from_data`: the `add_*` call of
      stage `k` when its tables are present. */
  method RunStage(nodes: NodeDict, data: InputData, k: nat) returns (r: Outcome<BuildError>)
    requires nodes.Valid() && k < StageCount
    modifies nodes
    ensures nodes.Valid()
    ensures Reports(r, StageSpec(old(nodes.Value()), data, k), nodes.Value())
    ensures r.Fail? ==> BuildFrom(old(nodes.Value()), data, k) == Failure(r.error)
    ensures r.Pass? ==> BuildFrom(old(nodes.Value()), data, k) == BuildFrom(nodes.Value(), data, k + 1)
  {
    ghost var g := nodes.Value();
    if k == 0 {
      r := AddElectricityDemand(nodes, data);
    } else if k == 1 {
      r := AddVolatileSources(nodes, data);
    } else if k == 2 {
      r := AddPowerPlants(nodes, data);
    } else if k == 3 && data.decentralisedHeat.Some? {
      r := AddDecentralisedHeatingSystems(nodes, data);
    } else if k == 4 && data.heatDemandSeries.Some? {
      r := AddDistrictHeatingDemand(nodes, data);
    } else if k == 5 && data.chpPlants.Some? {
      r := AddHeatAndChpPlants(nodes, data);
    } else if k == 6 && data.electricityStorages.Some? {
      r := AddElectricityStorages(nodes, data);
    } else if k == 7 && data.mobility.Some? && data.mobilityDemandSeries.Some? {
      r := AddMobility(nodes, data);
    } else if k == 8 && data.powerLines.Some? {
      r := AddTransmissionLines(nodes, data);
    } else {
      r := Pass;
    }
    Advance(g, data, k, r, nodes.Value());
  }

  /** The stages in order, stopping at the first exception: what is
      left of the build is shortage and excess. */
  method RunStages(nodes: NodeDict, data: InputData) returns (r: Outcome<BuildError>)
    requires nodes.Valid()
    modifies nodes
    ensures nodes.Valid()
    ensures r.Fail? ==> BuildSpec(old(nodes.Value()), data) == Failure(r.error)
    ensures r.Pass? ==> BuildSpec(old(nodes.Value()), data) == BuildFrom(nodes.Value(), data, StageCount)
  {
    r := Pass;
    var k := 0;
    while k < StageCount
      invariant 0 <= k <= StageCount && nodes.Valid() && r == Pass
      invariant BuildSpec(old(nodes.Value()), data) == BuildFrom(nodes.Value(), data, k)
    {
      r := RunStage(nodes, data, k);
      if r.Fail? {
        return;
      }
      k := k + 1;
    }
  }

  /** `create_solph_nodes_from_data`: the stages in order, stopping at the
      first exception, then shortage and excess for every bus key. */
  method CreateSolphNodesFromData(nodes: NodeDict, data: InputData) returns (r: Outcome<BuildError>)
    requires nodes.Valid()
    modifies nodes
    ensures nodes.Valid()
    ensures Reports(r, BuildSpec(old(nodes.Value()), data), nodes.Value())
  {
    r := RunStages(nodes, data);
    if r.Fail? {
      return;
    }
    BuildFromEnd(nodes.Value(), data);
    r := AddShortageExcess(nodes);
  }
}
