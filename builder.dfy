/** The builder as the source runs it: each `add_*` function walks its
    table and inserts nodes into one `NodeDict` in place. Every method is
    proved against its rule or table function in `ScenarioNodes`: it
    passes exactly when that function succeeds and then leaves the
    dictionary holding the function's registry, and otherwise it fails
    with the function's error. */
module Builder {
  import opened Wrappers
  import opened Strings
  import opened Labels
  import opened NodeRegistry
  import opened ScenarioNodes

  /** `add_source` */
  method AddSource(nodes: NodeDict, key: Label, bus: Label, p: SourceParams) returns (r: Outcome<BuildError>)
    requires nodes.Valid()
    modifies nodes
    ensures nodes.Valid()
    ensures Reports(r, AddSourceSpec(old(nodes.Value()), key, bus, p), nodes.Value())
    ensures Extends(old(nodes.Value()), nodes.Value())
  {
    var flow := SourceFlow(p);
    if flow.None? {
      r := Pass;
    } else if !nodes.Has(bus) {
      r := Fail(MissingKey(bus));
    } else {
      r := nodes.Insert(key, Source(bus, flow.value));
    }
  }

  /** `add_sink`, with the node already chosen by `SinkNode` */
  method AddSink(nodes: NodeDict, key: Label, bus: Label, node: Node) returns (r: Outcome<BuildError>)
    requires nodes.Valid()
    modifies nodes
    ensures nodes.Valid()
    ensures Reports(r, AddSinkSpec(old(nodes.Value()), key, bus, node), nodes.Value())
    ensures Extends(old(nodes.Value()), nodes.Value())
  {
    if !nodes.Has(bus) {
      r := Fail(MissingKey(bus));
    } else {
      r := nodes.Insert(key, node);
    }
  }

  /** `check_electricity_buses` */
  method CheckElectricityBuses(nodes: NodeDict, regions: seq<string>)
    requires nodes.Valid()
    modifies nodes
    ensures nodes.Valid()
    ensures nodes.Value() == EnsureElectricityBuses(old(nodes.Value()), regions)
  {
    var i := 0;
    while i < |regions|
      invariant 0 <= i <= |regions| && nodes.Valid()
      invariant EnsureElectricityBuses(old(nodes.Value()), regions) ==
                EnsureElectricityBuses(nodes.Value(), regions[i..])
    {
      assert regions[i..][1..] == regions[i + 1..];
      nodes.AddBusIfMissing(ElectricityBusLabel(regions[i]));
      i := i + 1;
    }
  }

  // ------------------------------------------------------ commodity sources

  method AddCommodityRow(nodes: NodeDict, row: CommodityRow, co2Price: Option<real>) returns (r: Outcome<BuildError>)
    requires nodes.Valid()
    modifies nodes
    ensures nodes.Valid()
    ensures Reports(r, CommodityRule(old(nodes.Value()), row, co2Price), nodes.Value())
    ensures Extends(old(nodes.Value()), nodes.Value())
  {
    ghost var g0 := nodes.Value();
    var bus := CommodityBusLabel(CommodityName(row.fuel), row.region);
    r := nodes.Insert(bus, Bus);
    if r.Fail? {
      return;
    }
    ghost var g1 := nodes.Value();
    assert Put(g0, bus, Bus) == Success(g1);
    if co2Price.None? {
      r := Fail(MissingRow("general", ["co2 price"]));
      return;
    }
    var p := SourceParams(row.annualLimit, CommodityCosts(row, co2Price.value), row.emission, None, None);
    assert CommodityRule(g0, row, co2Price) == AddSourceSpec(g1, CommoditySourceLabel(row), bus, p);
    r := AddSource(nodes, CommoditySourceLabel(row), bus, p);
    ExtendsTransitive(g0, g1, nodes.Value());
  }

  /** `add_commodity_sources` */
  method AddCommoditySources(nodes: NodeDict, data: InputData) returns (r: Outcome<BuildError>)
    requires nodes.Valid()
    modifies nodes
    ensures nodes.Valid()
    ensures Reports(r, CommoditySourcesSpec(old(nodes.Value()), data), nodes.Value())
    ensures Extends(old(nodes.Value()), nodes.Value())
  {
    if data.commoditySources.None? {
      return Fail(MissingTable("commodity sources"));
    }
    var rows := data.commoditySources.value;
    ghost var g0 := nodes.Value();
    var i := 0;
    while i < |rows|
      invariant 0 <= i <= |rows| && nodes.Valid()
      invariant FoldRows(g0, rows[..i], CommodityStep(data.co2Price)) == Success(nodes.Value())
      invariant Extends(g0, nodes.Value())
    {
      ghost var h := nodes.Value();
      FoldRowsNext(g0, rows, i, h, CommodityStep(data.co2Price));
      r := AddCommodityRow(nodes, rows[i], data.co2Price);
      ExtendsTransitive(g0, h, nodes.Value());
      if r.Fail? {
        return;
      }
      i := i + 1;
    }
    assert rows[..i] == rows;
    r := Pass;
  }

  // ------------------------------------------------------- volatile sources

  method AddVolatileRow(nodes: NodeDict, row: VolatileRow, series: Option<seq<SeriesColumn>>) returns (r: Outcome<BuildError>)
    requires nodes.Valid()
    modifies nodes
    ensures nodes.Valid()
    ensures Reports(r, VolatileRule(old(nodes.Value()), row, series), nodes.Value())
    ensures Extends(old(nodes.Value()), nodes.Value())
  {
    var feedin := LookupSeries(series, row.region, row.kind);
    if feedin.None? && row.capacity > 0.0 {
      return Fail(MissingTimeSeries(row.region, row.kind, row.capacity));
    }
    var f := feedin.GetOr([0.0]);
    var bus := ElectricityBusLabel(row.region);
    nodes.AddBusIfMissing(bus);
    if row.capacity * Sum(f) > 0.0 {
      ghost var g1 := nodes.Value();
      r := AddSource(nodes, VolatileSourceLabel(row), bus, SourceParams(None, 0.0, 0.0, Some(row.capacity), Some(f)));
      ExtendsTransitive(old(nodes.Value()), g1, nodes.Value());
    } else {
      r := Pass;
    }
  }

  /** `add_volatile_sources` */
  method AddVolatileSources(nodes: NodeDict, data: InputData) returns (r: Outcome<BuildError>)
    requires nodes.Valid()
    modifies nodes
    ensures nodes.Valid()
    ensures Reports(r, VolatileSourcesSpec(old(nodes.Value()), data), nodes.Value())
    ensures Extends(old(nodes.Value()), nodes.Value())
  {
    if data.volatilePlants.None? {
      return Fail(MissingTable("volatile plants"));
    }
    var rows := data.volatilePlants.value;
    ghost var g0 := nodes.Value();
    var i := 0;
    while i < |rows|
      invariant 0 <= i <= |rows| && nodes.Valid()
      invariant FoldRows(g0, rows[..i], VolatileStep(data.volatileSeries)) == Success(nodes.Value())
      invariant Extends(g0, nodes.Value())
    {
      ghost var h := nodes.Value();
      FoldRowsNext(g0, rows, i, h, VolatileStep(data.volatileSeries));
      r := AddVolatileRow(nodes, rows[i], data.volatileSeries);
      ExtendsTransitive(g0, h, nodes.Value());
      if r.Fail? {
        return;
      }
      i := i + 1;
    }
    assert rows[..i] == rows;
    r := Pass;
  }

  // ------------------------------------------------- decentralised heating

  method AddDecentralisedHeatRow(nodes: NodeDict, col: SeriesColumn, dh: seq<HeatSystemRow>, dr: map<seq<string>, DsmParams>) returns (r: Outcome<BuildError>)
    requires nodes.Valid()
    modifies nodes
    ensures nodes.Valid()
    ensures Reports(r, DecentralisedHeatRule(old(nodes.Value()), col, dh, dr), nodes.Value())
    ensures Extends(old(nodes.Value()), nodes.Value())
  {
    var sys := FindHeatSystem(dh, col.region, col.name);
    if sys.None? {
      return Fail(MissingRow("decentralised heat", [col.region, col.name]));
    }
    r := AddHeatSystemNodes(nodes, col, Replace(col.name, "_", " "), Replace(sys.value.source, "_", " "), sys.value.efficiency, dr);
  }

  /** The bus, transformer and demand of one column whose heating system
      was found. */
  method AddHeatSystemNodes(nodes: NodeDict, col: SeriesColumn, fuel: string, src: string, efficiency: real,
                            dr: map<seq<string>, DsmParams>) returns (r: Outcome<BuildError>)
    requires nodes.Valid()
    modifies nodes
    ensures nodes.Valid()
    ensures Reports(r, AddHeatSystem(old(nodes.Value()), col, fuel, src, efficiency, dr), nodes.Value())
    ensures Extends(old(nodes.Value()), nodes.Value())
  {
    ghost var g0 := nodes.Value();
    var srcBus := HeatSystemBus(col.region, src);
    if src == "electricity" {
      nodes.AddBusIfMissing(srcBus);
    }
    ghost var g1 := nodes.Value();
    var heatBus := Label("heat", "decentralised", fuel, col.region);
    r := InsertHeatNodes(nodes, srcBus, heatBus, Label("decentralised heat", col.name, fuel, col.region),
      Label("heat demand", "decentralised", fuel, col.region),
      Transformer(map[srcBus := PlainFlow], map[heatBus := PlainFlow], map[heatBus := efficiency]),
      SinkNode(heatBus, "heat demand series", [col.region, col.name], col.values, dr));
    ExtendsTransitive(g0, g1, nodes.Value());
  }

  /** `nodes[heat_bus_label] = ...`, the look-up of `nodes[cs_bus_label]`,
      `nodes[trsf_label] = ...` and `add_sink`, in this order. */
  method InsertHeatNodes(nodes: NodeDict, srcBus: Label, heatBus: Label, trsf: Label, demand: Label, transformer: Node, sink: Node)
    returns (r: Outcome<BuildError>)
    requires nodes.Valid()
    requires srcBus != heatBus && srcBus != trsf && srcBus != demand
    requires heatBus != trsf && heatBus != demand && trsf != demand
    modifies nodes
    ensures nodes.Valid()
    ensures Reports(r, PutFedBus(old(nodes.Value()), srcBus, heatBus, trsf, demand, transformer, sink), nodes.Value())
    ensures Extends(old(nodes.Value()), nodes.Value())
  {
    ghost var g1 := nodes.Value();
    r := nodes.Insert(heatBus, Bus);
    if r.Fail? {
      return;
    }
    ghost var g2 := nodes.Value();
    assert g2 == Registry(g1.order + [heatBus], g1.entries[heatBus := Bus]);
    if !nodes.Has(srcBus) {
      return Fail(MissingKey(srcBus));
    }
    r := nodes.Insert(trsf, transformer);
    ExtendsTransitive(g1, g2, nodes.Value());
    if r.Fail? {
      return;
    }
    ghost var g3 := nodes.Value();
    assert g3 == Registry(g2.order + [trsf], g2.entries[trsf := transformer]);
    r := AddSink(nodes, demand, heatBus, sink);
    ExtendsTransitive(g1, g3, nodes.Value());
  }

  /** `add_decentralised_heating_systems` */
  method AddDecentralisedHeatingSystems(nodes: NodeDict, data: InputData) returns (r: Outcome<BuildError>)
    requires nodes.Valid()
    modifies nodes
    ensures nodes.Valid()
    ensures Reports(r, DecentralisedHeatSpec(old(nodes.Value()), data), nodes.Value())
    ensures Extends(old(nodes.Value()), nodes.Value())
  {
    if data.heatDemandSeries.None? {
      return Fail(MissingTable("heat demand series"));
    }
    if data.decentralisedHeat.None? {
      return Fail(MissingTable("decentralised heat"));
    }
    var rows := HeatColumns(data.heatDemandSeries.value, false);
    ghost var g0 := nodes.Value();
    var i := 0;
    while i < |rows|
      invariant 0 <= i <= |rows| && nodes.Valid()
      invariant FoldRows(g0, rows[..i], DecentralisedHeatStep(data.decentralisedHeat.value, data.demandResponse)) == Success(nodes.Value())
      invariant Extends(g0, nodes.Value())
    {
      ghost var h := nodes.Value();
      FoldRowsNext(g0, rows, i, h, DecentralisedHeatStep(data.decentralisedHeat.value, data.demandResponse));
      r := AddDecentralisedHeatRow(nodes, rows[i], data.decentralisedHeat.value, data.demandResponse);
      ExtendsTransitive(g0, h, nodes.Value());
      if r.Fail? {
        return;
      }
      i := i + 1;
    }
    assert rows[..i] == rows;
    r := Pass;
  }

  // ------------------------------------------------------ electricity demand

  method AddElectricityDemandColumn(nodes: NodeDict, col: SeriesColumn, dr: map<seq<string>, DsmParams>) returns (r: Outcome<BuildError>)
    requires nodes.Valid()
    modifies nodes
    ensures nodes.Valid()
    ensures Reports(r, ElectricityDemandRule(old(nodes.Value()), col, dr), nodes.Value())
    ensures Extends(old(nodes.Value()), nodes.Value())
  {
    if Sum(col.values) > 0.0 {
      var bus := ElectricityBusLabel(col.region);
      nodes.AddBusIfMissing(bus);
      ghost var g1 := nodes.Value();
      r := AddSink(nodes, Label("electricity demand", "electricity", col.name, col.region), bus,
        SinkNode(bus, "electricity demand series", [col.region, col.name], col.values, dr));
      ExtendsTransitive(old(nodes.Value()), g1, nodes.Value());
    } else {
      r := Pass;
    }
  }

  /** `add_electricity_demand` */
  method AddElectricityDemand(nodes: NodeDict, data: InputData) returns (r: Outcome<BuildError>)
    requires nodes.Valid()
    modifies nodes
    ensures nodes.Valid()
    ensures Reports(r, ElectricityDemandSpec(old(nodes.Value()), data), nodes.Value())
    ensures Extends(old(nodes.Value()), nodes.Value())
  {
    if data.electricityDemandSeries.None? {
      return Fail(MissingTable("electricity demand series"));
    }
    var rows := data.electricityDemandSeries.value;
    ghost var g0 := nodes.Value();
    var i := 0;
    while i < |rows|
      invariant 0 <= i <= |rows| && nodes.Valid()
      invariant FoldRows(g0, rows[..i], ElectricityDemandStep(data.demandResponse)) == Success(nodes.Value())
      invariant Extends(g0, nodes.Value())
    {
      ghost var h := nodes.Value();
      FoldRowsNext(g0, rows, i, h, ElectricityDemandStep(data.demandResponse));
      r := AddElectricityDemandColumn(nodes, rows[i], data.demandResponse);
      ExtendsTransitive(g0, h, nodes.Value());
      if r.Fail? {
        return;
      }
      i := i + 1;
    }
    assert rows[..i] == rows;
    r := Pass;
  }

  // -------------------------------------------------- district heating demand

  method AddDistrictHeatingColumn(nodes: NodeDict, col: SeriesColumn, dr: map<seq<string>, DsmParams>) returns (r: Outcome<BuildError>)
    requires nodes.Valid()
    modifies nodes
    ensures nodes.Valid()
    ensures Reports(r, DistrictHeatingRule(old(nodes.Value()), col, dr), nodes.Value())
    ensures Extends(old(nodes.Value()), nodes.Value())
  {
    if Sum(col.values) > 0.0 {
      var bus := DistrictHeatBusLabel(col.region);
      nodes.AddBusIfMissing(bus);
      ghost var g1 := nodes.Value();
      r := AddSink(nodes, Label("heat demand", "district", "all", col.region), bus,
        SinkNode(bus, "heat demand series", [col.region, col.name], col.values, dr));
      ExtendsTransitive(old(nodes.Value()), g1, nodes.Value());
    } else {
      r := Pass;
    }
  }

  /** `add_district_heating_demand` */
  method AddDistrictHeatingDemand(nodes: NodeDict, data: InputData) returns (r: Outcome<BuildError>)
    requires nodes.Valid()
    modifies nodes
    ensures nodes.Valid()
    ensures Reports(r, DistrictHeatingSpec(old(nodes.Value()), data), nodes.Value())
    ensures Extends(old(nodes.Value()), nodes.Value())
  {
    if data.heatDemandSeries.None? {
      return Fail(MissingTable("heat demand series"));
    }
    var rows := HeatColumns(data.heatDemandSeries.value, true);
    ghost var g0 := nodes.Value();
    var i := 0;
    while i < |rows|
      invariant 0 <= i <= |rows| && nodes.Valid()
      invariant FoldRows(g0, rows[..i], DistrictHeatingStep(data.demandResponse)) == Success(nodes.Value())
      invariant Extends(g0, nodes.Value())
    {
      ghost var h := nodes.Value();
      FoldRowsNext(g0, rows, i, h, DistrictHeatingStep(data.demandResponse));
      r := AddDistrictHeatingColumn(nodes, rows[i], data.demandResponse);
      ExtendsTransitive(g0, h, nodes.Value());
      if r.Fail? {
        return;
      }
      i := i + 1;
    }
    assert rows[..i] == rows;
    r := Pass;
  }

  // ------------------------------------------------------------ power lines

  method AddLineDirection(nodes: NodeDict, from: string, to: string, row: LineRow) returns (r: Outcome<BuildError>)
    requires nodes.Valid()
    modifies nodes
    ensures nodes.Valid()
    ensures Reports(r, LineDirectionRule(old(nodes.Value()), from, to, row), nodes.Value())
    ensures Extends(old(nodes.Value()), nodes.Value())
  {
    var busIn := ElectricityBusLabel(from);
    var busOut := ElectricityBusLabel(to);
    if !nodes.Has(busIn) {
      return Fail(MissingLineBus(busIn, busOut));
    }
    if !nodes.Has(busOut) {
      return Fail(MissingLineBus(busOut, busIn));
    }
    r := nodes.Insert(LineLabel(from, to), LineNode(from, to, row));
  }

  method AddLineRow(nodes: NodeDict, row: LineRow) returns (r: Outcome<BuildError>)
    requires nodes.Valid()
    modifies nodes
    ensures nodes.Valid()
    ensures Reports(r, LineRule(old(nodes.Value()), row), nodes.Value())
    ensures Extends(old(nodes.Value()), nodes.Value())
  {
    var parts := Split(row.name, '-');
    if |parts| != 2 {
      return Fail(MalformedLineName(row.name));
    }
    r := AddLineDirection(nodes, parts[0], parts[1], row);
    if r.Fail? {
      return;
    }
    ghost var g1 := nodes.Value();
    r := AddLineDirection(nodes, parts[1], parts[0], row);
    ExtendsTransitive(old(nodes.Value()), g1, nodes.Value());
  }

  /** `add_transmission_lines_between_electricity_nodes` */
  method AddTransmissionLines(nodes: NodeDict, data: InputData) returns (r: Outcome<BuildError>)
    requires nodes.Valid()
    modifies nodes
    ensures nodes.Valid()
    ensures Reports(r, PowerLinesSpec(old(nodes.Value()), data), nodes.Value())
    ensures Extends(old(nodes.Value()), nodes.Value())
  {
    if data.powerLines.None? {
      return Fail(MissingTable("power lines"));
    }
    var rows := data.powerLines.value;
    ghost var g0 := nodes.Value();
    var i := 0;
    while i < |rows|
      invariant 0 <= i <= |rows| && nodes.Valid()
      invariant FoldRows(g0, rows[..i], LineRule) == Success(nodes.Value())
      invariant Extends(g0, nodes.Value())
    {
      ghost var h := nodes.Value();
      FoldRowsNext(g0, rows, i, h, LineRule);
      r := AddLineRow(nodes, rows[i]);
      ExtendsTransitive(g0, h, nodes.Value());
      if r.Fail? {
        return;
      }
      i := i + 1;
    }
    assert rows[..i] == rows;
    r := Pass;
  }

  // ------------------------------------------------------------ power plants

  method AddPowerPlantRow(nodes: NodeDict, row: PowerPlantRow) returns (r: Outcome<BuildError>)
    requires nodes.Valid()
    modifies nodes
    ensures nodes.Valid()
    ensures Reports(r, PowerPlantRule(old(nodes.Value()), row), nodes.Value())
    ensures Extends(old(nodes.Value()), nodes.Value())
  {
    if row.capacity <= 0.0 {
      return Pass;
    }
    var capacity := EffectiveCapacity(row.capacity, row.downtimeFactor);
    var fuelBus := CommodityBusLabel(row.fuel, row.sourceRegion);
    var elecBus := ElectricityBusLabel(row.region);
    if !nodes.Has(fuelBus) {
      return Fail(MissingKey(fuelBus));
    }
    if !nodes.Has(elecBus) {
      return Fail(MissingKey(elecBus));
    }
    r := nodes.Insert(PowerPlantLabel(row), Transformer(
      map[fuelBus := PlainFlow],
      map[elecBus := PlantOutflow(capacity, row.annualLimit, row.variableCosts)],
      map[elecBus := row.efficiency]));
  }

  /** `add_power_plants` */
  method AddPowerPlants(nodes: NodeDict, data: InputData) returns (r: Outcome<BuildError>)
    requires nodes.Valid()
    modifies nodes
    ensures nodes.Valid()
    ensures Reports(r, PowerPlantsSpec(old(nodes.Value()), data), nodes.Value())
    ensures Extends(old(nodes.Value()), nodes.Value())
  {
    if data.powerPlants.None? {
      return Fail(MissingTable("power plants"));
    }
    var rows := data.powerPlants.value;
    CheckElectricityBuses(nodes, PowerPlantRegions(rows));
    ghost var g0 := nodes.Value();
    var i := 0;
    while i < |rows|
      invariant 0 <= i <= |rows| && nodes.Valid()
      invariant FoldRows(g0, rows[..i], PowerPlantRule) == Success(nodes.Value())
      invariant Extends(g0, nodes.Value())
    {
      ghost var h := nodes.Value();
      FoldRowsNext(g0, rows, i, h, PowerPlantRule);
      r := AddPowerPlantRow(nodes, rows[i]);
      ExtendsTransitive(g0, h, nodes.Value());
      if r.Fail? {
        ExtendsTransitive(old(nodes.Value()), g0, nodes.Value());
        return;
      }
      i := i + 1;
    }
    assert rows[..i] == rows;
    ExtendsTransitive(old(nodes.Value()), g0, nodes.Value());
    r := Pass;
  }

  // --------------------------------------------------------- heat-chp plants

  method AddChpPart(nodes: NodeDict, row: ChpRow) returns (r: Outcome<BuildError>)
    requires nodes.Valid()
    modifies nodes
    ensures nodes.Valid()
    ensures Reports(r, AddChp(old(nodes.Value()), row), nodes.Value())
    ensures Extends(old(nodes.Value()), nodes.Value())
  {
    if !HasChp(row) {
      return Pass;
    }
    if !nodes.Has(ChpFuelBus(row)) {
      return Fail(MissingKey(ChpFuelBus(row)));
    }
    if !nodes.Has(ElectricityBusLabel(row.region)) {
      return Fail(MissingKey(ElectricityBusLabel(row.region)));
    }
    r := nodes.Insert(ChpLabel(row), ChpNode(row));
  }

  method AddHeatPlantPart(nodes: NodeDict, row: ChpRow) returns (r: Outcome<BuildError>)
    requires nodes.Valid()
    modifies nodes
    ensures nodes.Valid()
    ensures Reports(r, AddHeatPlant(old(nodes.Value()), row), nodes.Value())
    ensures Extends(old(nodes.Value()), nodes.Value())
  {
    if !HasHeatPlant(row) {
      return Pass;
    }
    if !nodes.Has(ChpFuelBus(row)) {
      return Fail(MissingKey(ChpFuelBus(row)));
    }
    r := nodes.Insert(HeatPlantLabel(row), HeatPlantNode(row));
  }

  method AddChpRow(nodes: NodeDict, row: ChpRow) returns (r: Outcome<BuildError>)
    requires nodes.Valid()
    modifies nodes
    ensures nodes.Valid()
    ensures Reports(r, ChpRule(old(nodes.Value()), row), nodes.Value())
    ensures Extends(old(nodes.Value()), nodes.Value())
  {
    ghost var g0 := nodes.Value();
    nodes.AddBusIfMissing(DistrictHeatBusLabel(row.region));
    ghost var g1 := nodes.Value();
    r := AddChpPart(nodes, row);
    ExtendsTransitive(g0, g1, nodes.Value());
    if r.Fail? {
      return;
    }
    ghost var g2 := nodes.Value();
    r := AddHeatPlantPart(nodes, row);
    ExtendsTransitive(g0, g2, nodes.Value());
  }

  /** `add_heat_and_chp_plants` */
  method AddHeatAndChpPlants(nodes: NodeDict, data: InputData) returns (r: Outcome<BuildError>)
    requires nodes.Valid()
    modifies nodes
    ensures nodes.Valid()
    ensures Reports(r, ChpPlantsSpec(old(nodes.Value()), data), nodes.Value())
    ensures Extends(old(nodes.Value()), nodes.Value())
  {
    if data.chpPlants.None? {
      return Fail(MissingTable("heat-chp plants"));
    }
    var rows := data.chpPlants.value;
    CheckElectricityBuses(nodes, ChpRegions(rows));
    ghost var g0 := nodes.Value();
    var i := 0;
    while i < |rows|
      invariant 0 <= i <= |rows| && nodes.Valid()
      invariant FoldRows(g0, rows[..i], ChpRule) == Success(nodes.Value())
      invariant Extends(g0, nodes.Value())
    {
      ghost var h := nodes.Value();
      FoldRowsNext(g0, rows, i, h, ChpRule);
      r := AddChpRow(nodes, rows[i]);
      ExtendsTransitive(g0, h, nodes.Value());
      if r.Fail? {
        ExtendsTransitive(old(nodes.Value()), g0, nodes.Value());
        return;
      }
      i := i + 1;
    }
    assert rows[..i] == rows;
    ExtendsTransitive(old(nodes.Value()), g0, nodes.Value());
    r := Pass;
  }

  // ---------------------------------------------------------------- storages

  method AddStorageRow(nodes: NodeDict, row: StorageRow) returns (r: Outcome<BuildError>)
    requires nodes.Valid()
    modifies nodes
    ensures nodes.Valid()
    ensures Reports(r, StorageRule(old(nodes.Value()), row), nodes.Value())
    ensures Extends(old(nodes.Value()), nodes.Value())
  {
    var bus := StorageBus(row);
    if !nodes.Has(bus) {
      return Fail(MissingKey(bus));
    }
    r := nodes.Insert(StorageLabel(row), Storage(bus,
      PlainFlow.(nominal := Some(row.chargeCapacity)), PlainFlow.(nominal := Some(row.dischargeCapacity)),
      row.energyContent, row.lossRate, row.chargeEfficiency, row.dischargeEfficiency));
  }

  /** `add_storages` */
  method AddStorages(nodes: NodeDict, data: InputData) returns (r: Outcome<BuildError>)
    requires nodes.Valid()
    modifies nodes
    ensures nodes.Valid()
    ensures Reports(r, StoragesSpec(old(nodes.Value()), data), nodes.Value())
    ensures Extends(old(nodes.Value()), nodes.Value())
  {
    var table := StorageTable(data);
    if table.Failure? {
      return Fail(table.error);
    }
    var rows := table.value;
    ghost var g0 := nodes.Value();
    var i := 0;
    while i < |rows|
      invariant 0 <= i <= |rows| && nodes.Valid()
      invariant FoldRows(g0, rows[..i], StorageRule) == Success(nodes.Value())
      invariant Extends(g0, nodes.Value())
    {
      ghost var h := nodes.Value();
      FoldRowsNext(g0, rows, i, h, StorageRule);
      r := AddStorageRow(nodes, rows[i]);
      ExtendsTransitive(g0, h, nodes.Value());
      if r.Fail? {
        return;
      }
      i := i + 1;
    }
    assert rows[..i] == rows;
    r := Pass;
  }

  // ------------------------------------------------------------ other demand

  method AddOtherDemandColumn(nodes: NodeDict, col: OtherDemandColumn, dr: map<seq<string>, DsmParams>) returns (r: Outcome<BuildError>)
    requires nodes.Valid()
    modifies nodes
    ensures nodes.Valid()
    ensures Reports(r, OtherDemandRule(old(nodes.Value()), col, dr), nodes.Value())
    ensures Extends(old(nodes.Value()), nodes.Value())
  {
    if Sum(col.values) > 0.0 {
      var bus := CommodityBusLabel(col.medium, col.region);
      r := AddSink(nodes, Label("other demand", col.medium, col.name, col.region), bus,
        SinkNode(bus, "other demand series", [col.region, col.medium, col.name], col.values, dr));
    } else {
      r := Pass;
    }
  }

  /** `add_other_demand` */
  method AddOtherDemand(nodes: NodeDict, data: InputData) returns (r: Outcome<BuildError>)
    requires nodes.Valid()
    modifies nodes
    ensures nodes.Valid()
    ensures Reports(r, OtherDemandSpec(old(nodes.Value()), data), nodes.Value())
    ensures Extends(old(nodes.Value()), nodes.Value())
  {
    if data.otherDemandSeries.None? {
      return Fail(MissingTable("other demand series"));
    }
    var rows := data.otherDemandSeries.value;
    ghost var g0 := nodes.Value();
    var i := 0;
    while i < |rows|
      invariant 0 <= i <= |rows| && nodes.Valid()
      invariant FoldRows(g0, rows[..i], OtherDemandStep(data.demandResponse)) == Success(nodes.Value())
      invariant Extends(g0, nodes.Value())
    {
      ghost var h := nodes.Value();
      FoldRowsNext(g0, rows, i, h, OtherDemandStep(data.demandResponse));
      r := AddOtherDemandColumn(nodes, rows[i], data.demandResponse);
      ExtendsTransitive(g0, h, nodes.Value());
      if r.Fail? {
        return;
      }
      i := i + 1;
    }
    assert rows[..i] == rows;
    r := Pass;
  }

  // -------------------------------------------------------- other converters

  method AddConverterRow(nodes: NodeDict, row: ConverterRow) returns (r: Outcome<BuildError>)
    requires nodes.Valid()
    modifies nodes
    ensures nodes.Valid()
    ensures Reports(r, ConverterRule(old(nodes.Value()), row), nodes.Value())
    ensures Extends(old(nodes.Value()), nodes.Value())
  {
    var srcBus := MediumBus(row.source, row.sourceRegion);
    var trgBus := MediumBus(row.target, row.targetRegion);
    if row.capacity <= 0.0 {
      return Pass;
    }
    var capacity := EffectiveCapacity(row.capacity, row.downtimeFactor);
    if !nodes.Has(srcBus) {
      return Fail(MissingKey(srcBus));
    }
    if !nodes.Has(trgBus) {
      return Fail(MissingKey(trgBus));
    }
    r := nodes.Insert(ConverterLabel(row), Transformer(
      map[srcBus := PlainFlow],
      map[trgBus := PlantOutflow(capacity, row.annualLimit, row.variableCosts)],
      map[trgBus := row.efficiency]));
  }

  /** `add_other_converters` */
  method AddOtherConverters(nodes: NodeDict, data: InputData) returns (r: Outcome<BuildError>)
    requires nodes.Valid()
    modifies nodes
    ensures nodes.Valid()
    ensures Reports(r, OtherConvertersSpec(old(nodes.Value()), data), nodes.Value())
    ensures Extends(old(nodes.Value()), nodes.Value())
  {
    if data.otherConverters.None? {
      return Fail(MissingTable("other converters"));
    }
    var rows := data.otherConverters.value;
    ghost var g0 := nodes.Value();
    var i := 0;
    while i < |rows|
      invariant 0 <= i <= |rows| && nodes.Valid()
      invariant FoldRows(g0, rows[..i], ConverterRule) == Success(nodes.Value())
      invariant Extends(g0, nodes.Value())
    {
      ghost var h := nodes.Value();
      FoldRowsNext(g0, rows, i, h, ConverterRule);
      r := AddConverterRow(nodes, rows[i]);
      ExtendsTransitive(g0, h, nodes.Value());
      if r.Fail? {
        return;
      }
      i := i + 1;
    }
    assert rows[..i] == rows;
    r := Pass;
  }

  // ----------------------------------------------------------------- mobility

  method AddMobilityColumn(nodes: NodeDict, col: SeriesColumn, t: seq<MobilityRow>, dr: map<seq<string>, DsmParams>) returns (r: Outcome<BuildError>)
    requires nodes.Valid()
    modifies nodes
    ensures nodes.Valid()
    ensures Reports(r, MobilityRule(old(nodes.Value()), col, t, dr), nodes.Value())
    ensures Extends(old(nodes.Value()), nodes.Value())
  {
    ghost var g0 := nodes.Value();
    var m := FindMobility(t, col.region, col.name);
    if m.None? {
      return Fail(MissingRow("mobility", [col.region, col.name]));
    }
    var bus := MobilityBusLabel(col.region, col.name);
    var fuelBus := MediumBus(m.value.source, m.value.sourceRegion);
    r := nodes.Insert(bus, Bus);
    if r.Fail? {
      return;
    }
    ghost var g1 := nodes.Value();
    if !nodes.Has(fuelBus) {
      return Fail(MissingKey(fuelBus));
    }
    r := nodes.Insert(Label("fuel converter", col.name, m.value.source, col.region),
      Transformer(map[fuelBus := PlainFlow], map[bus := PlainFlow], map[bus := m.value.efficiency]));
    ExtendsTransitive(g0, g1, nodes.Value());
    if r.Fail? {
      return;
    }
    ghost var g2 := nodes.Value();
    r := AddSink(nodes, Label("mobility demand", "mobility", col.name, col.region), bus,
      SinkNode(bus, "mobility demand series", [col.region, col.name], col.values, dr));
    ExtendsTransitive(g0, g2, nodes.Value());
  }

  /** `add_mobility` */
  method AddMobility(nodes: NodeDict, data: InputData) returns (r: Outcome<BuildError>)
    requires nodes.Valid()
    modifies nodes
    ensures nodes.Valid()
    ensures Reports(r, MobilitySpec(old(nodes.Value()), data), nodes.Value())
    ensures Extends(old(nodes.Value()), nodes.Value())
  {
    if data.mobilityDemandSeries.None? {
      return Fail(MissingTable("mobility demand series"));
    }
    if data.mobility.None? {
      return Fail(MissingTable("mobility"));
    }
    var rows := data.mobilityDemandSeries.value;
    ghost var g0 := nodes.Value();
    var i := 0;
    while i < |rows|
      invariant 0 <= i <= |rows| && nodes.Valid()
      invariant FoldRows(g0, rows[..i], MobilityStep(data.mobility.value, data.demandResponse)) == Success(nodes.Value())
      invariant Extends(g0, nodes.Value())
    {
      ghost var h := nodes.Value();
      FoldRowsNext(g0, rows, i, h, MobilityStep(data.mobility.value, data.demandResponse));
      r := AddMobilityColumn(nodes, rows[i], data.mobility.value, data.demandResponse);
      ExtendsTransitive(g0, h, nodes.Value());
      if r.Fail? {
        return;
      }
      i := i + 1;
    }
    assert rows[..i] == rows;
    r := Pass;
  }

  // ------------------------------------------------------- shortage & excess

  method AddShortageExcessBus(nodes: NodeDict, bus: Label) returns (r: Outcome<BuildError>)
    requires nodes.Valid()
    modifies nodes
    ensures nodes.Valid()
    ensures Reports(r, ShortageExcessRule(old(nodes.Value()), bus), nodes.Value())
    ensures Extends(old(nodes.Value()), nodes.Value())
  {
    if !nodes.Has(bus) {
      return Fail(MissingKey(bus));
    }
    r := nodes.Insert(ExcessLabel(bus), Sink(bus, PlainFlow));
    if r.Fail? {
      return;
    }
    ghost var g1 := nodes.Value();
    r := nodes.Insert(ShortageLabel(bus), Source(bus, PlainFlow.(variableCosts := ShortageCosts)));
    ExtendsTransitive(old(nodes.Value()), g1, nodes.Value());
  }

  /** `add_shortage_excess`: the bus keys are collected before the loop. */
  method AddShortageExcess(nodes: NodeDict) returns (r: Outcome<BuildError>)
    requires nodes.Valid()
    modifies nodes
    ensures nodes.Valid()
    ensures Reports(r, ShortageExcessSpec(old(nodes.Value())), nodes.Value())
    ensures Extends(old(nodes.Value()), nodes.Value())
  {
    var rows := BusKeys(nodes.Value());
    ghost var g0 := nodes.Value();
    var i := 0;
    while i < |rows|
      invariant 0 <= i <= |rows| && nodes.Valid()
      invariant FoldRows(g0, rows[..i], ShortageExcessRule) == Success(nodes.Value())
      invariant Extends(g0, nodes.Value())
    {
      ghost var h := nodes.Value();
      FoldRowsNext(g0, rows, i, h, ShortageExcessRule);
      r := AddShortageExcessBus(nodes, rows[i]);
      ExtendsTransitive(g0, h, nodes.Value());
      if r.Fail? {
        return;
      }
      i := i + 1;
    }
    assert rows[..i] == rows;
    r := Pass;
  }

  // -------------------------------------------------------------- all tables

  /** One line of `create_solph_nodes_from_data`: the `add_*` call of
      stage `k` when its tables are present. */
  method RunStage(nodes: NodeDict, data: InputData, k: nat) returns (r: Outcome<BuildError>)
    requires nodes.Valid() && k < StageCount
    modifies nodes
    ensures nodes.Valid()
    ensures Reports(r, StageSpec(old(nodes.Value()), data, k), nodes.Value())
    ensures r.Fail? ==> BuildFrom(old(nodes.Value()), data, k) == Failure(r.error)
    ensures r.Pass? ==> BuildFrom(old(nodes.Value()), data, k) == BuildFrom(nodes.Value(), data, k + 1)
  {
    ghost var g := nodes.Value();
    if k == 0 && (data.commoditySources.Some?) {
      r := AddCommoditySources(nodes, data);
    } else if k == 1 {
      r := AddElectricityDemand(nodes, data);
    } else if k == 2 {
      r := AddVolatileSources(nodes, data);
    } else if k == 3 && (data.powerPlants.Some?) {
      r := AddPowerPlants(nodes, data);
    } else if k == 4 && (data.decentralisedHeat.Some?) {
      r := AddDecentralisedHeatingSystems(nodes, data);
    } else if k == 5 && (data.heatDemandSeries.Some?) {
      r := AddDistrictHeatingDemand(nodes, data);
    } else if k == 6 && (data.chpPlants.Some?) {
      r := AddHeatAndChpPlants(nodes, data);
    } else if k == 7 && (data.electricityStorages.Some? || data.storages.Some?) {
      r := AddStorages(nodes, data);
    } else if k == 8 && (data.mobility.Some? && data.mobilityDemandSeries.Some?) {
      r := AddMobility(nodes, data);
    } else if k == 9 && (data.otherDemandSeries.Some?) {
      r := AddOtherDemand(nodes, data);
    } else if k == 10 && (data.otherConverters.Some?) {
      r := AddOtherConverters(nodes, data);
    } else if k == 11 && (data.powerLines.Some?) {
      r := AddTransmissionLines(nodes, data);
    } else {
      r := Pass;
    }
    Advance(g, data, k, r, nodes.Value());
  }

  /** The stages in order, stopping at the first exception: what is
      left of the build is shortage and excess. */
  method RunStages(nodes: NodeDict, data: InputData) returns (r: Outcome<BuildError>)
    requires nodes.Valid()
    modifies nodes
    ensures nodes.Valid()
    ensures r.Fail? ==> BuildSpec(old(nodes.Value()), data) == Failure(r.error)
    ensures r.Pass? ==> BuildSpec(old(nodes.Value()), data) == BuildFrom(nodes.Value(), data, StageCount)
  {
    r := Pass;
    var k := 0;
    while k < StageCount
      invariant 0 <= k <= StageCount && nodes.Valid() && r == Pass
      invariant BuildSpec(old(nodes.Value()), data) == BuildFrom(nodes.Value(), data, k)
    {
      r := RunStage(nodes, data, k);
      if r.Fail? {
        return;
      }
      k := k + 1;
    }
  }

  /** `create_solph_nodes_from_data`: the stages in order, stopping at the
      first exception, then shortage and excess for every bus. */
  method CreateNodesFromData(nodes: NodeDict, data: InputData) returns (r: Outcome<BuildError>)
    requires nodes.Valid()
    modifies nodes
    ensures nodes.Valid()
    ensures Reports(r, BuildSpec(old(nodes.Value()), data), nodes.Value())
  {
    r := RunStages(nodes, data);
    if r.Fail? {
      return;
    }
    BuildFromEnd(nodes.Value(), data);
    r := AddShortageExcess(nodes);
  }
}
