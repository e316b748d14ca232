/** The live scenario builder (src/deflex/scenario_tools/nodes.py): every
    input table has a wiring rule that inserts buses, sources, sinks,
    transformers and storages into the node registry. Each rule is stated
    as a pure function on the registry's value (`...Spec`, raising an
    exception is a `Failure`), and each `Add...` method fills a `NodeDict`
    in place, row by row, and is proved to do what the rule says. */
module ScenarioNodes {
  import opened Wrappers
  import opened Strings
  import opened Labels
  import opened NodeRegistry

  // ---------------------------------------------------------------- labels

  function ElectricityBusLabel(region: string): Label
  {
    Label("electricity", "all", "all", region)
  }

  function CommodityBusLabel(fuel: string, region: string): Label
  {
    Label("commodity", "all", fuel, region)
  }

  function DistrictHeatBusLabel(region: string): Label
  {
    Label("heat", "district", "all", region)
  }

  /** The two kinds of bus label never coincide, whatever the arguments. */
  lemma BusLabelsDiffer(r: string, f: string, s: string)
    ensures ElectricityBusLabel(r) != CommodityBusLabel(f, s)
    ensures ElectricityBusLabel(r) != DistrictHeatBusLabel(s)
    ensures CommodityBusLabel(f, r) != DistrictHeatBusLabel(s)
  {
  }

  // ------------------------------------------------------------ quantities

  /** `a / b` on floats: `None` stands for the non-finite quotient of a
      division by zero. */
  function Ratio(a: real, b: real): (r: Option<real>)
    ensures r.Some? <==> b != 0.0
    ensures r.Some? ==> r.value * b == a
  {
    if b == 0.0 then None else Some(a / b)
  }

  /** `series.sum()` */
  function Sum(s: seq<real>): real
    decreases |s|
  {
    if |s| == 0 then 0.0 else s[0] + Sum(s[1..])
  }

  /** A column of a "series" table keyed by (region, name). */
  datatype SeriesColumn = SeriesColumn(region: string, name: string, values: seq<real>)

  /** A column of the "other demand series" table keyed by (region, medium, name). */
  datatype OtherDemandColumn = OtherDemandColumn(region: string, medium: string, name: string, values: seq<real>)

  /** `table[region, name]`, `None` for a missing column or table. */
  function LookupSeries(table: Option<seq<SeriesColumn>>, region: string, name: string): (r: Option<seq<real>>)
    ensures r.Some? ==> table.Some? && exists c :: c in table.value && c.region == region && c.name == name && c.values == r.value
    ensures r.None? ==> table.None? || forall c :: c in table.value ==> c.region != region || c.name != name
  {
    match table
    case None => None
    case Some(cols) => FindSeries(cols, region, name)
  }

  function FindSeries(cols: seq<SeriesColumn>, region: string, name: string): (r: Option<seq<real>>)
    ensures r.Some? ==> exists c :: c in cols && c.region == region && c.name == name && c.values == r.value
    ensures r.None? ==> forall c :: c in cols ==> c.region != region || c.name != name
    decreases |cols|
  {
    if |cols| == 0 then None
    else if cols[0].region == region && cols[0].name == name then Some(cols[0].values)
    else FindSeries(cols[1..], region, name)
  }

  // --------------------------------------------------------------- sources

  /** The keyword parameters of `add_source`; `annualLimit` is `None` when
      absent or infinite. */
  datatype SourceParams = SourceParams(
    annualLimit: Option<real>,
    variableCosts: real,
    emission: real,
    capacity: Option<real>,
    fix: Option<seq<real>>)

  /** The output flow `add_source` gives a source, `None` when it adds no
      source at all. */
  function SourceFlow(p: SourceParams): (r: Option<Flow>)
    ensures r.None? <==> p.annualLimit.Some? && p.annualLimit.value <= 0.0
    ensures r.Some? ==> r.value.variableCosts == p.variableCosts && r.value.emission == p.emission
    ensures r.Some? && p.annualLimit.None? ==>
      r.value.nominal == p.capacity && r.value.summedMax.None? && r.value.fix == p.fix
    ensures r.Some? && p.annualLimit.Some? ==>
      r.value.nominal == p.annualLimit && r.value.summedMax == Some(1.0) && r.value.fix.None?
      && r.value.nominal.value * r.value.summedMax.value == p.annualLimit.value
  {
    match p.annualLimit
    case None => Some(Flow(p.capacity, None, p.variableCosts, p.emission, p.fix))
    case Some(limit) =>
      if limit <= 0.0 then None
      else Some(Flow(Some(limit), Some(1.0), p.variableCosts, p.emission, None))
  }

  /** `add_source`: a source feeding `bus`, unless the annual limit is not
      positive. */
  function AddSourceSpec(g: Registry, key: Label, bus: Label, p: SourceParams): (r: Result<Registry, BuildError>)
    ensures SourceFlow(p).None? ==> r == Success(g)
    ensures SourceFlow(p).Some? && bus !in g.entries ==> r == Failure(MissingKey(bus))
    ensures SourceFlow(p).Some? && bus in g.entries ==> r == Put(g, key, Source(bus, SourceFlow(p).value))
    ensures r.Success? ==> Extends(g, r.value)
  {
    match SourceFlow(p)
    case None => Success(g)
    case Some(f) => if bus !in g.entries then Failure(MissingKey(bus)) else Put(g, key, Source(bus, f))
  }

  // ----------------------------------------------------------------- sinks

  /** The index `add_sink` looks up in the "demand response" table. */
  function DsmKey(table: string, sinkSet: seq<string>): seq<string>
  {
    [table] + sinkSet + (if |sinkSet| < 3 then ["None"] else [])
  }

  /** The sink `add_sink` creates: a demand-response sink when the demand
      response table lists the column, otherwise a sink with the column as
      fixed profile and nominal value 1. */
  function SinkNode(bus: Label, table: string, sinkSet: seq<string>, series: seq<real>, dr: map<seq<string>, DsmParams>): (n: Node)
    ensures DsmKey(table, sinkSet) in dr ==> n == DsmSink(bus, series, dr[DsmKey(table, sinkSet)])
    ensures DsmKey(table, sinkSet) !in dr ==>
      (n.Sink? && n.input == bus && n.inflow.nominal == Some(1.0) && n.inflow.fix == Some(series))
  {
    var k := DsmKey(table, sinkSet);
    if k in dr then DsmSink(bus, series, dr[k]) else Sink(bus, PlainFlow.(nominal := Some(1.0), fix := Some(series)))
  }

  /** `add_sink` */
  function AddSinkSpec(g: Registry, key: Label, bus: Label, node: Node): (r: Result<Registry, BuildError>)
    ensures bus !in g.entries ==> r == Failure(MissingKey(bus))
    ensures bus in g.entries ==> r == Put(g, key, node)
    ensures r.Success? ==> Extends(g, r.value)
  {
    if bus !in g.entries then Failure(MissingKey(bus)) else Put(g, key, node)
  }

  // ---------------------------------------------------------------- tables

  /** The input tables the builder reads; `None` is a table that is not
      part of the scenario. Rows and columns are in table order. */
  datatype InputData = InputData(
    co2Price: Option<real>,
    commoditySources: Option<seq<CommodityRow>>,
    electricityDemandSeries: Option<seq<SeriesColumn>>,
    volatilePlants: Option<seq<VolatileRow>>,
    volatileSeries: Option<seq<SeriesColumn>>,
    powerPlants: Option<seq<PowerPlantRow>>,
    decentralisedHeat: Option<seq<HeatSystemRow>>,
    heatDemandSeries: Option<seq<SeriesColumn>>,
    chpPlants: Option<seq<ChpRow>>,
    electricityStorages: Option<seq<StorageRow>>,
    storages: Option<seq<StorageRow>>,
    mobility: Option<seq<MobilityRow>>,
    mobilityDemandSeries: Option<seq<SeriesColumn>>,
    otherDemandSeries: Option<seq<OtherDemandColumn>>,
    otherConverters: Option<seq<ConverterRow>>,
    powerLines: Option<seq<LineRow>>,
    demandResponse: map<seq<string>, DsmParams>)

  // ------------------------------------------------------ commodity sources

  /** A row of "commodity sources", indexed by (region, fuel);
      `annualLimit` is `None` when absent or infinite. */
  datatype CommodityRow = CommodityRow(region: string, fuel: string, emission: real, costs: real, annualLimit: Option<real>)

  /** The commodity name: the fuel with "_" read as " ". */
  function CommodityName(fuel: string): string
  {
    Replace(fuel, "_", " ")
  }

  function CommoditySourceLabel(row: CommodityRow): Label
  {
    Label("source", "commodity", CommodityName(row.fuel), row.region)
  }

  /** The variable costs of a commodity source: the emission priced at the
      co2 price plus the commodity costs. */
  function CommodityCosts(row: CommodityRow, co2Price: real): real
  {
    row.emission * co2Price + row.costs
  }

  /** One row of `add_commodity_sources`: a new commodity bus and, when the
      annual limit allows, a source feeding it whose variable costs are
      emission * co2 price + costs. */
  function CommodityRule(g: Registry, row: CommodityRow, co2Price: Option<real>): (r: Result<Registry, BuildError>)
    ensures CommodityBusLabel(CommodityName(row.fuel), row.region) in g.entries ==>
      r == Failure(DuplicateKey(CommodityBusLabel(CommodityName(row.fuel), row.region)))
    ensures r.Success? ==> Extends(g, r.value) && co2Price.Some?
    ensures r.Success? ==>
      (CommodityBusLabel(CommodityName(row.fuel), row.region) in r.value.entries
       && r.value.entries[CommodityBusLabel(CommodityName(row.fuel), row.region)] == Bus)
    ensures r.Success? ==>
      ((CommoditySourceLabel(row) in r.value.entries && CommoditySourceLabel(row) !in g.entries)
       <==> (row.annualLimit.None? || row.annualLimit.value > 0.0))
    ensures r.Success? && CommoditySourceLabel(row) !in g.entries && CommoditySourceLabel(row) in r.value.entries ==>
      var n := r.value.entries[CommoditySourceLabel(row)];
      n.Source? && n.output == CommodityBusLabel(CommodityName(row.fuel), row.region)
      && n.outflow.variableCosts == CommodityCosts(row, co2Price.value)
      && n.outflow.emission == row.emission
    ensures CommodityBusLabel(CommodityName(row.fuel), row.region) !in g.entries && co2Price.None? ==>
      r == Failure(MissingRow("general", ["co2 price"]))
    ensures
      && CommodityBusLabel(CommodityName(row.fuel), row.region) !in g.entries && co2Price.Some?
      && (row.annualLimit.None? || row.annualLimit.value > 0.0) && CommoditySourceLabel(row) in g.entries
      ==> r == Failure(DuplicateKey(CommoditySourceLabel(row)))
    ensures r.Success? ==>
      r.value.entries.Keys == g.entries.Keys + {CommodityBusLabel(CommodityName(row.fuel), row.region)}
        + (if row.annualLimit.None? || row.annualLimit.value > 0.0 then {CommoditySourceLabel(row)} else {})
  {
    var name := CommodityName(row.fuel);
    var bus := CommodityBusLabel(name, row.region);
    match Put(g, bus, Bus)
    case Failure(e) => Failure(e)
    case Success(g1) =>
      assert g1.entries == g.entries[bus := Bus];
      if co2Price.None? then Failure(MissingRow("general", ["co2 price"]))
      else
        var p := SourceParams(row.annualLimit, CommodityCosts(row, co2Price.value), row.emission, None, None);
        var r := AddSourceSpec(g1, CommoditySourceLabel(row), bus, p);
        if r.Success? then
          ExtendsTransitive(g, g1, r.value);
          r
        else r
  }

  function CommodityStep(co2Price: Option<real>): (Registry, CommodityRow) -> Result<Registry, BuildError>
  {
    (g, row) => CommodityRule(g, row, co2Price)
  }

  /** `add_commodity_sources` */
  function CommoditySourcesSpec(g: Registry, data: InputData): Result<Registry, BuildError>
  {
    if data.commoditySources.None? then Failure(MissingTable("commodity sources"))
    else FoldRows(g, data.commoditySources.value, CommodityStep(data.co2Price))
  }

  // ------------------------------------------------------- volatile sources

  /** A row of "volatile plants", indexed by (region, type). */
  datatype VolatileRow = VolatileRow(region: string, kind: string, capacity: real)

  function VolatileSourceLabel(row: VolatileRow): Label
  {
    Label("source", "volatile", row.kind, row.region)
  }

  /** One row of `add_volatile_sources`. A missing feed-in series is an
      error only for a positive capacity; the region's electricity bus is
      created when missing; a source with the capacity as nominal value and
      the series as profile is added when capacity * sum(series) > 0. */
  function VolatileRule(g: Registry, row: VolatileRow, series: Option<seq<SeriesColumn>>): (r: Result<Registry, BuildError>)
    ensures r == Failure(MissingTimeSeries(row.region, row.kind, row.capacity)) <==>
      LookupSeries(series, row.region, row.kind).None? && row.capacity > 0.0
    ensures r.Success? ==> Extends(g, r.value) && ElectricityBusLabel(row.region) in r.value.entries
    ensures r.Success? ==>
      var feedin := LookupSeries(series, row.region, row.kind).GetOr([0.0]);
      (VolatileSourceLabel(row) in r.value.entries && VolatileSourceLabel(row) !in g.entries)
      <==> row.capacity * Sum(feedin) > 0.0
    ensures r.Success? && VolatileSourceLabel(row) in r.value.entries && VolatileSourceLabel(row) !in g.entries ==>
      r.value.entries[VolatileSourceLabel(row)] ==
        Source(ElectricityBusLabel(row.region),
               Flow(Some(row.capacity), None, 0.0, 0.0, LookupSeries(series, row.region, row.kind)))
    ensures
      && (LookupSeries(series, row.region, row.kind).Some? || row.capacity <= 0.0)
      && row.capacity * Sum(LookupSeries(series, row.region, row.kind).GetOr([0.0])) > 0.0
      && VolatileSourceLabel(row) in g.entries
      ==> r == Failure(DuplicateKey(VolatileSourceLabel(row)))
    ensures r.Success? ==>
      r.value.entries.Keys == g.entries.Keys + {ElectricityBusLabel(row.region)}
        + (if row.capacity * Sum(LookupSeries(series, row.region, row.kind).GetOr([0.0])) > 0.0
           then {VolatileSourceLabel(row)} else {})
  {
    var feedin := LookupSeries(series, row.region, row.kind);
    if feedin.None? && row.capacity > 0.0 then Failure(MissingTimeSeries(row.region, row.kind, row.capacity))
    else
      var f := feedin.GetOr([0.0]);
      var bus := ElectricityBusLabel(row.region);
      var g1 := EnsureBus(g, bus);
      if row.capacity * Sum(f) > 0.0 then
        AddSourceSpec(g1, VolatileSourceLabel(row), bus, SourceParams(None, 0.0, 0.0, Some(row.capacity), Some(f)))
      else Success(g1)
  }

  function VolatileStep(series: Option<seq<SeriesColumn>>): (Registry, VolatileRow) -> Result<Registry, BuildError>
  {
    (g, row) => VolatileRule(g, row, series)
  }

  /** `add_volatile_sources` */
  function VolatileSourcesSpec(g: Registry, data: InputData): Result<Registry, BuildError>
  {
    if data.volatilePlants.None? then Failure(MissingTable("volatile plants"))
    else FoldRows(g, data.volatilePlants.value, VolatileStep(data.volatileSeries))
  }

  // ------------------------------------------------- decentralised heating

  /** A row of "decentralised heat", indexed by (region, system). */
  datatype HeatSystemRow = HeatSystemRow(region: string, system: string, efficiency: real, source: string)

  function FindHeatSystem(dh: seq<HeatSystemRow>, region: string, system: string): (r: Option<HeatSystemRow>)
    ensures r.Some? ==> r.value in dh && r.value.region == region && r.value.system == system
    ensures r.None? ==> forall h :: h in dh ==> h.region != region || h.system != system
    decreases |dh|
  {
    if |dh| == 0 then None
    else if dh[0].region == region && dh[0].system == system then Some(dh[0])
    else FindHeatSystem(dh[1..], region, system)
  }

  /** `"district heating" in str(column)` */
  predicate IsDistrictHeating(c: SeriesColumn)
  {
    Contains(c.region, "district heating") || Contains(c.name, "district heating")
  }

  /** The columns of "heat demand series" that are, or are not, district
      heating, in column order. */
  function HeatColumns(cols: seq<SeriesColumn>, district: bool): (r: seq<SeriesColumn>)
    ensures forall c :: c in r <==> c in cols && IsDistrictHeating(c) == district
    ensures |r| <= |cols|
    decreases |cols|
  {
    if |cols| == 0 then []
    else (if IsDistrictHeating(cols[0]) == district then [cols[0]] else []) + HeatColumns(cols[1..], district)
  }

  function HeatSystemBus(region: string, source: string): Label
  {
    if source == "electricity" then ElectricityBusLabel(region) else CommodityBusLabel(source, region)
  }

  /** One column of `add_decentralised_heating_systems`: a heat bus, a
      heating transformer from the source bus with the system's
      efficiency, and the demand sink on the heat bus. */
  function DecentralisedHeatRule(g: Registry, col: SeriesColumn, dh: seq<HeatSystemRow>, dr: map<seq<string>, DsmParams>): (r: Result<Registry, BuildError>)
    ensures FindHeatSystem(dh, col.region, col.name).None? ==>
      r == Failure(MissingRow("decentralised heat", [col.region, col.name]))
    ensures r.Success? ==> Extends(g, r.value)
    ensures FindHeatSystem(dh, col.region, col.name).Some? ==>
      var sys := FindHeatSystem(dh, col.region, col.name).value;
      HeatSystemOutcome(g, r, col, Replace(col.name, "_", " "), Replace(sys.source, "_", " "), sys.efficiency, dr)
  {
    match FindHeatSystem(dh, col.region, col.name)
    case None => Failure(MissingRow("decentralised heat", [col.region, col.name]))
    case Some(sys) => AddHeatSystem(g, col, Replace(col.name, "_", " "), Replace(sys.source, "_", " "), sys.efficiency, dr)
  }

  /** What adding the heating system of one column does to the registry
      `g`, with `fuel` the column's system name and `src` the system's
      source, both with blanks for underscores. An electricity source bus
      is first created when missing. A heat bus that is already there,
      a source bus that is not, or a transformer or demand label that is
      taken, raises; otherwise the heat bus, the transformer from the
      source bus with the system's efficiency, and the demand sink on the
      heat bus are added in this order, and nothing else is. */
  predicate HeatSystemOutcome(g: Registry, r: Result<Registry, BuildError>, col: SeriesColumn, fuel: string, src: string, efficiency: real, dr: map<seq<string>, DsmParams>)
  {
    var srcBus := HeatSystemBus(col.region, src);
    var g1 := if src == "electricity" then EnsureBus(g, srcBus) else g;
    var heatBus := Label("heat", "decentralised", fuel, col.region);
    var trsf := Label("decentralised heat", col.name, fuel, col.region);
    var demand := Label("heat demand", "decentralised", fuel, col.region);
    var sink := SinkNode(heatBus, "heat demand series", [col.region, col.name], col.values, dr);
    && (heatBus in g1.entries ==> r == Failure(DuplicateKey(heatBus)))
    && (heatBus !in g1.entries && srcBus !in g1.entries ==> r == Failure(MissingKey(srcBus)))
    && (heatBus !in g1.entries && srcBus in g1.entries && trsf in g1.entries ==> r == Failure(DuplicateKey(trsf)))
    && (heatBus !in g1.entries && srcBus in g1.entries && trsf !in g1.entries && demand in g1.entries ==>
          r == Failure(DuplicateKey(demand)))
    && (r.Success? <==> heatBus !in g1.entries && srcBus in g1.entries && trsf !in g1.entries && demand !in g1.entries)
    && (r.Success? ==>
          && heatBus !in g.entries
          && r.value.order == g1.order + [heatBus] + [trsf] + [demand]
          && r.value.entries.Keys == g.entries.Keys + (if src == "electricity" then {srcBus} else {}) + {heatBus, trsf, demand}
          && r.value.entries[heatBus] == Bus
          && r.value.entries[trsf] == Transformer(map[srcBus := PlainFlow], map[heatBus := PlainFlow], map[heatBus := efficiency])
          && r.value.entries[demand] == sink)
  }

  /** The source bus of a heating system and its three labels differ. */
  lemma HeatLabelsDistinct(region: string, name: string, fuel: string, src: string)
    ensures var srcBus := HeatSystemBus(region, src);
      var heatBus := Label("heat", "decentralised", fuel, region);
      var trsf := Label("decentralised heat", name, fuel, region);
      var demand := Label("heat demand", "decentralised", fuel, region);
      && srcBus != heatBus && srcBus != trsf && srcBus != demand
      && heatBus != trsf && heatBus != demand && trsf != demand
  {
    assert "heat"[0] != "decentralised heat"[0] && "heat"[0] != "electricity"[0] && "heat"[0] != "commodity"[0];
    assert "decentralised heat"[0] != "electricity"[0] && "decentralised heat"[0] != "commodity"[0];
    assert "heat demand"[0] != "electricity"[0] && "heat demand"[0] != "commodity"[0];
    assert "heat demand"[0] != "decentralised heat"[0];
    assert |"heat"| != |"heat demand"|;
  }

  /** The nodes of one column once its heating system is found. */
  function AddHeatSystem(g: Registry, col: SeriesColumn, fuel: string, src: string, efficiency: real, dr: map<seq<string>, DsmParams>): (r: Result<Registry, BuildError>)
    ensures r.Success? ==> Extends(g, r.value)
    ensures HeatSystemOutcome(g, r, col, fuel, src, efficiency, dr)
  {
    var srcBus := HeatSystemBus(col.region, src);
    var g1 := if src == "electricity" then EnsureBus(g, srcBus) else g;
    var heatBus := Label("heat", "decentralised", fuel, col.region);
    HeatLabelsDistinct(col.region, col.name, fuel, src);
    var r := PutFedBus(g1, srcBus, heatBus, Label("decentralised heat", col.name, fuel, col.region),
      Label("heat demand", "decentralised", fuel, col.region),
      Transformer(map[srcBus := PlainFlow], map[heatBus := PlainFlow], map[heatBus := efficiency]),
      SinkNode(heatBus, "heat demand series", [col.region, col.name], col.values, dr));
    HeatNodesAdded(g, g1, src == "electricity", srcBus, heatBus, Label("decentralised heat", col.name, fuel, col.region),
      Label("heat demand", "decentralised", fuel, col.region),
      Transformer(map[srcBus := PlainFlow], map[heatBus := PlainFlow], map[heatBus := efficiency]),
      SinkNode(heatBus, "heat demand series", [col.region, col.name], col.values, dr), r);
    r
  }

  /** After the source bus is ensured (or not) and the three nodes are
      stored, exactly the three labels and the ensured bus are new. */
  lemma HeatNodesAdded(g: Registry, g1: Registry, ensured: bool, srcBus: Label, heatBus: Label, trsf: Label, demand: Label,
                       transformer: Node, sink: Node, r: Result<Registry, BuildError>)
    requires g1 == (if ensured then EnsureBus(g, srcBus) else g)
    requires srcBus != heatBus && srcBus != trsf && srcBus != demand
    requires heatBus != trsf && heatBus != demand && trsf != demand
    requires r == PutFedBus(g1, srcBus, heatBus, trsf, demand, transformer, sink)
    ensures r.Success? ==>
      && Extends(g, r.value)
      && heatBus !in g.entries
      && r.value.entries.Keys == g.entries.Keys + (if ensured then {srcBus} else {}) + {heatBus, trsf, demand}
      && r.value.entries[heatBus] == Bus && r.value.entries[trsf] == transformer && r.value.entries[demand] == sink
  {
    if r.Success? {
      var h := r.value;
      ExtendsTransitive(g, g1, h);
      EnsuredKeys(g, g1, ensured, srcBus);
      ThreeStored(g1.entries, h.entries, heatBus, trsf, demand, transformer, sink);
    }
  }

  /** Storing three new labels adds exactly those keys, each with its node. */
  lemma ThreeStored(e1: map<Label, Node>, e: map<Label, Node>, heatBus: Label, trsf: Label, demand: Label,
                    transformer: Node, sink: Node)
    requires heatBus != trsf && heatBus != demand && trsf != demand
    requires e == e1[heatBus := Bus][trsf := transformer][demand := sink]
    ensures e.Keys == e1.Keys + {heatBus, trsf, demand}
    ensures e[heatBus] == Bus && e[trsf] == transformer && e[demand] == sink
  {
  }

  /** Ensuring a bus adds at most its own label to the registry's keys. */
  lemma EnsuredKeys(g: Registry, g1: Registry, ensured: bool, bus: Label)
    requires g1 == (if ensured then EnsureBus(g, bus) else g)
    ensures g1.entries.Keys == g.entries.Keys + (if ensured then {bus} else {})
  {
    if ensured && bus !in g.entries {
      assert g1.entries == g.entries[bus := Bus];
    }
  }

  /** A new bus fed by a converter from a bus that must exist, with a
      demand sink on it, stored in this order under three distinct labels
      that all differ from the feeding bus: `nodes[bus_label]`, the
      look-up of the feeding bus, `nodes[converter_label]` and `add_sink`.
      Both the decentralised heating systems and the mobility demand are
      built this way. */
  function PutFedBus(g1: Registry, srcBus: Label, heatBus: Label, trsf: Label, demand: Label, transformer: Node, sink: Node): (r: Result<Registry, BuildError>)
    requires srcBus != heatBus && srcBus != trsf && srcBus != demand
    requires heatBus != trsf && heatBus != demand && trsf != demand
    ensures heatBus in g1.entries ==> r == Failure(DuplicateKey(heatBus))
    ensures heatBus !in g1.entries && srcBus !in g1.entries ==> r == Failure(MissingKey(srcBus))
    ensures heatBus !in g1.entries && srcBus in g1.entries && trsf in g1.entries ==> r == Failure(DuplicateKey(trsf))
    ensures heatBus !in g1.entries && srcBus in g1.entries && trsf !in g1.entries && demand in g1.entries ==>
      r == Failure(DuplicateKey(demand))
    ensures r.Success? <==> heatBus !in g1.entries && srcBus in g1.entries && trsf !in g1.entries && demand !in g1.entries
    ensures r.Success? ==>
      && r.value.order == g1.order + [heatBus] + [trsf] + [demand]
      && r.value.entries == g1.entries[heatBus := Bus][trsf := transformer][demand := sink]
      && Extends(g1, r.value)
  {
    match Put(g1, heatBus, Bus)
    case Failure(e) => Failure(e)
    case Success(g2) =>
      assert g2 == Registry(g1.order + [heatBus], g1.entries[heatBus := Bus]);
      if srcBus !in g2.entries then Failure(MissingKey(srcBus))
      else
        match Put(g2, trsf, transformer)
        case Failure(e) => Failure(e)
        case Success(g3) =>
          assert g3 == Registry(g2.order + [trsf], g2.entries[trsf := transformer]);
          ExtendsTransitive(g1, g2, g3);
          var r := AddSinkSpec(g3, demand, heatBus, sink);
          if r.Failure? then r
          else
            ExtendsTransitive(g1, g3, r.value);
            r
  }

  function DecentralisedHeatStep(dh: seq<HeatSystemRow>, dr: map<seq<string>, DsmParams>): (Registry, SeriesColumn) -> Result<Registry, BuildError>
  {
    (g, col) => DecentralisedHeatRule(g, col, dh, dr)
  }

  /** `add_decentralised_heating_systems` */
  function DecentralisedHeatSpec(g: Registry, data: InputData): Result<Registry, BuildError>
  {
    if data.heatDemandSeries.None? then Failure(MissingTable("heat demand series"))
    else if data.decentralisedHeat.None? then Failure(MissingTable("decentralised heat"))
    else FoldRows(g, HeatColumns(data.heatDemandSeries.value, false),
                  DecentralisedHeatStep(data.decentralisedHeat.value, data.demandResponse))
  }

  // ------------------------------------------------------ electricity demand

  /** One column of `add_electricity_demand`: for a positive total, the
      region's electricity bus (created when missing) and a demand sink. */
  function ElectricityDemandRule(g: Registry, col: SeriesColumn, dr: map<seq<string>, DsmParams>): (r: Result<Registry, BuildError>)
    ensures Sum(col.values) <= 0.0 ==> r == Success(g)
    ensures r.Success? ==> Extends(g, r.value)
    ensures r.Success? && Sum(col.values) > 0.0 ==>
      var bus := ElectricityBusLabel(col.region);
      var sink := Label("electricity demand", "electricity", col.name, col.region);
      && bus in r.value.entries
      && sink !in g.entries && sink in r.value.entries
      && r.value.entries[sink] == SinkNode(bus, "electricity demand series", [col.region, col.name], col.values, dr)
    ensures Sum(col.values) > 0.0 ==>
      var bus := ElectricityBusLabel(col.region);
      var sink := Label("electricity demand", "electricity", col.name, col.region);
      && (sink in g.entries ==> r == Failure(DuplicateKey(sink)))
      && (sink !in g.entries ==> r.Success? && r.value.entries.Keys == g.entries.Keys + {bus, sink})
  {
    if Sum(col.values) > 0.0 then
      var bus := ElectricityBusLabel(col.region);
      var g1 := EnsureBus(g, bus);
      AddSinkSpec(g1, Label("electricity demand", "electricity", col.name, col.region), bus,
        SinkNode(bus, "electricity demand series", [col.region, col.name], col.values, dr))
    else Success(g)
  }

  function ElectricityDemandStep(dr: map<seq<string>, DsmParams>): (Registry, SeriesColumn) -> Result<Registry, BuildError>
  {
    (g, col) => ElectricityDemandRule(g, col, dr)
  }

  /** `add_electricity_demand` */
  function ElectricityDemandSpec(g: Registry, data: InputData): Result<Registry, BuildError>
  {
    if data.electricityDemandSeries.None? then Failure(MissingTable("electricity demand series"))
    else FoldRows(g, data.electricityDemandSeries.value, ElectricityDemandStep(data.demandResponse))
  }

  // -------------------------------------------------- district heating demand

  /** One column of `add_district_heating_demand`. */
  function DistrictHeatingRule(g: Registry, col: SeriesColumn, dr: map<seq<string>, DsmParams>): (r: Result<Registry, BuildError>)
    ensures Sum(col.values) <= 0.0 ==> r == Success(g)
    ensures r.Success? ==> Extends(g, r.value)
    ensures r.Success? && Sum(col.values) > 0.0 ==>
      var bus := DistrictHeatBusLabel(col.region);
      var sink := Label("heat demand", "district", "all", col.region);
      && bus in r.value.entries
      && sink !in g.entries && sink in r.value.entries
      && r.value.entries[sink] == SinkNode(bus, "heat demand series", [col.region, col.name], col.values, dr)
    ensures Sum(col.values) > 0.0 ==>
      var bus := DistrictHeatBusLabel(col.region);
      var sink := Label("heat demand", "district", "all", col.region);
      && (sink in g.entries ==> r == Failure(DuplicateKey(sink)))
      && (sink !in g.entries ==> r.Success? && r.value.entries.Keys == g.entries.Keys + {bus, sink})
  {
    if Sum(col.values) > 0.0 then
      var bus := DistrictHeatBusLabel(col.region);
      var g1 := EnsureBus(g, bus);
      AddSinkSpec(g1, Label("heat demand", "district", "all", col.region), bus,
        SinkNode(bus, "heat demand series", [col.region, col.name], col.values, dr))
    else Success(g)
  }

  function DistrictHeatingStep(dr: map<seq<string>, DsmParams>): (Registry, SeriesColumn) -> Result<Registry, BuildError>
  {
    (g, col) => DistrictHeatingRule(g, col, dr)
  }

  /** `add_district_heating_demand` */
  function DistrictHeatingSpec(g: Registry, data: InputData): Result<Registry, BuildError>
  {
    if data.heatDemandSeries.None? then Failure(MissingTable("heat demand series"))
    else FoldRows(g, HeatColumns(data.heatDemandSeries.value, true), DistrictHeatingStep(data.demandResponse))
  }

  // ------------------------------------------------------------ power lines

  /** A row of "power lines", indexed by "A-B"; `capacity` is `None` when
      infinite. */
  datatype LineRow = LineRow(name: string, capacity: Option<real>, efficiency: real)

  function LineLabel(from: string, to: string): Label
  {
    Label("line", "electricity", from, to)
  }

  /** The transformer of one direction of a line. */
  function LineNode(from: string, to: string, row: LineRow): Node
  {
    Transformer(
      map[ElectricityBusLabel(from) := PlainFlow],
      map[ElectricityBusLabel(to) := PlainFlow.(nominal := row.capacity)],
      map[ElectricityBusLabel(to) := row.efficiency])
  }

  /** One direction of a power line: both buses must exist, the in-bus is
      checked first. */
  function LineDirectionRule(g: Registry, from: string, to: string, row: LineRow): (r: Result<Registry, BuildError>)
    ensures ElectricityBusLabel(from) !in g.entries ==>
      r == Failure(MissingLineBus(ElectricityBusLabel(from), ElectricityBusLabel(to)))
    ensures ElectricityBusLabel(from) in g.entries && ElectricityBusLabel(to) !in g.entries ==>
      r == Failure(MissingLineBus(ElectricityBusLabel(to), ElectricityBusLabel(from)))
    ensures ElectricityBusLabel(from) in g.entries && ElectricityBusLabel(to) in g.entries ==>
      r == Put(g, LineLabel(from, to), LineNode(from, to, row))
    ensures r.Success? ==> Extends(g, r.value)
  {
    var busIn := ElectricityBusLabel(from);
    var busOut := ElectricityBusLabel(to);
    if busIn !in g.entries then Failure(MissingLineBus(busIn, busOut))
    else if busOut !in g.entries then Failure(MissingLineBus(busOut, busIn))
    else Put(g, LineLabel(from, to), LineNode(from, to, row))
  }

  /** One row of `add_transmission_lines_between_electricity_nodes`: the
      name must split into exactly two regions A and B; then the
      transformer A->B and the transformer B->A are added. */
  function LineRule(g: Registry, row: LineRow): (r: Result<Registry, BuildError>)
    ensures |Split(row.name, '-')| != 2 ==> r == Failure(MalformedLineName(row.name))
    ensures r.Success? ==> Extends(g, r.value)
    ensures r.Success? ==>
      var parts := Split(row.name, '-');
      && |parts| == 2
      && LineLabel(parts[0], parts[1]) !in g.entries
      && LineLabel(parts[1], parts[0]) !in g.entries
      && r.value.entries == g.entries[LineLabel(parts[0], parts[1]) := LineNode(parts[0], parts[1], row)]
                                     [LineLabel(parts[1], parts[0]) := LineNode(parts[1], parts[0], row)]
  {
    var parts := Split(row.name, '-');
    if |parts| != 2 then Failure(MalformedLineName(row.name))
    else
      var a, b := parts[0], parts[1];
      match LineDirectionRule(g, a, b, row)
      case Failure(e) => Failure(e)
      case Success(g1) =>
        assert g1.entries == g.entries[LineLabel(a, b) := LineNode(a, b, row)];
        var r := LineDirectionRule(g1, b, a, row);
        if r.Success? then
          assert r.value.entries == g1.entries[LineLabel(b, a) := LineNode(b, a, row)];
          ExtendsTransitive(g, g1, r.value);
          r
        else r
  }

  /** `add_transmission_lines_between_electricity_nodes` */
  function PowerLinesSpec(g: Registry, data: InputData): Result<Registry, BuildError>
  {
    if data.powerLines.None? then Failure(MissingTable("power lines"))
    else FoldRows(g, data.powerLines.value, LineRule)
  }

  // ------------------------------------------------------------ power plants

  /** A row of "power plants", indexed by (region, name). The optional
      columns `downtime_factor`, "annual electricity limit" and
      `variable_costs` are `None` when absent (the limit also when
      infinite). */
  datatype PowerPlantRow = PowerPlantRow(
    region: string,
    name: string,
    fuel: string,
    sourceRegion: string,
    capacity: real,
    efficiency: real,
    downtimeFactor: Option<real>,
    annualLimit: Option<real>,
    variableCosts: Option<real>)

  /** The capacity reduced by the downtime factor when there is one. */
  function EffectiveCapacity(capacity: real, downtimeFactor: Option<real>): real
  {
    match downtimeFactor
    case None => capacity
    case Some(d) => capacity * (1.0 - d)
  }

  /** The output flow of a plant: nominal value = capacity and, for a
      finite annual limit, summed_max = limit / capacity, so that the two
      multiply to the limit. */
  function PlantOutflow(capacity: real, annualLimit: Option<real>, variableCosts: Option<real>): (f: Flow)
    ensures f.nominal == Some(capacity) && f.variableCosts == variableCosts.GetOr(0.0)
    ensures annualLimit.None? ==> f.summedMax.None?
    ensures annualLimit.Some? && capacity != 0.0 ==>
      f.summedMax.Some? && f.nominal.value * f.summedMax.value == annualLimit.value
  {
    var smax := if annualLimit.None? then None else Ratio(annualLimit.value, capacity);
    Flow(Some(capacity), smax, variableCosts.GetOr(0.0), 0.0, None)
  }

  /** `idx[1].replace(" - ", "_").replace(".", "")` */
  function PlantName(name: string): string
  {
    Replace(Replace(name, " - ", "_"), ".", "")
  }

  function PowerPlantLabel(row: PowerPlantRow): Label
  {
    Label("power plant", PlantName(row.name), row.fuel, row.region)
  }

  /** A 1x1 transformer from `input` to `output` whose output flow has the
      given nominal value and annual limit. */
  ghost predicate WiredConverter(n: Node, input: Label, output: Label, capacity: real, efficiency: real, annualLimit: Option<real>)
  {
    && n.Transformer?
    && n.inputs.Keys == {input} && n.outputs.Keys == {output}
    && output in n.conversion && n.conversion[output] == efficiency
    && n.outputs[output].nominal == Some(capacity)
    && (annualLimit.None? ==> n.outputs[output].summedMax.None?)
    && (annualLimit.Some? && capacity != 0.0 ==>
          n.outputs[output].summedMax.Some? && capacity * n.outputs[output].summedMax.value == annualLimit.value)
  }

  /** One row of `add_power_plants`: nothing for a capacity that is not
      positive; otherwise a transformer from the commodity bus (fuel,
      source region), which must exist, to the region's electricity bus,
      with the downtime-reduced capacity. */
  function PowerPlantRule(g: Registry, row: PowerPlantRow): (r: Result<Registry, BuildError>)
    ensures row.capacity <= 0.0 ==> r == Success(g)
    ensures row.capacity > 0.0 && CommodityBusLabel(row.fuel, row.sourceRegion) !in g.entries ==>
      r == Failure(MissingKey(CommodityBusLabel(row.fuel, row.sourceRegion)))
    ensures r.Success? ==> Extends(g, r.value)
    ensures r.Success? && row.capacity > 0.0 ==>
      && PowerPlantLabel(row) !in g.entries && PowerPlantLabel(row) in r.value.entries
      && r.value.entries == g.entries[PowerPlantLabel(row) := r.value.entries[PowerPlantLabel(row)]]
      && WiredConverter(r.value.entries[PowerPlantLabel(row)],
           CommodityBusLabel(row.fuel, row.sourceRegion), ElectricityBusLabel(row.region),
           EffectiveCapacity(row.capacity, row.downtimeFactor), row.efficiency, row.annualLimit)
  {
    if row.capacity <= 0.0 then Success(g)
    else
      var capacity := EffectiveCapacity(row.capacity, row.downtimeFactor);
      var fuelBus := CommodityBusLabel(row.fuel, row.sourceRegion);
      var elecBus := ElectricityBusLabel(row.region);
      if fuelBus !in g.entries then Failure(MissingKey(fuelBus))
      else if elecBus !in g.entries then Failure(MissingKey(elecBus))
      else
        Put(g, PowerPlantLabel(row), Transformer(
          map[fuelBus := PlainFlow],
          map[elecBus := PlantOutflow(capacity, row.annualLimit, row.variableCosts)],
          map[elecBus := row.efficiency]))
  }

  /** `check_electricity_buses`: an electricity bus for every listed region. */
  function EnsureElectricityBuses(g: Registry, regions: seq<string>): (r: Registry)
    ensures Extends(g, r)
    ensures forall reg :: reg in regions ==> ElectricityBusLabel(reg) in r.entries
    ensures forall k :: k in r.entries && k !in g.entries ==>
      r.entries[k] == Bus && exists reg :: reg in regions && k == ElectricityBusLabel(reg)
    decreases |regions|
  {
    if |regions| == 0 then g
    else
      var r := EnsureElectricityBuses(EnsureBus(g, ElectricityBusLabel(regions[0])), regions[1..]);
      ExtendsTransitive(g, EnsureBus(g, ElectricityBusLabel(regions[0])), r);
      r
  }

  function PowerPlantRegions(rows: seq<PowerPlantRow>): (r: seq<string>)
    ensures |r| == |rows| && forall i :: 0 <= i < |rows| ==> r[i] == rows[i].region
  {
    seq(|rows|, i requires 0 <= i < |rows| => rows[i].region)
  }

  /** `add_power_plants` */
  function PowerPlantsSpec(g: Registry, data: InputData): Result<Registry, BuildError>
  {
    if data.powerPlants.None? then Failure(MissingTable("power plants"))
    else FoldRows(EnsureElectricityBuses(g, PowerPlantRegions(data.powerPlants.value)), data.powerPlants.value, PowerPlantRule)
  }

  // --------------------------------------------------------- heat-chp plants

  /** A row of "heat-chp plants", indexed by (region, name). A capacity is
      `None` when its column is absent. */
  datatype ChpRow = ChpRow(
    region: string,
    name: string,
    fuel: string,
    sourceRegion: string,
    capacityHeatChp: Option<real>,
    efficiencyHeatChp: real,
    efficiencyElecChp: real,
    limitHeatChp: real,
    capacityHp: Option<real>,
    efficiencyHp: real,
    limitHp: real)

  function ChpFuelBus(row: ChpRow): Label
  {
    if row.fuel != "electricity" then CommodityBusLabel(row.fuel, row.sourceRegion)
    else ElectricityBusLabel(row.region)
  }

  function ChpLabel(row: ChpRow): Label
  {
    Label("chp plant", row.name, Replace(row.fuel, "_", " "), row.region)
  }

  function HeatPlantLabel(row: ChpRow): Label
  {
    Label("heat plant", row.name, Replace(row.fuel, "_", " "), row.region)
  }

  predicate HasChp(row: ChpRow)
  {
    row.capacityHeatChp.Some? && row.capacityHeatChp.value > 0.0
  }

  predicate HasHeatPlant(row: ChpRow)
  {
    row.capacityHp.Some? && row.capacityHp.value > 0.0
  }

  /** The CHP transformer: one fuel input whose nominal value is the heat
      capacity over the heat efficiency and whose summed_max is the heat
      limit over the heat capacity; electricity and district heat out. */
  function ChpNode(row: ChpRow): Node
    requires HasChp(row)
  {
    var cap := row.capacityHeatChp.value;
    var elecBus := ElectricityBusLabel(row.region);
    var heatBus := DistrictHeatBusLabel(row.region);
    Transformer(
      map[ChpFuelBus(row) := PlainFlow.(nominal := Ratio(cap, row.efficiencyHeatChp), summedMax := Some(row.limitHeatChp / cap))],
      map[elecBus := PlainFlow, heatBus := PlainFlow],
      map[elecBus := row.efficiencyElecChp, heatBus := row.efficiencyHeatChp])
  }

  /** The heat plant: fuel in, district heat out with nominal value = heat
      plant capacity and summed_max = limit / capacity. */
  function HeatPlantNode(row: ChpRow): Node
    requires HasHeatPlant(row)
  {
    var cap := row.capacityHp.value;
    var heatBus := DistrictHeatBusLabel(row.region);
    Transformer(
      map[ChpFuelBus(row) := PlainFlow],
      map[heatBus := PlainFlow.(nominal := Some(cap), summedMax := Some(row.limitHp / cap))],
      map[heatBus := row.efficiencyHp])
  }

  /** The CHP's fuel flow allows exactly the fuel the heat limit needs:
      nominal value * summed_max = heat limit / heat efficiency. */
  lemma ChpFuelLimit(row: ChpRow)
    requires HasChp(row) && row.efficiencyHeatChp != 0.0
    ensures var f := ChpNode(row).inputs[ChpFuelBus(row)];
      f.nominal.Some? && f.summedMax.Some?
      && f.nominal.value * f.summedMax.value == row.limitHeatChp / row.efficiencyHeatChp
  {
    var cap := row.capacityHeatChp.value;
    var eff := row.efficiencyHeatChp;
    calc {
      (cap / eff) * (row.limitHeatChp / cap);
      (cap * row.limitHeatChp) / (eff * cap);
      row.limitHeatChp / eff;
    }
  }

  /** The CHP part of a row: with heat capacity, the CHP transformer,
      whose fuel bus and electricity bus must exist. */
  function AddChp(g: Registry, row: ChpRow): (r: Result<Registry, BuildError>)
    ensures !HasChp(row) ==> r == Success(g)
    ensures HasChp(row) && ChpFuelBus(row) !in g.entries ==> r == Failure(MissingKey(ChpFuelBus(row)))
    ensures r.Success? ==> Extends(g, r.value)
    ensures r.Success? && HasChp(row) ==>
      ChpLabel(row) !in g.entries && r.value.entries == g.entries[ChpLabel(row) := ChpNode(row)]
  {
    if !HasChp(row) then Success(g)
    else if ChpFuelBus(row) !in g.entries then Failure(MissingKey(ChpFuelBus(row)))
    else if ElectricityBusLabel(row.region) !in g.entries then Failure(MissingKey(ElectricityBusLabel(row.region)))
    else Put(g, ChpLabel(row), ChpNode(row))
  }

  /** The heat-plant part of a row: with heat-plant capacity, the heat
      plant, whose fuel bus must exist. */
  function AddHeatPlant(g: Registry, row: ChpRow): (r: Result<Registry, BuildError>)
    ensures !HasHeatPlant(row) ==> r == Success(g)
    ensures HasHeatPlant(row) && ChpFuelBus(row) !in g.entries ==> r == Failure(MissingKey(ChpFuelBus(row)))
    ensures r.Success? ==> Extends(g, r.value)
    ensures r.Success? && HasHeatPlant(row) ==>
      HeatPlantLabel(row) !in g.entries && r.value.entries == g.entries[HeatPlantLabel(row) := HeatPlantNode(row)]
  {
    if !HasHeatPlant(row) then Success(g)
    else if ChpFuelBus(row) !in g.entries then Failure(MissingKey(ChpFuelBus(row)))
    else Put(g, HeatPlantLabel(row), HeatPlantNode(row))
  }

  /** One row of `add_heat_and_chp_plants`: the region's district heat bus
      (created when missing), then a CHP if it has heat capacity and a heat
      plant if it has heat-plant capacity. */
  function ChpRule(g: Registry, row: ChpRow): (r: Result<Registry, BuildError>)
    ensures r.Success? ==> Extends(g, r.value) && DistrictHeatBusLabel(row.region) in r.value.entries
    ensures r.Success? && HasChp(row) ==>
      ChpLabel(row) !in g.entries && ChpLabel(row) in r.value.entries && r.value.entries[ChpLabel(row)] == ChpNode(row)
    ensures r.Success? && HasHeatPlant(row) ==>
      HeatPlantLabel(row) !in g.entries && HeatPlantLabel(row) in r.value.entries
      && r.value.entries[HeatPlantLabel(row)] == HeatPlantNode(row)
    ensures !HasChp(row) && !HasHeatPlant(row) ==> r == Success(EnsureBus(g, DistrictHeatBusLabel(row.region)))
    ensures (HasChp(row) || HasHeatPlant(row)) && ChpFuelBus(row) !in g.entries ==>
      r == Failure(MissingKey(ChpFuelBus(row)))
    ensures HasChp(row) && ChpFuelBus(row) in g.entries && ElectricityBusLabel(row.region) !in g.entries ==>
      r == Failure(MissingKey(ElectricityBusLabel(row.region)))
    ensures r.Success? <==>
      && (HasChp(row) ==> ChpFuelBus(row) in g.entries && ElectricityBusLabel(row.region) in g.entries && ChpLabel(row) !in g.entries)
      && (HasHeatPlant(row) ==> ChpFuelBus(row) in g.entries && HeatPlantLabel(row) !in g.entries)
    ensures r.Success? ==>
      r.value.entries.Keys == g.entries.Keys + {DistrictHeatBusLabel(row.region)}
        + (if HasChp(row) then {ChpLabel(row)} else {})
        + (if HasHeatPlant(row) then {HeatPlantLabel(row)} else {})
    ensures r.Success? && !HasChp(row) ==> (ChpLabel(row) in r.value.entries <==> ChpLabel(row) in g.entries)
    ensures r.Success? && !HasHeatPlant(row) ==> (HeatPlantLabel(row) in r.value.entries <==> HeatPlantLabel(row) in g.entries)
  {
    var g1 := EnsureBus(g, DistrictHeatBusLabel(row.region));
    var g2 :- AddChp(g1, row);
    var g3 :- AddHeatPlant(g2, row);
    ExtendsTransitive(g, g1, g2);
    ExtendsTransitive(g, g2, g3);
    assert HasChp(row) ==> ChpLabel(row) in g2.entries;
    Success(g3)
  }

  function ChpRegions(rows: seq<ChpRow>): (r: seq<string>)
    ensures |r| == |rows| && forall i :: 0 <= i < |rows| ==> r[i] == rows[i].region
  {
    seq(|rows|, i requires 0 <= i < |rows| => rows[i].region)
  }

  /** `add_heat_and_chp_plants` */
  function ChpPlantsSpec(g: Registry, data: InputData): Result<Registry, BuildError>
  {
    if data.chpPlants.None? then Failure(MissingTable("heat-chp plants"))
    else FoldRows(EnsureElectricityBuses(g, ChpRegions(data.chpPlants.value)), data.chpPlants.value, ChpRule)
  }

  // ---------------------------------------------------------------- storages

  /** A row of "storages" (or of the deprecated "electricity storages"),
      indexed by (region, name). */
  datatype StorageRow = StorageRow(
    region: string,
    name: string,
    medium: string,
    chargeCapacity: real,
    dischargeCapacity: real,
    energyContent: real,
    lossRate: real,
    chargeEfficiency: real,
    dischargeEfficiency: real)

  /** The storage table `add_storages` uses: both tables at once are an
      error; the deprecated table has its medium set to electricity. */
  function StorageTable(data: InputData): (r: Result<seq<StorageRow>, BuildError>)
    ensures r.Failure? <==> data.electricityStorages.Some? && data.storages.Some?
    ensures r.Success? && data.electricityStorages.Some? ==>
      |r.value| == |data.electricityStorages.value|
      && forall i :: 0 <= i < |r.value| ==>
           r.value[i] == data.electricityStorages.value[i].(medium := "electricity")
    ensures r.Success? && data.electricityStorages.None? ==> r.value == data.storages.GetOr([])
  {
    if data.electricityStorages.Some? && data.storages.Some? then Failure(ConflictingStorageTables)
    else if data.electricityStorages.Some? then
      var t := data.electricityStorages.value;
      Success(seq(|t|, i requires 0 <= i < |t| => t[i].(medium := "electricity")))
    else Success(data.storages.GetOr([]))
  }

  function StorageBus(row: StorageRow): Label
  {
    if row.medium == "electricity" then ElectricityBusLabel(row.region) else CommodityBusLabel(row.medium, row.region)
  }

  function StorageLabel(row: StorageRow): Label
  {
    Label("storage", row.medium, row.name, row.region)
  }

  /** One row of `add_storages`: a storage charging from and discharging to
      the bus of its medium, which must exist. */
  function StorageRule(g: Registry, row: StorageRow): (r: Result<Registry, BuildError>)
    ensures StorageBus(row) !in g.entries ==> r == Failure(MissingKey(StorageBus(row)))
    ensures r.Success? ==> Extends(g, r.value)
    ensures r.Success? ==>
      StorageLabel(row) !in g.entries
      && r.value.entries == g.entries[StorageLabel(row) := Storage(StorageBus(row),
           PlainFlow.(nominal := Some(row.chargeCapacity)), PlainFlow.(nominal := Some(row.dischargeCapacity)),
           row.energyContent, row.lossRate, row.chargeEfficiency, row.dischargeEfficiency)]
  {
    var bus := StorageBus(row);
    if bus !in g.entries then Failure(MissingKey(bus))
    else
      Put(g, StorageLabel(row), Storage(bus,
        PlainFlow.(nominal := Some(row.chargeCapacity)), PlainFlow.(nominal := Some(row.dischargeCapacity)),
        row.energyContent, row.lossRate, row.chargeEfficiency, row.dischargeEfficiency))
  }

  /** `add_storages` */
  function StoragesSpec(g: Registry, data: InputData): Result<Registry, BuildError>
  {
    var table :- StorageTable(data);
    FoldRows(g, table, StorageRule)
  }

  // ------------------------------------------------------------ other demand

  /** One column of `add_other_demand`: for a positive total, a demand sink
      on the commodity bus of its medium, which must exist. */
  function OtherDemandRule(g: Registry, col: OtherDemandColumn, dr: map<seq<string>, DsmParams>): (r: Result<Registry, BuildError>)
    ensures Sum(col.values) <= 0.0 ==> r == Success(g)
    ensures Sum(col.values) > 0.0 && CommodityBusLabel(col.medium, col.region) !in g.entries ==>
      r == Failure(MissingKey(CommodityBusLabel(col.medium, col.region)))
    ensures r.Success? ==> Extends(g, r.value)
    ensures r.Success? && Sum(col.values) > 0.0 ==>
      var sink := Label("other demand", col.medium, col.name, col.region);
      sink !in g.entries
      && r.value.entries == g.entries[sink := SinkNode(CommodityBusLabel(col.medium, col.region),
           "other demand series", [col.region, col.medium, col.name], col.values, dr)]
  {
    if Sum(col.values) > 0.0 then
      var bus := CommodityBusLabel(col.medium, col.region);
      AddSinkSpec(g, Label("other demand", col.medium, col.name, col.region), bus,
        SinkNode(bus, "other demand series", [col.region, col.medium, col.name], col.values, dr))
    else Success(g)
  }

  function OtherDemandStep(dr: map<seq<string>, DsmParams>): (Registry, OtherDemandColumn) -> Result<Registry, BuildError>
  {
    (g, col) => OtherDemandRule(g, col, dr)
  }

  /** `add_other_demand` */
  function OtherDemandSpec(g: Registry, data: InputData): Result<Registry, BuildError>
  {
    if data.otherDemandSeries.None? then Failure(MissingTable("other demand series"))
    else FoldRows(g, data.otherDemandSeries.value, OtherDemandStep(data.demandResponse))
  }

  // -------------------------------------------------------- other converters

  /** A row of "other converters", indexed by (region, name). */
  datatype ConverterRow = ConverterRow(
    region: string,
    name: string,
    source: string,
    sourceRegion: string,
    target: string,
    targetRegion: string,
    capacity: real,
    efficiency: real,
    downtimeFactor: Option<real>,
    annualLimit: Option<real>,
    variableCosts: Option<real>)

  /** The bus of a medium in a region: the electricity bus for
      "electricity", the commodity bus otherwise. */
  function MediumBus(medium: string, region: string): Label
  {
    if medium == "electricity" then ElectricityBusLabel(region) else CommodityBusLabel(medium, region)
  }

  function ConverterLabel(row: ConverterRow): Label
  {
    Label("other converter", PlantName(row.name), row.source, row.region)
  }

  /** One row of `add_other_converters`: as a power plant, between the
      buses of the source and the target medium. */
  function ConverterRule(g: Registry, row: ConverterRow): (r: Result<Registry, BuildError>)
    ensures row.capacity <= 0.0 ==> r == Success(g)
    ensures row.capacity > 0.0 && MediumBus(row.source, row.sourceRegion) !in g.entries ==>
      r == Failure(MissingKey(MediumBus(row.source, row.sourceRegion)))
    ensures r.Success? ==> Extends(g, r.value)
    ensures r.Success? && row.capacity > 0.0 ==>
      && ConverterLabel(row) !in g.entries && ConverterLabel(row) in r.value.entries
      && r.value.entries == g.entries[ConverterLabel(row) := r.value.entries[ConverterLabel(row)]]
      && WiredConverter(r.value.entries[ConverterLabel(row)],
           MediumBus(row.source, row.sourceRegion), MediumBus(row.target, row.targetRegion),
           EffectiveCapacity(row.capacity, row.downtimeFactor), row.efficiency, row.annualLimit)
  {
    if row.capacity <= 0.0 then Success(g)
    else
      var capacity := EffectiveCapacity(row.capacity, row.downtimeFactor);
      var srcBus := MediumBus(row.source, row.sourceRegion);
      var trgBus := MediumBus(row.target, row.targetRegion);
      if srcBus !in g.entries then Failure(MissingKey(srcBus))
      else if trgBus !in g.entries then Failure(MissingKey(trgBus))
      else
        Put(g, ConverterLabel(row), Transformer(
          map[srcBus := PlainFlow],
          map[trgBus := PlantOutflow(capacity, row.annualLimit, row.variableCosts)],
          map[trgBus := row.efficiency]))
  }

  /** `add_other_converters` */
  function OtherConvertersSpec(g: Registry, data: InputData): Result<Registry, BuildError>
  {
    if data.otherConverters.None? then Failure(MissingTable("other converters"))
    else FoldRows(g, data.otherConverters.value, ConverterRule)
  }

  // ----------------------------------------------------------------- mobility

  /** A row of "mobility", indexed by (region, name). */
  datatype MobilityRow = MobilityRow(region: string, name: string, source: string, sourceRegion: string, efficiency: real)

  function FindMobility(t: seq<MobilityRow>, region: string, name: string): (r: Option<MobilityRow>)
    ensures r.Some? ==> r.value in t && r.value.region == region && r.value.name == name
    ensures r.None? ==> forall m :: m in t ==> m.region != region || m.name != name
    decreases |t|
  {
    if |t| == 0 then None
    else if t[0].region == region && t[0].name == name then Some(t[0])
    else FindMobility(t[1..], region, name)
  }

  function MobilityBusLabel(region: string, name: string): Label
  {
    Label("mobility", "all", name, region)
  }

  /** One column of `add_mobility`: a new mobility bus, a fuel converter
      into it from the bus of its source, and the demand sink on it. */
  function MobilityRule(g: Registry, col: SeriesColumn, t: seq<MobilityRow>, dr: map<seq<string>, DsmParams>): (r: Result<Registry, BuildError>)
    ensures FindMobility(t, col.region, col.name).None? ==> r == Failure(MissingRow("mobility", [col.region, col.name]))
    ensures FindMobility(t, col.region, col.name).Some? && MobilityBusLabel(col.region, col.name) in g.entries ==>
      r == Failure(DuplicateKey(MobilityBusLabel(col.region, col.name)))
    ensures r.Success? ==> Extends(g, r.value)
    ensures r.Success? ==>
      var m := FindMobility(t, col.region, col.name).value;
      var bus := MobilityBusLabel(col.region, col.name);
      && bus in r.value.entries && r.value.entries[bus] == Bus
      && Label("fuel converter", col.name, m.source, col.region) in r.value.entries
      && r.value.entries[Label("fuel converter", col.name, m.source, col.region)] ==
           Transformer(map[MediumBus(m.source, m.sourceRegion) := PlainFlow], map[bus := PlainFlow], map[bus := m.efficiency])
      && Label("mobility demand", "mobility", col.name, col.region) in r.value.entries
      && r.value.entries[Label("mobility demand", "mobility", col.name, col.region)] ==
           SinkNode(bus, "mobility demand series", [col.region, col.name], col.values, dr)
    ensures FindMobility(t, col.region, col.name).Some? ==>
      MobilityOutcome(g, r, col, FindMobility(t, col.region, col.name).value, dr)
  {
    match FindMobility(t, col.region, col.name)
    case None => Failure(MissingRow("mobility", [col.region, col.name]))
    case Some(m) =>
      var bus := MobilityBusLabel(col.region, col.name);
      var fuelBus := MediumBus(m.source, m.sourceRegion);
      var converter := Label("fuel converter", col.name, m.source, col.region);
      var demand := Label("mobility demand", "mobility", col.name, col.region);
      MobilityLabelsDistinct(col.region, col.name, m.source, m.sourceRegion);
      var r := PutFedBus(g, fuelBus, bus, converter, demand,
        Transformer(map[fuelBus := PlainFlow], map[bus := PlainFlow], map[bus := m.efficiency]),
        SinkNode(bus, "mobility demand series", [col.region, col.name], col.values, dr));
      if r.Success? then
        ThreeStored(g.entries, r.value.entries, bus, converter, demand,
          Transformer(map[fuelBus := PlainFlow], map[bus := PlainFlow], map[bus := m.efficiency]),
          SinkNode(bus, "mobility demand series", [col.region, col.name], col.values, dr));
        r
      else r
  }

  /** The labels of a mobility column: the mobility bus, the fuel
      converter and the demand differ from each other and from the bus of
      the fuel. */
  lemma MobilityLabelsDistinct(region: string, name: string, source: string, sourceRegion: string)
    ensures var fuelBus := MediumBus(source, sourceRegion);
      var bus := MobilityBusLabel(region, name);
      var converter := Label("fuel converter", name, source, region);
      var demand := Label("mobility demand", "mobility", name, region);
      && fuelBus != bus && fuelBus != converter && fuelBus != demand
      && bus != converter && bus != demand && converter != demand
  {
    assert "mobility"[0] != "electricity"[0] && "mobility"[0] != "commodity"[0] && "mobility"[0] != "fuel converter"[0];
    assert "fuel converter"[0] != "electricity"[0] && "fuel converter"[0] != "commodity"[0];
    assert "mobility demand"[0] != "electricity"[0] && "mobility demand"[0] != "commodity"[0];
    assert "mobility demand"[0] != "fuel converter"[0];
    assert |"mobility"| != |"mobility demand"|;
  }

  /** What one mobility column with row `m` does to the registry `g`: a
      mobility bus already there, a missing fuel bus, or a converter or
      demand label that is taken raises, in this order; otherwise the
      mobility bus, the converter from the fuel bus and the demand sink
      are added, and nothing else is. */
  predicate MobilityOutcome(g: Registry, r: Result<Registry, BuildError>, col: SeriesColumn, m: MobilityRow, dr: map<seq<string>, DsmParams>)
  {
    var fuelBus := MediumBus(m.source, m.sourceRegion);
    var bus := MobilityBusLabel(col.region, col.name);
    var converter := Label("fuel converter", col.name, m.source, col.region);
    var demand := Label("mobility demand", "mobility", col.name, col.region);
    && (bus in g.entries ==> r == Failure(DuplicateKey(bus)))
    && (bus !in g.entries && fuelBus !in g.entries ==> r == Failure(MissingKey(fuelBus)))
    && (bus !in g.entries && fuelBus in g.entries && converter in g.entries ==> r == Failure(DuplicateKey(converter)))
    && (bus !in g.entries && fuelBus in g.entries && converter !in g.entries && demand in g.entries ==>
          r == Failure(DuplicateKey(demand)))
    && (r.Success? <==> bus !in g.entries && fuelBus in g.entries && converter !in g.entries && demand !in g.entries)
    && (r.Success? ==>
          && r.value.order == g.order + [bus] + [converter] + [demand]
          && r.value.entries.Keys == g.entries.Keys + {bus, converter, demand})
  }

  function MobilityStep(t: seq<MobilityRow>, dr: map<seq<string>, DsmParams>): (Registry, SeriesColumn) -> Result<Registry, BuildError>
  {
    (g, col) => MobilityRule(g, col, t, dr)
  }

  /** `add_mobility` */
  function MobilitySpec(g: Registry, data: InputData): Result<Registry, BuildError>
  {
    if data.mobilityDemandSeries.None? then Failure(MissingTable("mobility demand series"))
    else if data.mobility.None? then Failure(MissingTable("mobility"))
    else FoldRows(g, data.mobilityDemandSeries.value, MobilityStep(data.mobility.value, data.demandResponse))
  }

  // ------------------------------------------------------- shortage & excess

  /** The keys of all buses, in insertion order. */
  function BusKeys(g: Registry): (r: seq<Label>)
    ensures forall k :: k in r <==> k in g.order && k in g.entries && g.entries[k] == Bus
    ensures |r| <= |g.order|
  {
    BusKeysOf(g.order, g.entries)
  }

  function BusKeysOf(order: seq<Label>, entries: map<Label, Node>): (r: seq<Label>)
    ensures forall k :: k in r <==> k in order && k in entries && entries[k] == Bus
    ensures |r| <= |order|
    decreases |order|
  {
    if |order| == 0 then []
    else (if order[0] in entries && entries[order[0]] == Bus then [order[0]] else []) + BusKeysOf(order[1..], entries)
  }

  function ExcessLabel(bus: Label): Label
  {
    Label("excess", bus.cat, bus.subtag, bus.region)
  }

  function ShortageLabel(bus: Label): Label
  {
    Label("shortage", bus.cat, bus.subtag, bus.region)
  }

  /** The variable costs of every shortage source. */
  const ShortageCosts: real := 9999.0

  /** One bus of `add_shortage_excess`: an excess sink fed by the bus and a
      shortage source feeding it at the shortage costs. */
  function ShortageExcessRule(g: Registry, bus: Label): (r: Result<Registry, BuildError>)
    ensures bus !in g.entries ==> r == Failure(MissingKey(bus))
    ensures r.Success? ==> Extends(g, r.value)
    ensures r.Success? ==>
      && ExcessLabel(bus) !in g.entries && ShortageLabel(bus) !in g.entries
      && r.value.entries == g.entries[ExcessLabel(bus) := Sink(bus, PlainFlow)]
                                     [ShortageLabel(bus) := Source(bus, PlainFlow.(variableCosts := ShortageCosts))]
      && r.value.order == g.order + [ExcessLabel(bus), ShortageLabel(bus)]
  {
    if bus !in g.entries then Failure(MissingKey(bus))
    else
      var g1 :- Put(g, ExcessLabel(bus), Sink(bus, PlainFlow));
      var r := Put(g1, ShortageLabel(bus), Source(bus, PlainFlow.(variableCosts := ShortageCosts)));
      if r.Failure? then r
      else
        assert r.value.order == g.order + [ExcessLabel(bus)] + [ShortageLabel(bus)];
        ExtendsTransitive(g, g1, r.value);
        r
  }

  /** `add_shortage_excess` */
  function ShortageExcessSpec(g: Registry): Result<Registry, BuildError>
  {
    FoldRows(g, BusKeys(g), ShortageExcessRule)
  }

  // -------------------------------------------------------------- all tables

  /** The number of table stages of `create_solph_nodes_from_data`. */
  const StageCount: nat := 12

  /** Stage `k` of `create_solph_nodes_from_data`, in the builder's order;
      a stage whose tables are absent leaves the registry as it is
      (electricity demand and volatile sources always run). */
  function StageSpec(g: Registry, data: InputData, k: nat): Result<Registry, BuildError>
  {
    if k == 0 then (if data.commoditySources.Some? then CommoditySourcesSpec(g, data) else Success(g))
    else if k == 1 then ElectricityDemandSpec(g, data)
    else if k == 2 then VolatileSourcesSpec(g, data)
    else if k == 3 then (if data.powerPlants.Some? then PowerPlantsSpec(g, data) else Success(g))
    else if k == 4 then (if data.decentralisedHeat.Some? then DecentralisedHeatSpec(g, data) else Success(g))
    else if k == 5 then (if data.heatDemandSeries.Some? then DistrictHeatingSpec(g, data) else Success(g))
    else if k == 6 then (if data.chpPlants.Some? then ChpPlantsSpec(g, data) else Success(g))
    else if k == 7 then (if data.electricityStorages.Some? || data.storages.Some? then StoragesSpec(g, data) else Success(g))
    else if k == 8 then (if data.mobility.Some? && data.mobilityDemandSeries.Some? then MobilitySpec(g, data) else Success(g))
    else if k == 9 then (if data.otherDemandSeries.Some? then OtherDemandSpec(g, data) else Success(g))
    else if k == 10 then (if data.otherConverters.Some? then OtherConvertersSpec(g, data) else Success(g))
    else if k == 11 then (if data.powerLines.Some? then PowerLinesSpec(g, data) else Success(g))
    else Success(g)
  }

  /** The stages from `k` on, then shortage and excess for every bus. */
  function BuildFrom(g: Registry, data: InputData, k: nat): Result<Registry, BuildError>
    decreases StageCount - k
  {
    if k >= StageCount then ShortageExcessSpec(g)
    else
      var h :- StageSpec(g, data, k);
      BuildFrom(h, data, k + 1)
  }

  /** Stage `k` as the builder ran it: on an exception the build ends with
      it, otherwise the later stages go on from the new registry. */
  lemma Advance(g: Registry, data: InputData, k: nat, r: Outcome<BuildError>, now: Registry)
    requires k < StageCount && Reports(r, StageSpec(g, data, k), now)
    ensures r.Fail? ==> BuildFrom(g, data, k) == Failure(r.error)
    ensures r.Pass? ==> BuildFrom(g, data, k) == BuildFrom(now, data, k + 1)
  {
  }

  /** After the last stage only shortage and excess remain. */
  lemma BuildFromEnd(g: Registry, data: InputData)
    ensures BuildFrom(g, data, StageCount) == ShortageExcessSpec(g)
  {
  }

  /** `create_solph_nodes_from_data` */
  function BuildSpec(g: Registry, data: InputData): Result<Registry, BuildError>
  {
    BuildFrom(g, data, 0)
  }
}
