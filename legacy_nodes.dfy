/** The older builder of src/deflex/nodes.py, as rule and table
    functions over the same insert-only registry as the live builder. It
    differs from the live one in its labels (every bus has the category
    "bus"), in creating commodity buses on demand from the "commodity
    sources" table, in pricing emissions per tonne (emission / 1000 * co2
    price) and in its shortage costs (900). */
module LegacyNodes {
  import opened Wrappers
  import opened Strings
  import opened Labels
  import opened NodeRegistry
  import ScenarioNodes
  import Views

  type InputData = ScenarioNodes.InputData
  type CommodityRow = ScenarioNodes.CommodityRow
  type SeriesColumn = ScenarioNodes.SeriesColumn
  type PowerPlantRow = ScenarioNodes.PowerPlantRow
  type ChpRow = ScenarioNodes.ChpRow
  type LineRow = ScenarioNodes.LineRow
  type StorageRow = ScenarioNodes.StorageRow
  type MobilityRow = ScenarioNodes.MobilityRow
  type VolatileRow = ScenarioNodes.VolatileRow

  // ---------------------------------------------------------------- labels

  function ElectricityBus(region: string): Label
  {
    Label("bus", "electricity", "all", region)
  }

  function FuelBus(fuel: string, region: string): Label
  {
    Label("bus", "commodity", fuel, region)
  }

  function FuelSource(fuel: string, region: string): Label
  {
    Label("source", "commodity", fuel, region)
  }

  function DistrictHeatBus(region: string): Label
  {
    Label("bus", "heat", "district", region)
  }

  /** A demand sink: the column as fixed profile, nominal value 1. */
  function DemandSink(bus: Label, values: seq<real>): Node
  {
    Sink(bus, PlainFlow.(nominal := Some(1.0), fix := Some(values)))
  }

  /** Reading "_" as " " twice is reading it once. */
  lemma CommodityNameTwice(fuel: string)
    ensures '_' !in ScenarioNodes.CommodityName(fuel)
    ensures ScenarioNodes.CommodityName(ScenarioNodes.CommodityName(fuel)) == ScenarioNodes.CommodityName(fuel)
  {
    ReplaceCharRemoves(fuel, '_', ' ');
    NoUnderscoreName(ScenarioNodes.CommodityName(fuel));
  }

  /** A fuel written without "_" is its own commodity name. */
  lemma NoUnderscoreName(fuel: string)
    requires '_' !in fuel
    ensures ScenarioNodes.CommodityName(fuel) == fuel
  {
    ReplaceCharAt(fuel, '_', ' ');
  }

  // ------------------------------------------------------------ fuel sources

  /** `input_data["commodity sources"].loc[region, fuel]` */
  function FindCommodity(rows: seq<CommodityRow>, region: string, fuel: string): (r: Option<CommodityRow>)
    ensures r.Some? ==> r.value in rows && r.value.region == region && r.value.fuel == fuel
    ensures r.None? ==> forall c :: c in rows ==> c.region != region || c.fuel != fuel
    decreases |rows|
  {
    if |rows| == 0 then None
    else if rows[0].region == region && rows[0].fuel == fuel then Some(rows[0])
    else FindCommodity(rows[1..], region, fuel)
  }

  /** The variable costs of a fuel source: the emission, per MWh in kg,
      priced at the co2 price per tonne, plus the fuel costs. */
  function FuelCosts(row: CommodityRow, co2Price: real): real
  {
    row.emission / 1000.0 * co2Price + row.costs
  }

  /** The output flow of a fuel source: with a finite annual limit, the
      limit as nominal value and summed_max 1, so that the source delivers
      at most the limit over the year; otherwise unbounded. */
  function FuelFlow(row: CommodityRow, co2Price: real): (f: Flow)
    ensures f.variableCosts == FuelCosts(row, co2Price) && f.emission == row.emission && f.fix.None?
    ensures row.annualLimit.Some? ==>
      f.nominal.Some? && f.summedMax.Some? && f.nominal.value * f.summedMax.value == row.annualLimit.value
    ensures row.annualLimit.None? ==> f.nominal.None? && f.summedMax.None?
  {
    match row.annualLimit
    case None => PlainFlow.(variableCosts := FuelCosts(row, co2Price), emission := row.emission)
    case Some(limit) => Flow(Some(limit), Some(1.0), FuelCosts(row, co2Price), row.emission, None)
  }

  /** `create_fuel_bus_with_source`: the fuel is read with "_" as " "; its
      row of "commodity sources" must exist; the fuel bus is created when
      missing, then the co2 price is read, then the fuel source is added
      when missing. */
  function FuelBusWithSource(g: Registry, fuel: string, region: string, data: InputData): (r: Result<Registry, BuildError>)
    ensures data.commoditySources.None? ==> r == Failure(MissingTable("commodity sources"))
    ensures data.commoditySources.Some? && FindCommodity(data.commoditySources.value, region, ScenarioNodes.CommodityName(fuel)).None? ==>
      r == Failure(MissingRow("commodity sources", [region, ScenarioNodes.CommodityName(fuel)]))
    ensures r.Success? ==> Extends(g, r.value) && data.co2Price.Some? && data.commoditySources.Some?
    ensures r.Success? ==>
      var name := ScenarioNodes.CommodityName(fuel);
      && FuelBus(name, region) in r.value.entries && FuelSource(name, region) in r.value.entries
      && (forall k :: k in r.value.entries ==> k in g.entries || k == FuelBus(name, region) || k == FuelSource(name, region))
      && (FuelBus(name, region) !in g.entries ==> r.value.entries[FuelBus(name, region)] == Bus)
    ensures r.Success? && FuelSource(ScenarioNodes.CommodityName(fuel), region) !in g.entries ==>
      var name := ScenarioNodes.CommodityName(fuel);
      r.value.entries[FuelSource(name, region)] ==
        Source(FuelBus(name, region), FuelFlow(FindCommodity(data.commoditySources.value, region, name).value, data.co2Price.value))
  {
    var name := ScenarioNodes.CommodityName(fuel);
    if data.commoditySources.None? then Failure(MissingTable("commodity sources"))
    else
      match FindCommodity(data.commoditySources.value, region, name)
      case None => Failure(MissingRow("commodity sources", [region, name]))
      case Some(row) =>
        var g1 := EnsureBus(g, FuelBus(name, region));
        if data.co2Price.None? then Failure(MissingRow("general", ["co2 price"]))
        else if FuelSource(name, region) in g1.entries then Success(g1)
        else Put(g1, FuelSource(name, region), Source(FuelBus(name, region), FuelFlow(row, data.co2Price.value)))
  }

  /** The bus and the source are only added when missing: once the call
      went through, calling it again changes nothing. */
  lemma FuelBusWithSourceTwice(g: Registry, fuel: string, region: string, data: InputData)
    requires FuelBusWithSource(g, fuel, region, data).Success?
    ensures FuelBusWithSource(FuelBusWithSource(g, fuel, region, data).value, fuel, region, data) ==
            FuelBusWithSource(g, fuel, region, data)
  {
  }

  // ------------------------------------------------------------ in/out buses

  /** One distinct (fuel, source region) pair of `check_in_out_buses`: the
      fuel bus and its source, unless a bus labelled with the fuel as
      written is there already. */
  function FuelPairRule(g: Registry, pair: (string, string), data: InputData): Result<Registry, BuildError>
  {
    if FuelBus(pair.0, pair.1) in g.entries then Success(g) else FuelBusWithSource(g, pair.0, pair.1, data)
  }

  function FuelPairStep(data: InputData): (Registry, (string, string)) -> Result<Registry, BuildError>
  {
    (g, pair) => FuelPairRule(g, pair, data)
  }

  /** `create_electricity_bus` for every listed region. */
  function EnsureElectricityBuses(g: Registry, regions: seq<string>): (r: Registry)
    ensures Extends(g, r)
    ensures forall reg :: reg in regions ==> ElectricityBus(reg) in r.entries
    ensures forall k :: k in r.entries && k !in g.entries ==> exists reg :: reg in regions && k == ElectricityBus(reg)
    decreases |regions|
  {
    if |regions| == 0 then g
    else
      var r := EnsureElectricityBuses(EnsureBus(g, ElectricityBus(regions[0])), regions[1..]);
      ExtendsTransitive(g, EnsureBus(g, ElectricityBus(regions[0])), r);
      r
  }

  /** `check_in_out_buses` for a table given by its (fuel, source region)
      pairs and its regions, in row order: first the fuel buses and sources
      of the distinct pairs, then the electricity buses of the distinct
      regions. */
  function CheckInOutBuses(g: Registry, pairs: seq<(string, string)>, regions: seq<string>, data: InputData): Result<Registry, BuildError>
  {
    var h :- FoldRows(g, Views.Distinct(pairs), FuelPairStep(data));
    Success(EnsureElectricityBuses(h, Views.Distinct(regions)))
  }

  /** A fuel bus of the pair is in `h`: the one labelled with the fuel as
      written, or the one with "_" read as " ". */
  ghost predicate FuelBusFor(h: Registry, pair: (string, string))
  {
    FuelBus(pair.0, pair.1) in h.entries || FuelBus(ScenarioNodes.CommodityName(pair.0), pair.1) in h.entries
  }

  lemma {:induction false} FuelPairsCovered(g: Registry, pairs: seq<(string, string)>, data: InputData)
    requires FoldRows(g, pairs, FuelPairStep(data)).Success?
    ensures Extends(g, FoldRows(g, pairs, FuelPairStep(data)).value)
    ensures forall p :: p in pairs ==> FuelBusFor(FoldRows(g, pairs, FuelPairStep(data)).value, p)
    decreases |pairs|
  {
    if |pairs| > 0 {
      var g1 := FuelPairRule(g, pairs[0], data).value;
      assert FuelBusFor(g1, pairs[0]) && Extends(g, g1);
      FuelPairsCovered(g1, pairs[1..], data);
      var h := FoldRows(g1, pairs[1..], FuelPairStep(data)).value;
      ExtendsTransitive(g, g1, h);
      forall p | p in pairs ensures FuelBusFor(h, p) {
        if p != pairs[0] {
          assert p in pairs[1..];
        }
      }
    }
  }

  /** After `check_in_out_buses`, every pair of the table has its fuel bus
      and every region its electricity bus, and nothing was replaced. */
  lemma CheckInOutCovers(g: Registry, pairs: seq<(string, string)>, regions: seq<string>, data: InputData)
    requires CheckInOutBuses(g, pairs, regions, data).Success?
    ensures Extends(g, CheckInOutBuses(g, pairs, regions, data).value)
    ensures forall p :: p in pairs ==> FuelBusFor(CheckInOutBuses(g, pairs, regions, data).value, p)
    ensures forall reg :: reg in regions ==> ElectricityBus(reg) in CheckInOutBuses(g, pairs, regions, data).value.entries
  {
    var ps := Views.Distinct(pairs);
    FuelPairsCovered(g, ps, data);
    var h := FoldRows(g, ps, FuelPairStep(data)).value;
    var r := EnsureElectricityBuses(h, Views.Distinct(regions));
    ExtendsTransitive(g, h, r);
    forall p | p in pairs ensures FuelBusFor(r, p) {
      assert p in ps && FuelBusFor(h, p);
    }
  }

  // ------------------------------------------------------------ power plants

  function PlantLabel(row: PowerPlantRow): Label
  {
    Label("trsf", "pp", ScenarioNodes.PlantName(row.name), row.region)
  }

  function PlantFuelBus(row: PowerPlantRow): Label
  {
    FuelBus(row.fuel, row.sourceRegion)
  }

  /** The transformer of a power plant, with the downtime-reduced
      capacity. */
  function PlantNode(row: PowerPlantRow): Node
  {
    var elecBus := ElectricityBus(row.region);
    Transformer(
      map[PlantFuelBus(row) := PlainFlow],
      map[elecBus := ScenarioNodes.PlantOutflow(ScenarioNodes.EffectiveCapacity(row.capacity, row.downtimeFactor), row.annualLimit, row.variableCosts)],
      map[elecBus := row.efficiency])
  }

  /** One row of `add_power_plants`: nothing for a capacity that is not
      positive; otherwise the fuel bus (fuel as written) and the region's
      electricity bus must exist, and the plant's transformer is added. */
  function PowerPlantRule(g: Registry, row: PowerPlantRow): (r: Result<Registry, BuildError>)
    ensures row.capacity <= 0.0 ==> r == Success(g)
    ensures row.capacity > 0.0 && PlantFuelBus(row) !in g.entries ==> r == Failure(MissingKey(PlantFuelBus(row)))
    ensures row.capacity > 0.0 && PlantFuelBus(row) in g.entries && ElectricityBus(row.region) !in g.entries ==>
      r == Failure(MissingKey(ElectricityBus(row.region)))
    ensures r.Success? ==> Extends(g, r.value)
    ensures r.Success? && row.capacity > 0.0 ==>
      && PlantLabel(row) !in g.entries && PlantLabel(row) in r.value.entries
      && r.value.entries == g.entries[PlantLabel(row) := r.value.entries[PlantLabel(row)]]
      && ScenarioNodes.WiredConverter(r.value.entries[PlantLabel(row)], PlantFuelBus(row), ElectricityBus(row.region),
           ScenarioNodes.EffectiveCapacity(row.capacity, row.downtimeFactor), row.efficiency, row.annualLimit)
  {
    if row.capacity <= 0.0 then Success(g)
    else if PlantFuelBus(row) !in g.entries then Failure(MissingKey(PlantFuelBus(row)))
    else if ElectricityBus(row.region) !in g.entries then Failure(MissingKey(ElectricityBus(row.region)))
    else Put(g, PlantLabel(row), PlantNode(row))
  }

  function PlantPairs(rows: seq<PowerPlantRow>): (r: seq<(string, string)>)
    ensures |r| == |rows| && forall i :: 0 <= i < |rows| ==> r[i] == (rows[i].fuel, rows[i].sourceRegion)
  {
    seq(|rows|, i requires 0 <= i < |rows| => (rows[i].fuel, rows[i].sourceRegion))
  }

  /** `add_power_plants`: `check_in_out_buses`, then the rows. */
  function PowerPlantsSpec(g: Registry, data: InputData): Result<Registry, BuildError>
  {
    if data.powerPlants.None? then Failure(MissingTable("power plants"))
    else
      var rows := data.powerPlants.value;
      var h :- CheckInOutBuses(g, PlantPairs(rows), ScenarioNodes.PowerPlantRegions(rows), data);
      FoldRows(h, rows, PowerPlantRule)
  }

  /** Once `check_in_out_buses` went through for the table, a plant whose
      fuel is written without "_" finds both its buses, in any registry that
      grew from there: its row can only fail on a label already taken. */
  lemma PlantFindsItsBuses(g: Registry, rows: seq<PowerPlantRow>, data: InputData, i: nat, h: Registry)
    requires i < |rows| && '_' !in rows[i].fuel
    requires CheckInOutBuses(g, PlantPairs(rows), ScenarioNodes.PowerPlantRegions(rows), data).Success?
    requires Extends(CheckInOutBuses(g, PlantPairs(rows), ScenarioNodes.PowerPlantRegions(rows), data).value, h)
    ensures rows[i].capacity > 0.0 ==> PowerPlantRule(h, rows[i]) == Put(h, PlantLabel(rows[i]), PlantNode(rows[i]))
  {
    CheckInOutCovers(g, PlantPairs(rows), ScenarioNodes.PowerPlantRegions(rows), data);
    assert PlantPairs(rows)[i] in PlantPairs(rows);
    assert ScenarioNodes.PowerPlantRegions(rows)[i] in ScenarioNodes.PowerPlantRegions(rows);
    NoUnderscoreName(rows[i].fuel);
  }

  /** The input bus of a plant keeps the fuel as written while
      `check_in_out_buses` creates the bus with "_" read as " ": a plant
      whose fuel holds "_" and whose bus was not there before fails. */
  lemma UnderscoreFuelNotWired(g: Registry, row: PowerPlantRow, data: InputData)
    requires row.capacity > 0.0 && '_' in row.fuel
    requires PlantFuelBus(row) !in g.entries
    requires CheckInOutBuses(g, PlantPairs([row]), ScenarioNodes.PowerPlantRegions([row]), data).Success?
    ensures PowerPlantRule(CheckInOutBuses(g, PlantPairs([row]), ScenarioNodes.PowerPlantRegions([row]), data).value, row) ==
            Failure(MissingKey(PlantFuelBus(row)))
  {
    var pair := (row.fuel, row.sourceRegion);
    assert PlantPairs([row]) == [pair];
    assert Views.Distinct([pair]) == [pair];
    var h1 := FuelBusWithSource(g, row.fuel, row.sourceRegion, data).value;
    assert FoldRows(g, [pair], FuelPairStep(data)) == Success(h1);
    CommodityNameTwice(row.fuel);
    assert PlantFuelBus(row) !in h1.entries;
    var h := EnsureElectricityBuses(h1, Views.Distinct(ScenarioNodes.PowerPlantRegions([row])));
    assert PlantFuelBus(row) !in h.entries;
  }

  // --------------------------------------------------------- heat-chp plants

  function ChpFuelBus(row: ChpRow): Label
  {
    FuelBus(row.fuel, row.sourceRegion)
  }

  /** The CHP label carries the fuel with " " read as "_", not the plant's
      name. */
  function ChpLabel(row: ChpRow): Label
  {
    Label("trsf", "chp", Replace(row.fuel, " ", "_"), row.region)
  }

  function HeatPlantLabel(row: ChpRow): Label
  {
    Label("trsf", "hp", Replace(row.fuel, " ", "_"), row.region)
  }

  /** `(limit_heat_chp / efficiency_heat_chp) / (capacity_heat_chp /
      efficiency_heat_chp)`; `None` for the non-finite quotient of a zero
      efficiency. For a non-zero efficiency it is limit / capacity. */
  function ChpSummedMax(row: ChpRow): (r: Option<real>)
    requires ScenarioNodes.HasChp(row)
    ensures row.efficiencyHeatChp == 0.0 ==> r.None?
    ensures row.efficiencyHeatChp != 0.0 ==> r == Some(row.limitHeatChp / row.capacityHeatChp.value)
  {
    var cap := row.capacityHeatChp.value;
    var eff := row.efficiencyHeatChp;
    if eff == 0.0 then None
    else
      assert cap / eff != 0.0;
      var smax := (row.limitHeatChp / eff) / (cap / eff);
      assert smax == row.limitHeatChp / cap by {
        calc {
          (row.limitHeatChp / eff) / (cap / eff);
          (row.limitHeatChp / eff) * (eff / cap);
          row.limitHeatChp / cap;
        }
      }
      Some(smax)
  }

  /** The CHP transformer: fuel in, with nominal value capacity /
      efficiency (non-finite, `None`, for a zero efficiency) and the
      summed_max above; electricity and district heat out. */
  function ChpNode(row: ChpRow): Node
    requires ScenarioNodes.HasChp(row)
  {
    var cap := row.capacityHeatChp.value;
    var elecBus := ElectricityBus(row.region);
    var heatBus := DistrictHeatBus(row.region);
    Transformer(
      map[ChpFuelBus(row) := PlainFlow.(nominal := ScenarioNodes.Ratio(cap, row.efficiencyHeatChp), summedMax := ChpSummedMax(row))],
      map[elecBus := PlainFlow, heatBus := PlainFlow],
      map[elecBus := row.efficiencyElecChp, heatBus := row.efficiencyHeatChp])
  }

  /** The CHP's fuel flow allows exactly the fuel the heat limit needs:
      nominal value * summed_max = heat limit / heat efficiency. */
  lemma ChpFuelLimit(row: ChpRow)
    requires ScenarioNodes.HasChp(row) && row.efficiencyHeatChp != 0.0
    ensures var f := ChpNode(row).inputs[ChpFuelBus(row)];
      && f.nominal.Some? && f.summedMax.Some?
      && f.nominal.value * f.summedMax.value == row.limitHeatChp / row.efficiencyHeatChp
  {
    var cap := row.capacityHeatChp.value;
    var eff := row.efficiencyHeatChp;
    calc {
      (cap / eff) * (row.limitHeatChp / cap);
      (cap * row.limitHeatChp) / (eff * cap);
      row.limitHeatChp / eff;
    }
  }

  /** The heat plant: fuel in, district heat out with nominal value = heat
      plant capacity and summed_max = limit / capacity. */
  function HeatPlantNode(row: ChpRow): Node
    requires ScenarioNodes.HasHeatPlant(row)
  {
    var cap := row.capacityHp.value;
    var heatBus := DistrictHeatBus(row.region);
    Transformer(
      map[ChpFuelBus(row) := PlainFlow],
      map[heatBus := PlainFlow.(nominal := Some(cap), summedMax := Some(row.limitHp / cap))],
      map[heatBus := row.efficiencyHp])
  }

  /** The CHP part of a row: the fuel bus, the electricity bus and the
      district heat bus must exist; the district heat bus is not created
      here. */
  function AddChp(g: Registry, row: ChpRow): (r: Result<Registry, BuildError>)
    ensures !ScenarioNodes.HasChp(row) ==> r == Success(g)
    ensures ScenarioNodes.HasChp(row) && ChpFuelBus(row) !in g.entries ==> r == Failure(MissingKey(ChpFuelBus(row)))
    ensures ScenarioNodes.HasChp(row) && ChpFuelBus(row) in g.entries && ElectricityBus(row.region) in g.entries
            && DistrictHeatBus(row.region) !in g.entries ==>
      r == Failure(MissingKey(DistrictHeatBus(row.region)))
    ensures r.Success? ==> Extends(g, r.value)
    ensures r.Success? && ScenarioNodes.HasChp(row) ==>
      && ChpFuelBus(row) in g.entries && ElectricityBus(row.region) in g.entries && DistrictHeatBus(row.region) in g.entries
      && ChpLabel(row) !in g.entries && r.value.entries == g.entries[ChpLabel(row) := ChpNode(row)]
  {
    if !ScenarioNodes.HasChp(row) then Success(g)
    else if ChpFuelBus(row) !in g.entries then Failure(MissingKey(ChpFuelBus(row)))
    else if ElectricityBus(row.region) !in g.entries then Failure(MissingKey(ElectricityBus(row.region)))
    else if DistrictHeatBus(row.region) !in g.entries then Failure(MissingKey(DistrictHeatBus(row.region)))
    else Put(g, ChpLabel(row), ChpNode(row))
  }

  /** The heat-plant part of a row: the fuel bus and the district heat bus
      must exist. */
  function AddHeatPlant(g: Registry, row: ChpRow): (r: Result<Registry, BuildError>)
    ensures !ScenarioNodes.HasHeatPlant(row) ==> r == Success(g)
    ensures ScenarioNodes.HasHeatPlant(row) && ChpFuelBus(row) !in g.entries ==> r == Failure(MissingKey(ChpFuelBus(row)))
    ensures ScenarioNodes.HasHeatPlant(row) && ChpFuelBus(row) in g.entries && DistrictHeatBus(row.region) !in g.entries ==>
      r == Failure(MissingKey(DistrictHeatBus(row.region)))
    ensures r.Success? ==> Extends(g, r.value)
    ensures r.Success? && ScenarioNodes.HasHeatPlant(row) ==>
      && ChpFuelBus(row) in g.entries && DistrictHeatBus(row.region) in g.entries
      && HeatPlantLabel(row) !in g.entries && r.value.entries == g.entries[HeatPlantLabel(row) := HeatPlantNode(row)]
  {
    if !ScenarioNodes.HasHeatPlant(row) then Success(g)
    else if ChpFuelBus(row) !in g.entries then Failure(MissingKey(ChpFuelBus(row)))
    else if DistrictHeatBus(row.region) !in g.entries then Failure(MissingKey(DistrictHeatBus(row.region)))
    else Put(g, HeatPlantLabel(row), HeatPlantNode(row))
  }

  /** One row of `add_heat_and_chp_plants`: the CHP, then the heat plant. */
  function ChpRule(g: Registry, row: ChpRow): (r: Result<Registry, BuildError>)
    ensures r.Success? ==> Extends(g, r.value)
    ensures r.Success? && ScenarioNodes.HasChp(row) ==>
      ChpLabel(row) !in g.entries && ChpLabel(row) in r.value.entries && r.value.entries[ChpLabel(row)] == ChpNode(row)
    ensures r.Success? && ScenarioNodes.HasHeatPlant(row) ==>
      HeatPlantLabel(row) !in g.entries && HeatPlantLabel(row) in r.value.entries
      && r.value.entries[HeatPlantLabel(row)] == HeatPlantNode(row)
    ensures !ScenarioNodes.HasChp(row) && !ScenarioNodes.HasHeatPlant(row) ==> r == Success(g)
    ensures (ScenarioNodes.HasChp(row) || ScenarioNodes.HasHeatPlant(row)) && ChpFuelBus(row) !in g.entries ==>
      r == Failure(MissingKey(ChpFuelBus(row)))
    ensures ScenarioNodes.HasChp(row) && ChpFuelBus(row) in g.entries && ElectricityBus(row.region) !in g.entries ==>
      r == Failure(MissingKey(ElectricityBus(row.region)))
    ensures
      && (ScenarioNodes.HasChp(row) || ScenarioNodes.HasHeatPlant(row))
      && ChpFuelBus(row) in g.entries && (ScenarioNodes.HasChp(row) ==> ElectricityBus(row.region) in g.entries)
      && DistrictHeatBus(row.region) !in g.entries
      ==> r == Failure(MissingKey(DistrictHeatBus(row.region)))
    ensures r.Success? <==>
      && (ScenarioNodes.HasChp(row) ==>
            && ChpFuelBus(row) in g.entries && ElectricityBus(row.region) in g.entries
            && DistrictHeatBus(row.region) in g.entries && ChpLabel(row) !in g.entries)
      && (ScenarioNodes.HasHeatPlant(row) ==>
            && ChpFuelBus(row) in g.entries && DistrictHeatBus(row.region) in g.entries
            && HeatPlantLabel(row) !in g.entries)
    ensures r.Success? ==>
      r.value.entries.Keys == g.entries.Keys
        + (if ScenarioNodes.HasChp(row) then {ChpLabel(row)} else {})
        + (if ScenarioNodes.HasHeatPlant(row) then {HeatPlantLabel(row)} else {})
  {
    var g1 :- AddChp(g, row);
    var g2 :- AddHeatPlant(g1, row);
    ExtendsTransitive(g, g1, g2);
    Success(g2)
  }

  function ChpPairs(rows: seq<ChpRow>): (r: seq<(string, string)>)
    ensures |r| == |rows| && forall i :: 0 <= i < |rows| ==> r[i] == (rows[i].fuel, rows[i].sourceRegion)
  {
    seq(|rows|, i requires 0 <= i < |rows| => (rows[i].fuel, rows[i].sourceRegion))
  }

  /** `add_heat_and_chp_plants`: `check_in_out_buses`, then the rows. */
  function ChpPlantsSpec(g: Registry, data: InputData): Result<Registry, BuildError>
  {
    if data.chpPlants.None? then Failure(MissingTable("heat-chp plants"))
    else
      var rows := data.chpPlants.value;
      var h :- CheckInOutBuses(g, ChpPairs(rows), ScenarioNodes.ChpRegions(rows), data);
      FoldRows(h, rows, ChpRule)
  }

  /** The CHP label leaves out the plant's name: a second CHP row of the
      same region burning the same fuel makes the table raise, on its
      label when it draws from the same fuel bus. */
  lemma SameFuelChpsCollide(g: Registry, first: ChpRow, second: ChpRow)
    requires ScenarioNodes.HasChp(first) && ScenarioNodes.HasChp(second)
    requires first.region == second.region && first.fuel == second.fuel
    requires ChpRule(g, first).Success?
    ensures FoldRows(g, [first, second], ChpRule).Failure?
    ensures first.sourceRegion == second.sourceRegion ==>
      FoldRows(g, [first, second], ChpRule) == Failure(DuplicateKey(ChpLabel(second)))
  {
    var h := ChpRule(g, first).value;
    assert [first, second][1..] == [second];
    var g1 := AddChp(g, first).value;
    assert ElectricityBus(second.region) in h.entries && DistrictHeatBus(second.region) in h.entries;
    assert ChpLabel(second) in h.entries;
  }

  // ------------------------------------------------------------ power lines

  /** The transformer of one direction of a line. */
  function LineNode(from: string, to: string, row: LineRow): Node
  {
    Transformer(
      map[ElectricityBus(from) := PlainFlow],
      map[ElectricityBus(to) := PlainFlow.(nominal := row.capacity)],
      map[ElectricityBus(to) := row.efficiency])
  }

  /** One direction of a power line: both buses must exist, the in-bus is
      checked first. */
  function LineDirectionRule(g: Registry, from: string, to: string, row: LineRow): (r: Result<Registry, BuildError>)
    ensures ElectricityBus(from) !in g.entries ==>
      r == Failure(MissingLineBus(ElectricityBus(from), ElectricityBus(to)))
    ensures ElectricityBus(from) in g.entries && ElectricityBus(to) !in g.entries ==>
      r == Failure(MissingLineBus(ElectricityBus(to), ElectricityBus(from)))
    ensures ElectricityBus(from) in g.entries && ElectricityBus(to) in g.entries ==>
      r == Put(g, ScenarioNodes.LineLabel(from, to), LineNode(from, to, row))
    ensures r.Success? ==> Extends(g, r.value)
  {
    var busIn := ElectricityBus(from);
    var busOut := ElectricityBus(to);
    if busIn !in g.entries then Failure(MissingLineBus(busIn, busOut))
    else if busOut !in g.entries then Failure(MissingLineBus(busOut, busIn))
    else Put(g, ScenarioNodes.LineLabel(from, to), LineNode(from, to, row))
  }

  /** One row of `add_transmission_lines_between_electricity_nodes`: the
      name must split into exactly two regions A and B; then A->B and B->A. */
  function LineRule(g: Registry, row: LineRow): (r: Result<Registry, BuildError>)
    ensures |Split(row.name, '-')| != 2 ==> r == Failure(MalformedLineName(row.name))
    ensures r.Success? ==> Extends(g, r.value)
    ensures r.Success? ==>
      var parts := Split(row.name, '-');
      && |parts| == 2
      && ElectricityBus(parts[0]) in g.entries && ElectricityBus(parts[1]) in g.entries
      && ScenarioNodes.LineLabel(parts[0], parts[1]) !in g.entries
      && ScenarioNodes.LineLabel(parts[1], parts[0]) !in g.entries
      && r.value.entries == g.entries[ScenarioNodes.LineLabel(parts[0], parts[1]) := LineNode(parts[0], parts[1], row)]
                                     [ScenarioNodes.LineLabel(parts[1], parts[0]) := LineNode(parts[1], parts[0], row)]
  {
    var parts := Split(row.name, '-');
    if |parts| != 2 then Failure(MalformedLineName(row.name))
    else
      var g1 :- LineDirectionRule(g, parts[0], parts[1], row);
      LineDirectionRule(g1, parts[1], parts[0], row)
  }

  /** `add_transmission_lines_between_electricity_nodes` */
  function PowerLinesSpec(g: Registry, data: InputData): Result<Registry, BuildError>
  {
    if data.powerLines.None? then Failure(MissingTable("power lines"))
    else FoldRows(g, data.powerLines.value, LineRule)
  }

  // ------------------------------------------------- decentralised heating

  /** The bus a decentralised heating system draws from. */
  function HeatSourceBus(region: string, source: string): Label
  {
    if source == "electricity" then ElectricityBus(region) else FuelBus(source, region)
  }

  function HeatBus(fuel: string, region: string): Label
  {
    Label("bus", "heat", fuel, region)
  }

  /** The source bus of a heating system: the electricity bus, created
      when missing, or the commodity bus, created with its source when
      missing. */
  function HeatSourceRule(g: Registry, region: string, source: string, data: InputData): (r: Result<Registry, BuildError>)
    ensures source == "electricity" ==> r == Success(EnsureBus(g, ElectricityBus(region)))
    ensures source != "electricity" && FuelBus(source, region) in g.entries ==> r == Success(g)
    ensures source != "electricity" && FuelBus(source, region) !in g.entries ==> r == FuelBusWithSource(g, source, region, data)
    ensures r.Success? && ScenarioNodes.CommodityName(source) == source ==>
      r.value.entries.Keys == g.entries.Keys + {HeatSourceBus(region, source)}
        + (if source != "electricity" && FuelBus(source, region) !in g.entries then {FuelSource(source, region)} else {})
  {
    if source == "electricity" then Success(EnsureBus(g, ElectricityBus(region)))
    else if FuelBus(source, region) !in g.entries then FuelBusWithSource(g, source, region, data)
    else Success(g)
  }

  /** One column of `add_decentralised_heating_systems`: the source bus, a
      new heat bus, the heating transformer with the system's efficiency
      and the demand sink with the column as profile. */
  function DecentralisedHeatRule(g: Registry, col: SeriesColumn, data: InputData): (r: Result<Registry, BuildError>)
    requires data.decentralisedHeat.Some?
    ensures ScenarioNodes.FindHeatSystem(data.decentralisedHeat.value, col.region, col.name).None? ==>
      r == Failure(MissingRow("decentralised heat", [col.region, col.name]))
    ensures r.Success? ==> Extends(g, r.value)
    ensures r.Success? ==>
      var fuel := ScenarioNodes.CommodityName(col.name);
      var sys := ScenarioNodes.FindHeatSystem(data.decentralisedHeat.value, col.region, col.name).value;
      var src := ScenarioNodes.CommodityName(sys.source);
      var heatBus := HeatBus(fuel, col.region);
      && HeatSourceBus(col.region, src) in r.value.entries
      && heatBus !in g.entries && heatBus in r.value.entries && r.value.entries[heatBus] == Bus
      && Label("trsf", "heat", fuel, col.region) in r.value.entries
      && r.value.entries[Label("trsf", "heat", fuel, col.region)] ==
           Transformer(map[HeatSourceBus(col.region, src) := PlainFlow], map[heatBus := PlainFlow], map[heatBus := sys.efficiency])
      && Label("demand", "heat", fuel, col.region) in r.value.entries
      && r.value.entries[Label("demand", "heat", fuel, col.region)] == DemandSink(heatBus, col.values)
      && (src != "electricity" && FuelBus(src, col.region) !in g.entries ==> FuelSource(src, col.region) in r.value.entries)
    ensures r.Success? ==>
      var fuel := ScenarioNodes.CommodityName(col.name);
      var sys := ScenarioNodes.FindHeatSystem(data.decentralisedHeat.value, col.region, col.name).value;
      var src := ScenarioNodes.CommodityName(sys.source);
      r.value.entries.Keys == g.entries.Keys + {HeatSourceBus(col.region, src)}
        + (if src != "electricity" && FuelBus(src, col.region) !in g.entries then {FuelSource(src, col.region)} else {})
        + {HeatBus(fuel, col.region), Label("trsf", "heat", fuel, col.region), Label("demand", "heat", fuel, col.region)}
  {
    var fuel := ScenarioNodes.CommodityName(col.name);
    match ScenarioNodes.FindHeatSystem(data.decentralisedHeat.value, col.region, col.name)
    case None => Failure(MissingRow("decentralised heat", [col.region, col.name]))
    case Some(sys) =>
      var src := ScenarioNodes.CommodityName(sys.source);
      var srcBus := HeatSourceBus(col.region, src);
      CommodityNameTwice(sys.source);
      var g1 :- HeatSourceRule(g, col.region, src, data);
      var heatBus := HeatBus(fuel, col.region);
      var r := ScenarioNodes.PutFedBus(g1, srcBus, heatBus, Label("trsf", "heat", fuel, col.region), Label("demand", "heat", fuel, col.region),
        Transformer(map[srcBus := PlainFlow], map[heatBus := PlainFlow], map[heatBus := sys.efficiency]), DemandSink(heatBus, col.values));
      if r.Success? then
        ExtendsTransitive(g, g1, r.value);
        r
      else r
  }

  function DecentralisedHeatStep(data: InputData): (Registry, SeriesColumn) -> Result<Registry, BuildError>
    requires data.decentralisedHeat.Some?
  {
    (g, col) => DecentralisedHeatRule(g, col, data)
  }

  /** `add_decentralised_heating_systems`: the columns of "heat demand
      series" that are not district heating. */
  function DecentralisedHeatSpec(g: Registry, data: InputData): Result<Registry, BuildError>
  {
    if data.heatDemandSeries.None? then Failure(MissingTable("heat demand series"))
    else if data.decentralisedHeat.None? then Failure(MissingTable("decentralised heat"))
    else FoldRows(g, ScenarioNodes.HeatColumns(data.heatDemandSeries.value, false), DecentralisedHeatStep(data))
  }

  // ---------------------------------------------------------------- demands

  /** One column of `add_electricity_demand`: for a positive total, the
      region's electricity bus (created when missing) and a demand sink. */
  function ElectricityDemandRule(g: Registry, col: SeriesColumn): (r: Result<Registry, BuildError>)
    ensures ScenarioNodes.Sum(col.values) <= 0.0 ==> r == Success(g)
    ensures r.Success? ==> Extends(g, r.value)
    ensures ScenarioNodes.Sum(col.values) > 0.0 ==>
      r == Put(EnsureBus(g, ElectricityBus(col.region)), Label("demand", "electricity", col.name, col.region),
               DemandSink(ElectricityBus(col.region), col.values))
  {
    if ScenarioNodes.Sum(col.values) <= 0.0 then Success(g)
    else
      var bus := ElectricityBus(col.region);
      var g1 := EnsureBus(g, bus);
      var r := Put(g1, Label("demand", "electricity", col.name, col.region), DemandSink(bus, col.values));
      if r.Success? then ExtendsTransitive(g, g1, r.value); r else r
  }

  /** `add_electricity_demand` */
  function ElectricityDemandSpec(g: Registry, data: InputData): Result<Registry, BuildError>
  {
    if data.electricityDemandSeries.None? then Failure(MissingTable("electricity demand series"))
    else FoldRows(g, data.electricityDemandSeries.value, ElectricityDemandRule)
  }

  /** One district-heating column of `add_district_heating_demand`: for a
      positive total, the region's district heat bus (created when
      missing) and a demand sink labelled by the region alone. */
  function DistrictHeatingRule(g: Registry, col: SeriesColumn): (r: Result<Registry, BuildError>)
    ensures ScenarioNodes.Sum(col.values) <= 0.0 ==> r == Success(g)
    ensures r.Success? ==> Extends(g, r.value)
    ensures ScenarioNodes.Sum(col.values) > 0.0 ==>
      r == Put(EnsureBus(g, DistrictHeatBus(col.region)), Label("demand", "heat", "district", col.region),
               DemandSink(DistrictHeatBus(col.region), col.values))
  {
    if ScenarioNodes.Sum(col.values) <= 0.0 then Success(g)
    else
      var bus := DistrictHeatBus(col.region);
      var g1 := EnsureBus(g, bus);
      var r := Put(g1, Label("demand", "heat", "district", col.region), DemandSink(bus, col.values));
      if r.Success? then ExtendsTransitive(g, g1, r.value); r else r
  }

  /** `add_district_heating_demand`: the district-heating columns of "heat
      demand series". */
  function DistrictHeatingSpec(g: Registry, data: InputData): Result<Registry, BuildError>
  {
    if data.heatDemandSeries.None? then Failure(MissingTable("heat demand series"))
    else FoldRows(g, ScenarioNodes.HeatColumns(data.heatDemandSeries.value, true), DistrictHeatingRule)
  }

  // ------------------------------------------------------- volatile sources

  function VolatileLabel(row: VolatileRow): Label
  {
    Label("source", "ee", row.kind, row.region)
  }

  /** One row of `add_volatile_sources`: a missing feed-in series is an
      error only for a positive capacity; the electricity bus is created
      when missing; the source is added when capacity * sum(series) > 0. */
  function VolatileRule(g: Registry, row: VolatileRow, series: Option<seq<SeriesColumn>>): (r: Result<Registry, BuildError>)
    ensures r == Failure(MissingTimeSeries(row.region, row.kind, row.capacity)) <==>
      ScenarioNodes.LookupSeries(series, row.region, row.kind).None? && row.capacity > 0.0
    ensures r.Success? ==> Extends(g, r.value) && ElectricityBus(row.region) in r.value.entries
    ensures r.Success? ==>
      var feedin := ScenarioNodes.LookupSeries(series, row.region, row.kind).GetOr([0.0]);
      (VolatileLabel(row) in r.value.entries && VolatileLabel(row) !in g.entries)
      <==> row.capacity * ScenarioNodes.Sum(feedin) > 0.0
    ensures r.Success? && VolatileLabel(row) in r.value.entries && VolatileLabel(row) !in g.entries ==>
      r.value.entries[VolatileLabel(row)] ==
        Source(ElectricityBus(row.region), Flow(Some(row.capacity), None, 0.0, 0.0, ScenarioNodes.LookupSeries(series, row.region, row.kind)))
    ensures
      && (ScenarioNodes.LookupSeries(series, row.region, row.kind).Some? || row.capacity <= 0.0)
      && row.capacity * ScenarioNodes.Sum(ScenarioNodes.LookupSeries(series, row.region, row.kind).GetOr([0.0])) > 0.0
      && VolatileLabel(row) in g.entries
      ==> r == Failure(DuplicateKey(VolatileLabel(row)))
    ensures r.Success? ==>
      r.value.entries.Keys == g.entries.Keys + {ElectricityBus(row.region)}
        + (if row.capacity * ScenarioNodes.Sum(ScenarioNodes.LookupSeries(series, row.region, row.kind).GetOr([0.0])) > 0.0
           then {VolatileLabel(row)} else {})
  {
    var feedin := ScenarioNodes.LookupSeries(series, row.region, row.kind);
    if feedin.None? && row.capacity > 0.0 then Failure(MissingTimeSeries(row.region, row.kind, row.capacity))
    else
      var f := feedin.GetOr([0.0]);
      var bus := ElectricityBus(row.region);
      var g1 := EnsureBus(g, bus);
      if row.capacity * ScenarioNodes.Sum(f) > 0.0 then
        var r := Put(g1, VolatileLabel(row), Source(bus, Flow(Some(row.capacity), None, 0.0, 0.0, Some(f))));
        if r.Success? then ExtendsTransitive(g, g1, r.value); r else r
      else Success(g1)
  }

  function VolatileStep(series: Option<seq<SeriesColumn>>): (Registry, VolatileRow) -> Result<Registry, BuildError>
  {
    (g, row) => VolatileRule(g, row, series)
  }

  /** `add_volatile_sources` */
  function VolatileSourcesSpec(g: Registry, data: InputData): Result<Registry, BuildError>
  {
    if data.volatilePlants.None? then Failure(MissingTable("volatile plants"))
    else FoldRows(g, data.volatilePlants.value, VolatileStep(data.volatileSeries))
  }

  // ---------------------------------------------------------------- storages

  function StorageLabel(row: StorageRow): Label
  {
    Label("storage", "electricity", row.name, row.region)
  }

  function StorageNode(row: StorageRow): Node
  {
    Storage(ElectricityBus(row.region),
      PlainFlow.(nominal := Some(row.chargeCapacity)), PlainFlow.(nominal := Some(row.dischargeCapacity)),
      row.energyContent, row.lossRate, row.chargeEfficiency, row.dischargeEfficiency)
  }

  /** One row of `add_electricity_storages`: the region's electricity bus
      must exist. */
  function StorageRule(g: Registry, row: StorageRow): (r: Result<Registry, BuildError>)
    ensures ElectricityBus(row.region) !in g.entries ==> r == Failure(MissingKey(ElectricityBus(row.region)))
    ensures ElectricityBus(row.region) in g.entries ==> r == Put(g, StorageLabel(row), StorageNode(row))
    ensures r.Success? ==> Extends(g, r.value)
  {
    if ElectricityBus(row.region) !in g.entries then Failure(MissingKey(ElectricityBus(row.region)))
    else Put(g, StorageLabel(row), StorageNode(row))
  }

  /** `add_electricity_storages` */
  function StoragesSpec(g: Registry, data: InputData): Result<Registry, BuildError>
  {
    if data.electricityStorages.None? then Failure(MissingTable("electricity storages"))
    else FoldRows(g, data.electricityStorages.value, StorageRule)
  }

  // ---------------------------------------------------------------- mobility

  /** The bus a mobility fuel is made from: the electricity bus for the
      column "electricity", the commodity bus of the row's source otherwise. */
  function MobilitySourceBus(name: string, m: MobilityRow): Label
  {
    if name != "electricity" then FuelBus(m.source, m.sourceRegion) else ElectricityBus(m.sourceRegion)
  }

  function MobilityBus(name: string, region: string): Label
  {
    Label("bus", "mobility", name, region)
  }

  /** One column of `add_mobility`: the row of "mobility" is read first;
      for a positive total, both buses are created when missing, then the
      fuel process and the demand sink are added. */
  function MobilityRule(g: Registry, col: SeriesColumn, t: seq<MobilityRow>): (r: Result<Registry, BuildError>)
    ensures ScenarioNodes.FindMobility(t, col.region, col.name).None? ==> r == Failure(MissingRow("mobility", [col.region, col.name]))
    ensures ScenarioNodes.FindMobility(t, col.region, col.name).Some? && ScenarioNodes.Sum(col.values) <= 0.0 ==> r == Success(g)
    ensures r.Success? ==> Extends(g, r.value)
    ensures r.Success? && ScenarioNodes.Sum(col.values) > 0.0 ==>
      var m := ScenarioNodes.FindMobility(t, col.region, col.name).value;
      var bus := MobilityBus(col.name, col.region);
      && MobilitySourceBus(col.name, m) in r.value.entries && bus in r.value.entries
      && Label("process", "fuel", col.name, col.region) in r.value.entries
      && r.value.entries[Label("process", "fuel", col.name, col.region)] ==
           Transformer(map[MobilitySourceBus(col.name, m) := PlainFlow], map[bus := PlainFlow], map[bus := m.efficiency])
      && Label("demand", "mobility", col.name, col.region) in r.value.entries
      && r.value.entries[Label("demand", "mobility", col.name, col.region)] == DemandSink(bus, col.values)
    ensures ScenarioNodes.FindMobility(t, col.region, col.name).Some? && ScenarioNodes.Sum(col.values) > 0.0 ==>
      var m := ScenarioNodes.FindMobility(t, col.region, col.name).value;
      var process := Label("process", "fuel", col.name, col.region);
      var demand := Label("demand", "mobility", col.name, col.region);
      && (process in g.entries ==> r == Failure(DuplicateKey(process)))
      && (process !in g.entries && demand in g.entries ==> r == Failure(DuplicateKey(demand)))
      && (process !in g.entries && demand !in g.entries ==>
            && r.Success?
            && r.value.entries.Keys
               == g.entries.Keys + {MobilityBus(col.name, col.region), MobilitySourceBus(col.name, m), process, demand})
  {
    match ScenarioNodes.FindMobility(t, col.region, col.name)
    case None => Failure(MissingRow("mobility", [col.region, col.name]))
    case Some(m) =>
      if ScenarioNodes.Sum(col.values) <= 0.0 then Success(g)
      else
        var bus := MobilityBus(col.name, col.region);
        var srcBus := MobilitySourceBus(col.name, m);
        var g1 := EnsureBus(EnsureBus(g, bus), srcBus);
        ExtendsTransitive(g, EnsureBus(g, bus), g1);
        var g2 :- Put(g1, Label("process", "fuel", col.name, col.region),
                      Transformer(map[srcBus := PlainFlow], map[bus := PlainFlow], map[bus := m.efficiency]));
        var r := Put(g2, Label("demand", "mobility", col.name, col.region), DemandSink(bus, col.values));
        if r.Success? then
          ExtendsTransitive(g, g1, g2);
          ExtendsTransitive(g, g2, r.value);
          r
        else r
  }

  function MobilityStep(t: seq<MobilityRow>): (Registry, SeriesColumn) -> Result<Registry, BuildError>
  {
    (g, col) => MobilityRule(g, col, t)
  }

  /** `add_mobility` */
  function MobilitySpec(g: Registry, data: InputData): Result<Registry, BuildError>
  {
    if data.mobilityDemandSeries.None? then Failure(MissingTable("mobility demand series"))
    else if data.mobility.None? then Failure(MissingTable("mobility"))
    else FoldRows(g, data.mobilityDemandSeries.value, MobilityStep(data.mobility.value))
  }

  // ------------------------------------------------------- shortage & excess

  /** The keys whose category contains "bus", in insertion order. */
  function BusKeys(order: seq<Label>): (r: seq<Label>)
    ensures forall k :: k in r <==> k in order && Contains(k.cat, "bus")
    ensures |r| <= |order|
    decreases |order|
  {
    if |order| == 0 then []
    else (if Contains(order[0].cat, "bus") then [order[0]] else []) + BusKeys(order[1..])
  }

  function ExcessLabel(bus: Label): Label
  {
    Label("excess", bus.tag, bus.subtag, bus.region)
  }

  function ShortageLabel(bus: Label): Label
  {
    Label("shortage", bus.tag, bus.subtag, bus.region)
  }

  /** The variable costs of every shortage source. */
  const ShortageCosts: real := 900.0

  /** One bus key of `add_shortage_excess`: an excess sink fed by the bus
      and a shortage source feeding it at the shortage costs. */
  function ShortageExcessRule(g: Registry, bus: Label): (r: Result<Registry, BuildError>)
    ensures bus !in g.entries ==> r == Failure(MissingKey(bus))
    ensures r.Success? ==> Extends(g, r.value)
    ensures r.Success? ==>
      && ExcessLabel(bus) !in g.entries && ShortageLabel(bus) !in g.entries
      && r.value.entries == g.entries[ExcessLabel(bus) := Sink(bus, PlainFlow)]
                                     [ShortageLabel(bus) := Source(bus, PlainFlow.(variableCosts := ShortageCosts))]
  {
    if bus !in g.entries then Failure(MissingKey(bus))
    else
      var g1 :- Put(g, ExcessLabel(bus), Sink(bus, PlainFlow));
      var r := Put(g1, ShortageLabel(bus), Source(bus, PlainFlow.(variableCosts := ShortageCosts)));
      if r.Success? then ExtendsTransitive(g, g1, r.value); r else r
  }

  /** `add_shortage_excess`: the bus keys are collected before the loop. */
  function ShortageExcessSpec(g: Registry): Result<Registry, BuildError>
  {
    FoldRows(g, BusKeys(g.order), ShortageExcessRule)
  }

  lemma {:induction false} ShortageExcessFold(g: Registry, keys: seq<Label>)
    requires FoldRows(g, keys, ShortageExcessRule).Success?
    ensures Extends(g, FoldRows(g, keys, ShortageExcessRule).value)
    ensures forall b :: b in keys ==>
      var h := FoldRows(g, keys, ShortageExcessRule).value;
      && ExcessLabel(b) in h.entries && h.entries[ExcessLabel(b)] == Sink(b, PlainFlow)
      && ShortageLabel(b) in h.entries && h.entries[ShortageLabel(b)] == Source(b, PlainFlow.(variableCosts := ShortageCosts))
    decreases |keys|
  {
    if |keys| > 0 {
      var g1 := ShortageExcessRule(g, keys[0]).value;
      ShortageExcessFold(g1, keys[1..]);
      var h := FoldRows(g1, keys[1..], ShortageExcessRule).value;
      ExtendsTransitive(g, g1, h);
      forall b | b in keys
        ensures ExcessLabel(b) in h.entries && h.entries[ExcessLabel(b)] == Sink(b, PlainFlow)
        ensures ShortageLabel(b) in h.entries && h.entries[ShortageLabel(b)] == Source(b, PlainFlow.(variableCosts := ShortageCosts))
      {
        if b != keys[0] {
          assert b in keys[1..];
        }
      }
    }
  }

  /** Every key whose category contains "bus" gets an excess sink and a
      shortage source at costs 900, and no existing entry changes. */
  lemma ShortageExcessCoversBusKeys(g: Registry)
    requires ShortageExcessSpec(g).Success?
    ensures Extends(g, ShortageExcessSpec(g).value)
    ensures forall b :: b in g.order && Contains(b.cat, "bus") ==>
      var h := ShortageExcessSpec(g).value;
      && ExcessLabel(b) in h.entries && h.entries[ExcessLabel(b)] == Sink(b, PlainFlow)
      && ShortageLabel(b) in h.entries && h.entries[ShortageLabel(b)] == Source(b, PlainFlow.(variableCosts := 900.0))
  {
    ShortageExcessFold(g, BusKeys(g.order));
  }

  // -------------------------------------------------------------- all tables

  /** The number of table stages of `create_solph_nodes_from_data`. */
  const StageCount: nat := 9

  /** Stage `k` of `create_solph_nodes_from_data`, in the builder's order;
      electricity demand, volatile sources and power plants always run,
      the other stages only when their tables are present. */
  function StageSpec(g: Registry, data: InputData, k: nat): Result<Registry, BuildError>
  {
    if k == 0 then ElectricityDemandSpec(g, data)
    else if k == 1 then VolatileSourcesSpec(g, data)
    else if k == 2 then PowerPlantsSpec(g, data)
    else if k == 3 then (if data.decentralisedHeat.Some? then DecentralisedHeatSpec(g, data) else Success(g))
    else if k == 4 then (if data.heatDemandSeries.Some? then DistrictHeatingSpec(g, data) else Success(g))
    else if k == 5 then (if data.chpPlants.Some? then ChpPlantsSpec(g, data) else Success(g))
    else if k == 6 then (if data.electricityStorages.Some? then StoragesSpec(g, data) else Success(g))
    else if k == 7 then (if data.mobility.Some? && data.mobilityDemandSeries.Some? then MobilitySpec(g, data) else Success(g))
    else if k == 8 then (if data.powerLines.Some? then PowerLinesSpec(g, data) else Success(g))
    else Success(g)
  }

  /** The stages from `k` on, then shortage and excess. */
  function BuildFrom(g: Registry, data: InputData, k: nat): Result<Registry, BuildError>
    decreases StageCount - k
  {
    if k >= StageCount then ShortageExcessSpec(g)
    else
      var h :- StageSpec(g, data, k);
      BuildFrom(h, data, k + 1)
  }

  /** Stage `k` as the builder ran it: on an exception the build ends with
      it, otherwise the later stages go on from the new registry. */
  lemma Advance(g: Registry, data: InputData, k: nat, r: Outcome<BuildError>, now: Registry)
    requires k < StageCount && Reports(r, StageSpec(g, data, k), now)
    ensures r.Fail? ==> BuildFrom(g, data, k) == Failure(r.error)
    ensures r.Pass? ==> BuildFrom(g, data, k) == BuildFrom(now, data, k + 1)
  {
  }

  /** After the last stage only shortage and excess remain. */
  lemma BuildFromEnd(g: Registry, data: InputData)
    ensures BuildFrom(g, data, StageCount) == ShortageExcessSpec(g)
  {
  }

  /** `create_solph_nodes_from_data` */
  function BuildSpec(g: Registry, data: InputData): Result<Registry, BuildError>
  {
    BuildFrom(g, data, 0)
  }
}
