/** Properties of the builder as a whole: no node is ever replaced, every
    bus ends up with one excess sink and one shortage source, and the
    table shapes that make the builder raise. */
module BuilderProperties {
  import opened Wrappers
  import opened Strings
  import opened Labels
  import opened NodeRegistry
  import opened ScenarioNodes

  // ------------------------------------------------------------ fold facts

  /** A rule that only ever inserts. */
  ghost predicate InsertOnly<R(!new)>(step: (Registry, R) -> Result<Registry, BuildError>)
  {
    forall h, x :: step(h, x).Success? ==> Extends(h, step(h, x).value)
  }

  /** A table that went through leaves each of its prefixes went through,
      and the registry only grew after that prefix. */
  lemma FoldRowsPrefix<R(!new)>(g: Registry, rows: seq<R>, n: nat, step: (Registry, R) -> Result<Registry, BuildError>)
    requires n <= |rows| && InsertOnly(step)
    requires FoldRows(g, rows, step).Success?
    ensures FoldRows(g, rows[..n], step).Success?
    ensures Extends(FoldRows(g, rows[..n], step).value, FoldRows(g, rows, step).value)
  {
    assert rows == rows[..n] + rows[n..];
    FoldRowsAppend(g, rows[..n], rows[n..], step);
    var h := FoldRows(g, rows[..n], step).value;
    FoldRowsExtends(h, rows[n..], step);
  }

  /** If row `i` always leaves key `k` behind and row `j > i` always fails
      when `k` is already there, the table fails. */
  lemma FoldRowsConflict<R(!new)>(g: Registry, rows: seq<R>, i: nat, j: nat, k: Label, step: (Registry, R) -> Result<Registry, BuildError>)
    requires i < j < |rows| && InsertOnly(step)
    requires forall h :: step(h, rows[i]).Success? ==> k in step(h, rows[i]).value.entries
    requires forall h: Registry :: k in h.entries ==> step(h, rows[j]).Failure?
    ensures FoldRows(g, rows, step).Failure?
  {
    if FoldRows(g, rows, step).Success? {
      FoldRowsPrefix(g, rows, j + 1, step);
      FoldRowsPrefix(g, rows, j, step);
      FoldRowsPrefix(g, rows, i, step);
      var hi := FoldRows(g, rows[..i], step).value;
      var hj := FoldRows(g, rows[..j], step).value;
      FoldRowsNext(g, rows, i, hi, step);
      assert rows[..j][..i + 1] == rows[..i + 1];
      FoldRowsPrefix(g, rows[..j], i + 1, step);
      FoldRowsNext(g, rows, j, hj, step);
      assert false;
    }
  }

  // ------------------------------------------------------ commodity sources

  lemma CommodityStepInsertOnly(co2Price: Option<real>)
    ensures InsertOnly(CommodityStep(co2Price))
  {
    forall h, x ensures CommodityStep(co2Price)(h, x).Success? ==> Extends(h, CommodityStep(co2Price)(h, x).value) {
      assert CommodityStep(co2Price)(h, x) == CommodityRule(h, x, co2Price);
    }
  }

  /** Two commodity rows for the same (region, fuel) make
      `add_commodity_sources` raise: the second one finds its bus taken. */
  lemma RepeatedCommodityRowFails(g: Registry, data: InputData, i: nat, j: nat)
    requires data.commoditySources.Some? && i < j < |data.commoditySources.value|
    requires data.commoditySources.value[i].region == data.commoditySources.value[j].region
    requires CommodityName(data.commoditySources.value[i].fuel) == CommodityName(data.commoditySources.value[j].fuel)
    ensures CommoditySourcesSpec(g, data).Failure?
  {
    var rows := data.commoditySources.value;
    var step := CommodityStep(data.co2Price);
    var bus := CommodityBusLabel(CommodityName(rows[i].fuel), rows[i].region);
    CommodityStepInsertOnly(data.co2Price);
    forall h | step(h, rows[i]).Success? ensures bus in step(h, rows[i]).value.entries {
      assert step(h, rows[i]) == CommodityRule(h, rows[i], data.co2Price);
    }
    forall h: Registry | bus in h.entries ensures step(h, rows[j]).Failure? {
      assert step(h, rows[j]) == CommodityRule(h, rows[j], data.co2Price);
    }
    FoldRowsConflict(g, rows, i, j, bus, step);
  }

  // ------------------------------------------------------------ power lines

  /** Listing a line as "A-B" and again as "B-A" makes the second row
      collide with the reverse converter the first row already added. */
  lemma OppositeLinesCollide(g: Registry, a: string, b: string, first: LineRow, second: LineRow)
    requires '-' !in a && '-' !in b
    requires first.name == a + "-" + b && second.name == b + "-" + a
    requires LineRule(g, first).Success?
    ensures FoldRows(g, [first, second], LineRule) == Failure(DuplicateKey(LineLabel(b, a)))
  {
    SplitPair(a, b, '-');
    SplitPair(b, a, '-');
    var h := LineRule(g, first).value;
    assert [first, second][1..] == [second];
    assert ElectricityBusLabel(a) in h.entries && ElectricityBusLabel(b) in h.entries by {
      var g1 := LineDirectionRule(g, a, b, first).value;
    }
    assert LineRule(h, second) == Failure(DuplicateKey(LineLabel(b, a)));
  }

  // ------------------------------------------------------- shortage & excess

  /** The labels `add_shortage_excess` adds for `keys`, in insertion order. */
  function GuardLabels(keys: seq<Label>): (r: seq<Label>)
    ensures |r| == 2 * |keys|
  {
    if |keys| == 0 then []
    else [ExcessLabel(keys[0]), ShortageLabel(keys[0])] + GuardLabels(keys[1..])
  }

  /** Each guard label belongs to one of the keys. */
  lemma {:induction false} GuardLabelOf(keys: seq<Label>, k: Label)
    requires k in GuardLabels(keys)
    ensures exists b :: b in keys && (k == ExcessLabel(b) || k == ShortageLabel(b))
    decreases |keys|
  {
    if k != ExcessLabel(keys[0]) && k != ShortageLabel(keys[0]) {
      GuardLabelOf(keys[1..], k);
      var b :| b in keys[1..] && (k == ExcessLabel(b) || k == ShortageLabel(b));
      assert b in keys;
    }
  }

  /** A run of the shortage-and-excess rule over `keys` only inserts, and
      appends exactly the guard labels. */
  lemma ShortageExcessFoldOrder(g: Registry, keys: seq<Label>)
    ensures FoldRows(g, keys, ShortageExcessRule).Success? ==>
      var h := FoldRows(g, keys, ShortageExcessRule).value;
      Extends(g, h) && h.order == g.order + GuardLabels(keys)
  {
    FoldRowsExtends(g, keys, ShortageExcessRule);
    ShortageExcessAppends(g, keys);
  }

  /** The order after a run is the order before it and the guard labels. */
  lemma {:induction false} ShortageExcessAppends(g: Registry, keys: seq<Label>)
    ensures FoldRows(g, keys, ShortageExcessRule).Success? ==>
      FoldRows(g, keys, ShortageExcessRule).value.order == g.order + GuardLabels(keys)
    decreases |keys|
  {
    if |keys| == 0 {
      assert g.order + [] == g.order;
    } else if FoldRows(g, keys, ShortageExcessRule).Success? {
      var r1 := ShortageExcessRule(g, keys[0]);
      var rest := keys[1..];
      assert r1.Success? && FoldRows(g, keys, ShortageExcessRule) == FoldRows(r1.value, rest, ShortageExcessRule);
      var g1 := r1.value;
      ShortageExcessAppends(g1, rest);
      AppendAfter(g.order, g1.order, FoldRows(g1, rest, ShortageExcessRule).value.order,
                  [ExcessLabel(keys[0]), ShortageLabel(keys[0])], GuardLabels(rest), GuardLabels(keys));
    }
  }

  /** Appending a pair and then the rest appends the pair followed by the rest. */
  lemma AppendAfter(before: seq<Label>, middle: seq<Label>, after: seq<Label>, pair: seq<Label>, rest: seq<Label>, all: seq<Label>)
    requires middle == before + pair && after == middle + rest && all == pair + rest
    ensures after == before + all
  {
  }

  /** None of the guard labels was in the registry before the run. */
  lemma {:induction false} ShortageExcessFoldFresh(g: Registry, keys: seq<Label>)
    ensures FoldRows(g, keys, ShortageExcessRule).Success? ==>
      forall k :: k in GuardLabels(keys) ==> k !in g.entries
    decreases |keys|
  {
    if |keys| > 0 && FoldRows(g, keys, ShortageExcessRule).Success? {
      var r1 := ShortageExcessRule(g, keys[0]);
      assert r1.Success?;
      var g1 := r1.value;
      ShortageExcessFoldFresh(g1, keys[1..]);
      assert FoldRows(g, keys, ShortageExcessRule) == FoldRows(g1, keys[1..], ShortageExcessRule);
      assert GuardLabels(keys) == [ExcessLabel(keys[0]), ShortageLabel(keys[0])] + GuardLabels(keys[1..]);
      forall k | k in GuardLabels(keys) ensures k !in g.entries {
        if k in GuardLabels(keys[1..]) {
          assert k !in g1.entries;
        }
      }
    }
  }

  /** After a run over `keys`, every key has its excess sink and shortage
      source, and every other entry was there before. */
  lemma {:induction false} ShortageExcessFoldEntries(g: Registry, keys: seq<Label>)
    ensures FoldRows(g, keys, ShortageExcessRule).Success? ==>
      var h := FoldRows(g, keys, ShortageExcessRule).value;
      && (forall k :: k in h.entries ==> k in g.entries || k in GuardLabels(keys))
      && (forall b :: b in keys ==>
            && ExcessLabel(b) in h.entries && h.entries[ExcessLabel(b)] == Sink(b, PlainFlow)
            && ShortageLabel(b) in h.entries
            && h.entries[ShortageLabel(b)] == Source(b, PlainFlow.(variableCosts := ShortageCosts)))
    decreases |keys|
  {
    if |keys| > 0 && FoldRows(g, keys, ShortageExcessRule).Success? {
      var g1 := ShortageExcessRule(g, keys[0]).value;
      ShortageExcessFoldEntries(g1, keys[1..]);
      ShortageExcessFoldOrder(g1, keys[1..]);
      var h := FoldRows(g1, keys[1..], ShortageExcessRule).value;
      assert FoldRows(g, keys, ShortageExcessRule).value == h;
      assert GuardLabels(keys) == [ExcessLabel(keys[0]), ShortageLabel(keys[0])] + GuardLabels(keys[1..]);
      forall b | b in keys
        ensures ExcessLabel(b) in h.entries && h.entries[ExcessLabel(b)] == Sink(b, PlainFlow)
        ensures ShortageLabel(b) in h.entries
        ensures h.entries[ShortageLabel(b)] == Source(b, PlainFlow.(variableCosts := ShortageCosts))
      {
        if b != keys[0] {
          assert b in keys[1..];
        }
      }
    }
  }

  /** `add_shortage_excess` gives every bus one excess sink and one
      shortage source (variable costs 9999), adds two entries per bus and
      nothing else, and changes no existing entry. */
  lemma ShortageExcessCoversEveryBus(g: Registry)
    requires ShortageExcessSpec(g).Success?
    ensures var h := ShortageExcessSpec(g).value;
      && Extends(g, h)
      && |h.order| == |g.order| + 2 * |BusKeys(g)|
      && (forall b :: b in g.order && b in g.entries && g.entries[b] == Bus ==>
            && ExcessLabel(b) in h.entries && h.entries[ExcessLabel(b)] == Sink(b, PlainFlow)
            && ShortageLabel(b) in h.entries
            && h.entries[ShortageLabel(b)] == Source(b, PlainFlow.(variableCosts := ShortageCosts)))
      && (forall k :: k in h.entries && k !in g.entries ==> h.entries[k].Sink? || h.entries[k].Source?)
  {
    var h := ShortageExcessSpec(g).value;
    ShortageExcessFoldOrder(g, BusKeys(g));
    ShortageExcessFoldEntries(g, BusKeys(g));
    forall k | k in h.entries && k !in g.entries ensures h.entries[k].Sink? || h.entries[k].Source? {
      GuardLabelOf(BusKeys(g), k);
      var b :| b in BusKeys(g) && (k == ExcessLabel(b) || k == ShortageLabel(b));
    }
  }

  /** The labels of the guards drop the bus's tag, so two buses that differ
      only in their tag make `add_shortage_excess` raise. */
  lemma ShortageExcessTagCollision(g: Registry, i: nat, j: nat)
    requires i < j < |BusKeys(g)|
    requires ExcessLabel(BusKeys(g)[i]) == ExcessLabel(BusKeys(g)[j])
    ensures ShortageExcessSpec(g).Failure?
  {
    var keys := BusKeys(g);
    var k := ExcessLabel(keys[i]);
    FoldRowsConflict(g, keys, i, j, k, ShortageExcessRule);
  }

  // -------------------------------------------------------------- all tables

  lemma ElectricityDemandStepInsertOnly(dr: map<seq<string>, DsmParams>)
    ensures InsertOnly(ElectricityDemandStep(dr))
  {
    forall h, x ensures ElectricityDemandStep(dr)(h, x).Success? ==> Extends(h, ElectricityDemandStep(dr)(h, x).value) {
      assert ElectricityDemandStep(dr)(h, x) == ElectricityDemandRule(h, x, dr);
    }
  }

  lemma VolatileStepInsertOnly(series: Option<seq<SeriesColumn>>)
    ensures InsertOnly(VolatileStep(series))
  {
    forall h, x ensures VolatileStep(series)(h, x).Success? ==> Extends(h, VolatileStep(series)(h, x).value) {
      assert VolatileStep(series)(h, x) == VolatileRule(h, x, series);
    }
  }

  lemma DistrictHeatingStepInsertOnly(dr: map<seq<string>, DsmParams>)
    ensures InsertOnly(DistrictHeatingStep(dr))
  {
    forall h, x ensures DistrictHeatingStep(dr)(h, x).Success? ==> Extends(h, DistrictHeatingStep(dr)(h, x).value) {
      assert DistrictHeatingStep(dr)(h, x) == DistrictHeatingRule(h, x, dr);
    }
  }

  lemma OtherDemandStepInsertOnly(dr: map<seq<string>, DsmParams>)
    ensures InsertOnly(OtherDemandStep(dr))
  {
    forall h, x ensures OtherDemandStep(dr)(h, x).Success? ==> Extends(h, OtherDemandStep(dr)(h, x).value) {
      assert OtherDemandStep(dr)(h, x) == OtherDemandRule(h, x, dr);
    }
  }

  lemma DecentralisedHeatStepInsertOnly(dh: seq<HeatSystemRow>, dr: map<seq<string>, DsmParams>)
    ensures InsertOnly(DecentralisedHeatStep(dh, dr))
  {
    forall h, x ensures DecentralisedHeatStep(dh, dr)(h, x).Success? ==> Extends(h, DecentralisedHeatStep(dh, dr)(h, x).value) {
      assert DecentralisedHeatStep(dh, dr)(h, x) == DecentralisedHeatRule(h, x, dh, dr);
    }
  }

  lemma MobilityStepInsertOnly(t: seq<MobilityRow>, dr: map<seq<string>, DsmParams>)
    ensures InsertOnly(MobilityStep(t, dr))
  {
    forall h, x ensures MobilityStep(t, dr)(h, x).Success? ==> Extends(h, MobilityStep(t, dr)(h, x).value) {
      assert MobilityStep(t, dr)(h, x) == MobilityRule(h, x, t, dr);
    }
  }

  /** Every stage only inserts. */
  lemma StageInsertOnly(g: Registry, data: InputData, k: nat)
    ensures StageSpec(g, data, k).Success? ==> Extends(g, StageSpec(g, data, k).value)
  {
    if k < 6 {
      EarlyStageInsertOnly(g, data, k);
    } else {
      LateStageInsertOnly(g, data, k);
    }
  }

  lemma EarlyStageInsertOnly(g: Registry, data: InputData, k: nat)
    requires k < 6
    ensures StageSpec(g, data, k).Success? ==> Extends(g, StageSpec(g, data, k).value)
  {
    if k == 0 && data.commoditySources.Some? {
      CommodityStepInsertOnly(data.co2Price);
      FoldRowsExtends(g, data.commoditySources.value, CommodityStep(data.co2Price));
    } else if k == 1 && data.electricityDemandSeries.Some? {
      ElectricityDemandStepInsertOnly(data.demandResponse);
      FoldRowsExtends(g, data.electricityDemandSeries.value, ElectricityDemandStep(data.demandResponse));
    } else if k == 2 && data.volatilePlants.Some? {
      VolatileStepInsertOnly(data.volatileSeries);
      FoldRowsExtends(g, data.volatilePlants.value, VolatileStep(data.volatileSeries));
    } else if k == 3 && data.powerPlants.Some? {
      assert InsertOnly(PowerPlantRule);
      var g1 := EnsureElectricityBuses(g, PowerPlantRegions(data.powerPlants.value));
      FoldRowsExtends(g1, data.powerPlants.value, PowerPlantRule);
      if StageSpec(g, data, k).Success? {
        ExtendsTransitive(g, g1, StageSpec(g, data, k).value);
      }
    } else if k == 4 && data.decentralisedHeat.Some? && data.heatDemandSeries.Some? {
      var dh := data.decentralisedHeat.value;
      DecentralisedHeatStepInsertOnly(dh, data.demandResponse);
      FoldRowsExtends(g, HeatColumns(data.heatDemandSeries.value, false), DecentralisedHeatStep(dh, data.demandResponse));
    } else if k == 5 && data.heatDemandSeries.Some? {
      DistrictHeatingStepInsertOnly(data.demandResponse);
      FoldRowsExtends(g, HeatColumns(data.heatDemandSeries.value, true), DistrictHeatingStep(data.demandResponse));
    }
  }

  lemma LateStageInsertOnly(g: Registry, data: InputData, k: nat)
    requires k >= 6
    ensures StageSpec(g, data, k).Success? ==> Extends(g, StageSpec(g, data, k).value)
  {
    if k == 6 {
      if data.chpPlants.Some? {
        assert StageSpec(g, data, k) == ChpPlantsSpec(g, data);
        ChpStageInsertOnly(g, data);
      } else {
        assert StageSpec(g, data, k) == Success(g);
      }
    } else if k == 7 {
      if data.electricityStorages.Some? || data.storages.Some? {
        assert StageSpec(g, data, k) == StoragesSpec(g, data);
        StorageStageInsertOnly(g, data);
      } else {
        assert StageSpec(g, data, k) == Success(g);
      }
    } else {
      FinalStageInsertOnly(g, data, k);
    }
  }

  lemma FinalStageInsertOnly(g: Registry, data: InputData, k: nat)
    requires k >= 8
    ensures StageSpec(g, data, k).Success? ==> Extends(g, StageSpec(g, data, k).value)
  {
    if k == 8 && data.mobility.Some? && data.mobilityDemandSeries.Some? {
      var step := MobilityStep(data.mobility.value, data.demandResponse);
      assert StageSpec(g, data, k) == FoldRows(g, data.mobilityDemandSeries.value, step);
      MobilityStepInsertOnly(data.mobility.value, data.demandResponse);
      FoldRowsExtends(g, data.mobilityDemandSeries.value, step);
    } else if k == 9 && data.otherDemandSeries.Some? {
      var step := OtherDemandStep(data.demandResponse);
      assert StageSpec(g, data, k) == FoldRows(g, data.otherDemandSeries.value, step);
      OtherDemandStepInsertOnly(data.demandResponse);
      FoldRowsExtends(g, data.otherDemandSeries.value, step);
    } else if k == 10 && data.otherConverters.Some? {
      assert StageSpec(g, data, k) == FoldRows(g, data.otherConverters.value, ConverterRule);
      assert InsertOnly(ConverterRule);
      FoldRowsExtends(g, data.otherConverters.value, ConverterRule);
    } else if k == 11 && data.powerLines.Some? {
      assert StageSpec(g, data, k) == FoldRows(g, data.powerLines.value, LineRule);
      assert InsertOnly(LineRule);
      FoldRowsExtends(g, data.powerLines.value, LineRule);
    } else {
      assert StageSpec(g, data, k) == Success(g);
    }
  }

  /** The storage stage only inserts. */
  lemma StorageStageInsertOnly(g: Registry, data: InputData)
    ensures StoragesSpec(g, data).Success? ==> Extends(g, StoragesSpec(g, data).value)
  {
    if StorageTable(data).Success? {
      assert InsertOnly(StorageRule);
      FoldRowsExtends(g, StorageTable(data).value, StorageRule);
    }
  }

  /** The CHP stage only inserts: the electricity buses first, then the
      rows. */
  lemma ChpStageInsertOnly(g: Registry, data: InputData)
    requires data.chpPlants.Some?
    ensures ChpPlantsSpec(g, data).Success? ==> Extends(g, ChpPlantsSpec(g, data).value)
  {
    assert InsertOnly(ChpRule);
    var g1 := EnsureElectricityBuses(g, ChpRegions(data.chpPlants.value));
    var r := FoldRows(g1, data.chpPlants.value, ChpRule);
    assert ChpPlantsSpec(g, data) == r;
    FoldRowsExtends(g1, data.chpPlants.value, ChpRule);
    if r.Success? {
      ExtendsTransitive(g, g1, r.value);
    }
  }

  /** The stages from `k` on only insert, and every bus present before
      shortage and excess gets both guards. */
  lemma {:induction false} BuildFromFacts(g: Registry, data: InputData, k: nat)
    requires BuildFrom(g, data, k).Success?
    ensures Extends(g, BuildFrom(g, data, k).value)
    ensures var h := BuildFrom(g, data, k).value;
      forall b :: b in h.order && b in h.entries && h.entries[b] == Bus ==>
        ExcessLabel(b) in h.entries && ShortageLabel(b) in h.entries
    decreases StageCount - k
  {
    var h := BuildFrom(g, data, k).value;
    if k >= StageCount {
      ShortageExcessCoversEveryBus(g);
      forall b | b in h.order && b in h.entries && h.entries[b] == Bus
        ensures ExcessLabel(b) in h.entries && ShortageLabel(b) in h.entries
      {
        ShortageExcessFoldOrder(g, BusKeys(g));
        ShortageExcessFoldFresh(g, BusKeys(g));
        assert b !in GuardLabels(BusKeys(g));
        assert b in g.order;
      }
    } else {
      StageInsertOnly(g, data, k);
      var g1 := StageSpec(g, data, k).value;
      BuildFromFacts(g1, data, k + 1);
      ExtendsTransitive(g, g1, h);
    }
  }

  /** `create_solph_nodes_from_data` never replaces a node that was in the
      dictionary, and leaves every bus with an excess sink and a shortage
      source. */
  lemma BuildSpecFacts(g: Registry, data: InputData)
    requires BuildSpec(g, data).Success?
    ensures Extends(g, BuildSpec(g, data).value)
    ensures var h := BuildSpec(g, data).value;
      forall b :: b in h.order && b in h.entries && h.entries[b] == Bus ==>
        ExcessLabel(b) in h.entries && ShortageLabel(b) in h.entries
  {
    BuildFromFacts(g, data, 0);
  }
}
