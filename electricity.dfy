/** The merit order of src/deflex/postprocessing/electricity.py: the power
    plants of a scenario, or the components feeding the electricity buses
    of a result, with their total specific costs, sorted by costs and then
    capacity, and with the cumulated capacity in thousands. A quotient
    whose divisor is zero (an infinite or undefined value in pandas) is
    None, and so is a value computed from a fuel without a commodity
    row; such rows sort last, as pandas puts NaN last. */
module Electricity {
  import opened Wrappers
  import opened Strings
  import opened Labels
  import opened Analyses

  // ---------------------------------------------------------------------
  // Sorting by (costs_total, capacity) and the cumulated capacity

  /** The sort key of a row: its total costs, None for NaN, then its
      capacity. */
  datatype SortKey = SortKey(cost: Option<real>, capacity: real)

  /** `sort_values(["costs_total", "capacity"])` with NaN costs last. */
  predicate KeyLe(a: SortKey, b: SortKey)
  {
    match (a.cost, b.cost)
    case (None, None) => a.capacity <= b.capacity
    case (Some(_), None) => true
    case (None, Some(_)) => false
    case (Some(x), Some(y)) => x < y || (x == y && a.capacity <= b.capacity)
  }

  lemma KeyLeTotal(a: SortKey, b: SortKey)
    ensures KeyLe(a, b) || KeyLe(b, a)
  {
  }

  lemma KeyLeTransitive(a: SortKey, b: SortKey, c: SortKey)
    requires KeyLe(a, b) && KeyLe(b, c)
    ensures KeyLe(a, c)
  {
  }

  predicate SortedBy<T>(s: seq<T>, key: T -> SortKey)
  {
    forall i, j :: 0 <= i < j < |s| ==> KeyLe(key(s[i]), key(s[j]))
  }

  /** `x` placed before the first element it does not exceed. */
  function Insert<T>(x: T, s: seq<T>, key: T -> SortKey): (r: seq<T>)
    ensures multiset(r) == multiset(s) + multiset{x}
    decreases |s|
  {
    if |s| == 0 || KeyLe(key(x), key(s[0])) then [x] + s
    else
      var rest := Insert(x, s[1..], key);
      assert s == [s[0]] + s[1..];
      [s[0]] + rest
  }

  /** Inserting into a sorted sequence keeps it sorted. */
  lemma {:induction false} InsertSorted<T>(x: T, s: seq<T>, key: T -> SortKey)
    requires SortedBy(s, key)
    ensures SortedBy(Insert(x, s, key), key)
    decreases |s|
  {
    if |s| == 0 || KeyLe(key(x), key(s[0])) {
      var r := [x] + s;
      forall i, j | 0 <= i < j < |r|
        ensures KeyLe(key(r[i]), key(r[j]))
      {
        if i == 0 && j > 1 {
          KeyLeTransitive(key(x), key(s[0]), key(s[j - 1]));
        }
      }
    } else {
      var rest := Insert(x, s[1..], key);
      InsertSorted(x, s[1..], key);
      KeyLeTotal(key(x), key(s[0]));
      var r := [s[0]] + rest;
      forall j | 0 <= j < |rest|
        ensures KeyLe(key(s[0]), key(rest[j]))
      {
        assert rest[j] in multiset(rest);
        if rest[j] != x {
          assert rest[j] in multiset(s[1..]);
          var k :| 0 <= k < |s[1..]| && s[1..][k] == rest[j];
          assert s[k + 1] == rest[j];
        }
      }
      forall i, j | 0 <= i < j < |r|
        ensures KeyLe(key(r[i]), key(r[j]))
      {
        if i == 0 {
          assert r[j] == rest[j - 1];
        } else {
          assert r[i] == rest[i - 1] && r[j] == rest[j - 1];
        }
      }
    }
  }

  /** The rows sorted by their key. */
  function Sort<T>(s: seq<T>, key: T -> SortKey): (r: seq<T>)
    decreases |s|
  {
    if |s| == 0 then [] else Insert(s[0], Sort(s[1..], key), key)
  }

  /** The sort is sorted and a permutation of its input. */
  lemma {:induction false} SortCorrect<T>(s: seq<T>, key: T -> SortKey)
    ensures SortedBy(Sort(s, key), key)
    ensures multiset(Sort(s, key)) == multiset(s)
    decreases |s|
  {
    if |s| > 0 {
      SortCorrect(s[1..], key);
      InsertSorted(s[0], Sort(s[1..], key), key);
      assert s == [s[0]] + s[1..];
    }
  }

  function Sum(s: seq<real>): real
    decreases |s|
  {
    if |s| == 0 then 0.0 else Sum(s[..|s| - 1]) + s[|s| - 1]
  }

  /** `capacity.cumsum().div(1000)` */
  function CapacityCum(caps: seq<real>): (r: seq<real>)
    ensures |r| == |caps|
    decreases |caps|
  {
    if |caps| == 0 then []
    else CapacityCum(caps[..|caps| - 1]) + [Sum(caps) / 1000.0]
  }

  /** Entry `i` is the capacity of the first `i + 1` rows in thousands, so
      the last entry is the total; with non-negative capacities it never
      decreases. */
  lemma {:induction false} CapacityCumFacts(caps: seq<real>)
    ensures forall i :: 0 <= i < |caps| ==> CapacityCum(caps)[i] == Sum(caps[..i + 1]) / 1000.0
    ensures |caps| > 0 ==> CapacityCum(caps)[|caps| - 1] == Sum(caps) / 1000.0
    ensures (forall i :: 0 <= i < |caps| ==> caps[i] >= 0.0) ==>
      forall i :: 0 < i < |caps| ==> CapacityCum(caps)[i - 1] <= CapacityCum(caps)[i]
    decreases |caps|
  {
    if |caps| > 0 {
      var n := |caps| - 1;
      var front := caps[..n];
      CapacityCumFacts(front);
      assert caps[..n + 1] == caps;
      forall i | 0 <= i < n
        ensures CapacityCum(caps)[i] == Sum(caps[..i + 1]) / 1000.0
      {
        assert caps[..i + 1] == front[..i + 1];
      }
      if n > 0 {
        assert caps[..n] == front;
        assert Sum(caps) == Sum(front) + caps[n];
      }
    }
  }

  // ---------------------------------------------------------------------
  // merit_order_from_scenario

  /** A row of the scenario's "power plants" table. */
  datatype PlantRow = PlantRow(
    region: string, name: string, fuel: string, capacity: real,
    variableCosts: Option<real>, efficiency: real, downtime: Option<real>)

  /** A row of the "commodity sources" table of region "DE". */
  datatype Commodity = Commodity(costs: real, emission: real)

  /** A row of the merit order built from a scenario. */
  datatype ScenarioMeritRow = ScenarioMeritRow(
    plant: PlantRow, fuelEmission: Option<real>, specEmission: Option<real>,
    costsTotal: Option<real>, capacityCum: real)

  /** The "power plants" table; the operation updates its capacities in
      place. */
  class PlantTable {
    var rows: seq<PlantRow>
    var hasDowntime: bool

    constructor (rows: seq<PlantRow>, hasDowntime: bool)
      ensures this.rows == rows && this.hasDowntime == hasDowntime
    {
      this.rows := rows;
      this.hasDowntime := hasDowntime;
    }
  }

  /** `a / b`, None when `b` is zero. */
  function Quot(a: real, b: real): (r: Option<real>)
    ensures r.Some? <==> b != 0.0
    ensures r.Some? ==> r.value * b == a
  {
    if b == 0.0 then None else Some(a / b)
  }

  /** `transf["capacity"] *= 1 - downtime_factor.fillna(0.1)` */
  function Derated(rows: seq<PlantRow>): (r: seq<PlantRow>)
    ensures |r| == |rows|
    ensures forall i :: 0 <= i < |rows| ==>
      r[i] == rows[i].(capacity := rows[i].capacity * (1.0 - rows[i].downtime.GetOr(0.1)))
  {
    seq(|rows|, i requires 0 <= i < |rows| =>
      rows[i].(capacity := rows[i].capacity * (1.0 - rows[i].downtime.GetOr(0.1))))
  }

  /** `transf.loc[transf["capacity"] != 0]` */
  function NonZero(rows: seq<PlantRow>): (r: seq<PlantRow>)
    ensures forall p :: p in r <==> p in rows && p.capacity != 0.0
    ensures multiset(r) <= multiset(rows)
    decreases |rows|
  {
    if |rows| == 0 then []
    else
      var n := |rows| - 1;
      var front := NonZero(rows[..n]);
      assert rows == rows[..n] + [rows[n]];
      front + (if rows[n].capacity != 0.0 then [rows[n]] else [])
  }

  /** The merged commodity values and the costs of one plant:
      spec_emission = emission / efficiency and costs_total =
      variable_costs (NaN read as 1) + costs / efficiency, plus
      co2 price * emission / efficiency with `with_co2_price`. */
  function PlantCosts(p: PlantRow, commodities: map<string, Commodity>, co2: real, withCo2: bool): (r: ScenarioMeritRow)
    ensures r.plant == p && r.capacityCum == 0.0
  {
    if p.fuel !in commodities then ScenarioMeritRow(p, None, None, None, 0.0)
    else
      var c := commodities[p.fuel];
      var perFuel := Quot(c.costs, p.efficiency);
      var perEmission := Quot(c.emission, p.efficiency);
      var base := if perFuel.Some? then Some(p.variableCosts.GetOr(1.0) + perFuel.value) else None;
      var total := if withCo2 && base.Some? && perEmission.Some? then Some(base.value + co2 * perEmission.value)
                   else if withCo2 then None
                   else base;
      ScenarioMeritRow(p, Some(c.emission), perEmission, total, 0.0)
  }

  function ScenarioKey(r: ScenarioMeritRow): SortKey
  {
    SortKey(r.costsTotal, r.plant.capacity)
  }

  /** The capacities of merit-order rows. */
  function ScenarioCaps(rows: seq<ScenarioMeritRow>): (r: seq<real>)
    ensures |r| == |rows| && forall i :: 0 <= i < |rows| ==> r[i] == rows[i].plant.capacity
  {
    seq(|rows|, i requires 0 <= i < |rows| => rows[i].plant.capacity)
  }

  /** The rows with their `capacity_cum`. */
  function WithScenarioCum(rows: seq<ScenarioMeritRow>): (r: seq<ScenarioMeritRow>)
    ensures |r| == |rows|
    ensures forall i :: 0 <= i < |rows| ==> r[i] == rows[i].(capacityCum := CapacityCum(ScenarioCaps(rows))[i])
  {
    var cum := CapacityCum(ScenarioCaps(rows));
    seq(|rows|, i requires 0 <= i < |rows| => rows[i].(capacityCum := cum[i]))
  }

  /** The rows without their `capacity_cum`. */
  function Uncum(rows: seq<ScenarioMeritRow>): (r: seq<ScenarioMeritRow>)
    ensures |r| == |rows| && forall i :: 0 <= i < |rows| ==> r[i] == rows[i].(capacityCum := 0.0)
  {
    seq(|rows|, i requires 0 <= i < |rows| => rows[i].(capacityCum := 0.0))
  }

  /** The capacities after the optional derating. */
  function PlantsUsed(rows: seq<PlantRow>, hasDowntime: bool, withDowntime: bool): seq<PlantRow>
  {
    if withDowntime && hasDowntime then Derated(rows) else rows
  }

  /** The merit order of the plants before sorting. */
  function ScenarioRows(rows: seq<PlantRow>, commodities: map<string, Commodity>, co2: real, withCo2: bool): (r: seq<ScenarioMeritRow>)
    ensures |r| == |rows| && forall i :: 0 <= i < |rows| ==> r[i] == PlantCosts(rows[i], commodities, co2, withCo2)
  {
    seq(|rows|, i requires 0 <= i < |rows| => PlantCosts(rows[i], commodities, co2, withCo2))
  }

  /** The plants kept, with their costs. */
  function ScenarioCosted(rows: seq<PlantRow>, hasDowntime: bool, commodities: map<string, Commodity>,
                          co2: Option<real>, withDowntime: bool, withCo2: bool): seq<ScenarioMeritRow>
  {
    ScenarioRows(NonZero(PlantsUsed(rows, hasDowntime, withDowntime)), commodities, co2.GetOr(0.0), withCo2)
  }

  /** `merit_order_from_scenario`: the merit order it returns from the
      table it is given. */
  function ScenarioMeritOrder(rows: seq<PlantRow>, hasDowntime: bool, commodities: map<string, Commodity>,
                              co2: Option<real>, withDowntime: bool, withCo2: bool): (r: seq<ScenarioMeritRow>)
    ensures |r| == |NonZero(PlantsUsed(rows, hasDowntime, withDowntime))|
    ensures forall i :: 0 <= i < |r| ==> r[i].capacityCum == Sum(ScenarioCaps(r)[..i + 1]) / 1000.0
  {
    var sorted := Sort(ScenarioCosted(rows, hasDowntime, commodities, co2, withDowntime, withCo2), ScenarioKey);
    SortedCostedRows(NonZero(PlantsUsed(rows, hasDowntime, withDowntime)), commodities, co2.GetOr(0.0), withCo2);
    ScenarioCumRows(sorted);
    WithScenarioCum(sorted)
  }

  /** `merit_order_from_scenario(scenario, with_downtime, with_co2_price)`.
      The derating is applied to the scenario's own table. */
  method MeritOrderFromScenario(table: PlantTable, commodities: map<string, Commodity>, co2: Option<real>,
                                withDowntime: bool, withCo2: bool) returns (mo: seq<ScenarioMeritRow>)
    modifies table
    ensures table.rows == PlantsUsed(old(table.rows), table.hasDowntime, withDowntime)
    ensures table.hasDowntime == old(table.hasDowntime)
    ensures mo == ScenarioMeritOrder(old(table.rows), table.hasDowntime, commodities, co2, withDowntime, withCo2)
  {
    if withDowntime && table.hasDowntime {
      table.rows := Derated(table.rows);
    }
    var used := NonZero(table.rows);
    var costed := ScenarioRows(used, commodities, co2.GetOr(0.0), withCo2);
    mo := WithScenarioCum(Sort(costed, ScenarioKey));
  }

  /** The merit order is sorted by costs and then capacity. */
  lemma ScenarioMeritOrderSorted(rows: seq<PlantRow>, hasDowntime: bool, commodities: map<string, Commodity>,
                                 co2: Option<real>, withDowntime: bool, withCo2: bool)
    ensures var mo := ScenarioMeritOrder(rows, hasDowntime, commodities, co2, withDowntime, withCo2);
      forall i, j :: 0 <= i < j < |mo| ==> KeyLe(ScenarioKey(mo[i]), ScenarioKey(mo[j]))
  {
    var costed := ScenarioCosted(rows, hasDowntime, commodities, co2, withDowntime, withCo2);
    var sorted := Sort(costed, ScenarioKey);
    SortCorrect(costed, ScenarioKey);
    var mo := WithScenarioCum(sorted);
    assert forall i :: 0 <= i < |mo| ==> ScenarioKey(mo[i]) == ScenarioKey(sorted[i]);
  }

  /** Sorting the costed plants keeps their number, and every sorted row is
      a plant of the list with no cumulated capacity yet. */
  lemma SortedCostedRows(used: seq<PlantRow>, commodities: map<string, Commodity>, co2: real, withCo2: bool)
    ensures var sorted := Sort(ScenarioRows(used, commodities, co2, withCo2), ScenarioKey);
      |sorted| == |used| &&
      forall i :: 0 <= i < |sorted| ==> sorted[i].capacityCum == 0.0 && sorted[i].plant in used
  {
    var costed := ScenarioRows(used, commodities, co2, withCo2);
    var sorted := Sort(costed, ScenarioKey);
    SortCorrect(costed, ScenarioKey);
    assert |sorted| == |costed| by {
      assert |multiset(sorted)| == |multiset(costed)|;
    }
    forall i | 0 <= i < |sorted|
      ensures sorted[i].capacityCum == 0.0 && sorted[i].plant in used
    {
      assert sorted[i] in multiset(costed);
      var k :| 0 <= k < |costed| && costed[k] == sorted[i];
    }
  }

  /** The merit order holds, but for the cumulated capacity, exactly the
      costed plants, each as often as in the table. */
  lemma ScenarioMeritOrderPermutation(rows: seq<PlantRow>, hasDowntime: bool, commodities: map<string, Commodity>,
                                      co2: Option<real>, withDowntime: bool, withCo2: bool)
    ensures var mo := ScenarioMeritOrder(rows, hasDowntime, commodities, co2, withDowntime, withCo2);
      |mo| == |NonZero(PlantsUsed(rows, hasDowntime, withDowntime))| &&
      multiset(Uncum(mo)) == multiset(ScenarioCosted(rows, hasDowntime, commodities, co2, withDowntime, withCo2))
  {
    var used := NonZero(PlantsUsed(rows, hasDowntime, withDowntime));
    var costed := ScenarioCosted(rows, hasDowntime, commodities, co2, withDowntime, withCo2);
    var sorted := Sort(costed, ScenarioKey);
    SortCorrect(costed, ScenarioKey);
    SortedCostedRows(used, commodities, co2.GetOr(0.0), withCo2);
    var mo := WithScenarioCum(sorted);
    assert Uncum(mo) == sorted;
  }

  /** No plant of zero capacity is in the merit order. */
  lemma ScenarioMeritOrderNonZero(rows: seq<PlantRow>, hasDowntime: bool, commodities: map<string, Commodity>,
                                  co2: Option<real>, withDowntime: bool, withCo2: bool)
    ensures var mo := ScenarioMeritOrder(rows, hasDowntime, commodities, co2, withDowntime, withCo2);
      forall i :: 0 <= i < |mo| ==> mo[i].plant.capacity != 0.0
  {
    var used := NonZero(PlantsUsed(rows, hasDowntime, withDowntime));
    SortedCostedRows(used, commodities, co2.GetOr(0.0), withCo2);
  }

  /** Entry `i` of the cumulated capacity of rows is the capacity of the
      first `i + 1` rows in thousands. */
  lemma ScenarioCumRows(rows: seq<ScenarioMeritRow>)
    ensures var mo := WithScenarioCum(rows);
      forall i :: 0 <= i < |mo| ==> mo[i].capacityCum == Sum(ScenarioCaps(mo)[..i + 1]) / 1000.0
  {
    var mo := WithScenarioCum(rows);
    CapacityCumFacts(ScenarioCaps(rows));
    assert ScenarioCaps(mo) == ScenarioCaps(rows);
  }

  /** Without derating the scenario's table is left as it is; with it, a
      plant without a downtime factor loses a tenth of its capacity. */
  lemma DeratingDefault(rows: seq<PlantRow>, hasDowntime: bool, withDowntime: bool)
    ensures !withDowntime ==> PlantsUsed(rows, hasDowntime, withDowntime) == rows
    ensures withDowntime && hasDowntime ==> forall i :: 0 <= i < |rows| && rows[i].downtime.None? ==>
      PlantsUsed(rows, hasDowntime, withDowntime)[i].capacity == rows[i].capacity * 0.9
  {
  }

  /** The CO2 price adds price * emission / efficiency to the total costs
      of every plant whose costs are defined. */
  lemma Co2PriceRaisesCosts(p: PlantRow, commodities: map<string, Commodity>, co2: real)
    requires p.fuel in commodities && p.efficiency != 0.0
    ensures PlantCosts(p, commodities, co2, true).costsTotal.Some?
    ensures PlantCosts(p, commodities, co2, false).costsTotal.Some?
    ensures PlantCosts(p, commodities, co2, true).costsTotal.value ==
      PlantCosts(p, commodities, co2, false).costsTotal.value + co2 * commodities[p.fuel].emission / p.efficiency
    ensures PlantCosts(p, commodities, co2, true).specEmission.value * p.efficiency == commodities[p.fuel].emission
  {
  }

  /** A plant whose fuel has no commodity row has undefined costs and
      sorts after every plant with defined costs. */
  lemma UnknownFuelSortsLast(p: PlantRow, q: PlantRow, commodities: map<string, Commodity>, co2: real, withCo2: bool)
    requires p.fuel !in commodities
    requires PlantCosts(q, commodities, co2, withCo2).costsTotal.Some?
    ensures PlantCosts(p, commodities, co2, withCo2).costsTotal.None?
    ensures !KeyLe(ScenarioKey(PlantCosts(p, commodities, co2, withCo2)), ScenarioKey(PlantCosts(q, commodities, co2, withCo2)))
  {
  }

  // ---------------------------------------------------------------------
  // merit_order_from_results

  /** `result["Param"]`: the scalar parameters of every flow, and of every
      node under the key (node, None). */
  type Params = map<FlowKey, map<string, real>>

  datatype MeritError =
    | MissingParams(key: FlowKey)                  // KeyError on result["Param"][key]
    | MissingScalar(key: FlowKey, name: string)    // AttributeError or KeyError on a scalar
    | AmbiguousSource(bus: Node)                   // more than one source for the fuel bus
    | NoSource(bus: Node)                          // IndexError on an empty source list
    | NoFuelColumn                                 // KeyError on values["fuel"] of a table no inflow filled

  /** A row of the merit order built from results. */
  datatype ResultMeritRow = ResultMeritRow(
    nodeLabel: Label, variableCostsOut: real, capacity: real, variableCostsIn: real,
    efficiency: real, fuelCosts: real, fuelEmission: real, fuel: string,
    specEmission: Option<real>, costsTotal: Option<real>, capacityCum: real)

  /** `get_line_inflows`: the flows into an electricity bus from a node
      that is not a line. */
  predicate IsInflow(k: FlowKey)
  {
    k.target.Some? && k.target.value.cls == BusNode && k.target.value.nodeLabel.cat == "electricity" &&
    k.source.nodeLabel.cat != "line"
  }

  function LineInflows(main: seq<FlowEntry>): (r: seq<FlowKey>)
    ensures forall k :: k in r <==> IsInflow(k) && exists i :: 0 <= i < |main| && main[i].key == k
    ensures forall j :: 0 <= j < |r| ==> IsInflow(r[j])
    ensures |r| <= |main|
    decreases |main|
  {
    if |main| == 0 then []
    else
      var n := |main| - 1;
      var front := LineInflows(main[..n]);
      assert forall i :: 0 <= i < n ==> main[..n][i] == main[i];
      front + (if IsInflow(main[n].key) then [main[n].key] else [])
  }

  /** The keys whose flow ends at `target` and whose source satisfies
      the guard, in result order. */
  function IntoExcept(main: seq<FlowEntry>, target: Node, except: Node): (r: seq<FlowKey>)
    ensures forall k :: k in r <==> k.target == Some(target) && k.source != except && exists i :: 0 <= i < |main| && main[i].key == k
    decreases |main|
  {
    if |main| == 0 then []
    else
      var n := |main| - 1;
      var front := IntoExcept(main[..n], target, except);
      assert forall i :: 0 <= i < n ==> main[..n][i] == main[i];
      var k := main[n].key;
      front + (if k.target == Some(target) && k.source != except then [k] else [])
  }

  function NonShortageInto(main: seq<FlowEntry>, target: Node): (r: seq<FlowKey>)
    ensures forall k :: k in r <==> k.target == Some(target) && k.source.nodeLabel.cat != "shortage" && exists i :: 0 <= i < |main| && main[i].key == k
    decreases |main|
  {
    if |main| == 0 then []
    else
      var n := |main| - 1;
      var front := NonShortageInto(main[..n], target);
      assert forall i :: 0 <= i < n ==> main[..n][i] == main[i];
      var k := main[n].key;
      front + (if k.target == Some(target) && k.source.nodeLabel.cat != "shortage" then [k] else [])
  }

  /** `result["Param"][key]["scalars"].name` */
  function Scalar(params: Params, key: FlowKey, name: string): Result<real, MeritError>
  {
    if key !in params then Failure(MissingParams(key))
    else if name !in params[key] then Failure(MissingScalar(key, name))
    else Success(params[key][name])
  }

  /** `costs_total = variable_costs_out + (variable_costs_in + fuel_costs) / efficiency` */
  function CostsTotal(out: real, inCosts: real, fuelCosts: real, efficiency: real): Option<real>
  {
    var q := Quot(inCosts + fuelCosts, efficiency);
    if q.Some? then Some(out + q.value) else None
  }

  /** The row of one inflow, or the error its iteration raises. */
  function InflowRow(main: seq<FlowEntry>, params: Params, inflow: FlowKey): (r: Result<ResultMeritRow, MeritError>)
    requires inflow.target.Some?
    ensures r.Success? ==> r.value.capacityCum == 0.0 && r.value.nodeLabel == inflow.source.nodeLabel
  {
    var component := inflow.source;
    var bus := inflow.target.value;
    if inflow !in params then Failure(MissingParams(inflow))
    else if "variable_costs" !in params[inflow] then Failure(MissingScalar(inflow, "variable_costs"))
    else
      var out := params[inflow]["variable_costs"];
      var capacity := if "nominal_value" in params[inflow] then params[inflow]["nominal_value"] else 10000.0;
      var feeds := IntoExcept(main, component, bus);
      if |feeds| == 0 then
        Success(ResultMeritRow(component.nodeLabel, out, capacity, 0.0, 1.0, 0.0, 0.0, "no fuel", None, CostsTotal(out, 0.0, 0.0, 1.0), 0.0))
      else
        var srcbus := feeds[0].source;
        match Scalar(params, feeds[0], "variable_costs")
        case Failure(e) => Failure(e)
        case Success(inCosts) =>
          match Scalar(params, FlowKey(component, None), "conversion_factors_" + LabelStr(bus.nodeLabel))
          case Failure(e) => Failure(e)
          case Success(eff) =>
            var sources := NonShortageInto(main, srcbus);
            if |sources| > 1 then Failure(AmbiguousSource(srcbus))
            else if |sources| == 0 then Failure(NoSource(srcbus))
            else
              match Scalar(params, sources[0], "variable_costs")
              case Failure(e) => Failure(e)
              case Success(fuelCosts) =>
                match Scalar(params, sources[0], "emission")
                case Failure(e) => Failure(e)
                case Success(emission) =>
                  Success(ResultMeritRow(component.nodeLabel, out, capacity, inCosts, eff, fuelCosts, emission,
                    Replace(sources[0].source.nodeLabel.subtag, "_", " "), Quot(emission, eff),
                    CostsTotal(out, inCosts, fuelCosts, eff), 0.0))
  }

  /** No two rows share a label. */
  predicate DistinctLabels(rows: seq<ResultMeritRow>)
  {
    forall i, j :: 0 <= i < j < |rows| ==> rows[i].nodeLabel != rows[j].nodeLabel
  }

  /** `values.loc[label, ...] = ...`: a row for a new label is appended, a
      row for a label already present replaces that row. The source writes
      only the columns of the current branch, so a later "no fuel" row
      would keep an earlier `spec_emission`; the model replaces the whole
      row. The two differ only for a component with two flows into
      electricity buses, which no builder creates. */
  function Upsert(rows: seq<ResultMeritRow>, row: ResultMeritRow): (r: seq<ResultMeritRow>)
    ensures row in r
    ensures forall x :: x in r ==> x == row || x in rows
    ensures forall x :: x in rows && x.nodeLabel != row.nodeLabel ==> x in r
    ensures DistinctLabels(rows) ==> DistinctLabels(r)
    decreases |rows|
  {
    if |rows| == 0 then [row]
    else if rows[0].nodeLabel == row.nodeLabel then [row] + rows[1..]
    else [rows[0]] + Upsert(rows[1..], row)
  }

  /** The rows after the loop over `inflows`, or the first error. */
  function ResultRows(main: seq<FlowEntry>, params: Params, inflows: seq<FlowKey>): (r: Result<seq<ResultMeritRow>, MeritError>)
    requires forall j :: 0 <= j < |inflows| ==> inflows[j].target.Some?
    ensures r.Success? ==> forall x :: x in r.value ==> x.capacityCum == 0.0
    ensures r.Success? ==> forall x :: x in r.value ==> exists j :: 0 <= j < |inflows| && x.nodeLabel == inflows[j].source.nodeLabel
    decreases |inflows|
  {
    if |inflows| == 0 then Success([])
    else
      var n := |inflows| - 1;
      match ResultRows(main, params, inflows[..n])
      case Failure(e) => Failure(e)
      case Success(rows) =>
        match InflowRow(main, params, inflows[n])
        case Failure(e) => Failure(e)
        case Success(row) => Success(Upsert(rows, row))
  }

  /** `values.loc[values["fuel"] != "no fuel"]` */
  function WithFuel(rows: seq<ResultMeritRow>): (r: seq<ResultMeritRow>)
    ensures forall x :: x in r <==> x in rows && x.fuel != "no fuel"
    ensures multiset(r) <= multiset(rows)
    decreases |rows|
  {
    if |rows| == 0 then []
    else
      var n := |rows| - 1;
      assert rows == rows[..n] + [rows[n]];
      WithFuel(rows[..n]) + (if rows[n].fuel != "no fuel" then [rows[n]] else [])
  }

  function ResultKey(r: ResultMeritRow): SortKey
  {
    SortKey(r.costsTotal, r.capacity)
  }

  function ResultCaps(rows: seq<ResultMeritRow>): (r: seq<real>)
    ensures |r| == |rows| && forall i :: 0 <= i < |rows| ==> r[i] == rows[i].capacity
  {
    seq(|rows|, i requires 0 <= i < |rows| => rows[i].capacity)
  }

  function WithResultCum(rows: seq<ResultMeritRow>): (r: seq<ResultMeritRow>)
    ensures |r| == |rows|
    ensures forall i :: 0 <= i < |rows| ==> r[i] == rows[i].(capacityCum := CapacityCum(ResultCaps(rows))[i])
  {
    var cum := CapacityCum(ResultCaps(rows));
    seq(|rows|, i requires 0 <= i < |rows| => rows[i].(capacityCum := cum[i]))
  }

  /** `merit_order_from_results(result)`: a result without any inflow
      leaves the table without a "fuel" column, and the filter on it
      raises. */
  function ResultMeritOrder(main: seq<FlowEntry>, params: Params): (r: Result<seq<ResultMeritRow>, MeritError>)
    ensures r.Failure? <==> |LineInflows(main)| == 0 || ResultRows(main, params, LineInflows(main)).Failure?
    ensures |LineInflows(main)| == 0 ==> r == Failure(NoFuelColumn)
    ensures |LineInflows(main)| > 0 && r.Failure? ==> r.error == ResultRows(main, params, LineInflows(main)).error
    ensures r.Success? ==> forall i :: 0 <= i < |r.value| ==> r.value[i].capacityCum == Sum(ResultCaps(r.value)[..i + 1]) / 1000.0
  {
    var inflows := LineInflows(main);
    match ResultRows(main, params, inflows)
    case Failure(e) => Failure(e)
    case Success(rows) =>
      if |inflows| == 0 then Failure(NoFuelColumn)
      else
        var sorted := Sort(WithFuel(rows), ResultKey);
        ResultCumRows(sorted);
        Success(WithResultCum(sorted))
  }

  /** `merit_order_from_results` with its loop over the inflows. */
  method MeritOrderFromResults(main: seq<FlowEntry>, params: Params) returns (r: Result<seq<ResultMeritRow>, MeritError>)
    ensures r == ResultMeritOrder(main, params)
  {
    var inflows := LineInflows(main);
    var values: seq<ResultMeritRow> := [];
    var i := 0;
    while i < |inflows|
      invariant 0 <= i <= |inflows|
      invariant ResultRows(main, params, inflows[..i]) == Success(values)
    {
      var row := InflowRow(main, params, inflows[i]);
      ResultRowsNext(main, params, inflows, i, values, row);
      if row.Failure? {
        ResultRowsFailure(main, params, inflows, i + 1);
        return Failure(row.error);
      }
      values := Upsert(values, row.value);
      i := i + 1;
    }
    assert inflows[..i] == inflows;
    if |inflows| == 0 {
      return Failure(NoFuelColumn);
    }
    r := Success(WithResultCum(Sort(WithFuel(values), ResultKey)));
  }

  /** One more inflow for `ResultRows`. */
  lemma ResultRowsNext(main: seq<FlowEntry>, params: Params, inflows: seq<FlowKey>, i: nat,
                       values: seq<ResultMeritRow>, row: Result<ResultMeritRow, MeritError>)
    requires forall j :: 0 <= j < |inflows| ==> inflows[j].target.Some?
    requires i < |inflows| && ResultRows(main, params, inflows[..i]) == Success(values)
    requires row == InflowRow(main, params, inflows[i])
    ensures row.Failure? ==> ResultRows(main, params, inflows[..i + 1]) == Failure(row.error)
    ensures row.Success? ==> ResultRows(main, params, inflows[..i + 1]) == Success(Upsert(values, row.value))
  {
    assert inflows[..i + 1][..i] == inflows[..i];
  }

  /** An error in a prefix of the loop is the error of the whole loop. */
  lemma {:induction false} ResultRowsFailure(main: seq<FlowEntry>, params: Params, inflows: seq<FlowKey>, i: nat)
    requires forall j :: 0 <= j < |inflows| ==> inflows[j].target.Some?
    requires i <= |inflows|
    requires ResultRows(main, params, inflows[..i]).Failure?
    ensures ResultRows(main, params, inflows) == ResultRows(main, params, inflows[..i])
    decreases |inflows| - i
  {
    if i < |inflows| {
      assert inflows[..i + 1][..i] == inflows[..i];
      ResultRowsFailure(main, params, inflows, i + 1);
    } else {
      assert inflows[..i] == inflows;
    }
  }

  /** A component without a nominal value counts with capacity 10000,
      one fed only from its electricity bus is marked "no fuel" with
      efficiency 1, and more than one non-shortage source of its fuel bus
      is an error. */
  lemma InflowRowCases(main: seq<FlowEntry>, params: Params, inflow: FlowKey)
    requires inflow.target.Some?
    ensures var r := InflowRow(main, params, inflow);
      r.Success? && "nominal_value" !in params[inflow] ==> r.value.capacity == 10000.0
    ensures var r := InflowRow(main, params, inflow);
      r.Success? ==> r.value.nodeLabel == inflow.source.nodeLabel
    ensures var r := InflowRow(main, params, inflow);
      r.Success? && |IntoExcept(main, inflow.source, inflow.target.value)| == 0 ==>
        r.value.fuel == "no fuel" && r.value.efficiency == 1.0 && r.value.costsTotal == Some(r.value.variableCostsOut)
    ensures var feeds := IntoExcept(main, inflow.source, inflow.target.value);
      inflow in params && "variable_costs" in params[inflow] && |feeds| > 0 &&
      Scalar(params, feeds[0], "variable_costs").Success? &&
      Scalar(params, FlowKey(inflow.source, None), "conversion_factors_" + LabelStr(inflow.target.value.nodeLabel)).Success? &&
      |NonShortageInto(main, feeds[0].source)| > 1 ==>
        InflowRow(main, params, inflow) == Failure(AmbiguousSource(feeds[0].source))
  {
  }

  /** A row with fuel has total costs out + (in + fuel) / efficiency:
      times the efficiency, the part beyond the outflow costs is the
      inflow and fuel costs. */
  lemma FuelRowCosts(main: seq<FlowEntry>, params: Params, inflow: FlowKey)
    requires inflow.target.Some?
    requires InflowRow(main, params, inflow).Success?
    requires InflowRow(main, params, inflow).value.fuel != "no fuel"
    requires InflowRow(main, params, inflow).value.efficiency != 0.0
    ensures var row := InflowRow(main, params, inflow).value;
      row.costsTotal.Some? &&
      (row.costsTotal.value - row.variableCostsOut) * row.efficiency == row.variableCostsIn + row.fuelCosts
  {
  }

  /** Every row of the merit order from results has a fuel. */
  lemma ResultMeritOrderFuel(main: seq<FlowEntry>, params: Params)
    requires ResultMeritOrder(main, params).Success?
    ensures var mo := ResultMeritOrder(main, params).value;
      forall i :: 0 <= i < |mo| ==> mo[i].fuel != "no fuel"
  {
    var rows := ResultRows(main, params, LineInflows(main)).value;
    var kept := WithFuel(rows);
    var sorted := Sort(kept, ResultKey);
    SortCorrect(kept, ResultKey);
    var mo := WithResultCum(sorted);
    forall i | 0 <= i < |mo|
      ensures mo[i].fuel != "no fuel"
    {
      assert sorted[i] in multiset(kept);
    }
  }

  /** The result rows without their `capacity_cum`. */
  function ResultUncum(rows: seq<ResultMeritRow>): (r: seq<ResultMeritRow>)
    ensures |r| == |rows| && forall i :: 0 <= i < |rows| ==> r[i] == rows[i].(capacityCum := 0.0)
  {
    seq(|rows|, i requires 0 <= i < |rows| => rows[i].(capacityCum := 0.0))
  }

  /** The merit order from results holds exactly the rows of the loop
      over the inflows that have a fuel, each as often as there. */
  lemma ResultMeritOrderPermutation(main: seq<FlowEntry>, params: Params)
    requires ResultMeritOrder(main, params).Success?
    ensures ResultRows(main, params, LineInflows(main)).Success?
    ensures multiset(ResultUncum(ResultMeritOrder(main, params).value)) ==
      multiset(WithFuel(ResultRows(main, params, LineInflows(main)).value))
  {
    var rows := ResultRows(main, params, LineInflows(main)).value;
    assert ResultMeritOrder(main, params).value == WithResultCum(Sort(WithFuel(rows), ResultKey));
    FuelledOrderPermutation(rows);
  }

  /** Sorting and cumulating rows that carry no cumulated capacity yet
      keeps exactly the rows with a fuel. */
  lemma FuelledOrderPermutation(rows: seq<ResultMeritRow>)
    requires forall x :: x in rows ==> x.capacityCum == 0.0
    ensures multiset(ResultUncum(WithResultCum(Sort(WithFuel(rows), ResultKey)))) == multiset(WithFuel(rows))
  {
    var kept := WithFuel(rows);
    var sorted := Sort(kept, ResultKey);
    SortCorrect(kept, ResultKey);
    forall i | 0 <= i < |sorted|
      ensures sorted[i].capacityCum == 0.0
    {
      assert sorted[i] in multiset(kept);
    }
    assert ResultUncum(WithResultCum(sorted)) == sorted;
  }

  /** The merit order from results is sorted by costs and capacity. */
  lemma ResultMeritOrderSorted(main: seq<FlowEntry>, params: Params)
    requires ResultMeritOrder(main, params).Success?
    ensures var mo := ResultMeritOrder(main, params).value;
      forall i, j :: 0 <= i < j < |mo| ==> KeyLe(ResultKey(mo[i]), ResultKey(mo[j]))
  {
    var rows := ResultRows(main, params, LineInflows(main)).value;
    var kept := WithFuel(rows);
    var sorted := Sort(kept, ResultKey);
    SortCorrect(kept, ResultKey);
    var mo := WithResultCum(sorted);
    assert forall i :: 0 <= i < |mo| ==> ResultKey(mo[i]) == ResultKey(sorted[i]);
  }

  /** Entry `i` of the cumulated capacity of result rows is the capacity
      of the first `i + 1` rows in thousands. */
  lemma ResultCumRows(rows: seq<ResultMeritRow>)
    ensures var mo := WithResultCum(rows);
      forall i :: 0 <= i < |mo| ==> mo[i].capacityCum == Sum(ResultCaps(mo)[..i + 1]) / 1000.0
  {
    var mo := WithResultCum(rows);
    CapacityCumFacts(ResultCaps(rows));
    assert ResultCaps(mo) == ResultCaps(rows);
  }
}
