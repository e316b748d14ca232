/** The result analyses of src/deflex/postprocessing/analyses.py: the
    nodes of a result, the cycle object with its filters and the flows of
    each cycle, the marginal costs of the converters, and the bus and
    converter balances. The enumeration of simple cycles is done by an
    external graph library and is an input here. */
module Analyses {
  import opened Wrappers
  import opened Labels
  import ScenarioTables
  import ScenarioNodes

  /** The solph class of a result node. */
  datatype NodeClass = BusNode | SourceNode | SinkNode | TransformerNode | StorageNode

  datatype Node = Node(cls: NodeClass, nodeLabel: Label)

  /** A key of `results["main"]`: a flow from `source` to `target`, or the
      node's own values when `target` is None. */
  datatype FlowKey = FlowKey(source: Node, target: Option<Node>)

  /** An entry of `results["main"]` with its "flow" sequence. */
  datatype FlowEntry = FlowEntry(key: FlowKey, flow: seq<real>)

  /** `results["main"]` in its order, with the number of time steps of
      every sequence. */
  datatype Results = Results(main: seq<FlowEntry>, steps: nat)

  predicate ValidResults(res: Results)
  {
    forall i :: 0 <= i < |res.main| ==> |res.main[i].flow| == res.steps
  }

  /** `get_all_nodes_from_results`: every source node and every target
      node of a result key. */
  function AllNodes(main: seq<FlowEntry>): (r: set<Node>)
    ensures forall n :: n in r <==>
      exists i :: 0 <= i < |main| && (main[i].key.source == n || main[i].key.target == Some(n))
  {
    (set i | 0 <= i < |main| :: main[i].key.source) +
    (set i | 0 <= i < |main| && main[i].key.target.Some? :: main[i].key.target.value)
  }

  // ---------------------------------------------------------------------
  // Cycles

  /** A simple cycle as a list of node labels. */
  type Cycle = seq<Label>

  /** The number of nodes of a cycle whose category is not `cat`. */
  function CountOther(c: Cycle, cat: string): (r: nat)
    ensures r <= |c|
    ensures r == |c| <==> forall i :: 0 <= i < |c| ==> c[i].cat != cat
  {
    if |c| == 0 then 0
    else
      var rest := CountOther(c[1..], cat);
      assert forall i :: 1 <= i < |c| ==> c[i] == c[1..][i - 1];
      (if c[0].cat != cat then 1 else 0) + rest
  }

  /** Kept by the storage filter: no node is a storage. */
  predicate NoStorage(c: Cycle)
  {
    CountOther(c, "storage") == |c|
  }

  /** Kept by the line filter: the number of non-line nodes is not half
      the length (a true division, so odd cycles always stay). */
  predicate NotLineCycle(c: Cycle)
  {
    2 * CountOther(c, "line") != |c|
  }

  /** The cycles that satisfy the filter, in their order. */
  function FilterCycles(cycles: seq<Cycle>, byStorage: bool): (r: seq<Cycle>)
    ensures |r| <= |cycles|
    ensures forall c :: c in r <==> c in cycles && (if byStorage then NoStorage(c) else NotLineCycle(c))
  {
    if |cycles| == 0 then []
    else
      var keep := if byStorage then NoStorage(cycles[0]) else NotLineCycle(cycles[0]);
      (if keep then [cycles[0]] else []) + FilterCycles(cycles[1..], byStorage)
  }

  /** Filtering distributes over concatenation: kept cycles stay in
      order. */
  lemma {:induction false} FilterCyclesConcat(a: seq<Cycle>, b: seq<Cycle>, byStorage: bool)
    ensures FilterCycles(a + b, byStorage) == FilterCycles(a, byStorage) + FilterCycles(b, byStorage)
  {
    if |a| > 0 {
      assert (a + b)[1..] == a[1..] + b;
      FilterCyclesConcat(a[1..], b, byStorage);
    } else {
      assert a + b == b;
    }
  }

  /** `filter_simple_cycles` */
  function FilterSimpleCycles(cycles: seq<Cycle>, storages: bool, lines: bool): (r: seq<Cycle>)
    ensures forall c :: c in r <==> c in cycles && (storages || NoStorage(c)) && (lines || NotLineCycle(c))
  {
    var s := if storages then cycles else FilterCycles(cycles, true);
    if lines then s else FilterCycles(s, false)
  }

  /** A node of category "storage" removes a cycle when storages are
      filtered out; with lines filtered out an even cycle of alternating
      line and bus nodes goes and an odd cycle stays. */
  lemma CycleFilterExamples(a: Label, b: Label, s: Label)
    requires a.cat == "line" && b.cat == "electricity" && s.cat == "storage"
    ensures FilterSimpleCycles([[b, s]], false, true) == []
    ensures FilterSimpleCycles([[a, b], [a, b, b]], true, false) == [[a, b, b]]
  {
    assert CountOther([b, s], "storage") == 1 by {
      assert [b, s][1..] == [s];
    }
    assert CountOther([a, b], "line") == 1 by {
      assert [a, b][1..] == [b];
    }
    assert CountOther([a, b, b], "line") == 2 by {
      assert [a, b, b][1..] == [b, b];
      assert [b, b][1..] == [b];
    }
    assert [[a, b], [a, b, b]][1..] == [[a, b, b]];
    assert [[a, b, b]][1..] == [];
    assert FilterCycles([[a, b, b]], false) == [[a, b, b]];
    assert FilterCycles([[b, s]], true) == [] by {
      assert [[b, s]][1..] == [];
    }
  }

  /** A column of a cycle frame: its name and its flow sequence. */
  datatype Column = Column(name: string, values: seq<real>)

  /** A frame of equally long columns over `steps` time steps. */
  datatype Frame = Frame(columns: seq<Column>, steps: nat)

  predicate WellFormed(f: Frame)
  {
    forall j :: 0 <= j < |f.columns| ==> |f.columns[j].values| == f.steps
  }

  /** The index of the first flow from `a` to `b` among the flows with a
      target. */
  function FindFlow(main: seq<FlowEntry>, a: Label, b: Label): (r: Option<nat>)
    ensures r.Some? ==> r.value < |main| && IsFlow(main[r.value], a, b)
    ensures r.Some? ==> forall i :: 0 <= i < r.value ==> !IsFlow(main[i], a, b)
    ensures r.None? <==> forall i :: 0 <= i < |main| ==> !IsFlow(main[i], a, b)
  {
    if |main| == 0 then None
    else if IsFlow(main[0], a, b) then Some(0)
    else match FindFlow(main[1..], a, b)
      case None => None
      case Some(k) => Some(k + 1)
  }

  predicate IsFlow(e: FlowEntry, a: Label, b: Label)
  {
    e.key.target.Some? && e.key.source.nodeLabel == a && e.key.target.value.nodeLabel == b
  }

  /** Every edge of the cycle, closing from its last node to its first,
      is a flow of the results: the cycles come from the graph of these
      flows. */
  predicate CycleInResults(c: Cycle, main: seq<FlowEntry>)
  {
    forall n :: 0 <= n < |c| ==> FindFlow(main, c[Prev(n, |c|)], c[n]).Some?
  }

  /** The index `n - 1` with Python's wrap-around to the last element. */
  function Prev(n: nat, len: nat): (r: nat)
    requires n < len
    ensures r < len
    ensures n > 0 ==> r == n - 1
    ensures n == 0 ==> r == len - 1
  {
    if n == 0 then len - 1 else n - 1
  }

  /** Column `n` of a cycle's frame: the flow on edge
      (cycle[n - 1], cycle[n]), named "{n}_from_{source}". */
  function CycleColumn(c: Cycle, res: Results, n: nat): (r: Column)
    requires n < |c| && CycleInResults(c, res.main)
    ensures exists i :: 0 <= i < |res.main| && IsFlow(res.main[i], c[Prev(n, |c|)], c[n]) && r.values == res.main[i].flow
    ensures r.name == ScenarioTables.Show(n) + "_from_" + LabelStr(c[Prev(n, |c|)])
  {
    var i := FindFlow(res.main, c[Prev(n, |c|)], c[n]).value;
    Column(ScenarioTables.Show(n) + "_from_" + LabelStr(res.main[i].key.source.nodeLabel), res.main[i].flow)
  }

  /** The frame of one cycle: one column per node. */
  function CycleFrame(c: Cycle, res: Results): (r: Frame)
    requires CycleInResults(c, res.main)
    ensures |r.columns| == |c| && r.steps == res.steps
    ensures ValidResults(res) ==> WellFormed(r)
  {
    Frame(seq(|c|, n requires 0 <= n < |c| => CycleColumn(c, res, n)), res.steps)
  }

  // The rounding of pandas' `round(digits)`: half to even, so a value
  // rounds to 0 exactly when |x| * 10^digits is at most 1/2.

  /** `10 ** digits`, for negative `digits` too. */
  function Scale(digits: int): (r: real)
    ensures r > 0.0
    ensures digits >= 0 ==> r >= 1.0
    ensures digits <= 0 ==> r <= 1.0
    decreases if digits < 0 then -digits else digits
  {
    if digits == 0 then 1.0
    else if digits > 0 then 10.0 * Scale(digits - 1)
    else Scale(digits + 1) / 10.0
  }

  /** One more digit scales by ten, starting from 1 at zero digits. */
  lemma ScaleStep(digits: int)
    ensures Scale(0) == 1.0
    ensures Scale(digits + 1) == 10.0 * Scale(digits)
  {
    if digits < 0 {
      assert Scale(digits) == Scale(digits + 1) / 10.0;
    }
  }

  predicate RoundsToZero(x: real, digits: int)
  {
    -0.5 <= x * Scale(digits) <= 0.5
  }

  /** A cycle is used when no column sum rounds to zero. */
  predicate Used(f: Frame, digits: int)
  {
    forall j :: 0 <= j < |f.columns| ==> !RoundsToZero(ScenarioNodes.Sum(f.columns[j].values), digits)
  }

  /** Time step `t` of a frame has no flow that rounds to zero. */
  predicate AllFlowing(f: Frame, t: nat, digits: int)
    requires WellFormed(f) && t < f.steps
  {
    forall j :: 0 <= j < |f.columns| ==> !RoundsToZero(f.columns[j].values[t], digits)
  }

  /** The time steps in which every flow of the frame is non-zero, in
      order: the rows `detect_suspicious_cycle_rows` selects. */
  function FlowingSteps(f: Frame, digits: int, n: nat): (r: seq<nat>)
    requires WellFormed(f) && n <= f.steps
    ensures forall t: nat :: t in r <==> t < n && AllFlowing(f, t, digits)
    ensures forall i, j :: 0 <= i < j < |r| ==> r[i] < r[j]
    ensures forall i :: 0 <= i < |r| ==> r[i] < n
  {
    if n == 0 then []
    else FlowingSteps(f, digits, n - 1) + (if AllFlowing(f, n - 1, digits) then [n - 1] else [])
  }

  /** A cycle is suspicious when in one time step all its flows are
      non-zero. */
  predicate Suspicious(f: Frame, digits: int)
    requires WellFormed(f)
  {
    |FlowingSteps(f, digits, f.steps)| > 0
  }

  predicate AllWellFormed(frames: seq<Frame>)
  {
    forall i :: 0 <= i < |frames| ==> WellFormed(frames[i])
  }

  /** `drop_unused_cycles` on a list of cycle frames. */
  function UsedCycles(frames: seq<Frame>, digits: int): (r: seq<Frame>)
    ensures |r| <= |frames|
    ensures forall f :: f in r <==> f in frames && Used(f, digits)
  {
    if |frames| == 0 then []
    else (if Used(frames[0], digits) then [frames[0]] else []) + UsedCycles(frames[1..], digits)
  }

  /** `drop_unsuspicious_cycles` on a list of cycle frames. */
  function SuspiciousCycles(frames: seq<Frame>, digits: int): (r: seq<Frame>)
    requires AllWellFormed(frames)
    ensures |r| <= |frames| && AllWellFormed(r)
    ensures forall f :: f in r <==> f in frames && Suspicious(f, digits)
  {
    if |frames| == 0 then []
    else (if Suspicious(frames[0], digits) then [frames[0]] else []) + SuspiciousCycles(frames[1..], digits)
  }

  /** The frame restricted to the given time steps, in their order. */
  function SelectRows(f: Frame, ts: seq<nat>): (r: Frame)
    requires WellFormed(f) && forall i :: 0 <= i < |ts| ==> ts[i] < f.steps
    ensures WellFormed(r) && r.steps == |ts| && |r.columns| == |f.columns|
    ensures forall j, i :: 0 <= j < |f.columns| && 0 <= i < |ts| ==>
      r.columns[j].name == f.columns[j].name && r.columns[j].values[i] == f.columns[j].values[ts[i]]
  {
    Frame(seq(|f.columns|, j requires 0 <= j < |f.columns| =>
      Column(f.columns[j].name, seq(|ts|, i requires 0 <= i < |ts| => f.columns[j].values[ts[i]]))), |ts|)
  }

  /** Row `k` of `r` holds the values of row `t` of `f`, column by column. */
  predicate SameRow(r: Frame, k: nat, f: Frame, t: nat)
    requires WellFormed(r) && WellFormed(f) && k < r.steps && t < f.steps && |r.columns| == |f.columns|
  {
    forall j :: 0 <= j < |f.columns| ==> r.columns[j].values[k] == f.columns[j].values[t]
  }

  /** `detect_suspicious_cycle_rows`: for each suspicious cycle, in the
      order of the cycles, the rows in which all flows are non-zero. */
  function SuspiciousRows(frames: seq<Frame>, digits: int): (r: seq<Frame>)
    requires AllWellFormed(frames)
    ensures |r| == |SuspiciousCycles(frames, digits)| && AllWellFormed(r)
    ensures forall i :: 0 <= i < |r| ==> r[i].steps > 0
    ensures forall i :: 0 <= i < |r| ==> r[i] == RowsOf(SuspiciousCycles(frames, digits)[i], digits)
  {
    var sus := SuspiciousCycles(frames, digits);
    seq(|sus|, i requires 0 <= i < |sus| => RowsOf(sus[i], digits))
  }

  /** The rows of a frame in which all flows are non-zero: the same
      columns, row `k` being the `k`-th such time step, so every such
      step appears, in order, and no other. */
  function RowsOf(f: Frame, digits: int): (r: Frame)
    requires WellFormed(f)
    ensures WellFormed(r) && (Suspicious(f, digits) ==> r.steps > 0)
    ensures |r.columns| == |f.columns| && forall j :: 0 <= j < |f.columns| ==> r.columns[j].name == f.columns[j].name
    ensures r.steps == |FlowingSteps(f, digits, f.steps)|
    ensures forall k :: 0 <= k < r.steps ==> SameRow(r, k, f, FlowingSteps(f, digits, f.steps)[k])
    ensures forall t :: 0 <= t < f.steps && AllFlowing(f, t, digits) ==> exists k :: 0 <= k < r.steps && SameRow(r, k, f, t)
  {
    var ts := FlowingSteps(f, digits, f.steps);
    var r := SelectRows(f, ts);
    forall t | 0 <= t < f.steps && AllFlowing(f, t, digits)
      ensures exists k :: 0 <= k < r.steps && SameRow(r, k, f, t)
    {
      assert t in ts;
      var k :| 0 <= k < |ts| && ts[k] == t;
      assert SameRow(r, k, f, ts[k]);
    }
    r
  }

  /** In every selected row all flows are non-zero. */
  lemma SuspiciousRowsAllFlowing(frames: seq<Frame>, digits: int, i: nat, t: nat)
    requires AllWellFormed(frames)
    requires i < |SuspiciousRows(frames, digits)| && t < SuspiciousRows(frames, digits)[i].steps
    ensures AllFlowing(SuspiciousRows(frames, digits)[i], t, digits)
  {
    var f := SuspiciousCycles(frames, digits)[i];
    var ts := FlowingSteps(f, digits, f.steps);
    assert SuspiciousRows(frames, digits)[i] == SelectRows(f, ts);
    assert ts[t] in ts;
    assert AllFlowing(f, ts[t], digits);
  }

  /** A sum of non-negative values is at least each of them. */
  lemma {:induction false} SumAtLeast(s: seq<real>, t: nat)
    requires forall i :: 0 <= i < |s| ==> s[i] >= 0.0
    requires t < |s|
    ensures ScenarioNodes.Sum(s) >= s[t]
    ensures ScenarioNodes.Sum(s) >= 0.0
  {
    if t == 0 {
      SumNonNegative(s[1..]);
    } else {
      SumAtLeast(s[1..], t - 1);
    }
  }

  lemma {:induction false} SumNonNegative(s: seq<real>)
    requires forall i :: 0 <= i < |s| ==> s[i] >= 0.0
    ensures ScenarioNodes.Sum(s) >= 0.0
  {
    if |s| > 0 {
      SumNonNegative(s[1..]);
    }
  }

  lemma ScaleMonotone(a: real, b: real, k: real)
    requires a <= b && k > 0.0
    ensures a * k <= b * k
  {
    assert b * k - a * k == (b - a) * k;
  }

  /** A non-negative value that does not round to zero is below a larger
      one that does not either. */
  lemma RoundingMonotone(x: real, y: real, digits: int)
    requires 0.0 <= x <= y && !RoundsToZero(x, digits)
    ensures !RoundsToZero(y, digits)
  {
    var k := Scale(digits);
    ScaleMonotone(0.0, x, k);
    ScaleMonotone(x, y, k);
  }

  predicate NonNegative(f: Frame)
  {
    forall j, t :: 0 <= j < |f.columns| && 0 <= t < |f.columns[j].values| ==> f.columns[j].values[t] >= 0.0
  }

  /** With non-negative flows a suspicious cycle is a used cycle. */
  lemma SuspiciousIsUsed(f: Frame, digits: int)
    requires WellFormed(f) && NonNegative(f) && Suspicious(f, digits)
    ensures Used(f, digits)
  {
    var ts := FlowingSteps(f, digits, f.steps);
    var t := ts[0];
    assert t in ts;
    forall j | 0 <= j < |f.columns|
      ensures !RoundsToZero(ScenarioNodes.Sum(f.columns[j].values), digits)
    {
      var s := f.columns[j].values;
      assert AllFlowing(f, t, digits);
      SumAtLeast(s, t);
      RoundingMonotone(s[t], ScenarioNodes.Sum(s), digits);
    }
  }

  /** Suspicious cycles are among the used ones, and those among all. */
  lemma SuspiciousUsedAll(frames: seq<Frame>, digits: int)
    requires AllWellFormed(frames)
    requires forall i :: 0 <= i < |frames| ==> NonNegative(frames[i])
    ensures forall f :: f in SuspiciousCycles(frames, digits) ==> f in UsedCycles(frames, digits)
    ensures forall f :: f in UsedCycles(frames, digits) ==> f in frames
  {
    forall f | f in SuspiciousCycles(frames, digits)
      ensures f in UsedCycles(frames, digits)
    {
      SuspiciousIsUsed(f, digits);
    }
  }

  /** The `Cycles` object of a result. */
  class Cycles {
    var name: string
    var storages: bool
    var lines: bool
    var simpleCycles: seq<Cycle>
    var cycles: Option<seq<Frame>>
    var digits: int

    /** `Cycles(results, storages, lines, digits, no_values)`, with
        `found` the simple cycles of the result's graph. */
    constructor (name: string, found: seq<Cycle>, res: Results, storages: bool, lines: bool, digits: int, noValues: bool)
      requires forall i :: 0 <= i < |found| ==> CycleInResults(found[i], res.main)
      ensures this.name == name && this.storages == storages && this.lines == lines && this.digits == digits
      ensures simpleCycles == FilterSimpleCycles(found, storages, lines)
      ensures noValues ==> cycles.None?
      ensures !noValues ==>
        cycles.Some? && |cycles.value| == |simpleCycles| &&
        forall i :: 0 <= i < |simpleCycles| ==> CycleInResults(simpleCycles[i], res.main) && cycles.value[i] == CycleFrame(simpleCycles[i], res)
    {
      this.name := name;
      this.storages := storages;
      this.lines := lines;
      this.digits := digits;
      simpleCycles := FilterSimpleCycles(found, storages, lines);
      cycles := None;
      new;
      forall i | 0 <= i < |simpleCycles|
        ensures CycleInResults(simpleCycles[i], res.main)
      {
        assert simpleCycles[i] in found;
      }
      if !noValues {
        var usages := GetCycleValues(res);
        cycles := Some(usages);
      }
    }

    /** `_get_cycle_values`: one frame per simple cycle, in order. The
        countdown of the source only drives progress output. */
    method GetCycleValues(res: Results) returns (usages: seq<Frame>)
      requires forall i :: 0 <= i < |simpleCycles| ==> CycleInResults(simpleCycles[i], res.main)
      ensures |usages| == |simpleCycles|
      ensures forall i :: 0 <= i < |simpleCycles| ==> usages[i] == CycleFrame(simpleCycles[i], res)
    {
      usages := [];
      var k := 0;
      while k < |simpleCycles|
        invariant 0 <= k <= |simpleCycles|
        invariant |usages| == k
        invariant forall i :: 0 <= i < k ==> usages[i] == CycleFrame(simpleCycles[i], res)
      {
        var cycle := simpleCycles[k];
        var usage: seq<Column> := [];
        var n := 0;
        while n < |cycle|
          invariant 0 <= n <= |cycle|
          invariant usage == seq(n, m requires 0 <= m < n => CycleColumn(cycle, res, m))
        {
          var from := FindFlow(res.main, cycle[Prev(n, |cycle|)], cycle[n]).value;
          var entry := res.main[from];
          usage := usage + [Column(ScenarioTables.Show(n) + "_from_" + LabelStr(entry.key.source.nodeLabel), entry.flow)];
          n := n + 1;
        }
        usages := usages + [Frame(usage, res.steps)];
        k := k + 1;
      }
    }

    /** The `used_cycles` property: None when the values were skipped. */
    function UsedCyclesOf(): (r: Option<seq<Frame>>)
      reads this
      ensures r.None? <==> cycles.None?
      ensures r.Some? ==> forall f :: f in r.value <==> f in cycles.value && Used(f, digits)
    {
      if cycles.None? then None else Some(UsedCycles(cycles.value, digits))
    }

    /** The `suspicious_cycles` property: None when the values were
        skipped. */
    function SuspiciousCyclesOf(): (r: Option<seq<Frame>>)
      reads this
      requires cycles.Some? ==> AllWellFormed(cycles.value)
      ensures r.None? <==> cycles.None?
      ensures r.Some? ==> forall f :: f in r.value <==> f in cycles.value && Suspicious(f, digits)
    {
      if cycles.None? then None else Some(SuspiciousCycles(cycles.value, digits))
    }
  }

  // ---------------------------------------------------------------------
  // Marginal costs

  /** A row of the converter parameter table: fuel costs and emissions,
      the electrical efficiency, the heat efficiency and the reference
      efficiency of a heat plant (None where the cell is NaN or the column
      is absent), and the two columns `calculate_marginal_costs` adds
      (None where a division by zero gives no finite number). */
  datatype ConverterRow = ConverterRow(
    fuelCosts: real, fuelEmissions: real, etaElectricity: real,
    etaHeat: Option<real>, etaHpRef: Option<real>,
    marginalCosts: Option<real>, emissions: Option<real>)

  /** 1/eta_e - eta_th/(eta_e * eta_ref): the fuel per unit of electricity
      less the fuel a heat plant would need for the same heat. */
  function ChpFactor(etaE: real, etaTh: real, etaRef: real): (r: Option<real>)
    ensures r.Some? <==> etaE != 0.0 && etaRef != 0.0
    ensures r.Some? ==> r.value * etaE == 1.0 - etaTh / etaRef
  {
    if etaE == 0.0 || etaRef == 0.0 then None
    else
      var f := 1.0 / etaE - etaTh / (etaE * etaRef);
      assert f * etaE == 1.0 - etaTh / etaRef by {
        assert etaTh / (etaE * etaRef) * etaE == etaTh / etaRef;
      }
      Some(f)
  }

  function Times(x: real, f: Option<real>): Option<real>
  {
    if f.None? then None else Some(x * f.value)
  }

  /** One row after `calculate_marginal_costs`: a missing reference
      efficiency becomes 1 and a missing heat efficiency 0. */
  function WithMarginalCosts(row: ConverterRow): (r: ConverterRow)
    ensures r.etaHpRef == Some(row.etaHpRef.GetOr(1.0)) && r.etaHeat == Some(row.etaHeat.GetOr(0.0))
    ensures r.fuelCosts == row.fuelCosts && r.fuelEmissions == row.fuelEmissions && r.etaElectricity == row.etaElectricity
  {
    var ref := row.etaHpRef.GetOr(1.0);
    var heat := row.etaHeat.GetOr(0.0);
    var f := ChpFactor(row.etaElectricity, heat, ref);
    row.(etaHeat := Some(heat), etaHpRef := Some(ref),
         marginalCosts := Times(row.fuelCosts, f), emissions := Times(row.fuelEmissions, f))
  }

  /** The converter parameter table, which `calculate_marginal_costs`
      changes in place. */
  class ConverterTable {
    var rows: seq<ConverterRow>

    constructor (rows: seq<ConverterRow>)
      ensures this.rows == rows
    {
      this.rows := rows;
    }
  }

  /** `calculate_marginal_costs` */
  method CalculateMarginalCosts(df: ConverterTable)
    modifies df
    ensures |df.rows| == |old(df.rows)|
    ensures forall i :: 0 <= i < |df.rows| ==> df.rows[i] == WithMarginalCosts(old(df.rows)[i])
  {
    df.rows := seq(|df.rows|, i requires 0 <= i < |df.rows| reads df => WithMarginalCosts(df.rows[i]));
  }

  /** Without heat the marginal costs are the fuel costs over the
      electrical efficiency; emissions scale with the same factor. */
  lemma MarginalCostsWithoutHeat(row: ConverterRow)
    requires row.etaHeat.None? || row.etaHeat == Some(0.0)
    requires row.etaElectricity != 0.0 && (row.etaHpRef.None? || row.etaHpRef.value != 0.0)
    ensures WithMarginalCosts(row).marginalCosts == Some(row.fuelCosts / row.etaElectricity)
    ensures WithMarginalCosts(row).emissions == Some(row.fuelEmissions / row.etaElectricity)
  {
    var e := row.etaElectricity;
    assert row.etaHeat.GetOr(0.0) == 0.0;
    var f := ChpFactor(e, 0.0, row.etaHpRef.GetOr(1.0));
    var v := f.value;
    assert v == 1.0 / e;
    TimesInverse(row.fuelCosts, f, e);
    TimesInverse(row.fuelEmissions, f, e);
  }

  lemma TimesInverse(x: real, f: Option<real>, e: real)
    requires e != 0.0 && f == Some(1.0 / e)
    ensures Times(x, f) == Some(x / e)
  {
    assert Times(x, f).value == x * (1.0 / e);
    assert x * (1.0 / e) == x / e;
  }

  /** The marginal costs and the emissions of a row are computed with one
      factor: costs and emissions stay in the proportion of the fuel's. */
  lemma MarginalCostsAndEmissionsProportional(row: ConverterRow)
    ensures WithMarginalCosts(row).marginalCosts.Some? == WithMarginalCosts(row).emissions.Some?
    ensures WithMarginalCosts(row).marginalCosts.Some? ==>
      WithMarginalCosts(row).marginalCosts.value * row.fuelEmissions ==
      WithMarginalCosts(row).emissions.value * row.fuelCosts
  {
    var r := WithMarginalCosts(row);
    if r.marginalCosts.Some? {
      var f := ChpFactor(row.etaElectricity, row.etaHeat.GetOr(0.0), row.etaHpRef.GetOr(1.0)).value;
      assert r.marginalCosts.value == row.fuelCosts * f;
      assert r.emissions.value == row.fuelEmissions * f;
    }
  }

  /** The heat credit of a CHP plant lowers its marginal costs below those
      of an electricity-only plant of the same efficiency. */
  lemma ChpCreditLowersCosts(row: ConverterRow)
    requires row.etaElectricity > 0.0 && row.fuelCosts >= 0.0
    requires row.etaHeat.GetOr(0.0) >= 0.0 && row.etaHpRef.GetOr(1.0) > 0.0
    ensures WithMarginalCosts(row).marginalCosts.Some?
    ensures WithMarginalCosts(row).marginalCosts.value <= row.fuelCosts / row.etaElectricity
  {
    var e := row.etaElectricity;
    var factor := ChpFactor(e, row.etaHeat.GetOr(0.0), row.etaHpRef.GetOr(1.0));
    assert factor.Some?;
    var f := factor.value;
    assert WithMarginalCosts(row).marginalCosts == Times(row.fuelCosts, factor);
    TimesSome(row.fuelCosts, factor);
    FactorBelowInverse(e, row.etaHeat.GetOr(0.0), row.etaHpRef.GetOr(1.0), f);
    CostBelow(row.fuelCosts, f, e);
  }

  /** Scaling by a factor that exists. */
  lemma TimesSome(x: real, f: Option<real>)
    requires f.Some?
    ensures Times(x, f) == Some(x * f.value)
  {
  }

  /** A factor `f` with `f * e == 1 - th / ref` is at most `1 / e` when
      nothing is negative. */
  lemma FactorBelowInverse(e: real, th: real, ref: real, f: real)
    requires e > 0.0 && th >= 0.0 && ref > 0.0 && f * e == 1.0 - th / ref
    ensures f <= 1.0 / e
  {
    assert th / ref >= 0.0;
    assert (f - 1.0 / e) * e == f * e - 1.0 <= 0.0;
  }

  /** Costs `c` scaled by a factor at most `1 / e` stay at most `c / e`. */
  lemma CostBelow(c: real, f: real, e: real)
    requires c >= 0.0 && e > 0.0 && f <= 1.0 / e
    ensures c * f <= c / e
  {
    assert c * (1.0 / e) == c / e;
    if c > 0.0 {
      ScaleMonotone(f, 1.0 / e, c);
    }
  }

  // ---------------------------------------------------------------------
  // Bus and converter balances

  /** A label passes the optional field filters of the balances. */
  predicate Matches(l: Label, cat: Option<string>, tag: Option<string>, subtag: Option<string>, region: Option<string>)
  {
    (cat.None? || l.cat == cat.value) && (tag.None? || l.tag == tag.value) &&
    (subtag.None? || l.subtag == subtag.value) && (region.None? || l.region == region.value)
  }

  /** The distinct source nodes of class `cls` that pass the filters. */
  function SelectNodes(main: seq<FlowEntry>, cls: NodeClass, cat: Option<string>, tag: Option<string>,
                       subtag: Option<string>, region: Option<string>): (r: set<Node>)
    ensures forall n :: n in r <==>
      n.cls == cls && Matches(n.nodeLabel, cat, tag, subtag, region) && exists i :: 0 <= i < |main| && main[i].key.source == n
  {
    set i | 0 <= i < |main| && main[i].key.source.cls == cls && Matches(main[i].key.source.nodeLabel, cat, tag, subtag, region) :: main[i].key.source
  }

  /** A column key of a balance: ("in" | "out", cat, tag, subtag, region). */
  datatype BalanceKey = BalanceKey(direction: string, nodeLabel: Label)

  /** The columns of `get_combined_bus_balance`: a flow into a selected bus
      is keyed by its source's label, a flow out of it by its target's. */
  function BusBalanceKeys(main: seq<FlowEntry>, buses: set<Node>): (r: set<BalanceKey>)
    ensures forall k :: k in r <==>
      exists i :: 0 <= i < |main| && (
        (k.direction == "in" && main[i].key.target.Some? && main[i].key.target.value in buses && k.nodeLabel == main[i].key.source.nodeLabel) ||
        (k.direction == "out" && main[i].key.source in buses && main[i].key.target.Some? && k.nodeLabel == main[i].key.target.value.nodeLabel))
  {
    (set i | 0 <= i < |main| && main[i].key.target.Some? && main[i].key.target.value in buses :: BalanceKey("in", main[i].key.source.nodeLabel)) +
    (set i | 0 <= i < |main| && main[i].key.source in buses && main[i].key.target.Some? :: BalanceKey("out", main[i].key.target.value.nodeLabel))
  }

  /** The columns of `get_converter_balance`: every flow of a converter is
      keyed by the converter's own label, so a converter contributes one
      "in" and one "out" column at most, whatever its number of flows. */
  function ConverterBalanceKeys(main: seq<FlowEntry>, converters: set<Node>): (r: set<BalanceKey>)
    ensures forall k :: k in r <==>
      exists i :: 0 <= i < |main| && (
        (k.direction == "in" && main[i].key.target.Some? && main[i].key.target.value in converters && k.nodeLabel == main[i].key.target.value.nodeLabel) ||
        (k.direction == "out" && main[i].key.source in converters && k.nodeLabel == main[i].key.source.nodeLabel))
    ensures forall k :: k in r ==>
      k.direction in {"in", "out"} && exists c :: c in converters && k.nodeLabel == c.nodeLabel
  {
    (set i | 0 <= i < |main| && main[i].key.target.Some? && main[i].key.target.value in converters :: BalanceKey("in", main[i].key.target.value.nodeLabel)) +
    (set i | 0 <= i < |main| && main[i].key.source in converters :: BalanceKey("out", main[i].key.source.nodeLabel))
  }

  /** A CHP plant with an electricity and a heat output has a single
      "out" column in the converter balance. */
  lemma ConverterBalanceMergesOutputs(chp: Node, fuel: Node, power: Node, heat: Node, a: seq<real>, b: seq<real>, c: seq<real>)
    requires power != heat
    ensures var main := [FlowEntry(FlowKey(fuel, Some(chp)), a), FlowEntry(FlowKey(chp, Some(power)), b), FlowEntry(FlowKey(chp, Some(heat)), c)];
      var keys := ConverterBalanceKeys(main, {chp});
      keys == {BalanceKey("in", chp.nodeLabel), BalanceKey("out", chp.nodeLabel)} &&
      |keys| == 2 < |main|
  {
    var main := [FlowEntry(FlowKey(fuel, Some(chp)), a), FlowEntry(FlowKey(chp, Some(power)), b), FlowEntry(FlowKey(chp, Some(heat)), c)];
    var keys := ConverterBalanceKeys(main, {chp});
    assert BalanceKey("in", chp.nodeLabel) in keys by {
      assert main[0].key.target.value in {chp};
    }
    assert BalanceKey("out", chp.nodeLabel) in keys by {
      assert main[1].key.source in {chp};
    }
    assert keys == {BalanceKey("in", chp.nodeLabel), BalanceKey("out", chp.nodeLabel)};
  }
}
