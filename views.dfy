/** The bus view of src/deflex/postprocessing/views.py: every flow into
    or out of the selected buses as a column keyed by (bus label, "in" or
    "out", other node's category, tag, subtag), where aggregation rules
    rename tags or subtags and flows that meet under one key are added up.
    The flow sequences of the results are objects: the first one stored
    under a key is increased in place by the later ones, which changes the
    results themselves. The model keeps that: the sequences are a list the
    operation updates and returns. */
module Views {
  import opened Wrappers
  import opened Labels
  import opened Analyses

  /** An aggregation rule (field, value, target, new): on a node whose
      label `field` equals `value`, set `target` to `new`. */
  datatype Rule = Rule(field: string, value: string, target: string, replacement: string)

  /** `getattr(label, name)` on a label without that field raises
      `AttributeError`. */
  datatype ViewError = NoSuchField(name: string)

  function LabelField(l: Label, name: string): Option<string>
  {
    if name == "cat" then Some(l.cat)
    else if name == "tag" then Some(l.tag)
    else if name == "subtag" then Some(l.subtag)
    else if name == "region" then Some(l.region)
    else None
  }

  /** The field name of the first rule that names no label field. */
  function FirstBadField(rules: seq<Rule>): (r: Option<string>)
    ensures r.None? <==> forall i :: 0 <= i < |rules| ==> LabelField(Label("", "", "", ""), rules[i].field).Some?
    ensures r.Some? ==> exists i :: 0 <= i < |rules| && rules[i].field == r.value && LabelField(Label("", "", "", ""), r.value).None?
  {
    if |rules| == 0 then None
    else if LabelField(Label("", "", "", ""), rules[0].field).None? then Some(rules[0].field)
    else
      var rest := FirstBadField(rules[1..]);
      assert forall i :: 1 <= i < |rules| ==> rules[i] == rules[1..][i - 1];
      rest
  }

  /** A rule applies to a label. */
  predicate Applies(rule: Rule, l: Label)
  {
    LabelField(l, rule.field) == Some(rule.value)
  }

  /** The fields after the rules, applied in order. */
  function FieldsAfter(l: Label, rules: seq<Rule>): (r: map<string, string>)
    ensures "tag" in r && "subtag" in r
    decreases |rules|
  {
    if |rules| == 0 then map["subtag" := l.subtag, "tag" := l.tag]
    else
      var m := FieldsAfter(l, rules[..|rules| - 1]);
      var rule := rules[|rules| - 1];
      if Applies(rule, l) then m[rule.target := rule.replacement] else m
  }

  /** `change_field(node, changes)` */
  function ChangedFields(l: Label, rules: seq<Rule>): (r: Result<map<string, string>, ViewError>)
    ensures r.Failure? <==> FirstBadField(rules).Some?
  {
    match FirstBadField(rules)
    case Some(name) => Failure(NoSuchField(name))
    case None => Success(FieldsAfter(l, rules))
  }

  /** Rule `i` applies and sets `target`, and no later rule does. */
  predicate LastApplying(l: Label, rules: seq<Rule>, target: string, i: int)
  {
    0 <= i < |rules| && Applies(rules[i], l) && rules[i].target == target &&
    forall j :: i < j < |rules| ==> !(Applies(rules[j], l) && rules[j].target == target)
  }

  /** The last applying rule for `target` decides it; without one the
      label's own value stays. */
  lemma {:induction false} LastRuleWins(l: Label, rules: seq<Rule>, target: string)
    requires target in {"tag", "subtag"}
    ensures (forall i :: 0 <= i < |rules| ==> !(Applies(rules[i], l) && rules[i].target == target)) ==>
      FieldsAfter(l, rules)[target] == LabelField(l, target).value
    ensures forall i :: LastApplying(l, rules, target, i) ==> FieldsAfter(l, rules)[target] == rules[i].replacement
    decreases |rules|
  {
    if |rules| > 0 {
      var front := rules[..|rules| - 1];
      var last := rules[|rules| - 1];
      LastRuleWins(l, front, target);
      assert forall i :: 0 <= i < |front| ==> front[i] == rules[i];
      var hit := Applies(last, l) && last.target == target;
      assert FieldsAfter(l, rules)[target] == if hit then last.replacement else FieldsAfter(l, front)[target];
      forall i | LastApplying(l, rules, target, i)
        ensures FieldsAfter(l, rules)[target] == rules[i].replacement
      {
        if i < |front| {
          assert !hit;
          assert LastApplying(l, front, target, i);
        }
      }
    }
  }

  /** `change_field` with its loop over the rules. */
  method ChangeField(l: Label, rules: seq<Rule>) returns (r: Result<map<string, string>, ViewError>)
    ensures r == ChangedFields(l, rules)
  {
    var val := map["subtag" := l.subtag, "tag" := l.tag];
    var i := 0;
    while i < |rules|
      invariant 0 <= i <= |rules|
      invariant val == FieldsAfter(l, rules[..i])
      invariant FirstBadField(rules[..i]).None?
    {
      var rule := rules[i];
      var v := LabelField(l, rule.field);
      assert rules[..i + 1][..i] == rules[..i];
      if v.None? {
        FirstBadPrefix(rules, i);
        return Failure(NoSuchField(rule.field));
      }
      FirstBadPrefix(rules, i);
      if v.value == rule.value {
        val := val[rule.target := rule.replacement];
      }
      i := i + 1;
    }
    assert rules[..i] == rules;
    r := Success(val);
  }

  /** `FirstBadField` of a prefix grown by one rule. */
  lemma {:induction false} FirstBadPrefix(rules: seq<Rule>, i: nat)
    requires i < |rules| && FirstBadField(rules[..i]).None?
    ensures LabelField(Label("", "", "", ""), rules[i].field).None? ==> FirstBadField(rules) == Some(rules[i].field)
    ensures LabelField(Label("", "", "", ""), rules[i].field).Some? ==> FirstBadField(rules[..i + 1]).None?
    decreases i
  {
    if i > 0 {
      assert rules[..i][1..] == rules[1..][..i - 1];
      assert rules[..i + 1][1..] == rules[1..][..i];
      assert rules[1..][i - 1] == rules[i];
      FirstBadPrefix(rules[1..], i - 1);
    } else {
      assert rules[..1] == [rules[0]];
    }
  }

  /** The column key of a flow. */
  datatype ViewKey = ViewKey(bus: Label, direction: string, cat: string, tag: string, subtag: string)

  /** The buses argument: one bus, or a list of them. */
  datatype BusesArg = OneBus(bus: Node) | BusList(buses: seq<Node>)

  /** The list without repeated entries, first occurrences kept. */
  function Distinct<T(==,!new)>(s: seq<T>): (r: seq<T>)
    ensures forall x :: x in r <==> x in s
    ensures forall i, j :: 0 <= i < j < |r| ==> r[i] != r[j]
    decreases |s|
  {
    if |s| == 0 then []
    else
      var front := Distinct(s[..|s| - 1]);
      assert forall x :: x in s <==> x in s[..|s| - 1] || x == s[|s| - 1];
      if s[|s| - 1] in front then front else front + [s[|s| - 1]]
  }

  /** A single bus is wrapped in a list and a list is de-duplicated. */
  function BusesOf(arg: BusesArg): (r: seq<Node>)
    ensures forall i, j :: 0 <= i < j < |r| ==> r[i] != r[j]
    ensures arg.OneBus? ==> r == [arg.bus]
    ensures arg.BusList? ==> forall b :: b in r <==> b in arg.buses
  {
    match arg
    case OneBus(b) => [b]
    case BusList(bs) => Distinct(bs)
  }

  /** The indices of the flows with a target that start or end at the bus,
      in result order. */
  function NodeFlows(main: seq<FlowEntry>, bus: Node, n: nat): (r: seq<nat>)
    requires n <= |main|
    ensures forall i: nat :: i in r <==> i < n && main[i].key.target.Some? && (main[i].key.source == bus || main[i].key.target.value == bus)
    ensures forall k :: 0 <= k < |r| ==> r[k] < n
    ensures forall k, m :: 0 <= k < m < |r| ==> r[k] < r[m]
  {
    if n == 0 then []
    else
      var e := main[n - 1];
      NodeFlows(main, bus, n - 1) +
      (if e.key.target.Some? && (e.key.source == bus || e.key.target.value == bus) then [n - 1] else [])
  }

  /** The key of flow `i` at `bus`, with valid rules. */
  function FlowKeyAt(main: seq<FlowEntry>, bus: Node, i: nat, rules: seq<Rule>): (r: ViewKey)
    requires i < |main| && main[i].key.target.Some?
    ensures main[i].key.source == bus ==> r.direction == "out" && r.cat == main[i].key.target.value.nodeLabel.cat
    ensures main[i].key.source != bus ==> r.direction == "in" && r.cat == main[i].key.source.nodeLabel.cat
    ensures r.bus == bus.nodeLabel
  {
    var e := main[i];
    if e.key.source == bus then
      var fields := FieldsAfter(e.key.target.value.nodeLabel, rules);
      ViewKey(bus.nodeLabel, "out", e.key.target.value.nodeLabel.cat, fields["tag"], fields["subtag"])
    else
      var fields := FieldsAfter(e.key.source.nodeLabel, rules);
      ViewKey(bus.nodeLabel, "in", e.key.source.nodeLabel.cat, fields["tag"], fields["subtag"])
  }

  /** One step of the loop: the key and the index of the flow. */
  datatype Assignment = Assignment(key: ViewKey, index: nat)

  function BusAssignments(main: seq<FlowEntry>, bus: Node, flows: seq<nat>, rules: seq<Rule>): (r: seq<Assignment>)
    requires forall k :: 0 <= k < |flows| ==> flows[k] < |main| && main[flows[k]].key.target.Some?
    ensures |r| == |flows|
    ensures forall k :: 0 <= k < |r| ==> r[k] == Assignment(FlowKeyAt(main, bus, flows[k], rules), flows[k])
  {
    seq(|flows|, k requires 0 <= k < |flows| => Assignment(FlowKeyAt(main, bus, flows[k], rules), flows[k]))
  }

  /** All steps of the loops over the buses and their flows. */
  function Assignments(main: seq<FlowEntry>, buses: seq<Node>, rules: seq<Rule>): (r: seq<Assignment>)
    ensures forall k :: 0 <= k < |r| ==> r[k].index < |main| && main[r[k].index].key.target.Some?
    decreases |buses|
  {
    if |buses| == 0 then []
    else
      var n := |buses| - 1;
      Assignments(main, buses[..n], rules) + BusAssignments(main, buses[n], NodeFlows(main, buses[n], |main|), rules)
  }

  /** The state of the loop: which flow object each key holds, and the
      current values of all flow objects. */
  datatype ViewState = ViewState(owner: map<ViewKey, nat>, series: seq<seq<real>>)

  /** Element-wise addition of two equally long sequences. */
  function Add(a: seq<real>, b: seq<real>): (r: seq<real>)
    requires |a| == |b|
    ensures |r| == |a| && forall t :: 0 <= t < |a| ==> r[t] == a[t] + b[t]
  {
    seq(|a|, t requires 0 <= t < |a| => a[t] + b[t])
  }

  predicate Uniform(series: seq<seq<real>>, steps: nat)
  {
    forall i :: 0 <= i < |series| ==> |series[i]| == steps
  }

  predicate OwnersIn(st: ViewState)
  {
    forall k :: k in st.owner ==> st.owner[k] < |st.series|
  }

  /** `data[key] += flow` when the key is taken, `data[key] = flow`
      otherwise. Indices and lengths are checked so that the step is
      defined on every state; on the states the loop reaches they hold. */
  function Step(st: ViewState, a: Assignment): (r: ViewState)
    ensures |r.series| == |st.series|
    ensures r.owner.Keys <= st.owner.Keys + {a.key}
  {
    if a.index >= |st.series| then st
    else if a.key in st.owner then
      var o := st.owner[a.key];
      if o < |st.series| && |st.series[o]| == |st.series[a.index]| then
        ViewState(st.owner, st.series[o := Add(st.series[o], st.series[a.index])])
      else st
    else
      ViewState(st.owner[a.key := a.index], st.series)
  }

  /** The flow objects are one per result entry, of the result's length,
      and every key holds one of them. */
  predicate Sane(st: ViewState, res: Results)
  {
    Uniform(st.series, res.steps) && OwnersIn(st) && |st.series| == |res.main|
  }

  /** None of the first `b` buses has a flow. */
  predicate NoFlowsBefore(main: seq<FlowEntry>, buses: seq<Node>, b: nat)
    requires b <= |buses|
  {
    forall c :: 0 <= c < b ==> |NodeFlows(main, buses[c], |main|)| == 0
  }

  predicate IndicesIn(asg: seq<Assignment>, n: nat)
  {
    forall k :: 0 <= k < |asg| ==> asg[k].index < n
  }

  function Run(st: ViewState, asg: seq<Assignment>): (r: ViewState)
    ensures |r.series| == |st.series|
    decreases |asg|
  {
    if |asg| == 0 then st
    else Step(Run(st, asg[..|asg| - 1]), asg[|asg| - 1])
  }

  function Flows(main: seq<FlowEntry>): (r: seq<seq<real>>)
    ensures |r| == |main| && forall i :: 0 <= i < |main| ==> r[i] == main[i].flow
  {
    seq(|main|, i requires 0 <= i < |main| => main[i].flow)
  }

  /** `pd.DataFrame(data)`: the current values of the flow object each
      key holds. */
  function Columns(st: ViewState): (r: map<ViewKey, seq<real>>)
    ensures r.Keys == st.owner.Keys
  {
    map k | k in st.owner :: if st.owner[k] < |st.series| then st.series[st.owner[k]] else []
  }

  /** Some bus has a flow: the first call of `change_field` happens. */
  predicate HasFlows(main: seq<FlowEntry>, buses: seq<Node>)
  {
    exists b :: 0 <= b < |buses| && |NodeFlows(main, buses[b], |main|)| > 0
  }

  /** The columns of the result and the flow values of the results
      afterwards. */
  function ViewSpec(res: Results, arg: BusesArg, aggregate: Option<seq<Rule>>): (r: (Result<map<ViewKey, seq<real>>, ViewError>, seq<seq<real>>))
    requires ValidResults(res)
  {
    var rules := aggregate.GetOr([]);
    var asg := Assignments(res.main, BusesOf(arg), rules);
    if FirstBadField(rules).Some? && HasFlows(res.main, BusesOf(arg)) then
      (Failure(NoSuchField(FirstBadField(rules).value)), Flows(res.main))
    else
      var st := Run(ViewState(map[], Flows(res.main)), asg);
      (Success(Columns(st)), st.series)
  }

  /** Running two lists of steps one after the other. */
  lemma {:induction false} RunAppend(st: ViewState, a: seq<Assignment>, b: seq<Assignment>)
    ensures Run(st, a + b) == Run(Run(st, a), b)
    decreases |b|
  {
    if |b| == 0 {
      assert a + b == a;
    } else {
      var n := |b| - 1;
      assert (a + b)[..|a + b| - 1] == a + b[..n];
      RunAppend(st, a, b[..n]);
    }
  }

  /** The body of the inner loop for flow `i` of `bus`. */
  method ViewFlow(res: Results, bus: Node, i: nat, rules: seq<Rule>, st: ViewState) returns (err: Option<ViewError>, st': ViewState)
    requires ValidResults(res) && i < |res.main| && res.main[i].key.target.Some?
    requires Sane(st, res)
    ensures err.Some? <==> FirstBadField(rules).Some?
    ensures err.Some? ==> err.value == NoSuchField(FirstBadField(rules).value) && st' == st
    ensures err.None? ==> st' == Step(st, Assignment(FlowKeyAt(res.main, bus, i, rules), i))
    ensures Sane(st', res)
  {
    var e := res.main[i];
    var other := if e.key.source == bus then e.key.target.value else e.key.source;
    var fields := ChangeField(other.nodeLabel, rules);
    if fields.Failure? {
      return Some(fields.error), st;
    }
    var key := ViewKey(bus.nodeLabel, if e.key.source == bus then "out" else "in", other.nodeLabel.cat, fields.value["tag"], fields.value["subtag"]);
    if key in st.owner {
      var o := st.owner[key];
      st' := ViewState(st.owner, st.series[o := Add(st.series[o], st.series[i])]);
    } else {
      st' := ViewState(st.owner[key := i], st.series);
    }
    err := None;
  }

  /** The outcome of the inner loop for `bus` from state `st`: an error
      exactly when the rules name a bad field and the bus has a flow, in
      which case nothing changed; otherwise the state after all the bus's
      steps. */
  predicate BusDone(main: seq<FlowEntry>, bus: Node, rules: seq<Rule>, st: ViewState, err: Option<ViewError>, st': ViewState)
  {
    var asg := BusAssignments(main, bus, NodeFlows(main, bus, |main|), rules);
    && (err.Some? <==> FirstBadField(rules).Some? && |asg| > 0)
    && (err.Some? ==> err.value == NoSuchField(FirstBadField(rules).value) && st' == st)
    && (err.None? ==> st' == Run(st, asg))
  }

  /** The inner loop over the flows of one bus. */
  method BusFlows(res: Results, bus: Node, rules: seq<Rule>, st: ViewState) returns (err: Option<ViewError>, st': ViewState)
    requires ValidResults(res)
    requires Sane(st, res)
    ensures BusDone(res.main, bus, rules, st, err, st')
    ensures Sane(st', res)
  {
    var flows := NodeFlows(res.main, bus, |res.main|);
    ghost var asg := BusAssignments(res.main, bus, flows, rules);
    st' := st;
    var j := 0;
    while j < |flows|
      invariant 0 <= j <= |flows|
      invariant st' == Run(st, asg[..j])
      invariant Sane(st', res)
      invariant FirstBadField(rules).Some? ==> j == 0
    {
      var i := flows[j];
      ghost var before := st';
      err, st' := ViewFlow(res, bus, i, rules, st');
      if err.Some? {
        assert |asg| > 0 && before == st;
        return;
      }
      RunNext(st, asg, j);
      j := j + 1;
    }
    assert asg[..j] == asg;
    err := None;
  }

  /** One more step for `Run`. */
  lemma RunNext(st: ViewState, asg: seq<Assignment>, j: nat)
    requires j < |asg|
    ensures Run(st, asg[..j + 1]) == Step(Run(st, asg[..j]), asg[j])
  {
    assert asg[..j + 1][..j] == asg[..j];
  }

  /** The loop over the buses. */
  method RunBuses(res: Results, buses: seq<Node>, rules: seq<Rule>) returns (err: Option<ViewError>, st: ViewState)
    requires ValidResults(res)
    ensures err.Some? ==>
      FirstBadField(rules).Some? && HasFlows(res.main, buses) && st.series == Flows(res.main) &&
      err.value == NoSuchField(FirstBadField(rules).value)
    ensures err.None? ==>
      !(FirstBadField(rules).Some? && HasFlows(res.main, buses)) &&
      st == Run(ViewState(map[], Flows(res.main)), Assignments(res.main, buses, rules))
  {
    st := ViewState(map[], Flows(res.main));
    var b := 0;
    while b < |buses|
      invariant 0 <= b <= |buses|
      invariant st == Run(ViewState(map[], Flows(res.main)), Assignments(res.main, buses[..b], rules))
      invariant Sane(st, res)
      invariant FirstBadField(rules).Some? ==> NoFlowsBefore(res.main, buses, b)
    {
      var st';
      err, st' := BusFlows(res, buses[b], rules, st);
      BusStep(res, buses, rules, b, st, err, st');
      if err.Some? {
        return;
      }
      st := st';
      b := b + 1;
    }
    assert buses[..b] == buses;
    err := None;
  }

  /** `reshape_bus_view(results, buses, aggregate)`: the columns, and the
      flow values of the results after the call. */
  method ReshapeBusView(res: Results, arg: BusesArg, aggregate: Option<seq<Rule>>)
    returns (r: Result<map<ViewKey, seq<real>>, ViewError>, series: seq<seq<real>>)
    requires ValidResults(res)
    ensures (r, series) == ViewSpec(res, arg, aggregate)
  {
    var rules := if aggregate.None? then [] else aggregate.value;
    var buses := BusesOf(arg);
    var err, st := RunBuses(res, buses, rules);
    if err.Some? {
      return Failure(err.value), st.series;
    }
    r := Success(Columns(st));
    series := st.series;
  }

  /** Buses without flows give no steps. */
  lemma {:induction false} NoFlowsNoSteps(main: seq<FlowEntry>, buses: seq<Node>, rules: seq<Rule>)
    requires forall c :: 0 <= c < |buses| ==> |NodeFlows(main, buses[c], |main|)| == 0
    ensures Assignments(main, buses, rules) == []
    decreases |buses|
  {
    if |buses| > 0 {
      var n := |buses| - 1;
      assert forall c :: 0 <= c < n ==> buses[..n][c] == buses[c];
      NoFlowsNoSteps(main, buses[..n], rules);
    }
  }
  /** One turn of the loop over the buses. */
  lemma BusStep(res: Results, buses: seq<Node>, rules: seq<Rule>, b: nat, st: ViewState, err: Option<ViewError>, st': ViewState)
    requires ValidResults(res) && b < |buses|
    requires st == Run(ViewState(map[], Flows(res.main)), Assignments(res.main, buses[..b], rules))
    requires FirstBadField(rules).Some? ==> NoFlowsBefore(res.main, buses, b)
    requires BusDone(res.main, buses[b], rules, st, err, st')
    ensures err.Some? ==>
      FirstBadField(rules).Some? && HasFlows(res.main, buses) && st.series == Flows(res.main) &&
      err.value == NoSuchField(FirstBadField(rules).value)
    ensures err.None? ==> st' == Run(ViewState(map[], Flows(res.main)), Assignments(res.main, buses[..b + 1], rules))
    ensures err.None? ==> FirstBadField(rules).Some? ==> NoFlowsBefore(res.main, buses, b + 1)
  {
    var init := ViewState(map[], Flows(res.main));
    var bus := buses[b];
    var done := Assignments(res.main, buses[..b], rules);
    var more := BusAssignments(res.main, bus, NodeFlows(res.main, bus, |res.main|), rules);
    assert |more| == |NodeFlows(res.main, bus, |res.main|)|;
    if err.Some? {
      assert HasFlows(res.main, buses);
      NoFlowsNoSteps(res.main, buses[..b], rules);
    } else {
      assert buses[..b + 1][..b] == buses[..b];
      RunAppend(init, done, more);
    }
  }
}
