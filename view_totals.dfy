/** What the bus view of src/deflex/postprocessing/views.py adds up. When
    no flow is visited twice, every column is the sum of the flows that
    meet under its key, the first of those flows now holds that sum, every
    other flow keeps its values, and the columns together hold the total
    of the selected flows whatever the aggregation rules are. */
module ViewTotals {
  import opened Wrappers
  import opened Analyses
  import opened Views

  /** No flow is visited twice. */
  predicate DistinctIndices(asg: seq<Assignment>)
  {
    forall i, j :: 0 <= i < j < |asg| ==> asg[i].index != asg[j].index
  }

  /** The flows visited. */
  function IndexSet(asg: seq<Assignment>): set<nat>
  {
    set j | 0 <= j < |asg| :: asg[j].index
  }

  /** The keys given to the flows. */
  function KeySet(asg: seq<Assignment>): set<ViewKey>
  {
    set j | 0 <= j < |asg| :: asg[j].key
  }

  /** The value of flow `i` at time step `t` before the call. */
  function ValueAt(orig: seq<seq<real>>, i: nat, t: nat): real
  {
    if i < |orig| && t < |orig[i]| then orig[i][t] else 0.0
  }

  /** The sum at time step `t` of the original values of the flows given
      key `k`. */
  function KeySum(orig: seq<seq<real>>, asg: seq<Assignment>, k: ViewKey, t: nat): real
    decreases |asg|
  {
    if |asg| == 0 then 0.0
    else
      var a := asg[|asg| - 1];
      KeySum(orig, asg[..|asg| - 1], k, t) + (if a.key == k then ValueAt(orig, a.index, t) else 0.0)
  }

  /** The sum at time step `t` of the original values of all flows
      visited. */
  function Total(orig: seq<seq<real>>, asg: seq<Assignment>, t: nat): real
    decreases |asg|
  {
    if |asg| == 0 then 0.0
    else Total(orig, asg[..|asg| - 1], t) + ValueAt(orig, asg[|asg| - 1].index, t)
  }

  /** A key no flow was given sums to zero. */
  lemma {:induction false} KeySumAbsent(orig: seq<seq<real>>, asg: seq<Assignment>, k: ViewKey, t: nat)
    requires k !in KeySet(asg)
    ensures KeySum(orig, asg, k, t) == 0.0
    decreases |asg|
  {
    if |asg| > 0 {
      var front := asg[..|asg| - 1];
      assert KeySet(front) <= KeySet(asg) by {
        forall x | x in KeySet(front)
          ensures x in KeySet(asg)
        {
          var j :| 0 <= j < |front| && front[j].key == x;
          assert asg[j].key == x;
        }
      }
      KeySumAbsent(orig, front, k, t);
      assert asg[|asg| - 1].key in KeySet(asg);
    }
  }

  /** The sets of a list grown by one step. */
  lemma SetsNext(asg: seq<Assignment>, a: Assignment)
    ensures KeySet(asg + [a]) == KeySet(asg) + {a.key}
    ensures IndexSet(asg + [a]) == IndexSet(asg) + {a.index}
  {
    var asg' := asg + [a];
    assert asg'[|asg|] == a;
    forall x | x in KeySet(asg')
      ensures x in KeySet(asg) + {a.key}
    {
      var j :| 0 <= j < |asg'| && asg'[j].key == x;
      if j < |asg| {
        assert asg[j].key == x;
      }
    }
    forall x | x in KeySet(asg)
      ensures x in KeySet(asg')
    {
      var j :| 0 <= j < |asg| && asg[j].key == x;
      assert asg'[j].key == x;
    }
    forall x | x in IndexSet(asg')
      ensures x in IndexSet(asg) + {a.index}
    {
      var j :| 0 <= j < |asg'| && asg'[j].index == x;
      if j < |asg| {
        assert asg[j].index == x;
      }
    }
    forall x | x in IndexSet(asg)
      ensures x in IndexSet(asg')
    {
      var j :| 0 <= j < |asg| && asg[j].index == x;
      assert asg'[j].index == x;
    }
  }

  /** The state after the steps `asg` from the original values `orig`:
      each key holds a flow visited, no two keys hold the same one, the
      flow a key holds carries the sum of the flows given that key, and
      every flow no key holds keeps its original values. */
  predicate Accumulated(orig: seq<seq<real>>, asg: seq<Assignment>, st: ViewState, steps: nat)
  {
    && |st.series| == |orig|
    && st.owner.Keys == KeySet(asg)
    && st.owner.Values <= IndexSet(asg)
    && (forall k1, k2 :: k1 in st.owner && k2 in st.owner && k1 != k2 ==> st.owner[k1] != st.owner[k2])
    && (forall k :: k in st.owner ==> st.owner[k] < |st.series| && |st.series[st.owner[k]]| == steps)
    && (forall k, t :: k in st.owner && 0 <= t < steps ==> st.series[st.owner[k]][t] == KeySum(orig, asg, k, t))
    && (forall i :: 0 <= i < |orig| && i !in st.owner.Values ==> st.series[i] == orig[i])
  }

  /** One step keeps `Accumulated` when it visits a new flow. */
  lemma StepAccumulates(orig: seq<seq<real>>, asg: seq<Assignment>, a: Assignment, st: ViewState, steps: nat)
    requires Uniform(orig, steps)
    requires Accumulated(orig, asg, st, steps)
    requires a.index < |orig| && a.index !in IndexSet(asg)
    ensures Accumulated(orig, asg + [a], Step(st, a), steps)
  {
    SetsNext(asg, a);
    assert a.index !in st.owner.Values;
    if a.key in st.owner {
      StepTakenKey(orig, asg, a, st, steps);
    } else {
      StepNewKey(orig, asg, a, st, steps);
    }
  }

  /** A step whose key is taken adds the flow to the flow the key holds. */
  lemma StepTakenKey(orig: seq<seq<real>>, asg: seq<Assignment>, a: Assignment, st: ViewState, steps: nat)
    requires Uniform(orig, steps)
    requires Accumulated(orig, asg, st, steps)
    requires a.index < |orig| && a.index !in st.owner.Values && a.key in st.owner
    requires KeySet(asg + [a]) == KeySet(asg) + {a.key}
    requires IndexSet(asg + [a]) == IndexSet(asg) + {a.index}
    ensures Accumulated(orig, asg + [a], Step(st, a), steps)
  {
    var o := st.owner[a.key];
    var sum := Add(st.series[o], st.series[a.index]);
    var r := ViewState(st.owner, st.series[o := sum]);
    assert st.series[a.index] == orig[a.index];
    assert Step(st, a) == r;
    TakenKeySums(orig, asg, a, st, steps);
  }

  /** The sums after a step whose key is taken. */
  lemma TakenKeySums(orig: seq<seq<real>>, asg: seq<Assignment>, a: Assignment, st: ViewState, steps: nat)
    requires Uniform(orig, steps)
    requires Accumulated(orig, asg, st, steps)
    requires a.index < |orig| && a.index !in st.owner.Values && a.key in st.owner
    ensures var o := st.owner[a.key];
      var series := st.series[o := Add(st.series[o], st.series[a.index])];
      forall k, t :: k in st.owner && 0 <= t < steps ==> series[st.owner[k]][t] == KeySum(orig, asg + [a], k, t)
  {
    var asg' := asg + [a];
    assert asg'[..|asg'| - 1] == asg;
    var o := st.owner[a.key];
    var sum := Add(st.series[o], st.series[a.index]);
    var series := st.series[o := sum];
    assert st.series[a.index] == orig[a.index];
    forall k, t | k in st.owner && 0 <= t < steps
      ensures series[st.owner[k]][t] == KeySum(orig, asg', k, t)
    {
      if k != a.key {
        assert st.owner[k] != o;
      } else {
        assert series[o][t] == st.series[o][t] + orig[a.index][t];
      }
    }
  }

  /** A step with a new key lets the key hold the flow. */
  lemma StepNewKey(orig: seq<seq<real>>, asg: seq<Assignment>, a: Assignment, st: ViewState, steps: nat)
    requires Uniform(orig, steps)
    requires Accumulated(orig, asg, st, steps)
    requires a.index < |orig| && a.index !in st.owner.Values && a.key !in st.owner
    requires KeySet(asg + [a]) == KeySet(asg) + {a.key}
    requires IndexSet(asg + [a]) == IndexSet(asg) + {a.index}
    ensures Accumulated(orig, asg + [a], Step(st, a), steps)
  {
    var r := ViewState(st.owner[a.key := a.index], st.series);
    assert st.series[a.index] == orig[a.index];
    assert Step(st, a) == r;
    NewKeySums(orig, asg, a, st, steps);
    NewKeyValues(st.owner, a.key, a.index);
    forall k1, k2 | k1 in r.owner && k2 in r.owner && k1 != k2
      ensures r.owner[k1] != r.owner[k2]
    {
      if k1 != a.key && k2 != a.key {
        assert st.owner[k1] != st.owner[k2];
      } else if k1 == a.key {
        assert st.owner[k2] in st.owner.Values;
      } else {
        assert st.owner[k1] in st.owner.Values;
      }
    }
  }

  /** After a step with a new key, every key's flow carries its sum. */
  lemma NewKeySums(orig: seq<seq<real>>, asg: seq<Assignment>, a: Assignment, st: ViewState, steps: nat)
    requires Uniform(orig, steps)
    requires Accumulated(orig, asg, st, steps)
    requires a.index < |orig| && a.index !in st.owner.Values && a.key !in st.owner
    ensures forall k, t :: k in st.owner[a.key := a.index] && 0 <= t < steps ==>
      st.series[st.owner[a.key := a.index][k]][t] == KeySum(orig, asg + [a], k, t)
  {
    var asg' := asg + [a];
    assert asg'[..|asg'| - 1] == asg;
    var owner := st.owner[a.key := a.index];
    assert st.series[a.index] == orig[a.index];
    forall k, t | k in owner && 0 <= t < steps
      ensures st.series[owner[k]][t] == KeySum(orig, asg', k, t)
    {
      if k == a.key {
        KeySumAbsent(orig, asg, a.key, t);
      } else {
        assert owner[k] == st.owner[k];
        assert KeySum(orig, asg', k, t) == KeySum(orig, asg, k, t) + 0.0;
      }
    }
  }

  /** Storing a new key adds its value to the values of a map. */
  lemma NewKeyValues(m: map<ViewKey, nat>, k: ViewKey, v: nat)
    requires k !in m
    ensures m[k := v].Values == m.Values + {v}
  {
    var m' := m[k := v];
    forall x | x in m'.Values
      ensures x in m.Values + {v}
    {
      var j :| j in m' && m'[j] == x;
      if j != k {
        assert m[j] == x;
      }
    }
    forall x | x in m.Values
      ensures x in m'.Values
    {
      var j :| j in m && m[j] == x;
      assert m'[j] == x;
    }
    assert m'[k] == v;
  }

  /** All steps from the original values keep `Accumulated`. */
  lemma {:induction false} RunAccumulates(orig: seq<seq<real>>, asg: seq<Assignment>, steps: nat)
    requires Uniform(orig, steps) && IndicesIn(asg, |orig|) && DistinctIndices(asg)
    ensures Accumulated(orig, asg, Run(ViewState(map[], orig), asg), steps)
    decreases |asg|
  {
    if |asg| > 0 {
      var n := |asg| - 1;
      var front := asg[..n];
      assert asg == front + [asg[n]];
      RunAccumulates(orig, front, steps);
      assert asg[n].index !in IndexSet(front);
      StepAccumulates(orig, front, asg[n], Run(ViewState(map[], orig), front), steps);
    }
  }

  /** The steps of the view. */
  function ViewSteps(res: Results, arg: BusesArg, aggregate: Option<seq<Rule>>): seq<Assignment>
  {
    Assignments(res.main, BusesOf(arg), aggregate.GetOr([]))
  }

  /** The columns and the flow values after steps that visit no flow
      twice: one column per key, each the sum of the original flows given
      that key and held by one of the flows visited; a flow that holds no
      column keeps its values. */
  lemma ColumnsOfRun(orig: seq<seq<real>>, asg: seq<Assignment>, steps: nat)
    requires Uniform(orig, steps) && IndicesIn(asg, |orig|) && DistinctIndices(asg)
    ensures var st := Run(ViewState(map[], orig), asg);
      Columns(st).Keys == KeySet(asg) && forall k :: k in Columns(st) ==> |Columns(st)[k]| == steps
    ensures var st := Run(ViewState(map[], orig), asg);
      forall k, t :: k in Columns(st) && 0 <= t < steps ==> Columns(st)[k][t] == KeySum(orig, asg, k, t)
    ensures var st := Run(ViewState(map[], orig), asg);
      forall k :: k in Columns(st) ==> exists i :: i in IndexSet(asg) && i < |st.series| && st.series[i] == Columns(st)[k]
    ensures var st := Run(ViewState(map[], orig), asg);
      forall i :: 0 <= i < |orig| && st.series[i] != orig[i] ==> exists k :: k in Columns(st) && st.series[i] == Columns(st)[k]
  {
    RunAccumulates(orig, asg, steps);
    ColumnsOfState(orig, asg, Run(ViewState(map[], orig), asg), steps);
  }

  /** `ColumnsOfRun` for any state that keeps `Accumulated`. */
  lemma ColumnsOfState(orig: seq<seq<real>>, asg: seq<Assignment>, st: ViewState, steps: nat)
    requires Accumulated(orig, asg, st, steps)
    ensures Columns(st).Keys == KeySet(asg) && forall k :: k in Columns(st) ==> |Columns(st)[k]| == steps
    ensures forall k, t :: k in Columns(st) && 0 <= t < steps ==> Columns(st)[k][t] == KeySum(orig, asg, k, t)
    ensures forall k :: k in Columns(st) ==> exists i :: i in IndexSet(asg) && i < |st.series| && st.series[i] == Columns(st)[k]
    ensures forall i :: 0 <= i < |orig| && st.series[i] != orig[i] ==> exists k :: k in Columns(st) && st.series[i] == Columns(st)[k]
  {
    var cols := Columns(st);
    forall k | k in cols
      ensures cols[k] == st.series[st.owner[k]]
      ensures exists i :: i in IndexSet(asg) && i < |st.series| && st.series[i] == cols[k]
    {
      assert st.owner[k] in st.owner.Values;
    }
    forall i | 0 <= i < |orig| && st.series[i] != orig[i]
      ensures exists k :: k in cols && st.series[i] == cols[k]
    {
      assert i in st.owner.Values;
      var k :| k in st.owner && st.owner[k] == i;
      assert cols[k] == st.series[i];
    }
  }

  /** When no flow is visited twice, a view that succeeds has one column
      per key given to a flow, each column is the sum of the original
      flows given its key, one of the flows visited afterwards holds the
      column, and every flow that holds no column keeps its values. */
  lemma ViewColumnsAreSums(res: Results, arg: BusesArg, aggregate: Option<seq<Rule>>)
    requires ValidResults(res)
    requires DistinctIndices(ViewSteps(res, arg, aggregate))
    requires ViewSpec(res, arg, aggregate).0.Success?
    ensures var cols := ViewSpec(res, arg, aggregate).0.value;
      cols.Keys == KeySet(ViewSteps(res, arg, aggregate)) &&
      forall k :: k in cols ==> |cols[k]| == res.steps
    ensures var cols := ViewSpec(res, arg, aggregate).0.value;
      forall k, t :: k in cols && 0 <= t < res.steps ==>
        cols[k][t] == KeySum(Flows(res.main), ViewSteps(res, arg, aggregate), k, t)
    ensures var (r, series) := ViewSpec(res, arg, aggregate);
      forall k :: k in r.value ==> exists i :: i in IndexSet(ViewSteps(res, arg, aggregate)) && i < |series| && series[i] == r.value[k]
    ensures var (r, series) := ViewSpec(res, arg, aggregate);
      |series| == |res.main| &&
      forall i :: 0 <= i < |res.main| && series[i] != res.main[i].flow ==> exists k :: k in r.value && series[i] == r.value[k]
  {
    var asg := ViewSteps(res, arg, aggregate);
    var orig := Flows(res.main);
    var st := Run(ViewState(map[], orig), asg);
    assert ViewSpec(res, arg, aggregate) == (Success(Columns(st)), st.series);
    ColumnsOfRun(orig, asg, res.steps);
  }

  // ---------------------------------------------------------------------
  // The total over all columns

  /** The keys in the order they are first given. */
  function KeyList(asg: seq<Assignment>): (r: seq<ViewKey>)
    ensures forall k :: k in r <==> k in KeySet(asg)
    ensures forall i, j :: 0 <= i < j < |r| ==> r[i] != r[j]
    decreases |asg|
  {
    if |asg| == 0 then []
    else
      var front := asg[..|asg| - 1];
      var a := asg[|asg| - 1];
      SetsNext(front, a);
      assert front + [a] == asg;
      var keys := KeyList(front);
      if a.key in keys then keys else keys + [a.key]
  }

  /** The sum over `keys` of the key sums. */
  function SumOver(orig: seq<seq<real>>, asg: seq<Assignment>, keys: seq<ViewKey>, t: nat): real
    decreases |keys|
  {
    if |keys| == 0 then 0.0
    else SumOver(orig, asg, keys[..|keys| - 1], t) + KeySum(orig, asg, keys[|keys| - 1], t)
  }

  /** One more step raises the sum over distinct keys by the flow's value
      exactly when its key is one of them. */
  lemma {:induction false} SumOverNext(orig: seq<seq<real>>, asg: seq<Assignment>, a: Assignment, keys: seq<ViewKey>, t: nat)
    requires forall i, j :: 0 <= i < j < |keys| ==> keys[i] != keys[j]
    ensures SumOver(orig, asg + [a], keys, t) ==
      SumOver(orig, asg, keys, t) + (if a.key in keys then ValueAt(orig, a.index, t) else 0.0)
    decreases |keys|
  {
    var asg' := asg + [a];
    assert asg'[..|asg'| - 1] == asg;
    if |keys| > 0 {
      var front := keys[..|keys| - 1];
      var last := keys[|keys| - 1];
      SumOverNext(orig, asg, a, front, t);
      assert a.key in keys <==> a.key in front || a.key == last;
      assert last !in front;
    }
  }

  /** The key sums over all keys add up to the total. */
  lemma {:induction false} KeySumsMakeTotal(orig: seq<seq<real>>, asg: seq<Assignment>, t: nat)
    ensures SumOver(orig, asg, KeyList(asg), t) == Total(orig, asg, t)
    decreases |asg|
  {
    if |asg| > 0 {
      var front := asg[..|asg| - 1];
      var a := asg[|asg| - 1];
      var keys := KeyList(front);
      var v := ValueAt(orig, a.index, t);
      assert Total(orig, asg, t) == Total(orig, front, t) + v;
      KeySumsMakeTotal(orig, front, t);
      assert front + [a] == asg;
      SumOverNext(orig, front, a, keys, t);
      if a.key in keys {
        assert KeyList(asg) == keys;
      } else {
        assert KeyList(asg) == keys + [a.key];
        KeySumAbsent(orig, front, a.key, t);
        assert KeySum(orig, asg, a.key, t) == KeySum(orig, front, a.key, t) + v;
        assert (keys + [a.key])[..|keys|] == keys;
      }
    }
  }

  /** The sum of the columns under `keys` at time step `t`. */
  function ColumnsTotal(cols: map<ViewKey, seq<real>>, keys: seq<ViewKey>, t: nat): real
    decreases |keys|
  {
    if |keys| == 0 then 0.0
    else
      var k := keys[|keys| - 1];
      ColumnsTotal(cols, keys[..|keys| - 1], t) + (if k in cols && t < |cols[k]| then cols[k][t] else 0.0)
  }

  /** Columns that are the key sums add up to the sum over the keys. */
  lemma {:induction false} ColumnsTotalIsSumOver(cols: map<ViewKey, seq<real>>, orig: seq<seq<real>>, asg: seq<Assignment>, keys: seq<ViewKey>, t: nat)
    requires forall k :: k in keys ==> k in cols && t < |cols[k]| && cols[k][t] == KeySum(orig, asg, k, t)
    ensures ColumnsTotal(cols, keys, t) == SumOver(orig, asg, keys, t)
    decreases |keys|
  {
    if |keys| > 0 {
      var front := keys[..|keys| - 1];
      assert forall k :: k in front ==> k in keys;
      ColumnsTotalIsSumOver(cols, orig, asg, front, t);
    }
  }

  /** When no flow is visited twice, the columns of a view that succeeds
      add up, at every time step, to the total of the flows visited. */
  lemma ViewKeepsTotal(res: Results, arg: BusesArg, aggregate: Option<seq<Rule>>, t: nat)
    requires ValidResults(res) && t < res.steps
    requires DistinctIndices(ViewSteps(res, arg, aggregate))
    requires ViewSpec(res, arg, aggregate).0.Success?
    ensures var asg := ViewSteps(res, arg, aggregate);
      ColumnsTotal(ViewSpec(res, arg, aggregate).0.value, KeyList(asg), t) == Total(Flows(res.main), asg, t)
  {
    var asg := ViewSteps(res, arg, aggregate);
    ViewColumnsAreSums(res, arg, aggregate);
    ColumnsTotalIsSumOver(ViewSpec(res, arg, aggregate).0.value, Flows(res.main), asg, KeyList(asg), t);
    KeySumsMakeTotal(Flows(res.main), asg, t);
  }

  // ---------------------------------------------------------------------
  // When a flow is visited twice

  /** No flow with a target runs between two of the buses. */
  predicate NoLinks(main: seq<FlowEntry>, buses: seq<Node>)
  {
    forall i :: 0 <= i < |main| && main[i].key.target.Some? ==>
      !(main[i].key.source in buses && main[i].key.target.value in buses)
  }

  /** Flow `i` starts or ends at one of the buses. */
  predicate AtSomeBus(main: seq<FlowEntry>, i: nat, buses: seq<Node>)
    requires i < |main| && main[i].key.target.Some?
  {
    main[i].key.source in buses || main[i].key.target.value in buses
  }

  /** Each step visits a flow of one of the buses. */
  lemma {:induction false} StepsFromBuses(main: seq<FlowEntry>, buses: seq<Node>, rules: seq<Rule>)
    ensures forall j :: 0 <= j < |Assignments(main, buses, rules)| ==>
      AtSomeBus(main, Assignments(main, buses, rules)[j].index, buses)
    decreases |buses|
  {
    if |buses| > 0 {
      var n := |buses| - 1;
      StepsFromBuses(main, buses[..n], rules);
      var front := Assignments(main, buses[..n], rules);
      var flows := NodeFlows(main, buses[n], |main|);
      var asg := Assignments(main, buses, rules);
      assert asg == front + BusAssignments(main, buses[n], flows, rules);
      assert forall x :: x in buses[..n] ==> x in buses;
      forall j | 0 <= j < |asg|
        ensures AtSomeBus(main, asg[j].index, buses)
      {
        if j < |front| {
          assert AtSomeBus(main, front[j].index, buses[..n]);
        } else {
          assert asg[j].index == flows[j - |front|];
        }
      }
    }
  }

  /** Two lists that visit different flows are joined without a repeat. */
  /** No flow is visited by both lists. */
  predicate Apart(a: seq<Assignment>, b: seq<Assignment>)
  {
    forall j1, j2 :: 0 <= j1 < |a| && 0 <= j2 < |b| ==> a[j1].index != b[j2].index
  }

  lemma DistinctAppend(a: seq<Assignment>, b: seq<Assignment>)
    requires DistinctIndices(a) && DistinctIndices(b) && Apart(a, b)
    ensures DistinctIndices(a + b)
  {
    var ab := a + b;
    forall j1, j2 | 0 <= j1 < j2 < |ab|
      ensures ab[j1].index != ab[j2].index
    {
      if j2 < |a| {
        assert ab[j1] == a[j1] && ab[j2] == a[j2];
      } else if j1 < |a| {
        assert ab[j1] == a[j1] && ab[j2] == b[j2 - |a|];
      } else {
        assert ab[j1] == b[j1 - |a|] && ab[j2] == b[j2 - |a|];
      }
    }
  }

  /** A flow of earlier buses is no flow of a later bus when no flow links
      two buses. */
  lemma LaterBusApart(main: seq<FlowEntry>, buses: seq<Node>, n: nat, i: nat)
    requires n < |buses| && forall c :: 0 <= c < n ==> buses[c] != buses[n]
    requires NoLinks(main, buses)
    requires i < |main| && main[i].key.target.Some? && AtSomeBus(main, i, buses[..n])
    ensures i !in NodeFlows(main, buses[n], |main|)
  {
    assert forall x :: x in buses[..n] ==> x in buses && x != buses[n];
    assert buses[n] in buses;
  }

  /** The flows of the last bus are visited once each and by no earlier
      bus. */
  lemma LastBusApart(main: seq<FlowEntry>, buses: seq<Node>, rules: seq<Rule>, front: seq<Assignment>, more: seq<Assignment>)
    requires |buses| > 0
    requires forall i, j :: 0 <= i < j < |buses| ==> buses[i] != buses[j]
    requires NoLinks(main, buses)
    requires front == Assignments(main, buses[..|buses| - 1], rules)
    requires more == BusAssignments(main, buses[|buses| - 1], NodeFlows(main, buses[|buses| - 1], |main|), rules)
    ensures DistinctIndices(more) && Apart(front, more)
  {
    var n := |buses| - 1;
    StepsFromBuses(main, buses[..n], rules);
    forall j1, j2 | 0 <= j1 < |front| && 0 <= j2 < |more|
      ensures front[j1].index != more[j2].index
    {
      LaterBusApart(main, buses, n, front[j1].index);
    }
  }

  /** Dropping the last bus keeps the buses distinct and unlinked. */
  lemma NoLinksPrefix(main: seq<FlowEntry>, buses: seq<Node>, n: nat)
    requires n <= |buses|
    requires forall i, j :: 0 <= i < j < |buses| ==> buses[i] != buses[j]
    requires NoLinks(main, buses)
    ensures forall i, j :: 0 <= i < j < n ==> buses[..n][i] != buses[..n][j]
    ensures NoLinks(main, buses[..n])
  {
    assert forall x :: x in buses[..n] ==> x in buses;
  }

  /** Between distinct buses that no flow links, every flow is visited
      at most once. */
  lemma {:induction false} NoLinksNoRepeats(main: seq<FlowEntry>, buses: seq<Node>, rules: seq<Rule>)
    requires forall i, j :: 0 <= i < j < |buses| ==> buses[i] != buses[j]
    requires NoLinks(main, buses)
    ensures DistinctIndices(Assignments(main, buses, rules))
    decreases |buses|
  {
    if |buses| > 0 {
      var n := |buses| - 1;
      var front := Assignments(main, buses[..n], rules);
      var more := BusAssignments(main, buses[n], NodeFlows(main, buses[n], |main|), rules);
      assert Assignments(main, buses, rules) == front + more;
      NoLinksPrefix(main, buses, n);
      NoLinksNoRepeats(main, buses[..n], rules);
      LastBusApart(main, buses, rules, front, more);
      DistinctAppend(front, more);
    }
  }

  // ---------------------------------------------------------------------
  // The rules change keys, not the flows visited

  /** Two lists of steps that visit the same flows in the same order. */
  predicate SameFlows(a: seq<Assignment>, b: seq<Assignment>)
  {
    |a| == |b| && forall j :: 0 <= j < |a| ==> a[j].index == b[j].index
  }

  /** The rules do not change which flows are visited, nor their order. */
  lemma {:induction false} RulesKeepFlows(main: seq<FlowEntry>, buses: seq<Node>, rules1: seq<Rule>, rules2: seq<Rule>)
    ensures SameFlows(Assignments(main, buses, rules1), Assignments(main, buses, rules2))
    decreases |buses|
  {
    if |buses| > 0 {
      var n := |buses| - 1;
      RulesKeepFlows(main, buses[..n], rules1, rules2);
    }
  }

  /** Lists of steps that visit the same flows have the same total. */
  lemma {:induction false} SameFlowsSameTotal(orig: seq<seq<real>>, a: seq<Assignment>, b: seq<Assignment>, t: nat)
    requires SameFlows(a, b)
    ensures Total(orig, a, t) == Total(orig, b, t)
    decreases |a|
  {
    if |a| > 0 {
      var n := |a| - 1;
      SameFlowsSameTotal(orig, a[..n], b[..n], t);
    }
  }

  /** Aggregation keeps the total: when no flow links two of the buses,
      the columns of two views of the same buses, with any two sets of rules
      that both succeed, add up to the same total at every time step. */
  lemma AggregationKeepsTotal(res: Results, arg: BusesArg, agg1: Option<seq<Rule>>, agg2: Option<seq<Rule>>, t: nat)
    requires ValidResults(res) && t < res.steps
    requires NoLinks(res.main, BusesOf(arg))
    requires ViewSpec(res, arg, agg1).0.Success? && ViewSpec(res, arg, agg2).0.Success?
    ensures ColumnsTotal(ViewSpec(res, arg, agg1).0.value, KeyList(ViewSteps(res, arg, agg1)), t) ==
      ColumnsTotal(ViewSpec(res, arg, agg2).0.value, KeyList(ViewSteps(res, arg, agg2)), t)
  {
    var a1 := ViewSteps(res, arg, agg1);
    var a2 := ViewSteps(res, arg, agg2);
    NoLinksNoRepeats(res.main, BusesOf(arg), agg1.GetOr([]));
    NoLinksNoRepeats(res.main, BusesOf(arg), agg2.GetOr([]));
    RulesKeepFlows(res.main, BusesOf(arg), agg1.GetOr([]), agg2.GetOr([]));
    ViewKeepsTotal(res, arg, agg1, t);
    ViewKeepsTotal(res, arg, agg2, t);
    SameFlowsSameTotal(Flows(res.main), a1, a2, t);
  }
}

module ViewExamples {
  import opened Wrappers
  import opened Labels
  import opened Analyses
  import opened Views

  const bus := Node(BusNode, Label("electricity", "all", "all", "DE01"))
  const lignite := Node(TransformerNode, Label("power plant", "lignite", "chp", "DE01"))
  const coal := Node(TransformerNode, Label("power plant", "hard coal", "chp", "DE01"))
  const plants := [FlowEntry(FlowKey(lignite, Some(bus)), [1.0]), FlowEntry(FlowKey(coal, Some(bus)), [2.0])]
  const allTags := [Rule("cat", "power plant", "tag", "all")]
  const key := ViewKey(bus.nodeLabel, "in", "power plant", "all", "chp")

  /** Both flows end at the bus and get the same key. */
  lemma ExampleSteps()
    ensures Assignments(plants, [bus], allTags) == [Assignment(key, 0), Assignment(key, 1)]
  {
    assert NodeFlows(plants, bus, 1) == [0];
    var flows := NodeFlows(plants, bus, 2);
    assert flows == [0, 1];
    assert allTags[..0] == [];
    assert FieldsAfter(lignite.nodeLabel, allTags) == map["subtag" := "chp", "tag" := "all"];
    assert FieldsAfter(coal.nodeLabel, allTags) == map["subtag" := "chp", "tag" := "all"];
    assert FlowKeyAt(plants, bus, 0, allTags) == key;
    assert FlowKeyAt(plants, bus, 1, allTags) == key;
    var steps := BusAssignments(plants, bus, flows, allTags);
    assert steps == [Assignment(key, 0), Assignment(key, 1)];
    assert [bus][..0] == [];
    assert Assignments(plants, [bus], allTags) == Assignments(plants, [], allTags) + steps;
  }

  /** The first flow is stored under the key, the second added to it. */
  lemma ExampleRun()
    ensures Run(ViewState(map[], [[1.0], [2.0]]), [Assignment(key, 0), Assignment(key, 1)]) ==
      ViewState(map[key := 0], [[3.0], [2.0]])
  {
    var asg := [Assignment(key, 0), Assignment(key, 1)];
    var init := ViewState(map[], [[1.0], [2.0]]);
    assert asg[..1][..0] == [];
    assert Run(init, asg[..1]) == ViewState(map[key := 0], [[1.0], [2.0]]);
    assert Add([1.0], [2.0]) == [3.0];
  }

  /** Two power plants feed one bus; the rule gives both the tag "all",
      so their flows meet under one key: the column is their sum, and the
      first plant's flow in the results now holds that sum. */
  lemma AggregationMutatesResults()
    ensures ViewSpec(Results(plants, 1), OneBus(bus), Some(allTags)) ==
      (Success(map[key := [3.0]]), [[3.0], [2.0]])
  {
    ExampleSteps();
    ExampleRun();
    assert Flows(plants) == [[1.0], [2.0]];
    assert Columns(ViewState(map[key := 0], [[3.0], [2.0]])) == map[key := [3.0]];
  }
}
