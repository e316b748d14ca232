/** The bus view and the searches of the older result module
    src/deflex/postprocessing.py. Its `reshape_bus_view` takes rules that
    only change subtags, either to a new text or by cutting "_"-parts off
    the original subtag; it writes into a data frame that may be passed
    in, adds up the columns that meet under one key and sorts the
    columns. `search_nodes` selects result nodes by class and label
    fields, and `search_results` filters dump files by their meta data.
    Result dictionaries are those of the Analyses module. */
module LegacyResults {
  import opened Wrappers
  import opened Labels
  import opened Strings
  import opened Analyses
  import Views
  import ScenarioIo

  // ------------------------------------------------------------ change_subtag

  /** The third field of a rule: a new subtag, or an integer that cuts
      "_"-parts off the subtag. */
  datatype SubtagChange = NewSubtag(subtag: string) | Cut(k: int)

  /** An aggregation rule (field to check, value of the field, change). */
  datatype SubtagRule = SubtagRule(field: string, value: string, change: SubtagChange)

  /** The index at which Python's `parts[:k]` ends and `parts[k:]` starts. */
  function SliceIndex(n: nat, k: int): (r: nat)
    ensures r <= n
  {
    if k < 0 then (if n + k > 0 then n + k else 0)
    else if k < n then k
    else n
  }

  /** `"_".join(subtag.split("_")[:k])` for a negative k and
      `"_".join(subtag.split("_")[k:])` otherwise. */
  function CutParts(subtag: string, k: int): string
  {
    var parts := Split(subtag, '_');
    var at := SliceIndex(|parts|, k);
    if k < 0 then Join(parts[..at], "_") else Join(parts[at..], "_")
  }

  /** A negative cut keeps all but the last |k| parts, a positive one
      drops the first k, and a cut of every part leaves "". */
  lemma CutPartsPieces(subtag: string, k: int)
    requires k != 0
    ensures var parts := Split(subtag, '_');
      (k < 0 && |parts| + k >= 1 ==> Split(CutParts(subtag, k), '_') == parts[..|parts| + k]) &&
      (k > 0 && k < |parts| ==> Split(CutParts(subtag, k), '_') == parts[k..]) &&
      ((k < 0 && |parts| + k <= 0) || (k > 0 && k >= |parts|) ==> CutParts(subtag, k) == "")
  {
    var parts := Split(subtag, '_');
    if k < 0 && |parts| + k >= 1 {
      SplitJoin(parts[..|parts| + k], '_');
    }
    if k > 0 && k < |parts| {
      SplitJoin(parts[k..], '_');
    }
  }

  /** Cutting the last part off and putting it back gives the subtag. */
  lemma CutLastPart(subtag: string)
    requires '_' in subtag
    ensures CutParts(subtag, -1) + "_" + LastPiece(subtag, '_') == subtag
  {
    var parts := Split(subtag, '_');
    ScenarioIo.CountPositive(subtag, '_');
    SplitCount(subtag, '_');
    var n := |parts| - 1;
    JoinSnoc(parts[..n], parts[n], "_");
    assert parts[..n] + [parts[n]] == parts;
    JoinSplit(subtag, '_');
  }

  /** The cuts of the documented rule ("tag", "pp", -1) and of its
      positive counterpart on a numbered power plant subtag. */
  lemma CutExamples()
    ensures CutParts("oil_038", -1) == "oil"
    ensures CutParts("oil_038", 1) == "038"
    ensures CutParts("oil", -1) == ""
  {
    assert "oil_038" == "oil" + ['_'] + "038";
    SplitPair("oil", "038", '_');
    SplitNoSeparator("oil", '_');
  }

  /** A field name the label has: `getattr` on any other raises
      `AttributeError`. */
  predicate Known(name: string)
  {
    Views.LabelField(Label("", "", "", ""), name).Some?
  }

  /** The field name of the first rule that names no label field. */
  function FirstBadField(rules: seq<SubtagRule>): (r: Option<string>)
    ensures r.None? <==> forall i :: 0 <= i < |rules| ==> Known(rules[i].field)
    ensures r.Some? ==> !Known(r.value) && exists i :: 0 <= i < |rules| && rules[i].field == r.value
  {
    if |rules| == 0 then None
    else if !Known(rules[0].field) then Some(rules[0].field)
    else
      var rest := FirstBadField(rules[1..]);
      assert forall i :: 1 <= i < |rules| ==> rules[i] == rules[1..][i - 1];
      rest
  }

  predicate Applies(rule: SubtagRule, l: Label)
  {
    Views.LabelField(l, rule.field) == Some(rule.value)
  }

  /** A rule that applies and is not a cut of 0 sets the subtag. */
  predicate Changes(rule: SubtagRule, l: Label)
  {
    Applies(rule, l) && rule.change != Cut(0)
  }

  /** The subtag a changing rule sets: a cut always starts from the
      label's original subtag. */
  function Outcome(rule: SubtagRule, l: Label): string
  {
    match rule.change
    case NewSubtag(s) => s
    case Cut(k) => CutParts(l.subtag, k)
  }

  /** The subtag after the rules, applied in order. */
  function SubtagAfter(l: Label, rules: seq<SubtagRule>): string
    decreases |rules|
  {
    if |rules| == 0 then l.subtag
    else
      var val := SubtagAfter(l, rules[..|rules| - 1]);
      var rule := rules[|rules| - 1];
      if Changes(rule, l) then Outcome(rule, l) else val
  }

  /** `change_subtag(node, changes)`: the first rule naming no label
      field raises; otherwise the subtag after the rules. */
  function ChangedSubtag(l: Label, rules: seq<SubtagRule>): (r: Result<string, Views.ViewError>)
  {
    match FirstBadField(rules)
    case Some(f) => Failure(Views.NoSuchField(f))
    case None => Success(SubtagAfter(l, rules))
  }

  predicate LastChanging(l: Label, rules: seq<SubtagRule>, i: int)
  {
    0 <= i < |rules| && Changes(rules[i], l) &&
    forall j :: i < j < |rules| ==> !Changes(rules[j], l)
  }

  /** Without a changing rule the label's own subtag stays ... */
  lemma {:induction false} NoChangeKeeps(l: Label, rules: seq<SubtagRule>)
    requires forall i :: 0 <= i < |rules| ==> !Changes(rules[i], l)
    ensures SubtagAfter(l, rules) == l.subtag
    decreases |rules|
  {
    if |rules| > 0 {
      var front := rules[..|rules| - 1];
      assert forall i :: 0 <= i < |front| ==> front[i] == rules[i];
      NoChangeKeeps(l, front);
    }
  }

  /** ... and otherwise the last changing rule decides it. */
  lemma {:induction false} LastChangeWins(l: Label, rules: seq<SubtagRule>, i: nat)
    requires LastChanging(l, rules, i)
    ensures SubtagAfter(l, rules) == Outcome(rules[i], l)
    decreases |rules|
  {
    var n := |rules| - 1;
    if i < n {
      var front := rules[..n];
      assert front[i] == rules[i];
      assert forall j :: i < j < |front| ==> front[j] == rules[j];
      LastChangeWins(l, front, i);
      assert !Changes(rules[n], l);
    }
  }

  /** Two cuts by one part that both apply cut one part, not two. */
  lemma CutsDoNotAddUp(l: Label, a: SubtagRule, b: SubtagRule)
    requires Applies(a, l) && Applies(b, l) && a.change == Cut(-1) && b.change == Cut(-1)
    ensures SubtagAfter(l, [a, b]) == CutParts(l.subtag, -1)
  {
    assert [a, b][..1] == [a];
    assert [a][..0] == [];
  }

  /** `change_subtag` with its loop over the rules. */
  method ChangeSubtag(l: Label, rules: seq<SubtagRule>) returns (r: Result<string, Views.ViewError>)
    ensures r == ChangedSubtag(l, rules)
  {
    var val := l.subtag;
    var i := 0;
    while i < |rules|
      invariant 0 <= i <= |rules|
      invariant val == SubtagAfter(l, rules[..i])
      invariant forall j :: 0 <= j < i ==> Known(rules[j].field)
    {
      var rule := rules[i];
      assert rules[..i + 1][..i] == rules[..i];
      var v := Views.LabelField(l, rule.field);
      if v.None? {
        FirstBadAt(rules, i);
        return Failure(Views.NoSuchField(rule.field));
      }
      if v.value == rule.value {
        match rule.change
        case NewSubtag(s) =>
          val := s;
        case Cut(k) =>
          if k < 0 {
            var parts := Split(l.subtag, '_');
            val := Join(parts[..SliceIndex(|parts|, k)], "_");
          } else if k > 0 {
            var parts := Split(l.subtag, '_');
            val := Join(parts[SliceIndex(|parts|, k)..], "_");
          }
      }
      i := i + 1;
    }
    assert rules[..i] == rules;
    r := Success(val);
  }

  /** The first unknown field after known ones is the first bad field. */
  lemma {:induction false} FirstBadAt(rules: seq<SubtagRule>, i: nat)
    requires i < |rules| && !Known(rules[i].field)
    requires forall j :: 0 <= j < i ==> Known(rules[j].field)
    ensures FirstBadField(rules) == Some(rules[i].field)
    decreases i
  {
    if i > 0 {
      FirstBadAt(rules[1..], i - 1);
    }
  }

  // --------------------------------------------------------- reshape_bus_view

  /** A column of the data frame: its five-level key and its values. */
  datatype FrameColumn = FrameColumn(key: Views.ViewKey, values: seq<real>)

  type Frame = seq<FrameColumn>

  /** Every column has `n` values: the frame shares the time index of
      the results. */
  predicate Uniform(frame: Frame, n: nat)
  {
    forall j :: 0 <= j < |frame| ==> |frame[j].values| == n
  }

  predicate DistinctKeys(frame: Frame)
  {
    forall i, j :: 0 <= i < j < |frame| ==> frame[i].key != frame[j].key
  }

  /** A single bus is wrapped in a list; a list is taken as it is, with
      any repeats. */
  function BusList(arg: Views.BusesArg): seq<Node>
  {
    match arg
    case OneBus(b) => [b]
    case BusList(bs) => bs
  }

  /** The column flow `i` adds at `bus`: the bus label, "out" or "in",
      the other node's category and tag, and its subtag after the rules. */
  function FlowColumn(main: seq<FlowEntry>, bus: Node, i: nat, rules: seq<SubtagRule>): (r: FrameColumn)
    requires i < |main| && main[i].key.target.Some?
    ensures r.values == main[i].flow && r.key.bus == bus.nodeLabel
    ensures main[i].key.source == bus ==> (
      var other := main[i].key.target.value.nodeLabel;
      r.key.direction == "out" && r.key.cat == other.cat && r.key.tag == other.tag)
    ensures main[i].key.source != bus ==> (
      var other := main[i].key.source.nodeLabel;
      r.key.direction == "in" && r.key.cat == other.cat && r.key.tag == other.tag)
  {
    var e := main[i];
    if e.key.source == bus then
      var other := e.key.target.value.nodeLabel;
      FrameColumn(Views.ViewKey(bus.nodeLabel, "out", other.cat, other.tag, SubtagAfter(other, rules)), e.flow)
    else
      var other := e.key.source.nodeLabel;
      FrameColumn(Views.ViewKey(bus.nodeLabel, "in", other.cat, other.tag, SubtagAfter(other, rules)), e.flow)
  }

  /** The columns of one bus, in result order. */
  function BusColumns(main: seq<FlowEntry>, bus: Node, rules: seq<SubtagRule>): (r: seq<FrameColumn>)
    ensures var flows := Views.NodeFlows(main, bus, |main|);
      |r| == |flows| && forall k :: 0 <= k < |r| ==> r[k] == FlowColumn(main, bus, flows[k], rules)
  {
    var flows := Views.NodeFlows(main, bus, |main|);
    seq(|flows|, k requires 0 <= k < |flows| => FlowColumn(main, bus, flows[k], rules))
  }

  /** The columns of all buses in turn. */
  function AllColumns(main: seq<FlowEntry>, buses: seq<Node>, rules: seq<SubtagRule>): seq<FrameColumn>
    decreases |buses|
  {
    if |buses| == 0 then []
    else
      var n := |buses| - 1;
      AllColumns(main, buses[..n], rules) + BusColumns(main, buses[n], rules)
  }

  /** The position of a key among the columns. */
  function KeyIndex(frame: Frame, key: Views.ViewKey): (r: Option<nat>)
    ensures r.Some? ==> r.value < |frame| && frame[r.value].key == key
    ensures r.None? <==> forall j :: 0 <= j < |frame| ==> frame[j].key != key
    decreases |frame|
  {
    if |frame| == 0 then None
    else if frame[|frame| - 1].key == key then Some(|frame| - 1)
    else KeyIndex(frame[..|frame| - 1], key)
  }

  /** `data[key] += values` when the frame has the key, otherwise
      `data[key] = values`, which appends a column. */
  function Put(frame: Frame, c: FrameColumn): (r: Frame)
    requires Uniform(frame, |c.values|)
    ensures Uniform(r, |c.values|)
  {
    match KeyIndex(frame, c.key)
    case Some(j) => frame[j := FrameColumn(c.key, Views.Add(frame[j].values, c.values))]
    case None => frame + [c]
  }

  /** The columns written one after the other. */
  function Fold(frame: Frame, cols: seq<FrameColumn>, n: nat): (r: Frame)
    requires Uniform(frame, n) && Uniform(cols, n)
    ensures Uniform(r, n)
    decreases |cols|
  {
    if |cols| == 0 then frame
    else Put(Fold(frame, cols[..|cols| - 1], n), cols[|cols| - 1])
  }

  lemma {:induction false} FoldAppend(frame: Frame, a: seq<FrameColumn>, b: seq<FrameColumn>, n: nat)
    requires Uniform(frame, n) && Uniform(a, n) && Uniform(b, n)
    ensures Uniform(a + b, n)
    ensures Fold(frame, a + b, n) == Fold(Fold(frame, a, n), b, n)
    decreases |b|
  {
    if |b| == 0 {
      assert a + b == a;
    } else {
      var m := |b| - 1;
      UniformParts(a, b, n);
      FoldAppend(frame, a, b[..m], n);
      var left := Fold(frame, a, n);
      assert Fold(frame, a + b, n) == Put(Fold(frame, a + b[..m], n), b[m]);
      assert Fold(left, b, n) == Put(Fold(left, b[..m], n), b[m]);
    }
  }

  lemma UniformParts(a: seq<FrameColumn>, b: seq<FrameColumn>, n: nat)
    requires Uniform(a, n) && Uniform(b, n) && |b| > 0
    ensures Uniform(b[..|b| - 1], n) && Uniform(a + b, n)
    ensures (a + b)[..|a + b| - 1] == a + b[..|b| - 1] && (a + b)[|a + b| - 1] == b[|b| - 1]
  {
  }

  // ----------------------------------------------------------- column values

  /** The value of the column with the key at time step `t`, 0 without one. */
  function ValueOf(frame: Frame, key: Views.ViewKey, t: nat): real
  {
    match KeyIndex(frame, key)
    case Some(j) => if t < |frame[j].values| then frame[j].values[t] else 0.0
    case None => 0.0
  }

  /** The sum of the values of the columns with the key at step `t`. */
  function KeySum(cols: seq<FrameColumn>, key: Views.ViewKey, t: nat): real
    decreases |cols|
  {
    if |cols| == 0 then 0.0
    else
      var c := cols[|cols| - 1];
      KeySum(cols[..|cols| - 1], key, t) + (if c.key == key && t < |c.values| then c.values[t] else 0.0)
  }

  /** Writing one column keeps the keys apart ... */
  lemma PutDistinct(frame: Frame, c: FrameColumn)
    requires Uniform(frame, |c.values|) && DistinctKeys(frame)
    ensures DistinctKeys(Put(frame, c))
  {
    var r := Put(frame, c);
    if KeyIndex(frame, c.key).Some? {
      assert forall i :: 0 <= i < |r| ==> r[i].key == frame[i].key;
    }
  }

  /** ... adds its key ... */
  lemma PutHasKey(frame: Frame, c: FrameColumn, key: Views.ViewKey)
    requires Uniform(frame, |c.values|)
    ensures KeyIndex(Put(frame, c), key).Some? <==> KeyIndex(frame, key).Some? || key == c.key
  {
    var r := Put(frame, c);
    if KeyIndex(frame, c.key).Some? {
      assert forall i :: 0 <= i < |r| ==> r[i].key == frame[i].key;
    } else {
      assert forall i :: 0 <= i < |frame| ==> r[i] == frame[i];
      assert r[|frame|] == c;
    }
  }

  /** ... and adds its values to the column with its key only. */
  lemma PutValue(frame: Frame, c: FrameColumn, key: Views.ViewKey, t: nat)
    requires Uniform(frame, |c.values|) && DistinctKeys(frame) && t < |c.values|
    ensures ValueOf(Put(frame, c), key, t) == ValueOf(frame, key, t) + (if key == c.key then c.values[t] else 0.0)
  {
    var r := Put(frame, c);
    PutDistinct(frame, c);
    KeyIndexDistinct(frame, key);
    KeyIndexDistinct(r, key);
    if KeyIndex(frame, c.key).None? {
      assert r[..|frame|] == frame;
    }
  }

  /** In a frame with distinct keys a key sits at its one position. */
  lemma KeyIndexDistinct(frame: Frame, key: Views.ViewKey)
    requires DistinctKeys(frame)
    ensures forall j :: 0 <= j < |frame| && frame[j].key == key ==> KeyIndex(frame, key) == Some(j)
  {
  }

  /** The columns of a fold stay apart ... */
  lemma {:induction false} FoldDistinct(frame: Frame, cols: seq<FrameColumn>, n: nat)
    requires Uniform(frame, n) && Uniform(cols, n) && DistinctKeys(frame)
    ensures DistinctKeys(Fold(frame, cols, n))
    decreases |cols|
  {
    if |cols| > 0 {
      var m := |cols| - 1;
      FoldDistinct(frame, cols[..m], n);
      PutDistinct(Fold(frame, cols[..m], n), cols[m]);
    }
  }

  /** ... and a key is a column of the fold exactly when it is one of
      the frame or a flow has it. */
  lemma {:induction false} FoldHasKey(frame: Frame, cols: seq<FrameColumn>, n: nat, key: Views.ViewKey)
    requires Uniform(frame, n) && Uniform(cols, n)
    ensures KeyIndex(Fold(frame, cols, n), key).Some? <==> KeyIndex(frame, key).Some? || KeyIndex(cols, key).Some?
    decreases |cols|
  {
    if |cols| > 0 {
      var m := |cols| - 1;
      FoldHasKey(frame, cols[..m], n, key);
      PutHasKey(Fold(frame, cols[..m], n), cols[m], key);
    }
  }

  /** `data` is extended, not replaced: each of its columns keeps its
      values plus those of the flows with its key, and colliding flows
      are added up. */
  lemma {:induction false} FoldValue(frame: Frame, cols: seq<FrameColumn>, n: nat, key: Views.ViewKey, t: nat)
    requires Uniform(frame, n) && Uniform(cols, n) && DistinctKeys(frame) && t < n
    ensures ValueOf(Fold(frame, cols, n), key, t) == ValueOf(frame, key, t) + KeySum(cols, key, t)
    decreases |cols|
  {
    if |cols| > 0 {
      var m := |cols| - 1;
      FoldValue(frame, cols[..m], n, key, t);
      FoldDistinct(frame, cols[..m], n);
      PutValue(Fold(frame, cols[..m], n), cols[m], key, t);
    }
  }

  // -------------------------------------------------------------- the total

  function ValueAt(c: FrameColumn, t: nat): real
  {
    if t < |c.values| then c.values[t] else 0.0
  }

  /** The sum of all columns at step `t`: `df.sum().sum()` for one step. */
  function TotalAt(cols: seq<FrameColumn>, t: nat): real
    decreases |cols|
  {
    if |cols| == 0 then 0.0
    else TotalAt(cols[..|cols| - 1], t) + ValueAt(cols[|cols| - 1], t)
  }

  lemma {:induction false} TotalUpdate(cols: seq<FrameColumn>, j: nat, x: FrameColumn, t: nat)
    requires j < |cols|
    ensures TotalAt(cols[j := x], t) == TotalAt(cols, t) - ValueAt(cols[j], t) + ValueAt(x, t)
    decreases |cols|
  {
    var m := |cols| - 1;
    if j < m {
      TotalUpdate(cols[..m], j, x, t);
      assert cols[j := x][..m] == cols[..m][j := x];
    } else {
      assert cols[j := x][..m] == cols[..m];
    }
  }

  lemma {:induction false} TotalCons(c: FrameColumn, cols: seq<FrameColumn>, t: nat)
    ensures TotalAt([c] + cols, t) == ValueAt(c, t) + TotalAt(cols, t)
    decreases |cols|
  {
    if |cols| > 0 {
      var m := |cols| - 1;
      TotalCons(c, cols[..m], t);
      assert ([c] + cols)[..|cols|] == [c] + cols[..m];
    } else {
      assert ([c] + cols)[..0] == [];
    }
  }

  /** Writing a column adds its value to the total, whether it is added
      to a column or appended. */
  lemma PutTotal(frame: Frame, c: FrameColumn, t: nat)
    requires Uniform(frame, |c.values|) && t < |c.values|
    ensures TotalAt(Put(frame, c), t) == TotalAt(frame, t) + ValueAt(c, t)
  {
    match KeyIndex(frame, c.key)
    case Some(j) =>
      TotalUpdate(frame, j, FrameColumn(c.key, Views.Add(frame[j].values, c.values)), t);
    case None =>
      assert (frame + [c])[..|frame|] == frame;
  }

  /** The total of the frame after the fold is the total before plus the
      total of the flows. */
  lemma {:induction false} FoldTotal(frame: Frame, cols: seq<FrameColumn>, n: nat, t: nat)
    requires Uniform(frame, n) && Uniform(cols, n) && t < n
    ensures TotalAt(Fold(frame, cols, n), t) == TotalAt(frame, t) + TotalAt(cols, t)
    decreases |cols|
  {
    if |cols| > 0 {
      var m := |cols| - 1;
      FoldTotal(frame, cols[..m], n, t);
      PutTotal(Fold(frame, cols[..m], n), cols[m], t);
    }
  }

  /** The flows of a bus all have the results' length. */
  lemma AllColumnsUniform(res: Results, buses: seq<Node>, rules: seq<SubtagRule>)
    requires ValidResults(res)
    ensures Uniform(AllColumns(res.main, buses, rules), res.steps)
    decreases |buses|
  {
    if |buses| > 0 {
      AllColumnsUniform(res, buses[..|buses| - 1], rules);
    }
  }

  /** The rules change keys only: the flow values come in the same order
      whatever the rules. */
  lemma {:induction false} RulesKeepValues(main: seq<FlowEntry>, buses: seq<Node>, r1: seq<SubtagRule>, r2: seq<SubtagRule>)
    ensures |AllColumns(main, buses, r1)| == |AllColumns(main, buses, r2)|
    ensures forall k :: 0 <= k < |AllColumns(main, buses, r1)| ==>
      AllColumns(main, buses, r1)[k].values == AllColumns(main, buses, r2)[k].values
    decreases |buses|
  {
    if |buses| > 0 {
      RulesKeepValues(main, buses[..|buses| - 1], r1, r2);
    }
  }

  lemma {:induction false} SameValuesSameTotal(a: seq<FrameColumn>, b: seq<FrameColumn>, t: nat)
    requires |a| == |b| && forall k :: 0 <= k < |a| ==> a[k].values == b[k].values
    ensures TotalAt(a, t) == TotalAt(b, t)
    decreases |a|
  {
    if |a| > 0 {
      SameValuesSameTotal(a[..|a| - 1], b[..|b| - 1], t);
    }
  }

  // ---------------------------------------------------------- sort_index

  /** The eight levels of a column key, the bus label's four first. */
  function KeyFields(k: Views.ViewKey): seq<string>
  {
    Fields(k.bus) + [k.direction, k.cat, k.tag, k.subtag]
  }

  /** Python's tuple order on equally long tuples of strings. */
  predicate LexBelow(a: seq<string>, b: seq<string>)
    decreases |a|
  {
    |a| > 0 && |b| > 0 && (Below(a[0], b[0]) || (a[0] == b[0] && LexBelow(a[1..], b[1..])))
  }

  predicate LexAtMost(a: seq<string>, b: seq<string>)
  {
    a == b || LexBelow(a, b)
  }

  lemma {:induction false} LexTotal(a: seq<string>, b: seq<string>)
    requires |a| == |b|
    ensures LexAtMost(a, b) || LexAtMost(b, a)
    decreases |a|
  {
    if |a| > 0 {
      BelowTotal(a[0], b[0]);
      if a[0] == b[0] {
        LexTotal(a[1..], b[1..]);
        if a[1..] == b[1..] {
          assert a == [a[0]] + a[1..] && b == [b[0]] + b[1..];
        }
      }
    }
  }

  lemma {:induction false} LexTransitive(a: seq<string>, b: seq<string>, c: seq<string>)
    requires LexBelow(a, b) && LexBelow(b, c)
    ensures LexBelow(a, c)
    decreases |a|
  {
    if Below(a[0], b[0]) && Below(b[0], c[0]) {
      BelowTransitive(a[0], b[0], c[0]);
    } else if a[0] == b[0] && b[0] == c[0] {
      LexTransitive(a[1..], b[1..], c[1..]);
    }
  }

  lemma LexAtMostTransitive(a: seq<string>, b: seq<string>, c: seq<string>)
    requires LexAtMost(a, b) && LexAtMost(b, c)
    ensures LexAtMost(a, c)
  {
    if a != b && b != c {
      LexTransitive(a, b, c);
    }
  }

  /** The order of column keys. */
  predicate KeyAtMost(a: Views.ViewKey, b: Views.ViewKey)
  {
    LexAtMost(KeyFields(a), KeyFields(b))
  }

  predicate SortedFrame(f: Frame)
  {
    forall i, j :: 0 <= i < j < |f| ==> KeyAtMost(f[i].key, f[j].key)
  }

  /** A column whose key is at most the first key of a sorted frame is
      at most all of them. */
  lemma BelowFirst(c: FrameColumn, f: Frame)
    requires SortedFrame(f) && |f| > 0 && KeyAtMost(c.key, f[0].key)
    ensures forall j :: 0 <= j < |f| ==> KeyAtMost(c.key, f[j].key)
  {
    forall j | 0 < j < |f|
      ensures KeyAtMost(c.key, f[j].key)
    {
      LexAtMostTransitive(KeyFields(c.key), KeyFields(f[0].key), KeyFields(f[j].key));
    }
  }

  /** The first column of a sorted frame is at most every column of a
      permutation of the rest with one more column at least it. */
  lemma FirstBelowRest(f: Frame, c: FrameColumn, rest: Frame)
    requires SortedFrame(f) && |f| > 0 && KeyAtMost(f[0].key, c.key)
    requires multiset(rest) == multiset(f[1..]) + multiset{c}
    ensures forall y :: y in rest ==> KeyAtMost(f[0].key, y.key)
  {
    forall y | y in rest
      ensures KeyAtMost(f[0].key, y.key)
    {
      assert y in multiset(rest);
      if y != c {
        assert y in multiset(f[1..]);
        var j :| 0 <= j < |f[1..]| && f[1..][j] == y;
        assert f[j + 1] == y;
      }
    }
  }

  lemma SortedTail(f: Frame)
    requires SortedFrame(f) && |f| > 0
    ensures SortedFrame(f[1..])
  {
    assert forall i :: 0 <= i < |f| - 1 ==> f[1..][i] == f[i + 1];
  }

  /** Inserting a column before the first column whose key is not below
      its own. */
  function InsertColumn(c: FrameColumn, f: Frame): (r: Frame)
    requires SortedFrame(f)
    ensures SortedFrame(r) && multiset(r) == multiset(f) + multiset{c}
    decreases |f|
  {
    if |f| == 0 then [c]
    else if LexBelow(KeyFields(f[0].key), KeyFields(c.key)) then
      SortedTail(f);
      var rest := InsertColumn(c, f[1..]);
      assert f == [f[0]] + f[1..];
      FirstBelowRest(f, c, rest);
      [f[0]] + rest
    else
      LexTotal(KeyFields(c.key), KeyFields(f[0].key));
      BelowFirst(c, f);
      [c] + f
  }

  /** `data.sort_index(axis=1)`: the same columns, ordered by key. */
  function SortColumns(f: Frame): (r: Frame)
    ensures SortedFrame(r) && multiset(r) == multiset(f)
    decreases |f|
  {
    if |f| == 0 then []
    else
      assert f == [f[0]] + f[1..];
      InsertColumn(f[0], SortColumns(f[1..]))
  }

  lemma {:induction false} InsertTotal(c: FrameColumn, f: Frame, t: nat)
    requires SortedFrame(f)
    ensures TotalAt(InsertColumn(c, f), t) == TotalAt(f, t) + ValueAt(c, t)
    decreases |f|
  {
    if |f| == 0 {
      TotalCons(c, [], t);
    } else if LexBelow(KeyFields(f[0].key), KeyFields(c.key)) {
      SortedTail(f);
      var rest := InsertColumn(c, f[1..]);
      assert InsertColumn(c, f) == [f[0]] + rest;
      InsertTotal(c, f[1..], t);
      TotalCons(f[0], rest, t);
      TotalCons(f[0], f[1..], t);
      assert f == [f[0]] + f[1..];
    } else {
      TotalCons(c, f, t);
    }
  }

  /** Sorting the columns keeps the total. */
  lemma {:induction false} SortTotal(f: Frame, t: nat)
    ensures TotalAt(SortColumns(f), t) == TotalAt(f, t)
    decreases |f|
  {
    if |f| > 0 {
      SortTotal(f[1..], t);
      InsertTotal(f[0], SortColumns(f[1..]), t);
      TotalCons(f[0], f[1..], t);
      assert f == [f[0]] + f[1..];
    }
  }

  // ------------------------------------------------------- the whole view

  /** `reshape_bus_view(results, buses, data, aggregate)`: the first rule
      naming no label field raises once a flow is met; otherwise the
      columns of all flows written into `data` (an empty frame when
      None), then sorted. */
  function ReshapeSpec(res: Results, arg: Views.BusesArg, data: Option<Frame>, aggregate: Option<seq<SubtagRule>>): Result<Frame, Views.ViewError>
    requires ValidResults(res) && (data.Some? ==> Uniform(data.value, res.steps))
  {
    var rules := aggregate.GetOr([]);
    var buses := BusList(arg);
    if FirstBadField(rules).Some? && Views.HasFlows(res.main, buses) then
      Failure(Views.NoSuchField(FirstBadField(rules).value))
    else
      AllColumnsUniform(res, buses, rules);
      Success(SortColumns(Fold(data.GetOr([]), AllColumns(res.main, buses, rules), res.steps)))
  }

  lemma BusColumnsUniform(res: Results, bus: Node, rules: seq<SubtagRule>)
    requires ValidResults(res)
    ensures Uniform(BusColumns(res.main, bus, rules), res.steps)
  {
  }

  /** One more column of a list written into the frame. */
  lemma FoldStep(frame: Frame, cols: seq<FrameColumn>, k: nat, n: nat)
    requires Uniform(frame, n) && Uniform(cols, n) && k < |cols|
    ensures Uniform(cols[..k], n) && Uniform(cols[..k + 1], n)
    ensures Fold(frame, cols[..k + 1], n) == Put(Fold(frame, cols[..k], n), cols[k])
  {
    assert cols[..k + 1][..k] == cols[..k];
  }

  /** What the inner loop leaves: the flows of the bus written into the
      frame, or the error of the first rule naming no label field when
      the bus has a flow. */
  predicate BusDone(res: Results, bus: Node, rules: seq<SubtagRule>, frame: Frame, err: Option<Views.ViewError>, frame': Frame)
    requires ValidResults(res) && Uniform(frame, res.steps)
  {
    BusColumnsUniform(res, bus, rules);
    Uniform(frame', res.steps) &&
    if FirstBadField(rules).None? then err.None? && frame' == Fold(frame, BusColumns(res.main, bus, rules), res.steps)
    else if |Views.NodeFlows(res.main, bus, |res.main|)| == 0 then err.None? && frame' == frame
    else err == Some(Views.NoSuchField(FirstBadField(rules).value))
  }

  /** The flows of one bus written into the frame, as the inner loop does. */
  method BusInto(res: Results, bus: Node, rules: seq<SubtagRule>, frame: Frame) returns (err: Option<Views.ViewError>, frame': Frame)
    requires ValidResults(res) && Uniform(frame, res.steps)
    ensures BusDone(res, bus, rules, frame, err, frame')
  {
    var flows := Views.NodeFlows(res.main, bus, |res.main|);
    ghost var cols := BusColumns(res.main, bus, rules);
    BusColumnsUniform(res, bus, rules);
    frame' := frame;
    err := None;
    var k := 0;
    while k < |flows|
      invariant 0 <= k <= |flows|
      invariant frame' == Fold(frame, cols[..k], res.steps)
      invariant k > 0 ==> FirstBadField(rules).None?
    {
      var i := flows[k];
      assert i in flows;
      var e := res.main[i];
      var other := if e.key.source == bus then e.key.target.value.nodeLabel else e.key.source.nodeLabel;
      var sub := ChangeSubtag(other, rules);
      if sub.Failure? {
        return Some(sub.error), frame';
      }
      var dir := if e.key.source == bus then "out" else "in";
      var col := FrameColumn(Views.ViewKey(bus.nodeLabel, dir, other.cat, other.tag, sub.value), e.flow);
      assert col == cols[k];
      FoldStep(frame, cols, k, res.steps);
      frame' := Put(frame', col);
      k := k + 1;
    }
    assert cols[..k] == cols;
  }

  /** The state of the outer loop after `b` buses. */
  predicate Reached(res: Results, buses: seq<Node>, b: nat, rules: seq<SubtagRule>, start: Frame, frame: Frame)
    requires ValidResults(res) && b <= |buses| && Uniform(start, res.steps)
  {
    AllColumnsUniform(res, buses[..b], rules);
    Uniform(frame, res.steps) &&
    if FirstBadField(rules).None? then frame == Fold(start, AllColumns(res.main, buses[..b], rules), res.steps)
    else frame == start && Views.NoFlowsBefore(res.main, buses, b)
  }

  lemma ReachedStart(res: Results, buses: seq<Node>, rules: seq<SubtagRule>, start: Frame)
    requires ValidResults(res) && Uniform(start, res.steps)
    ensures Reached(res, buses, 0, rules, start, start)
  {
    assert buses[..0] == [];
  }

  lemma ReachedNext(res: Results, buses: seq<Node>, b: nat, rules: seq<SubtagRule>, start: Frame, frame: Frame,
                    err: Option<Views.ViewError>, frame': Frame)
    requires ValidResults(res) && b < |buses| && Uniform(start, res.steps)
    requires Reached(res, buses, b, rules, start, frame) && Uniform(frame, res.steps)
    requires BusDone(res, buses[b], rules, frame, err, frame') && err.None?
    ensures Reached(res, buses, b + 1, rules, start, frame')
  {
    if FirstBadField(rules).None? {
      NextBus(res, buses, b, rules, start);
    }
  }

  /** An error of the inner loop is the error of the whole view. */
  lemma ErrorIsFailure(res: Results, arg: Views.BusesArg, data: Option<Frame>, aggregate: Option<seq<SubtagRule>>, b: nat,
                       frame: Frame, err: Option<Views.ViewError>, frame': Frame)
    requires ValidResults(res) && (data.Some? ==> Uniform(data.value, res.steps))
    requires b < |BusList(arg)| && Uniform(frame, res.steps)
    requires BusDone(res, BusList(arg)[b], aggregate.GetOr([]), frame, err, frame') && err.Some?
    ensures ReshapeSpec(res, arg, data, aggregate) == Failure(err.value)
  {
  }

  /** After all buses, the frame is the fold of all columns. */
  lemma ReachedAll(res: Results, arg: Views.BusesArg, data: Option<Frame>, aggregate: Option<seq<SubtagRule>>, frame: Frame)
    requires ValidResults(res) && (data.Some? ==> Uniform(data.value, res.steps))
    requires Reached(res, BusList(arg), |BusList(arg)|, aggregate.GetOr([]), data.GetOr([]), frame)
    ensures ReshapeSpec(res, arg, data, aggregate) == Success(SortColumns(frame))
  {
    var buses := BusList(arg);
    var rules := aggregate.GetOr([]);
    assert buses[..|buses|] == buses;
    if FirstBadField(rules).Some? {
      NoFlowsNoColumns(res.main, buses, rules);
    }
  }

  /** `reshape_bus_view` with its loops over the buses and their flows. */
  method ReshapeBusView(res: Results, arg: Views.BusesArg, data: Option<Frame>, aggregate: Option<seq<SubtagRule>>)
    returns (r: Result<Frame, Views.ViewError>)
    requires ValidResults(res) && (data.Some? ==> Uniform(data.value, res.steps))
    ensures r == ReshapeSpec(res, arg, data, aggregate)
  {
    var rules := aggregate.GetOr([]);
    var start: Frame := data.GetOr([]);
    var frame := start;
    var buses := BusList(arg);
    ReachedStart(res, buses, rules, start);
    var b := 0;
    while b < |buses|
      invariant 0 <= b <= |buses| && Uniform(frame, res.steps)
      invariant Reached(res, buses, b, rules, start, frame)
    {
      var err, frame' := NextBusInto(res, arg, data, aggregate, b, frame);
      if err.Some? {
        return Failure(err.value);
      }
      frame := frame';
      b := b + 1;
    }
    ReachedAll(res, arg, data, aggregate, frame);
    r := Success(SortColumns(frame));
  }

  /** One pass of the loop over the buses: the flows of bus `b` written
      into the frame. */
  method NextBusInto(res: Results, arg: Views.BusesArg, data: Option<Frame>, aggregate: Option<seq<SubtagRule>>, b: nat, frame: Frame)
    returns (err: Option<Views.ViewError>, frame': Frame)
    requires ValidResults(res) && (data.Some? ==> Uniform(data.value, res.steps))
    requires b < |BusList(arg)| && Uniform(frame, res.steps)
    requires Reached(res, BusList(arg), b, aggregate.GetOr([]), data.GetOr([]), frame)
    ensures err.Some? ==> ReshapeSpec(res, arg, data, aggregate) == Failure(err.value)
    ensures err.None? ==> Uniform(frame', res.steps) && Reached(res, BusList(arg), b + 1, aggregate.GetOr([]), data.GetOr([]), frame')
  {
    err, frame' := BusInto(res, BusList(arg)[b], aggregate.GetOr([]), frame);
    if err.Some? {
      ErrorIsFailure(res, arg, data, aggregate, b, frame, err, frame');
    } else {
      ReachedNext(res, BusList(arg), b, aggregate.GetOr([]), data.GetOr([]), frame, err, frame');
    }
  }

  /** The columns of one more bus follow those of the earlier ones. */
  lemma NextBus(res: Results, buses: seq<Node>, b: nat, rules: seq<SubtagRule>, start: Frame)
    requires ValidResults(res) && b < |buses| && Uniform(start, res.steps)
    ensures Uniform(AllColumns(res.main, buses[..b + 1], rules), res.steps)
    ensures Uniform(AllColumns(res.main, buses[..b], rules), res.steps)
    ensures Uniform(BusColumns(res.main, buses[b], rules), res.steps)
    ensures Fold(start, AllColumns(res.main, buses[..b + 1], rules), res.steps) ==
      Fold(Fold(start, AllColumns(res.main, buses[..b], rules), res.steps), BusColumns(res.main, buses[b], rules), res.steps)
  {
    assert buses[..b + 1][..b] == buses[..b];
    AllColumnsUniform(res, buses[..b], rules);
    AllColumnsUniform(res, buses[..b + 1], rules);
    FoldAppend(start, AllColumns(res.main, buses[..b], rules), BusColumns(res.main, buses[b], rules), res.steps);
  }

  /** Buses without flows give no columns. */
  lemma NoFlowsNoColumns(main: seq<FlowEntry>, buses: seq<Node>, rules: seq<SubtagRule>)
    requires Views.NoFlowsBefore(main, buses, |buses|)
    ensures AllColumns(main, buses, rules) == []
  {
    forall c | 0 <= c < |buses|
      ensures BusColumns(main, buses[c], rules) == []
    {
      NoFlowsBusColumns(main, buses[c], rules);
    }
    NoColumnsNoColumns(main, buses, rules);
  }

  /** Buses that give no columns give none together. */
  lemma {:induction false} NoColumnsNoColumns(main: seq<FlowEntry>, buses: seq<Node>, rules: seq<SubtagRule>)
    requires forall c :: 0 <= c < |buses| ==> BusColumns(main, buses[c], rules) == []
    ensures AllColumns(main, buses, rules) == []
    decreases |buses|
  {
    if |buses| > 0 {
      var n := |buses| - 1;
      var front := buses[..n];
      assert forall c :: 0 <= c < n ==> front[c] == buses[c];
      NoColumnsNoColumns(main, front, rules);
    }
  }

  /** A bus without flows gives no columns. */
  lemma NoFlowsBusColumns(main: seq<FlowEntry>, bus: Node, rules: seq<SubtagRule>)
    requires |Views.NodeFlows(main, bus, |main|)| == 0
    ensures BusColumns(main, bus, rules) == []
  {
  }

  /** The total of the view at every step is that of `data` plus that of
      every flow at the buses, whatever the aggregation rules: rules only
      decide which flows share a column. */
  lemma ReshapeKeepsTotal(res: Results, arg: Views.BusesArg, data: Option<Frame>,
                          agg1: Option<seq<SubtagRule>>, agg2: Option<seq<SubtagRule>>, t: nat)
    requires ValidResults(res) && (data.Some? ==> Uniform(data.value, res.steps)) && t < res.steps
    requires ReshapeSpec(res, arg, data, agg1).Success? && ReshapeSpec(res, arg, data, agg2).Success?
    ensures TotalAt(ReshapeSpec(res, arg, data, agg1).value, t) == TotalAt(ReshapeSpec(res, arg, data, agg2).value, t)
    ensures TotalAt(ReshapeSpec(res, arg, data, agg1).value, t) ==
      TotalAt(data.GetOr([]), t) + TotalAt(AllColumns(res.main, BusList(arg), []), t)
  {
    var buses := BusList(arg);
    var start := data.GetOr([]);
    var r1 := agg1.GetOr([]);
    var r2 := agg2.GetOr([]);
    AllColumnsUniform(res, buses, r1);
    AllColumnsUniform(res, buses, r2);
    var f1 := Fold(start, AllColumns(res.main, buses, r1), res.steps);
    var f2 := Fold(start, AllColumns(res.main, buses, r2), res.steps);
    SortTotal(f1, t);
    SortTotal(f2, t);
    FoldTotal(start, AllColumns(res.main, buses, r1), res.steps, t);
    FoldTotal(start, AllColumns(res.main, buses, r2), res.steps, t);
    RulesKeepValues(res.main, buses, r1, r2);
    SameValuesSameTotal(AllColumns(res.main, buses, r1), AllColumns(res.main, buses, r2), t);
    RulesKeepValues(res.main, buses, r1, []);
    SameValuesSameTotal(AllColumns(res.main, buses, r1), AllColumns(res.main, buses, []), t);
  }

  /** A column of `data` whose key no flow has is kept as it was, and
      every key of a flow is a column of the view. */
  lemma ReshapeExtendsData(res: Results, arg: Views.BusesArg, data: Frame, aggregate: Option<seq<SubtagRule>>,
                           key: Views.ViewKey, t: nat)
    requires ValidResults(res) && Uniform(data, res.steps) && DistinctKeys(data) && t < res.steps
    requires FirstBadField(aggregate.GetOr([])).None?
    ensures Uniform(AllColumns(res.main, BusList(arg), aggregate.GetOr([])), res.steps)
    ensures var cols := AllColumns(res.main, BusList(arg), aggregate.GetOr([]));
      var f := Fold(data, cols, res.steps);
      ReshapeSpec(res, arg, Some(data), aggregate) == Success(SortColumns(f)) &&
      ValueOf(f, key, t) == ValueOf(data, key, t) + KeySum(cols, key, t) &&
      (KeyIndex(f, key).Some? <==> KeyIndex(data, key).Some? || KeyIndex(cols, key).Some?)
  {
    var rules := aggregate.GetOr([]);
    AllColumnsUniform(res, BusList(arg), rules);
    var cols := AllColumns(res.main, BusList(arg), rules);
    FoldValue(data, cols, res.steps, key, t);
    FoldHasKey(data, cols, res.steps, key);
  }

  // ------------------------------------------------------------ search_nodes

  /** A label filter: one value, which is wrapped in a list, or a list. */
  datatype LabelFilter = OneValue(value: string) | AnyValue(values: seq<string>)

  function Wrapped(v: LabelFilter): seq<string>
  {
    match v
    case OneValue(x) => [x]
    case AnyValue(xs) => xs
  }

  /** The node's label field `key` is one of the filter's values. */
  predicate Passes(x: Node, key: string, v: LabelFilter)
  {
    match Views.LabelField(x.nodeLabel, key)
    case Some(f) => f in Wrapped(v)
    case None => false
  }

  /** The distinct source nodes of the given class among the result keys. */
  function SourcesOfClass(main: seq<FlowEntry>, cls: NodeClass): (r: set<Node>)
    ensures forall n :: n in r <==> n.cls == cls && exists i :: 0 <= i < |main| && main[i].key.source == n
  {
    set i | 0 <= i < |main| && main[i].key.source.cls == cls :: main[i].key.source
  }

  /** The filters in turn: a filter naming no label field raises only
      when some node is left to test. */
  function ApplyFilters(nodes: set<Node>, filters: seq<(string, LabelFilter)>): (r: Result<set<Node>, Views.ViewError>)
    ensures r.Success? ==> r.value <= nodes
    ensures r.Failure? ==> exists i :: 0 <= i < |filters| && !Known(filters[i].0) && r.error == Views.NoSuchField(filters[i].0)
    decreases |filters|
  {
    if |filters| == 0 then Success(nodes)
    else
      var n := |filters| - 1;
      match ApplyFilters(nodes, filters[..n])
      case Failure(e) => Failure(e)
      case Success(left) =>
        var (key, v) := filters[n];
        if left == {} then Success({})
        else if !Known(key) then Failure(Views.NoSuchField(key))
        else Success(set x | x in left && Passes(x, key, v))
  }

  /** `search_nodes(results, node_type, **label_filter)` */
  function SearchNodes(res: Results, cls: NodeClass, filters: seq<(string, LabelFilter)>): (r: Result<set<Node>, Views.ViewError>)
    ensures r.Success? ==> forall x :: x in r.value ==> x.cls == cls && exists i :: 0 <= i < |res.main| && res.main[i].key.source == x
    ensures r.Failure? ==> exists i :: 0 <= i < |filters| && !Known(filters[i].0) && r.error == Views.NoSuchField(filters[i].0)
    ensures (forall i :: 0 <= i < |filters| ==> Known(filters[i].0)) ==> r.Success?
    ensures (forall i :: 0 <= i < |filters| ==> Known(filters[i].0)) ==>
      forall x :: x in r.value <==>
        (x.cls == cls && (exists i :: 0 <= i < |res.main| && res.main[i].key.source == x) &&
         forall i :: 0 <= i < |filters| ==> Passes(x, filters[i].0, filters[i].1))
  {
    var nodes := SourcesOfClass(res.main, cls);
    if forall i :: 0 <= i < |filters| ==> Known(filters[i].0) then
      FiltersExactly(nodes, filters);
      ApplyFilters(nodes, filters)
    else
      ApplyFilters(nodes, filters)
  }

  /** With known fields, a node is found exactly when it is a source of
      the class and every filter holds its field's value: the filters
      are ANDed and a single value acts as a one-element list. */
  lemma {:induction false} FiltersExactly(nodes: set<Node>, filters: seq<(string, LabelFilter)>)
    requires forall i :: 0 <= i < |filters| ==> Known(filters[i].0)
    ensures ApplyFilters(nodes, filters).Success?
    ensures forall x :: x in ApplyFilters(nodes, filters).value <==>
      x in nodes && forall i :: 0 <= i < |filters| ==> Passes(x, filters[i].0, filters[i].1)
    decreases |filters|
  {
    if |filters| > 0 {
      var n := |filters| - 1;
      var front := filters[..n];
      assert forall i :: 0 <= i < n ==> front[i] == filters[i];
      FiltersExactly(nodes, front);
      var left := ApplyFilters(nodes, front).value;
      var (key, v) := filters[n];
      assert Known(key);
      assert ApplyFilters(nodes, filters) == Success(if left == {} then {} else set x | x in left && Passes(x, key, v));
      forall x
        ensures x in ApplyFilters(nodes, filters).value <==>
          x in nodes && forall i :: 0 <= i < |filters| ==> Passes(x, filters[i].0, filters[i].1)
      {
        if x in nodes && forall i :: 0 <= i < n ==> Passes(x, front[i].0, front[i].1) {
          assert x in left;
        }
      }
    }
  }

  /** An unknown field raises once nodes are left: with nodes passing
      the filters before it, the search fails. */
  lemma UnknownFieldFails(nodes: set<Node>, filters: seq<(string, LabelFilter)>, key: string, v: LabelFilter)
    requires ApplyFilters(nodes, filters).Success? && ApplyFilters(nodes, filters).value != {}
    requires !Known(key)
    ensures ApplyFilters(nodes, filters + [(key, v)]) == Failure(Views.NoSuchField(key))
  {
    assert (filters + [(key, v)])[..|filters|] == filters;
  }

  // --------------------------------------------------- search_results filter

  /** `str(meta.get(key)) in value`: membership in a list, or a substring
      test when the value is a bare string. */
  predicate LegacyAccepts(meta: ScenarioIo.Meta, key: string, v: ScenarioIo.FilterValue)
  {
    match v
    case Values(items) => ScenarioIo.MetaText(meta, key) in items
    case Text(t) => Contains(t, ScenarioIo.MetaText(meta, key))
  }

  /** The files that survive the filters, in their order. */
  function Survivors(files: seq<ScenarioIo.Dump>, filters: seq<(string, ScenarioIo.FilterValue)>): (r: seq<ScenarioIo.Dump>)
    ensures forall d :: d in r <==> d in files && forall i :: 0 <= i < |filters| ==> LegacyAccepts(d.meta, filters[i].0, filters[i].1)
    decreases |filters|
  {
    if |filters| == 0 then files
    else
      var n := |filters| - 1;
      var before := Survivors(files, filters[..n]);
      assert forall i :: 0 <= i < n ==> filters[..n][i] == filters[i];
      Kept(before, filters[n].0, filters[n].1)
  }

  /** The files of one filter's pass that are not popped. */
  function Kept(files: seq<ScenarioIo.Dump>, key: string, v: ScenarioIo.FilterValue): (r: seq<ScenarioIo.Dump>)
    ensures forall d :: d in r <==> d in files && LegacyAccepts(d.meta, key, v)
    decreases |files|
  {
    if |files| == 0 then []
    else
      var n := |files| - 1;
      var front := Kept(files[..n], key, v);
      assert files == files[..n] + [files[n]];
      if LegacyAccepts(files[n].meta, key, v) then front + [files[n]] else front
  }

  /** The filter loop of `search_results`: for each filter, the files
      whose meta data it rejects are popped. */
  method FilterResults(files: seq<ScenarioIo.Dump>, filters: seq<(string, ScenarioIo.FilterValue)>) returns (kept: seq<ScenarioIo.Dump>)
    ensures kept == Survivors(files, filters)
  {
    kept := files;
    var f := 0;
    while f < |filters|
      invariant 0 <= f <= |filters|
      invariant kept == Survivors(files, filters[..f])
    {
      var (key, v) := filters[f];
      var left: seq<ScenarioIo.Dump> := [];
      var i := 0;
      while i < |kept|
        invariant 0 <= i <= |kept|
        invariant left == Kept(kept[..i], key, v)
      {
        assert kept[..i + 1][..i] == kept[..i];
        if LegacyAccepts(kept[i].meta, key, v) {
          left := left + [kept[i]];
        }
        i := i + 1;
      }
      assert kept[..i] == kept;
      assert filters[..f + 1][..f] == filters[..f];
      kept := left;
      f := f + 1;
    }
    assert filters[..f] == filters;
  }

  /** Every filter of `search_results` accepts a file's meta data. */
  predicate LegacyAcceptedByAll(meta: ScenarioIo.Meta, filters: seq<(string, ScenarioIo.FilterValue)>)
  {
    forall i :: 0 <= i < |filters| ==> LegacyAccepts(meta, filters[i].0, filters[i].1)
  }

  /** The names the filters leave of the loaded dumps are the found names
      whose opened file's meta data every filter accepts. */
  lemma SurvivorPaths(path: string, found: seq<string>, disk: map<string, ScenarioIo.Meta>, dumps: seq<ScenarioIo.Dump>,
                      filters: seq<(string, ScenarioIo.FilterValue)>)
    requires |dumps| == |found|
    requires forall i :: 0 <= i < |found| ==>
      ScenarioIo.OsJoin(path, found[i]) in disk && dumps[i] == ScenarioIo.Dump(found[i], disk[ScenarioIo.OsJoin(path, found[i])])
    ensures forall p :: p in ScenarioIo.Paths(Survivors(dumps, filters)) <==>
      p in found && LegacyAcceptedByAll(disk[ScenarioIo.OsJoin(path, p)], filters)
  {
    var kept := Survivors(dumps, filters);
    var r := ScenarioIo.Paths(kept);
    forall p | p in r
      ensures p in found && LegacyAcceptedByAll(disk[ScenarioIo.OsJoin(path, p)], filters)
    {
      var j :| 0 <= j < |r| && r[j] == p;
      assert kept[j] in dumps;
      var k :| 0 <= k < |dumps| && dumps[k] == kept[j];
      assert found[k] == p;
    }
    forall p | p in found && LegacyAcceptedByAll(disk[ScenarioIo.OsJoin(path, p)], filters)
      ensures p in r
    {
      var j :| 0 <= j < |found| && found[j] == p;
      assert dumps[j] in kept;
      var k :| 0 <= k < |kept| && kept[k] == dumps[j];
      assert r[k] == p;
    }
  }

  /** `search_results(path, extension, **filters)`: the names the walk
      finds, each read from `os.path.join(path, name)` on the disk, kept
      when every filter accepts its meta data. As in the scenario module,
      a found name already starts with `path`, so a relative path is
      joined twice. */
  function SearchResults(path: string, tree: ScenarioIo.Dir, ext: string, disk: map<string, ScenarioIo.Meta>,
                         filters: seq<(string, ScenarioIo.FilterValue)>): (r: Result<seq<string>, ScenarioIo.IoError>)
    ensures r.Failure? <==> exists p :: p in ScenarioIo.Walk(path, tree, ext) && ScenarioIo.OsJoin(path, p) !in disk
    ensures r.Failure? ==> exists p :: (p in ScenarioIo.Walk(path, tree, ext) && ScenarioIo.OsJoin(path, p) !in disk &&
                                        r.error == ScenarioIo.NotFound(ScenarioIo.OsJoin(path, p)))
    ensures r.Success? ==> forall p :: p in r.value <==>
      p in ScenarioIo.Walk(path, tree, ext) && LegacyAcceptedByAll(disk[ScenarioIo.OsJoin(path, p)], filters)
  {
    var found := ScenarioIo.Walk(path, tree, ext);
    match ScenarioIo.LoadDumps(path, found, disk)
    case Failure(e) => Failure(e)
    case Success(dumps) =>
      SurvivorPaths(path, found, disk, dumps, filters);
      Success(ScenarioIo.Paths(Survivors(dumps, filters)))
  }

  /** Unlike the case-insensitive filter of the scenario module, the
      comparison is exact, and a bare string accepts any part of it. */
  lemma LegacyFilterExamples(m: ScenarioIo.Meta)
    requires m == map["heat" := "True", "map" := "de17"]
    ensures LegacyAccepts(m, "heat", ScenarioIo.Values(["True"])) && !LegacyAccepts(m, "heat", ScenarioIo.Values(["true"]))
    ensures LegacyAccepts(m, "map", ScenarioIo.Text("de17"))
    ensures LegacyAccepts(m, "year", ScenarioIo.Values(["None"]))
  {
    assert "True" != "true" by {
      assert "True"[0] != "true"[0];
    }
    assert Contains("de17", "de17") by {
      ContainsSelf("de17");
    }
  }
}
