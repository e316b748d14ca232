/** The result graph of src/deflex/postprocessing/graph.py: the nodes and
    edges of a result, node and edge colours, and a directed graph that is
    built on demand and cached. Colour maps and the graph library are not
    part of this model; a directed graph is a value with a map of nodes and
    a map of edges. */
module Graph {
  import opened Wrappers
  import opened Labels
  import opened Strings
  import opened Analyses
  import ScenarioNodes
  import Views

  /** A node colour: `{"bg": ..., "fg": ...}`. */
  datatype Color = Color(bg: string, fg: string)

  /** The key of a colour dictionary: the name of a node class or the class
      itself (`use_name`). */
  datatype ColorKey = ByName(name: string) | ByClass(cls: NodeClass)

  /** An `Edge`: the two nodes of a flow, its sequence, the summed weight
      and the colour. */
  datatype Edge = Edge(source: Node, target: Node, sequence: seq<real>, weight: real, color: string)

  datatype NodeAttrs = NodeAttrs(labelText: string, bgColor: string, fgColor: string, kind: string)

  /** The edge attributes; `weigth` is kept as the scaled number, before it
      is formatted with one decimal. */
  datatype EdgeAttrs = EdgeAttrs(weigth: real, color: string)

  /** A directed graph keyed by node labels. */
  datatype DiGraph = DiGraph(nodes: map<Label, NodeAttrs>, edges: map<(Label, Label), EdgeAttrs>)

  datatype GraphError = MaxBelowMin(maxWeight: real)

  /** `type(n).__name__` */
  function ClassName(c: NodeClass): string
  {
    match c
    case BusNode => "Bus"
    case SourceNode => "Source"
    case SinkNode => "Sink"
    case TransformerNode => "Transformer"
    case StorageNode => "GenericStorage"
  }


  /** The list of nodes before it is turned into a set: every source, then
      every target that is not None. */
  function NodeList(main: seq<FlowEntry>): seq<Node>
  {
    seq(|main|, i requires 0 <= i < |main| => main[i].key.source) +
    Targets(main)
  }

  function Targets(main: seq<FlowEntry>): (r: seq<Node>)
    ensures forall n :: n in r <==> exists i :: 0 <= i < |main| && main[i].key.target == Some(n)
    decreases |main|
  {
    if |main| == 0 then []
    else
      var front := Targets(main[..|main| - 1]);
      var last := main[|main| - 1].key.target;
      assert forall i :: 0 <= i < |main| - 1 ==> main[..|main| - 1][i] == main[i];
      if last.Some? then front + [last.value] else front
  }

  /** `_fetch_nodes`: the distinct nodes of the list, first occurrences
      kept. */
  function FetchNodes(main: seq<FlowEntry>): seq<Node>
  {
    Views.Distinct(NodeList(main))
  }

  /** The nodes of the graph are exactly the nodes of the result, each once. */
  lemma FetchNodesExact(main: seq<FlowEntry>)
    ensures forall n :: n in FetchNodes(main) <==> n in AllNodes(main)
    ensures var ns := FetchNodes(main); forall i, j :: 0 <= i < j < |ns| ==> ns[i] != ns[j]
  {
    var l := NodeList(main);
    forall n
      ensures n in l <==> n in AllNodes(main)
    {
      if n in l[..|main|] {
        var i :| 0 <= i < |main| && l[i] == n;
        assert main[i].key.source == n;
      }
      if n in AllNodes(main) {
        var i :| 0 <= i < |main| && (main[i].key.source == n || main[i].key.target == Some(n));
        if main[i].key.source == n {
          assert l[i] == n;
        } else {
          assert n in Targets(main);
        }
      }
    }
  }

  /** The edge of a result entry with a target. */
  function EdgeOf(e: FlowEntry, color: string): Edge
    requires e.key.target.Some?
  {
    Edge(e.key.source, e.key.target.value, e.flow, ScenarioNodes.Sum(e.flow), color)
  }

  /** The edges of `_fetch_edges`, in result order. */
  function EdgesOf(main: seq<FlowEntry>, color: string): seq<Edge>
    decreases |main|
  {
    if |main| == 0 then []
    else
      var front := EdgesOf(main[..|main| - 1], color);
      var e := main[|main| - 1];
      if e.key.target.Some? then front + [EdgeOf(e, color)] else front
  }

  /** `_fetch_edges`. */
  method FetchEdges(main: seq<FlowEntry>, color: string) returns (edges: seq<Edge>)
    ensures edges == EdgesOf(main, color)
  {
    edges := [];
    var i := 0;
    while i < |main|
      invariant 0 <= i <= |main|
      invariant edges == EdgesOf(main[..i], color)
    {
      assert main[..i + 1][..i] == main[..i];
      if main[i].key.target.Some? {
        edges := edges + [EdgeOf(main[i], color)];
      }
      i := i + 1;
    }
    assert main[..i] == main;
  }

  /** There is one edge per result entry with a target, in order: its
      weight is the sum of the flow and its colour the default. */
  lemma {:induction false} EdgesOfExact(main: seq<FlowEntry>, color: string)
    ensures var es := EdgesOf(main, color);
      forall j :: 0 <= j < |es| ==>
        es[j].weight == ScenarioNodes.Sum(es[j].sequence) && es[j].color == color &&
        FlowEntry(FlowKey(es[j].source, Some(es[j].target)), es[j].sequence) in main
    ensures forall i :: 0 <= i < |main| && main[i].key.target.Some? ==> EdgeOf(main[i], color) in EdgesOf(main, color)
    ensures |EdgesOf(main, color)| <= |main|
    decreases |main|
  {
    if |main| > 0 {
      var front := main[..|main| - 1];
      EdgesOfExact(front, color);
      assert forall i :: 0 <= i < |main| - 1 ==> main[i] == front[i];
      var e := main[|main| - 1];
      assert forall x :: x in front ==> x in main;
      if e.key.target.Some? {
        assert e == FlowEntry(FlowKey(e.key.source, Some(e.key.target.value)), e.flow);
      }
    }
  }

  /** The key of `colors` for a node class. */
  function GroupKey(c: NodeClass, useName: bool): ColorKey
  {
    if useName then ByName(ClassName(c)) else ByClass(c)
  }

  /** Distinct classes have distinct keys. */
  lemma GroupKeyInjective(useName: bool)
    ensures forall a, b :: GroupKey(a, useName) == GroupKey(b, useName) ==> a == b
  {
  }

  /** The nodes of the list whose class has key `k`, in order. */
  function OfKey(nodes: seq<Node>, k: ColorKey, useName: bool): (r: seq<Node>)
    ensures forall n :: n in r <==> n in nodes && GroupKey(n.cls, useName) == k
    decreases |nodes|
  {
    if |nodes| == 0 then []
    else
      var front := OfKey(nodes[..|nodes| - 1], k, useName);
      var n := nodes[|nodes| - 1];
      assert forall x :: x in nodes <==> x in nodes[..|nodes| - 1] || x == n;
      if GroupKey(n.cls, useName) == k then front + [n] else front
  }

  /** `colors.get(ntype, default)` */
  function TypeColor(colors: map<ColorKey, Color>, useName: bool, c: NodeClass, default: Color): Color
  {
    var k := GroupKey(c, useName);
    if k in colors then colors[k] else default
  }

  /** The colour a node has after `color_nodes_by_substring`: the default,
      overwritten by each matching substring in turn. */
  function SubstringColor(colors: seq<(string, Color)>, text: string, default: Color): Color
    decreases |colors|
  {
    if |colors| == 0 then default
    else
      var prev := SubstringColor(colors[..|colors| - 1], text, default);
      var last := colors[|colors| - 1];
      if Contains(text, last.0) then last.1 else prev
  }

  /** The index of the last substring that the text contains. */
  function LastMatch(colors: seq<(string, Color)>, text: string): (r: Option<nat>)
    ensures r.Some? ==> (r.value < |colors| && Contains(text, colors[r.value].0) &&
                         forall k :: r.value < k < |colors| ==> !Contains(text, colors[k].0))
    ensures r.None? ==> forall k :: 0 <= k < |colors| ==> !Contains(text, colors[k].0)
    decreases |colors|
  {
    if |colors| == 0 then None
    else if Contains(text, colors[|colors| - 1].0) then Some(|colors| - 1)
    else
      var r := LastMatch(colors[..|colors| - 1], text);
      assert forall k :: 0 <= k < |colors| - 1 ==> colors[..|colors| - 1][k] == colors[k];
      r
  }

  /** The last matching substring wins; with no match the node keeps the
      default colour. */
  lemma {:induction false} SubstringColorLastMatch(colors: seq<(string, Color)>, text: string, default: Color)
    ensures SubstringColor(colors, text, default) ==
      match LastMatch(colors, text)
      case Some(j) => colors[j].1
      case None => default
    decreases |colors|
  {
    if |colors| > 0 && !Contains(text, colors[|colors| - 1].0) {
      SubstringColorLastMatch(colors[..|colors| - 1], text, default);
    }
  }

  /** One more substring: the nodes that contain it take its colour. */
  lemma SubstringStep(colors: seq<(string, Color)>, c: nat, t: string, d: Color)
    requires c < |colors|
    ensures SubstringColor(colors[..c + 1], t, d) ==
      if Contains(t, colors[c].0) then colors[c].1 else SubstringColor(colors[..c], t, d)
  {
    assert colors[..c + 1][..c] == colors[..c];
  }

  /** The largest of the weights, None when there is none (pandas' `max`
      of an empty series is NaN). */
  function MaxOf(ws: seq<real>): (r: Option<real>)
    ensures r.None? <==> |ws| == 0
    ensures r.Some? ==> r.value in ws && forall i :: 0 <= i < |ws| ==> ws[i] <= r.value
    decreases |ws|
  {
    if |ws| == 0 then None
    else
      var m := MaxOf(ws[..|ws| - 1]);
      assert forall i :: 0 <= i < |ws| - 1 ==> ws[..|ws| - 1][i] == ws[i];
      if m.Some? && m.value >= ws[|ws| - 1] then m else Some(ws[|ws| - 1])
  }

  function Weights(edges: seq<Edge>): (r: seq<real>)
    ensures |r| == |edges| && forall i :: 0 <= i < |edges| ==> r[i] == edges[i].weight
  {
    seq(|edges|, i requires 0 <= i < |edges| => edges[i].weight)
  }

  /** `Normalize(vmin=0.0, vmax=m)(w)`, defined when `m >= 0`; a zero range
      maps to 0. */
  function Norm(w: real, m: real): real
    requires m >= 0.0
  {
    if m == 0.0 then 0.0 else w / m
  }

  /** The maximum of the normalisation: the one given, or the largest edge
      weight. */
  function WeightMax(maxWeight: Option<real>, edges: seq<Edge>): real
  {
    if maxWeight.Some? then maxWeight.value else MaxOf(Weights(edges)).GetOr(0.0)
  }

  /** `10 ** exp` */
  function Pow10(exp: int): (r: real)
    ensures r > 0.0
    decreases if exp < 0 then -exp else exp
  {
    if exp == 0 then 1.0
    else if exp > 0 then 10.0 * Pow10(exp - 1)
    else Pow10(exp + 1) / 10.0
  }

  function NodeAttrsOf(n: Node, colors: map<Node, Color>, default: Color): NodeAttrs
  {
    var c := if n in colors then colors[n] else default;
    NodeAttrs(LabelStr(n.nodeLabel), c.bg, c.fg, ClassName(n.cls))
  }

  function EdgeKey(e: Edge): (Label, Label)
  {
    (e.source.nodeLabel, e.target.nodeLabel)
  }

  /** `graph.add_node` for every node in turn. */
  function AddNodes(g: DiGraph, ns: seq<Node>, colors: map<Node, Color>, default: Color): DiGraph
    decreases |ns|
  {
    if |ns| == 0 then g
    else
      var h := AddNodes(g, ns[..|ns| - 1], colors, default);
      var n := ns[|ns| - 1];
      h.(nodes := h.nodes[n.nodeLabel := NodeAttrsOf(n, colors, default)])
  }

  /** `graph.add_edge` for every edge in turn. */
  function AddEdges(g: DiGraph, es: seq<Edge>, exp: int): DiGraph
    decreases |es|
  {
    if |es| == 0 then g
    else
      var h := AddEdges(g, es[..|es| - 1], exp);
      var e := es[|es| - 1];
      h.(nodes := AddEndpoints(h.nodes, e), edges := h.edges[EdgeKey(e) := EdgeAttrs(Scaled(e.weight, exp), e.color)])
  }

  /** `weight * 10 ** weight_exponent` */
  function Scaled(w: real, exp: int): real
  {
    w * Pow10(exp)
  }

  /** `add_edge` adds an endpoint that is not a node yet without attributes;
      it is modelled with empty attributes. */
  function AddEndpoints(nodes: map<Label, NodeAttrs>, e: Edge): map<Label, NodeAttrs>
  {
    var a := if e.source.nodeLabel in nodes then nodes else nodes[e.source.nodeLabel := NodeAttrs("", "", "", "")];
    if e.target.nodeLabel in a then a else a[e.target.nodeLabel := NodeAttrs("", "", "", "")]
  }

  /** The graph `create_di_graph` builds. */
  function DiGraphOf(nodes: seq<Node>, colors: map<Node, Color>, default: Color, edges: seq<Edge>, exp: int): DiGraph
  {
    AddEdges(AddNodes(DiGraph(map[], map[]), nodes, colors, default), edges, exp)
  }

  function NodeLabels(ns: seq<Node>): set<Label>
  {
    set n | n in ns :: n.nodeLabel
  }

  function EdgeKeys(es: seq<Edge>): set<(Label, Label)>
  {
    set e | e in es :: EdgeKey(e)
  }

  function Endpoints(es: seq<Edge>): (r: set<Label>)
    ensures forall l :: l in r ==> exists i :: 0 <= i < |es| && (es[i].source.nodeLabel == l || es[i].target.nodeLabel == l)
    decreases |es|
  {
    if |es| == 0 then {}
    else
      var front := es[..|es| - 1];
      assert forall i :: 0 <= i < |front| ==> front[i] == es[i];
      Endpoints(front) + {es[|es| - 1].source.nodeLabel, es[|es| - 1].target.nodeLabel}
  }

  /** The node keys are exactly the node labels and there are no edges. */
  lemma {:induction false} AddNodesKeys(ns: seq<Node>, colors: map<Node, Color>, default: Color)
    ensures var g := AddNodes(DiGraph(map[], map[]), ns, colors, default);
      g.nodes.Keys == NodeLabels(ns) && g.edges == map[]
    decreases |ns|
  {
    if |ns| > 0 {
      var front := ns[..|ns| - 1];
      AddNodesKeys(front, colors, default);
      assert ns == front + [ns[|ns| - 1]];
      assert NodeLabels(ns) == NodeLabels(front) + {ns[|ns| - 1].nodeLabel};
    }
  }

  /** A node whose label no later node shares keeps its own attributes. */
  lemma {:induction false} AddNodesAttrs(ns: seq<Node>, colors: map<Node, Color>, default: Color, i: nat)
    requires i < |ns|
    requires forall k :: i < k < |ns| ==> ns[k].nodeLabel != ns[i].nodeLabel
    ensures var g := AddNodes(DiGraph(map[], map[]), ns, colors, default);
      ns[i].nodeLabel in g.nodes && g.nodes[ns[i].nodeLabel] == NodeAttrsOf(ns[i], colors, default)
    decreases |ns|
  {
    if i < |ns| - 1 {
      var front := ns[..|ns| - 1];
      assert front[i] == ns[i];
      AddNodesAttrs(front, colors, default, i);
    }
  }

  lemma AddEndpointsKeys(nodes: map<Label, NodeAttrs>, e: Edge)
    ensures AddEndpoints(nodes, e).Keys == nodes.Keys + {e.source.nodeLabel, e.target.nodeLabel}
  {
  }

  /** The edge keys are the label pairs of the edges. */
  lemma {:induction false} AddEdgesEdgeKeys(g: DiGraph, es: seq<Edge>, exp: int)
    ensures AddEdges(g, es, exp).edges.Keys == g.edges.Keys + EdgeKeys(es)
    decreases |es|
  {
    if |es| > 0 {
      var front := es[..|es| - 1];
      AddEdgesEdgeKeys(g, front, exp);
      assert es == front + [es[|es| - 1]];
      assert EdgeKeys(es) == EdgeKeys(front) + {EdgeKey(es[|es| - 1])};
    }
  }

  /** The node keys gain the endpoints of the edges. */
  lemma {:induction false} AddEdgesNodeKeys(g: DiGraph, es: seq<Edge>, exp: int)
    ensures AddEdges(g, es, exp).nodes.Keys == g.nodes.Keys + Endpoints(es)
    decreases |es|
  {
    if |es| > 0 {
      var front := es[..|es| - 1];
      var e := es[|es| - 1];
      AddEdgesNodeKeys(g, front, exp);
      AddEndpointsKeys(AddEdges(g, front, exp).nodes, e);
    }
  }

  /** Adding edges keeps the attributes of the nodes already there. */
  lemma {:induction false} AddEdgesKeepsNodes(g: DiGraph, es: seq<Edge>, exp: int)
    ensures var h := AddEdges(g, es, exp);
      forall l :: l in g.nodes ==> l in h.nodes && h.nodes[l] == g.nodes[l]
    decreases |es|
  {
    if |es| > 0 {
      AddEdgesKeepsNodes(g, es[..|es| - 1], exp);
    }
  }

  /** An edge whose key no later edge shares carries its scaled weight and
      colour. */
  lemma {:induction false} AddEdgesAttrs(g: DiGraph, es: seq<Edge>, exp: int, i: nat)
    requires i < |es|
    requires forall k :: i < k < |es| ==> EdgeKey(es[k]) != EdgeKey(es[i])
    ensures var h := AddEdges(g, es, exp);
      EdgeKey(es[i]) in h.edges && h.edges[EdgeKey(es[i])] == EdgeAttrs(Scaled(es[i].weight, exp), es[i].color)
    decreases |es|
  {
    if i < |es| - 1 {
      var front := es[..|es| - 1];
      assert front[i] == es[i];
      AddEdgesAttrs(g, front, exp, i);
    }
  }

  lemma AddEdgesNext(g: DiGraph, es: seq<Edge>, exp: int, j: nat)
    requires j < |es|
    ensures var h := AddEdges(g, es[..j], exp);
      AddEdges(g, es[..j + 1], exp) ==
        h.(nodes := AddEndpoints(h.nodes, es[j]), edges := h.edges[EdgeKey(es[j]) := EdgeAttrs(Scaled(es[j].weight, exp), es[j].color)])
  {
    var s := es[..j + 1];
    assert s[..|s| - 1] == es[..j];
    assert s[|s| - 1] == es[j];
  }

  /** The loops of `create_di_graph`: `add_node` for every node, then
      `add_edge` for every edge. */
  method BuildDiGraph(nodes: seq<Node>, colors: map<Node, Color>, default: Color, edges: seq<Edge>, exp: int)
    returns (g: DiGraph)
    ensures g == DiGraphOf(nodes, colors, default, edges, exp)
  {
    g := DiGraph(map[], map[]);
    var i := 0;
    while i < |nodes|
      invariant 0 <= i <= |nodes|
      invariant g == AddNodes(DiGraph(map[], map[]), nodes[..i], colors, default)
    {
      assert nodes[..i + 1][..i] == nodes[..i];
      var n := nodes[i];
      g := g.(nodes := g.nodes[n.nodeLabel := NodeAttrsOf(n, colors, default)]);
      i := i + 1;
    }
    assert nodes[..i] == nodes;
    var withNodes := g;
    var j := 0;
    while j < |edges|
      invariant 0 <= j <= |edges|
      invariant g == AddEdges(withNodes, edges[..j], exp)
    {
      AddEdgesNext(withNodes, edges, exp, j);
      var e := edges[j];
      g := g.(nodes := AddEndpoints(g.nodes, e), edges := g.edges[EdgeKey(e) := EdgeAttrs(Scaled(e.weight, exp), e.color)]);
      j := j + 1;
    }
    assert edges[..j] == edges;
  }

  /** `DeflexGraph`: the nodes and edges of a result with their colours and
      the cached directed graph. `nodeColors` holds the `bgcolor` and
      `fgcolor` attributes set on the nodes. */
  class DeflexGraph {
    var results: seq<FlowEntry>
    var defaultNodeColor: Color
    var defaultEdgeColor: string
    var nodes: seq<Node>
    var edges: seq<Edge>
    var nodeColors: map<Node, Color>
    var graph: Option<DiGraph>

    /** `DeflexGraph(results, default_node_color=..., default_edge_color=...)` */
    constructor(main: seq<FlowEntry>, defaultNodeColor: Color, defaultEdgeColor: string)
      ensures results == main && this.defaultNodeColor == defaultNodeColor
      ensures this.defaultEdgeColor == defaultEdgeColor
      ensures nodes == FetchNodes(main) && edges == EdgesOf(main, defaultEdgeColor)
      ensures nodeColors == map[] && graph == None
    {
      results := main;
      this.defaultNodeColor := defaultNodeColor;
      this.defaultEdgeColor := defaultEdgeColor;
      nodes := FetchNodes(main);
      var es := FetchEdges(main, defaultEdgeColor);
      edges := es;
      nodeColors := map[];
      graph := None;
    }

    /** `group_nodes_by_type(use_name)`: one key per node class present,
        listing every node of that class. */
    function GroupNodesByType(useName: bool): (r: map<ColorKey, seq<Node>>)
      reads this
      ensures forall k :: k in r <==> exists i :: 0 <= i < |nodes| && GroupKey(nodes[i].cls, useName) == k
      ensures forall i :: 0 <= i < |nodes| ==> (GroupKey(nodes[i].cls, useName) in r &&
        forall n :: n in r[GroupKey(nodes[i].cls, useName)] <==> n in nodes && n.cls == nodes[i].cls)
    {
      GroupKeyInjective(useName);
      var keys := set i | 0 <= i < |nodes| :: GroupKey(nodes[i].cls, useName);
      map k | k in keys :: OfKey(nodes, k, useName)
    }

    /** `color_nodes_by_type(colors, use_name)`: every node gets the colour
        of its class, or the default, and the cached graph is dropped. */
    method ColorNodesByType(colors: map<ColorKey, Color>, useName: bool)
      modifies this
      ensures forall n :: n in nodeColors <==> n in old(nodeColors) || n in nodes
      ensures forall n :: n in nodes ==> nodeColors[n] == TypeColor(colors, useName, n.cls, defaultNodeColor)
      ensures forall n :: n in old(nodeColors) && n !in nodes ==> nodeColors[n] == old(nodeColors)[n]
      ensures graph == None
      ensures results == old(results) && nodes == old(nodes) && edges == old(edges)
      ensures defaultNodeColor == old(defaultNodeColor) && defaultEdgeColor == old(defaultEdgeColor)
    {
      var i := 0;
      while i < |nodes|
        invariant 0 <= i <= |nodes|
        invariant forall n :: n in nodeColors <==> n in old(nodeColors) || n in nodes[..i]
        invariant forall n :: n in nodes[..i] ==> nodeColors[n] == TypeColor(colors, useName, n.cls, defaultNodeColor)
        invariant forall n :: n in old(nodeColors) && n !in nodes[..i] ==> nodeColors[n] == old(nodeColors)[n]
        invariant results == old(results) && nodes == old(nodes) && edges == old(edges)
        invariant defaultNodeColor == old(defaultNodeColor) && defaultEdgeColor == old(defaultEdgeColor)
      {
        var n := nodes[i];
        assert forall x :: x in nodes[..i + 1] <==> x in nodes[..i] || x == n;
        nodeColors := nodeColors[n := TypeColor(colors, useName, n.cls, defaultNodeColor)];
        i := i + 1;
      }
      assert nodes[..i] == nodes;
      graph := None;
    }

    /** `color_nodes_by_substring(colors)`: every node is reset to the
        default and then takes the colour of each substring of its label
        string in turn; the cached graph is kept. */
    method ColorNodesBySubstring(colors: seq<(string, Color)>)
      modifies this
      ensures forall n :: n in nodeColors <==> n in old(nodeColors) || n in nodes
      ensures forall n :: n in nodes ==> nodeColors[n] == SubstringColor(colors, LabelStr(n.nodeLabel), defaultNodeColor)
      ensures forall n :: n in old(nodeColors) && n !in nodes ==> nodeColors[n] == old(nodeColors)[n]
      ensures graph == old(graph)
      ensures results == old(results) && nodes == old(nodes) && edges == old(edges)
      ensures defaultNodeColor == old(defaultNodeColor) && defaultEdgeColor == old(defaultEdgeColor)
    {
      var i := 0;
      while i < |nodes|
        invariant 0 <= i <= |nodes|
        invariant forall n :: n in nodeColors <==> n in old(nodeColors) || n in nodes[..i]
        invariant forall n :: n in nodes[..i] ==> nodeColors[n] == defaultNodeColor
        invariant forall n :: n in old(nodeColors) && n !in nodes[..i] ==> nodeColors[n] == old(nodeColors)[n]
        invariant graph == old(graph)
        invariant results == old(results) && nodes == old(nodes) && edges == old(edges)
        invariant defaultNodeColor == old(defaultNodeColor) && defaultEdgeColor == old(defaultEdgeColor)
      {
        assert forall x :: x in nodes[..i + 1] <==> x in nodes[..i] || x == nodes[i];
        nodeColors := nodeColors[nodes[i] := defaultNodeColor];
        i := i + 1;
      }
      assert nodes[..i] == nodes;
      var c := 0;
      while c < |colors|
        invariant 0 <= c <= |colors|
        invariant forall n :: n in nodeColors <==> n in old(nodeColors) || n in nodes
        invariant forall n :: n in nodes ==> nodeColors[n] == SubstringColor(colors[..c], LabelStr(n.nodeLabel), defaultNodeColor)
        invariant forall n :: n in old(nodeColors) && n !in nodes ==> nodeColors[n] == old(nodeColors)[n]
        invariant graph == old(graph)
        invariant results == old(results) && nodes == old(nodes) && edges == old(edges)
        invariant defaultNodeColor == old(defaultNodeColor) && defaultEdgeColor == old(defaultEdgeColor)
      {
        ColorMatching(colors, c);
        forall n | n in nodes
          ensures nodeColors[n] == SubstringColor(colors[..c + 1], LabelStr(n.nodeLabel), defaultNodeColor)
        {
          SubstringStep(colors, c, LabelStr(n.nodeLabel), defaultNodeColor);
        }
        c := c + 1;
      }
      assert colors[..c] == colors;
    }

    /** The inner loop of `color_nodes_by_substring`: the nodes whose label
        string contains the substring take its colour. */
    method ColorMatching(colors: seq<(string, Color)>, c: nat)
      requires c < |colors|
      requires forall n :: n in nodes ==> n in nodeColors
      modifies this
      ensures results == old(results) && nodes == old(nodes) && edges == old(edges)
      ensures defaultNodeColor == old(defaultNodeColor) && defaultEdgeColor == old(defaultEdgeColor)
      ensures forall n :: n in nodeColors <==> n in old(nodeColors)
      ensures forall n :: n in nodes ==> (nodeColors[n] ==
        if Contains(LabelStr(n.nodeLabel), colors[c].0) then colors[c].1 else old(nodeColors)[n])
      ensures forall n :: n in old(nodeColors) && n !in nodes ==> nodeColors[n] == old(nodeColors)[n]
      ensures graph == old(graph)
    {
      var sub := colors[c].0;
      var j := 0;
      while j < |nodes|
        invariant 0 <= j <= |nodes|
        invariant results == old(results) && nodes == old(nodes) && edges == old(edges)
        invariant defaultNodeColor == old(defaultNodeColor) && defaultEdgeColor == old(defaultEdgeColor)
        invariant forall n :: n in nodeColors <==> n in old(nodeColors)
        invariant forall n :: n in nodes[..j] ==> (nodeColors[n] ==
          if Contains(LabelStr(n.nodeLabel), sub) then colors[c].1 else old(nodeColors)[n])
        invariant forall n :: n in old(nodeColors) && n !in nodes[..j] ==> nodeColors[n] == old(nodeColors)[n]
        invariant graph == old(graph)
      {
        var n := nodes[j];
        assert forall x :: x in nodes[..j + 1] <==> x in nodes[..j] || x == n;
        if Contains(LabelStr(n.nodeLabel), sub) {
          nodeColors := nodeColors[n := colors[c].1];
        }
        j := j + 1;
      }
      assert nodes[..j] == nodes;
    }

    /** `max_edge_weight()`: the largest edge weight, None without edges. */
    function MaxEdgeWeight(): (r: Option<real>)
      reads this
      ensures r.None? <==> |edges| == 0
      ensures r.Some? ==> r.value in Weights(edges) && forall i :: 0 <= i < |edges| ==> edges[i].weight <= r.value
    {
      MaxOf(Weights(edges))
    }

    /** `color_edges_by_weight(cmap, max_weight)`: every edge is coloured
        by its weight relative to the maximum (by default the largest
        weight) and the cached graph is dropped. A negative maximum is the
        `Normalize` error, raised at the first edge. */
    method ColorEdgesByWeight(cmap: real -> string, maxWeight: Option<real>) returns (r: Outcome<GraphError>)
      modifies this
      ensures var m := WeightMax(maxWeight, old(edges));
        r == (if |old(edges)| > 0 && m < 0.0 then Fail(MaxBelowMin(m)) else Pass)
      ensures r.Fail? ==> edges == old(edges) && graph == old(graph)
      ensures r.Pass? ==> (graph == None && |edges| == |old(edges)| &&
        forall i :: 0 <= i < |edges| ==>
          edges[i] == old(edges)[i].(color := cmap(Norm(old(edges)[i].weight, WeightMax(maxWeight, old(edges))))))
      ensures results == old(results) && nodes == old(nodes) && nodeColors == old(nodeColors)
      ensures defaultNodeColor == old(defaultNodeColor) && defaultEdgeColor == old(defaultEdgeColor)
    {
      var m := WeightMax(maxWeight, edges);
      if |edges| > 0 && m < 0.0 {
        return Fail(MaxBelowMin(m));
      }
      if |edges| == 0 {
        graph := None;
        return Pass;
      }
      var i := 0;
      while i < |edges|
        invariant 0 <= i <= |edges| && |edges| == |old(edges)|
        invariant forall k :: 0 <= k < i ==> edges[k] == old(edges)[k].(color := cmap(Norm(old(edges)[k].weight, m)))
        invariant forall k :: i <= k < |edges| ==> edges[k] == old(edges)[k]
        invariant results == old(results) && nodes == old(nodes) && nodeColors == old(nodeColors)
        invariant defaultNodeColor == old(defaultNodeColor) && defaultEdgeColor == old(defaultEdgeColor)
      {
        edges := edges[i := edges[i].(color := cmap(Norm(edges[i].weight, m)))];
        i := i + 1;
      }
      graph := None;
      r := Pass;
    }

    /** `create_di_graph(weight_exponent)`: one node entry per node label and
        one edge entry per edge, stored as the cached graph. */
    method CreateDiGraph(exp: int)
      modifies this
      ensures graph == Some(DiGraphOf(nodes, nodeColors, defaultNodeColor, edges, exp))
      ensures results == old(results) && nodes == old(nodes) && edges == old(edges) && nodeColors == old(nodeColors)
      ensures defaultNodeColor == old(defaultNodeColor) && defaultEdgeColor == old(defaultEdgeColor)
    {
      var g := BuildDiGraph(nodes, nodeColors, defaultNodeColor, edges, exp);
      graph := Some(g);
    }

    /** `get(weight_exponent=...)`: the graph is rebuilt exactly when there
        is no cached graph or an exponent is passed (a missing exponent
        builds with 0); otherwise the cached graph is returned. */
    method Get(exp: Option<int>) returns (g: DiGraph)
      modifies this
      ensures old(graph).Some? && exp.None? ==> g == old(graph).value
      ensures old(graph).None? || exp.Some? ==> g == DiGraphOf(nodes, nodeColors, defaultNodeColor, edges, exp.GetOr(0))
      ensures graph == Some(g)
      ensures results == old(results) && nodes == old(nodes) && edges == old(edges) && nodeColors == old(nodeColors)
      ensures defaultNodeColor == old(defaultNodeColor) && defaultEdgeColor == old(defaultEdgeColor)
    {
      if graph.None? || exp.Some? {
        CreateDiGraph(exp.GetOr(0));
      }
      g := graph.value;
    }
  }

  /** The graph of a result as `get` builds it: its node keys are the
      labels of the result's nodes, and its edge keys the label pairs of
      its flows with a target. */
  function ResultGraph(main: seq<FlowEntry>, colors: map<Node, Color>, default: Color, edgeColor: string, exp: int): (g: DiGraph)
    ensures g.nodes.Keys == set n | n in AllNodes(main) :: n.nodeLabel
    ensures g.edges.Keys ==
      set i | 0 <= i < |main| && main[i].key.target.Some? :: (main[i].key.source.nodeLabel, main[i].key.target.value.nodeLabel)
  {
    var ns := FetchNodes(main);
    var es := EdgesOf(main, edgeColor);
    FetchNodesExact(main);
    AddNodesKeys(ns, colors, default);
    AddEdgesEdgeKeys(AddNodes(DiGraph(map[], map[]), ns, colors, default), es, exp);
    AddEdgesNodeKeys(AddNodes(DiGraph(map[], map[]), ns, colors, default), es, exp);
    EndpointsAreNodes(main, edgeColor);
    ResultEdgeKeys(main, edgeColor);
    DiGraphOf(ns, colors, default, es, exp)
  }

  /** Every edge of a result joins two nodes of the result. */
  lemma EndpointsAreNodes(main: seq<FlowEntry>, edgeColor: string)
    ensures Endpoints(EdgesOf(main, edgeColor)) <= NodeLabels(FetchNodes(main))
  {
    var es := EdgesOf(main, edgeColor);
    var ns := FetchNodes(main);
    FetchNodesExact(main);
    EdgesOfExact(main, edgeColor);
    forall l | l in Endpoints(es)
      ensures l in NodeLabels(ns)
    {
      var j :| 0 <= j < |es| && (es[j].source.nodeLabel == l || es[j].target.nodeLabel == l);
      var e := es[j];
      assert FlowEntry(FlowKey(e.source, Some(e.target)), e.sequence) in main;
      assert e.source in AllNodes(main) && e.target in AllNodes(main);
    }
  }

  /** The edges of a result are keyed by the label pairs of its flows with a
      target. */
  lemma ResultEdgeKeys(main: seq<FlowEntry>, edgeColor: string)
    ensures EdgeKeys(EdgesOf(main, edgeColor)) ==
      set i | 0 <= i < |main| && main[i].key.target.Some? :: (main[i].key.source.nodeLabel, main[i].key.target.value.nodeLabel)
  {
    var es := EdgesOf(main, edgeColor);
    EdgesOfExact(main, edgeColor);
    forall e | e in es
      ensures exists i :: (0 <= i < |main| && main[i].key.target.Some? &&
                           EdgeKey(e) == (main[i].key.source.nodeLabel, main[i].key.target.value.nodeLabel))
    {
      var j :| 0 <= j < |es| && es[j] == e;
      var k :| 0 <= k < |main| && main[k] == FlowEntry(FlowKey(e.source, Some(e.target)), e.sequence);
    }
    forall i | 0 <= i < |main| && main[i].key.target.Some?
      ensures (main[i].key.source.nodeLabel, main[i].key.target.value.nodeLabel) in EdgeKeys(es)
    {
      assert EdgeOf(main[i], edgeColor) in es;
    }
  }

  /** A node of a result whose label no other node of the result has is
      drawn with its own label string, colours and class name. */
  lemma ResultGraphNodeAttrs(main: seq<FlowEntry>, colors: map<Node, Color>, default: Color, edgeColor: string, exp: int, n: Node)
    requires n in AllNodes(main)
    requires forall m :: m in AllNodes(main) && m.nodeLabel == n.nodeLabel ==> m == n
    ensures var g := ResultGraph(main, colors, default, edgeColor, exp);
      n.nodeLabel in g.nodes && g.nodes[n.nodeLabel] == NodeAttrsOf(n, colors, default)
  {
    var ns := FetchNodes(main);
    FetchNodesExact(main);
    var i :| 0 <= i < |ns| && ns[i] == n;
    AddNodesAttrs(ns, colors, default, i);
    AddEdgesKeepsNodes(AddNodes(DiGraph(map[], map[]), ns, colors, default), EdgesOf(main, edgeColor), exp);
  }
}
