/** The registry of energy-system components that the scenario builder
    fills: an insert-only dictionary from labels to components
    (`NodeDict` of src/deflex/scenario.py), and the component records the
    builder stores in it. */
module NodeRegistry {
  import opened Wrappers
  import opened Labels

  /** A flow between a component and a bus. `nominal` and `summedMax`
      are `None` when unset (an unbounded flow); `fix` is a fixed
      profile. */
  datatype Flow = Flow(
    nominal: Option<real>,
    summedMax: Option<real>,
    variableCosts: real,
    emission: real,
    fix: Option<seq<real>>)

  /** A flow with every attribute at its default. */
  const PlainFlow := Flow(None, None, 0.0, 0.0, None)

  /** The parameters of a demand-response sink. */
  datatype DsmParams = DsmParams(
    capacityUp: real,
    capacityDown: real,
    delay: real,
    shiftInterval: real,
    approach: string,
    costDown: real,
    costUp: real)

  /** The components. Buses are referred to by their labels. */
  datatype Node =
    | Bus
    | Source(output: Label, outflow: Flow)
    | Sink(input: Label, inflow: Flow)
    | DsmSink(input: Label, demand: seq<real>, dsm: DsmParams)
    | Transformer(inputs: map<Label, Flow>, outputs: map<Label, Flow>, conversion: map<Label, real>)
    | Storage(
        bus: Label,
        charge: Flow,
        discharge: Flow,
        content: real,
        lossRate: real,
        chargeEfficiency: real,
        dischargeEfficiency: real)

  /** The exceptions raised while the registry is filled. */
  datatype BuildError =
    | DuplicateKey(key: Label)
    | MissingKey(key: Label)
    | MissingTable(name: string)
    | MissingRow(table: string, row: seq<string>)
    | MissingTimeSeries(region: string, kind: string, capacity: real)
    | MissingLineBus(bus: Label, other: Label)
    | MalformedLineName(name: string)
    | ConflictingStorageTables
    | MissingColumn(table: string, column: string)
    | NaNParameter(table: string, row: seq<string>, column: string)

  /** The value of a registry: its keys in insertion order and its entries. */
  datatype Registry = Registry(order: seq<Label>, entries: map<Label, Node>)

  /** Every key is listed once in `order`, and `order` lists only keys. */
  ghost predicate WellFormed(g: Registry)
  {
    && (forall i, j :: 0 <= i < j < |g.order| ==> g.order[i] != g.order[j])
    && (forall k :: k in g.entries <==> k in g.order)
  }

  /** `h` grew from `g` by insertions only: no key was removed or
      overwritten and the old keys keep their order. */
  ghost predicate Extends(g: Registry, h: Registry)
  {
    && |g.order| <= |h.order|
    && h.order[..|g.order|] == g.order
    && (forall k :: k in g.entries ==> k in h.entries && h.entries[k] == g.entries[k])
  }

  lemma ExtendsTransitive(a: Registry, b: Registry, c: Registry)
    requires Extends(a, b) && Extends(b, c)
    ensures Extends(a, c)
  {
    assert c.order[..|a.order|] == c.order[..|b.order|][..|a.order|];
  }

  /** `nodes[key] = node` on a NodeDict: stores under a new key and raises
      `KeyError` for a key that already holds a component. */
  function Put(g: Registry, key: Label, node: Node): (r: Result<Registry, BuildError>)
    ensures r.Failure? <==> key in g.entries
    ensures r.Failure? ==> r.error == DuplicateKey(key)
    ensures r.Success? ==> r.value.entries == g.entries[key := node] && r.value.order == g.order + [key]
    ensures r.Success? ==> r.value.entries.Keys == g.entries.Keys + {key}
    ensures r.Success? ==> Extends(g, r.value)
    ensures r.Success? && WellFormed(g) ==> WellFormed(r.value)
  {
    if key in g.entries then Failure(DuplicateKey(key))
    else Success(Registry(g.order + [key], g.entries[key := node]))
  }

  /** `if key not in nodes: nodes[key] = Bus(label=key)` */
  function EnsureBus(g: Registry, key: Label): (r: Registry)
    ensures key in r.entries
    ensures key in g.entries ==> r == g
    ensures key !in g.entries ==> Put(g, key, Bus) == Success(r)
    ensures Extends(g, r)
  {
    if key in g.entries then g else Registry(g.order + [key], g.entries[key := Bus])
  }

  /** Creating a bus twice leaves the registry as creating it once. */
  lemma EnsureBusIdempotent(g: Registry, key: Label)
    ensures EnsureBus(EnsureBus(g, key), key) == EnsureBus(g, key)
    ensures |EnsureBus(g, key).order| <= |g.order| + 1
  {
  }

  /** Applying a row rule to each row of a table in turn, stopping at the
      first exception. */
  function FoldRows<R>(g: Registry, rows: seq<R>, step: (Registry, R) -> Result<Registry, BuildError>): Result<Registry, BuildError>
    decreases |rows|
  {
    if |rows| == 0 then Success(g)
    else
      match step(g, rows[0])
      case Failure(e) => Failure(e)
      case Success(h) => FoldRows(h, rows[1..], step)
  }

  /** Processing two tables one after the other. */
  lemma {:induction false} FoldRowsAppend<R>(g: Registry, a: seq<R>, b: seq<R>, step: (Registry, R) -> Result<Registry, BuildError>)
    ensures FoldRows(g, a + b, step) ==
      match FoldRows(g, a, step)
      case Failure(e) => Failure(e)
      case Success(h) => FoldRows(h, b, step)
    decreases |a|
  {
    if |a| > 0 {
      assert (a + b)[0] == a[0];
      assert (a + b)[1..] == a[1..] + b;
      match step(g, a[0])
      case Failure(e) =>
      case Success(h) => FoldRowsAppend(h, a[1..], b, step);
    } else {
      assert a + b == b;
    }
  }

  /** Processing one more row. */
  lemma FoldRowsSnoc<R>(g: Registry, rows: seq<R>, x: R, step: (Registry, R) -> Result<Registry, BuildError>)
    ensures FoldRows(g, rows + [x], step) ==
      match FoldRows(g, rows, step)
      case Failure(e) => Failure(e)
      case Success(h) => step(h, x)
  {
    FoldRowsAppend(g, rows, [x], step);
    match FoldRows(g, rows, step)
    case Failure(e) =>
    case Success(h) => assert [x][1..] == [];
  }

  /** A table whose every row only inserts leaves a registry that only
      grew. */
  lemma {:induction false} FoldRowsExtends<R>(g: Registry, rows: seq<R>, step: (Registry, R) -> Result<Registry, BuildError>)
    requires forall h, x :: step(h, x).Success? ==> Extends(h, step(h, x).value)
    ensures FoldRows(g, rows, step).Success? ==> Extends(g, FoldRows(g, rows, step).value)
    decreases |rows|
  {
    if |rows| > 0 {
      match step(g, rows[0])
      case Failure(e) =>
      case Success(h) =>
        FoldRowsExtends(h, rows[1..], step);
        if FoldRows(h, rows[1..], step).Success? {
          ExtendsTransitive(g, h, FoldRows(h, rows[1..], step).value);
        }
    }
  }

  /** One more row of a table whose first `i` rows left `h`: the fold now
      stands at the step's result, and a failing row is the failure of the
      whole table. */
  lemma FoldRowsNext<R>(g: Registry, rows: seq<R>, i: nat, h: Registry, step: (Registry, R) -> Result<Registry, BuildError>)
    requires i < |rows| && FoldRows(g, rows[..i], step) == Success(h)
    ensures FoldRows(g, rows[..i + 1], step) == step(h, rows[i])
    ensures step(h, rows[i]).Failure? ==> FoldRows(g, rows, step) == Failure(step(h, rows[i]).error)
  {
    assert rows[..i + 1] == rows[..i] + [rows[i]];
    FoldRowsSnoc(g, rows[..i], rows[i], step);
    if step(h, rows[i]).Failure? {
      assert rows == rows[..i + 1] + rows[i + 1..];
      FoldRowsAppend(g, rows[..i + 1], rows[i + 1..], step);
    }
  }

  /** How a method that changes the node dictionary in place reports on
      its specification `s`: it passes exactly when `s` succeeds, and then
      the dictionary holds `s`'s registry; otherwise it fails with `s`'s
      error. */
  ghost predicate Reports(r: Outcome<BuildError>, s: Result<Registry, BuildError>, now: Registry)
  {
    match s
    case Success(h) => r == Pass && now == h
    case Failure(e) => r == Fail(e)
  }

  /** The node dictionary the builder fills: a dictionary whose existing
      entries cannot be overwritten. Python dictionaries keep insertion
      order, which `order` records. */
  class NodeDict {
    var order: seq<Label>
    var entries: map<Label, Node>

    ghost predicate Valid()
      reads this
    {
      WellFormed(Registry(order, entries))
    }

    function Value(): Registry
      reads this
    {
      Registry(order, entries)
    }

    constructor ()
      ensures Valid()
      ensures Value() == Registry([], map[])
    {
      order := [];
      entries := map[];
    }

    /** `key in nodes` */
    function Has(key: Label): (b: bool)
      reads this
      ensures b <==> key in Value().entries
    {
      key in entries
    }

    /** `nodes[key] = node` */
    method Insert(key: Label, node: Node) returns (r: Outcome<BuildError>)
      requires Valid()
      modifies this
      ensures Valid()
      ensures Extends(old(Value()), Value())
      ensures r.Fail? <==> key in old(entries)
      ensures r.Fail? ==> r.error == DuplicateKey(key) && Value() == old(Value())
      ensures Put(old(Value()), key, node) == (if r.Pass? then Success(Value()) else Failure(r.error))
    {
      if key in entries {
        r := Fail(DuplicateKey(key));
      } else {
        order := order + [key];
        entries := entries[key := node];
        r := Pass;
      }
    }

    /** `if key not in nodes: nodes[key] = Bus(label=key)` */
    method AddBusIfMissing(key: Label)
      requires Valid()
      modifies this
      ensures Valid()
      ensures Value() == EnsureBus(old(Value()), key)
    {
      if key !in entries {
        order := order + [key];
        entries := entries[key := Bus];
      }
    }
  }
}
