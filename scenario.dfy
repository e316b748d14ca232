/** The scenario class of src/deflex/scenario.py: its input tables, its
    meta data and the energy system it initialises, with the checks it
    runs on the tables, the file-name suffix rule of `dump` and
    `to_xlsx`, and `DeflexScenario.create_nodes`. */
module Scenario {
  import opened Wrappers
  import opened Strings
  import opened ScenarioTables
  import NodeRegistry
  import ScenarioNodes
  import Builder

  /** The names of the tables with an empty cell, in table order: the
      tables `check_input_data` warns about and lists in its error. */
  function EmptyCellTables(sheets: seq<Sheet>): (r: seq<string>)
    ensures |r| <= |sheets|
    ensures forall n :: n in r <==> exists i :: 0 <= i < |sheets| && sheets[i].name == n && HasEmpty(sheets[i].table)
    decreases |sheets|
  {
    if |sheets| == 0 then []
    else
      var n := |sheets| - 1;
      var front := EmptyCellTables(sheets[..n]);
      assert forall i :: 0 <= i < n ==> sheets[..n][i] == sheets[i];
      front + (if HasEmpty(sheets[n].table) then [sheets[n].name] else [])
  }

  /** Every DataFrame table replaced by its complete rows. */
  function DropAllIncomplete(sheets: seq<Sheet>): (r: seq<Sheet>)
    ensures |r| == |sheets|
    ensures forall i :: 0 <= i < |sheets| ==> r[i] == Sheet(sheets[i].name, DropIncomplete(sheets[i].table))
  {
    seq(|sheets|, i requires 0 <= i < |sheets| => Sheet(sheets[i].name, DropIncomplete(sheets[i].table)))
  }

  /** One more table for `EmptyCellTables`. */
  lemma EmptyCellTablesNext(sheets: seq<Sheet>, i: nat)
    requires i < |sheets|
    ensures EmptyCellTables(sheets[..i + 1]) ==
      EmptyCellTables(sheets[..i]) + (if HasEmpty(sheets[i].table) then [sheets[i].name] else [])
  {
    assert sheets[..i + 1][..i] == sheets[..i];
  }

  /** `check_input_data`: the tables afterwards, the outcome and the
      tables warned about. Every DataFrame loses its incomplete rows, then
      the "volatile plants" table, if it is a Series, becomes a DataFrame
      (a missing one raises `KeyError`), and one error lists every table
      that had an empty cell. */
  function CheckSpec(sheets: seq<Sheet>): (seq<Sheet>, Outcome<ScenarioError>, seq<string>)
  {
    var cleaned := DropAllIncomplete(sheets);
    var names := EmptyCellTables(sheets);
    match Find(cleaned, "volatile plants")
    case None => (cleaned, Fail(MissingTable("volatile plants")), names)
    case Some(k) =>
      (cleaned[k := Sheet(cleaned[k].name, SeriesToFrame(cleaned[k].table))],
       if |names| > 0 then Fail(NaNTables(names)) else Pass,
       names)
  }

  /** No table name is listed exactly when no table has an empty cell. */
  lemma EmptyCellTablesNone(sheets: seq<Sheet>)
    ensures |EmptyCellTables(sheets)| == 0 <==> forall i :: 0 <= i < |sheets| ==> !HasEmpty(sheets[i].table)
  {
    var names := EmptyCellTables(sheets);
    if |names| > 0 {
      assert names[0] in names;
    } else {
      assert forall i :: 0 <= i < |sheets| && HasEmpty(sheets[i].table) ==> sheets[i].name in names;
    }
  }

  /** `check_input_data` passes exactly when there is a "volatile plants" table
      and no table has an empty cell; otherwise it fails with the missing
      table or with one error naming all tables with empty cells, which
      are also the tables warned about. Table names are kept. */
  lemma CheckSpecOutcome(sheets: seq<Sheet>)
    ensures CheckSpec(sheets).2 == EmptyCellTables(sheets)
    ensures Lookup(sheets, "volatile plants").None? ==> CheckSpec(sheets).1 == Fail(MissingTable("volatile plants"))
    ensures Lookup(sheets, "volatile plants").Some? ==>
      (CheckSpec(sheets).1 == Pass <==> forall i :: 0 <= i < |sheets| ==> !HasEmpty(sheets[i].table))
    ensures Lookup(sheets, "volatile plants").Some? && CheckSpec(sheets).1.Fail? ==>
      CheckSpec(sheets).1 == Fail(NaNTables(EmptyCellTables(sheets))) && |EmptyCellTables(sheets)| > 0
    ensures Names(CheckSpec(sheets).0) == Names(sheets)
  {
    var cleaned := DropAllIncomplete(sheets);
    assert Names(cleaned) == Names(sheets);
    FindSameNames(cleaned, sheets, "volatile plants");
    EmptyCellTablesNone(sheets);
  }

  /** After a check that passes on DataFrames with one cell per column,
      no table has an empty cell and "volatile plants" is a DataFrame. */
  lemma CheckedTablesAreComplete(sheets: seq<Sheet>)
    requires forall i :: 0 <= i < |sheets| ==> Rectangular(sheets[i].table)
    requires CheckSpec(sheets).1 == Pass
    ensures forall i :: 0 <= i < |CheckSpec(sheets).0| ==> !HasEmpty(CheckSpec(sheets).0[i].table)
    ensures Lookup(CheckSpec(sheets).0, "volatile plants").Some?
    ensures Lookup(CheckSpec(sheets).0, "volatile plants").value.Frame?
  {
    var cleaned := DropAllIncomplete(sheets);
    var out := CheckSpec(sheets).0;
    var k := Find(cleaned, "volatile plants").value;
    EmptyCellTablesNone(sheets);
    assert Names(out) == Names(cleaned);
    FindSameNames(out, cleaned, "volatile plants");
    forall i | 0 <= i < |sheets| {
      DropIncompleteFacts(sheets[i].table);
    }
  }

  /** `dump` stores under `filename` with ".dflx" added unless its last
      dot-suffix is already "dflx". */
  function DumpFileName(filename: string): (r: string)
    ensures LastPiece(r, '.') == "dflx" && filename <= r
    ensures WithSuffix(r, "dflx") == r
  {
    WithSuffixEnds(filename, "dflx");
    WithSuffix(filename, "dflx")
  }

  /** `to_xlsx` writes to `filename` with ".xlsx" added unless its last
      dot-suffix is already "xlsx". */
  function XlsxFileName(filename: string): (r: string)
    ensures LastPiece(r, '.') == "xlsx" && filename <= r
    ensures WithSuffix(r, "xlsx") == r
  {
    WithSuffixEnds(filename, "xlsx");
    WithSuffix(filename, "xlsx")
  }

  class Scenario {
    var meta: map<seq<string>, MetaValue>
    var inputData: seq<Sheet>
    var es: Option<EnergySystem>

    constructor (meta: map<seq<string>, MetaValue>, inputData: seq<Sheet>)
      ensures this.meta == meta && this.inputData == inputData && es == None
    {
      this.meta := meta;
      this.inputData := inputData;
      es := None;
    }

    /** `initialise_energy_system` */
    method InitialiseEnergySystem() returns (r: Outcome<ScenarioError>)
      modifies this
      ensures meta == old(meta) && inputData == old(inputData)
      ensures match EnergySystemSpec(inputData)
        case Success(e) => r == Pass && es == Some(e)
        case Failure(err) => r == Fail(err) && es == old(es)
    {
      if |inputData| == 0 {
        return Fail(NoInputData);
      }
      var year := GeneralInt(inputData, "year");
      if year.Failure? {
        return Fail(year.error);
      }
      var steps := GeneralInt(inputData, "number of time steps");
      if steps.Failure? {
        return Fail(steps.error);
      }
      var tables := SeriesSheets(inputData);
      var i := 0;
      while i < |tables|
        invariant 0 <= i <= |tables|
        invariant FirstLengthMismatch(tables, steps.value) == FirstLengthMismatch(tables[i..], steps.value)
      {
        if steps.value != Length(tables[i].table) {
          return Fail(SeriesLengthMismatch(tables[i].name, steps.value, Length(tables[i].table)));
        }
        assert tables[i..][1..] == tables[i + 1..];
        i := i + 1;
      }
      if steps.value < 0 {
        return Fail(NegativePeriods(steps.value));
      }
      es := Some(EnergySystem(year.value, HourlyIndex(steps.value)));
      r := Pass;
    }

    /** The loop of `check_input_data` over the tables: every DataFrame
        is replaced by its complete rows, and the names of the tables with
        an empty cell are collected in order. */
    method DropIncompleteRows() returns (hasWarning: seq<string>)
      modifies this
      ensures inputData == DropAllIncomplete(old(inputData))
      ensures hasWarning == EmptyCellTables(old(inputData))
      ensures meta == old(meta) && es == old(es)
    {
      ghost var original := inputData;
      hasWarning := [];
      var i := 0;
      while i < |inputData|
        invariant 0 <= i <= |inputData| == |original|
        invariant forall k :: 0 <= k < i ==> inputData[k] == Sheet(original[k].name, DropIncomplete(original[k].table))
        invariant forall k :: i <= k < |original| ==> inputData[k] == original[k]
        invariant hasWarning == EmptyCellTables(original[..i])
        invariant meta == old(meta) && es == old(es)
      {
        var sheet := inputData[i];
        assert sheet == original[i];
        EmptyCellTablesNext(original, i);
        if HasEmpty(sheet.table) {
          hasWarning := hasWarning + [sheet.name];
        }
        if sheet.table.Frame? {
          inputData := inputData[i := Sheet(sheet.name, DropIncomplete(sheet.table))];
        } else {
          assert DropIncomplete(sheet.table) == sheet.table;
        }
        i := i + 1;
      }
      assert original[..i] == original;
    }

    /** `check_input_data`; `warned` lists the tables a warning was issued
        for. */
    method CheckInputData() returns (r: Outcome<ScenarioError>, warned: seq<string>)
      modifies this
      ensures (inputData, r, warned) == CheckSpec(old(inputData))
      ensures meta == old(meta) && es == old(es)
    {
      var hasWarning := DropIncompleteRows();
      warned := hasWarning;
      var k := Find(inputData, "volatile plants");
      if k.None? {
        r := Fail(MissingTable("volatile plants"));
        return;
      }
      var volatile := inputData[k.value];
      if volatile.table.Series? {
        inputData := inputData[k.value := Sheet(volatile.name, SeriesToFrame(volatile.table))];
      } else {
        assert inputData == inputData[k.value := Sheet(volatile.name, SeriesToFrame(volatile.table))];
      }
      if |hasWarning| > 0 {
        r := Fail(NaNTables(hasWarning));
      } else {
        r := Pass;
      }
    }

    /** `_add_meta_data` */
    method AddMetaData() returns (r: Outcome<ScenarioError>)
      modifies this
      ensures (meta, r) == MetaUpdate(old(meta), inputData)
      ensures inputData == old(inputData) && es == old(es)
    {
      var info := Lookup(inputData, "info");
      if info.Some? {
        meta := meta + ToDict(info.value);
      }
      var general := Lookup(inputData, "general");
      if general.None? {
        return Fail(MissingTable("general"));
      }
      meta := meta + ToDict(general.value);
      r := Pass;
    }
  }

  /** `DeflexScenario.create_nodes`: a fresh node dictionary filled from
      the scenario's tables. */
  method CreateNodes(data: ScenarioNodes.InputData) returns (nodes: NodeRegistry.NodeDict, r: Outcome<NodeRegistry.BuildError>)
    ensures fresh(nodes) && nodes.Valid()
    ensures NodeRegistry.Reports(r, ScenarioNodes.BuildSpec(NodeRegistry.Registry([], map[]), data), nodes.Value())
  {
    nodes := new NodeRegistry.NodeDict();
    r := Builder.CreateNodesFromData(nodes, data);
  }
}
