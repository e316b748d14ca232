# deflex in Dafny

deflex builds an energy-system model of Germany from scenario tables and
analyses the results that an LP solver gives back for it. This project
models in Dafny the parts of deflex that decide what that model contains
and how the results are read:

- **The node registry and the builders.** A scenario's tables become
  buses, sources, sinks, transformers and storages, each stored under a
  four-field `Label` (category, tag, subtag, region) in an insert-only
  dictionary, `NodeDict`. The live builder is in
  `src/deflex/scenario_tools/nodes.py`. The older builders are in
  `src/deflex/nodes.py` and in `Scenario.create_nodes` of
  `src/deflex/scenario_tools.py`. Each wiring rule is a function on the
  registry's value (`...Spec`, `...Rule`; a raised exception is a
  `Failure`). Each `add_*` function is a method that fills a `NodeDict`
  object in place, row by row, and is proved to do what its rule says.
  Lemmas then prove properties of the builds as a whole: nothing is
  replaced, every bus gets its excess sink and shortage source, and
  certain table shapes make the build raise.
- **The scenario classes.** `Scenario` of `src/deflex/scenario.py`, the
  package variant `src/deflex/scenario/scenario.py` and the older
  `Scenario` of `src/deflex/scenario_tools.py`. They read the
  energy-system settings, check the length of the time series, check the
  tables for empty cells (raising, or only warning), update the meta data
  and apply the file-name suffix rule. The raw tables are sheets of cells
  (number, text or empty) in dictionary order.
- **Scenario files.** The dump search with its meta-data filter, the
  input-scenario search, the suffix check of `restore_scenario`, the type
  detection of `create_scenario` and the shape of `restore_results`
  (`src/deflex/scenario_tools/scenario_io.py`). The file system is a
  parameter.
- **Result analyses.** These are:
  - the cycle object and its filters, and the marginal costs and balances
    (`src/deflex/postprocessing/analyses.py`);
  - the bus view with its aggregation rules, keeping the aliasing by which
    the first flow stored under a key is increased in place
    (`src/deflex/postprocessing/views.py`);
  - the older bus view and searches (`src/deflex/postprocessing.py`);
  - the merit orders (`src/deflex/postprocessing/electricity.py`);
  - the result graph, a class with colour state and a cached directed
    graph (`src/deflex/postprocessing/graph.py`).
- **Fuel allocation of CHP plants** (`src/deflex/tools/chp.py`): the
  method dispatch, the parameter check and the four formulas, over
  `real`.
- **Scenario creation.** The power-line tables: reverse direction,
  default table, the renpass combination rule and the choice between them
  (`src/deflex/creator/transmission.py`). The default decentralised-heat
  table, the assembly of the tables in `create_scenario`, the "general"
  table and the cleaning of the time series
  (`src/deflex/creator/scenario_creator.py`).

Quantities are `real`. An infinite quantity (`float("inf")`) is `None`,
and so is an empty table cell. Python dictionaries whose order shows in
the results are sequences of pairs in insertion order. Strings are
sequences of characters.

## Model

| member | source | states |
|---|---|---|
| Labels.LabelStrFields | src/deflex/scenario_tools/nodes.py:23-24 | the live string form of a label is each field with its spaces turned into dashes, in field order, joined by "_" |
| Labels.LabelStrHasNoSpace | src/deflex/scenario_tools/helpers.py:1-11 | the string form `label2str` gives contains no space |
| Labels.LabelStrKeepsUnderscores | src/deflex/nodes.py:21-22 | the live form and the legacy form of a label have the same length and their underscores in the same places; they differ only where the legacy form has a space |
| Labels.LabelStrNotInjective | src/deflex/postprocessing/analyses.py:25-34 | for every label, putting a space or a dash at the same place of the category gives two different labels with the same `label2str` string |
| Labels.LegacyLabelStrNotInjective | src/deflex/nodes.py:21-22 | an underscore inside a field reads as a field separator: two different labels give the same legacy string |
| NodeRegistry.NodeDict.constructor | src/deflex/scenario.py:31-38 | a new node dictionary is empty |
| NodeRegistry.NodeDict.Has | src/deflex/scenario.py:31-38 | `key in nodes` holds exactly when the dictionary has an entry for the key |
| NodeRegistry.NodeDict.Insert | src/deflex/scenario.py:40-48 | setting a new key stores the node and appends the key to the insertion order; setting a key that is already there raises a key error and changes nothing; existing entries are never overwritten; the `NodeDict` classes of src/deflex/scenario_tools.py:46-57 and src/deflex/scenario/scenario.py:33-50 follow the same rule |
| NodeRegistry.NodeDict.AddBusIfMissing | src/deflex/scenario_tools/nodes.py:104-108 | a bus is stored under the key exactly when the key was missing; otherwise the dictionary is unchanged |
| NodeRegistry.Put | src/deflex/scenario.py:40-48 | the value-level insert: fails with a duplicate key exactly when the key is present, otherwise extends the registry by that one entry |
| NodeRegistry.EnsureBus | src/deflex/scenario_tools/nodes.py:104-108 | afterwards the key is present, the registry only grew, and an existing entry is left as it was |
| NodeRegistry.EnsureBusIdempotent | src/deflex/scenario_tools/nodes.py:104-108 | adding a missing bus twice is the same as adding it once |
| NodeRegistry.ExtendsTransitive | src/deflex/scenario.py:31-48 | "only grew, nothing replaced" composes over successive fills of the dictionary |
| NodeRegistry.FoldRowsAppend | src/deflex/scenario_tools/nodes.py:207-224 | running a table's rows in two parts is running them all at once, stopping at the first exception |
| NodeRegistry.FoldRowsExtends | src/deflex/scenario.py:40-48 | a table of insert-only rows that goes through leaves every earlier entry in place |
| NodeRegistry.FoldRowsNext | src/deflex/scenario_tools/nodes.py:207-224 | one more row of a table loop is the fold over the prefix followed by that row's rule |
| ScenarioNodes.BusLabelsDiffer | src/deflex/scenario_tools/nodes.py:93-98 | an electricity bus label never equals a commodity or district heat bus label, whatever the arguments |
| ScenarioNodes.Ratio | src/deflex/scenario_tools/nodes.py:490 | a division gives a finite quotient exactly when the divisor is not zero, and then quotient * divisor == dividend |
| ScenarioNodes.LookupSeries | src/deflex/scenario_tools/nodes.py:247 | a series is found exactly when its table is present and has a column with that region and name, and it is that column's values |
| ScenarioNodes.FindSeries | src/deflex/scenario_tools/nodes.py:247 | the column lookup finds a column with the asked region and name, and fails only when no such column exists |
| ScenarioNodes.SourceFlow | src/deflex/scenario_tools/nodes.py:120-152 | no source for an annual limit <= 0; an infinite limit gives the capacity and fixed profile as flow; a finite limit gives nominal value = limit and summed_max = 1; costs and emission always passed on |
| ScenarioNodes.AddSourceSpec | src/deflex/scenario_tools/nodes.py:120-152 | nothing changes when no source is due; a missing bus raises a key error; otherwise exactly the source is inserted |
| ScenarioNodes.SinkNode | src/deflex/scenario_tools/nodes.py:155-189 | a demand-response sink with the demand-response row's parameters when the index (padded with "None" below three levels) is listed, otherwise a sink with the column as fixed profile and nominal value 1 |
| ScenarioNodes.AddSinkSpec | src/deflex/scenario_tools/nodes.py:155-189 | a missing bus raises a key error; otherwise exactly the sink is inserted |
| ScenarioNodes.CommodityRule | src/deflex/scenario_tools/nodes.py:207-223 | a commodity bus already present raises; then a missing co2 price fails; then a source label already taken raises (when the annual limit lets a source be added); on success the commodity bus exists, the source, when added, feeds it with variable costs emission * co2 price + costs, and the keys afterwards are exactly the old keys, the bus and (when the limit allows) the source |
| ScenarioNodes.VolatileRule | src/deflex/scenario_tools/nodes.py:242-259 | a missing feed-in series is an error exactly for a positive capacity; a source label already taken raises when a source is due; on success the region's electricity bus is there, a source is added exactly when capacity * sum(feed-in) > 0, with the capacity and the series, and no other key is added |
| ScenarioNodes.FindHeatSystem | src/deflex/scenario_tools/nodes.py:285 | finds the decentralised heat row with the column's region and system, and fails only when there is none |
| ScenarioNodes.HeatColumns | src/deflex/scenario_tools/nodes.py:278 | the columns kept are exactly those whose name does (or does not) contain "district heating", in column order |
| ScenarioNodes.DecentralisedHeatRule | src/deflex/scenario_tools/nodes.py:280-323 | a column without a heating-system row is the error; otherwise, with the fuel and source names spaced, the outcome is `AddHeatSystem`'s: each of the four failures (heat bus taken, source bus missing, heating system or demand label taken) with its own error, success exactly when none occurs, and then the nodes added in order with their values |
| ScenarioNodes.AddHeatSystem | src/deflex/scenario_tools/nodes.py:286-323 | an electricity source bus is added when missing; a heat bus already there, a missing source bus, or a taken heating-system or demand label fails with that label; otherwise exactly the heat bus, the transformer from the source bus at the given efficiency and the demand sink are appended in that order and nothing else changes |
| ScenarioNodes.ElectricityDemandRule | src/deflex/scenario_tools/nodes.py:340-357 | a column whose sum is not positive changes nothing; otherwise a taken demand label raises, and a free one gives the region's electricity bus and the demand sink on it, the keys being exactly the old ones plus the bus and the sink |
| ScenarioNodes.DistrictHeatingRule | src/deflex/scenario_tools/nodes.py:377-391 | a column whose sum is not positive changes nothing; otherwise a taken demand label raises, and a free one gives the district heat bus and the demand sink on it, the keys being exactly the old ones plus the bus and the sink |
| ScenarioNodes.LineDirectionRule | src/deflex/scenario_tools/nodes.py:411-452 | the in-bus is checked first, then the out-bus, each missing bus raising; otherwise the line transformer with the row's efficiency and (finite) capacity is inserted |
| ScenarioNodes.LineRule | src/deflex/scenario_tools/nodes.py:408-452 | a line name that does not split into exactly two regions raises; otherwise both directions A->B and B->A are added |
| ScenarioNodes.PlantOutflow | src/deflex/scenario_tools/nodes.py:484-498 | nominal value = capacity, variable costs when given; an infinite annual limit sets no summed_max, a finite one sets summed_max with summed_max * capacity == limit |
| ScenarioNodes.PowerPlantRule | src/deflex/scenario_tools/nodes.py:471-509 | a capacity <= 0 changes nothing; a missing fuel bus raises; otherwise a transformer from the fuel bus (fuel, source region) to the electricity bus, capacity reduced by the downtime factor |
| ScenarioNodes.EnsureElectricityBuses | src/deflex/scenario_tools/nodes.py:111-114 | afterwards every listed region has its electricity bus, nothing was replaced, and every new key is such a bus |
| ScenarioNodes.PowerPlantRegions | src/deflex/scenario_tools/nodes.py:112 | the regions of the table's index, row by row |
| ScenarioNodes.ChpFuelLimit | src/deflex/scenario_tools/nodes.py:544-555 | the CHP's fuel flow allows exactly the fuel the heat limit needs: nominal value * summed_max == heat limit / heat efficiency |
| ScenarioNodes.AddChp | src/deflex/scenario_tools/nodes.py:536-565 | without a positive heat capacity nothing changes; a missing fuel bus raises; otherwise the CHP transformer with fuel in and electricity and district heat out is inserted |
| ScenarioNodes.AddHeatPlant | src/deflex/scenario_tools/nodes.py:568-583 | without a positive heat plant capacity nothing changes; a missing fuel bus raises; otherwise the heat plant is inserted |
| ScenarioNodes.ChpRule | src/deflex/scenario_tools/nodes.py:517-583 | a missing fuel bus raises first (for a CHP or a heat plant), then a missing electricity bus (for a CHP); the row goes through exactly when every needed bus is there and the new labels are free; the keys afterwards are the old ones plus the district heat bus, the CHP exactly when its heat capacity is positive and the heat plant exactly when its capacity is positive |
| ScenarioNodes.ChpRegions | src/deflex/scenario_tools/nodes.py:515 | the regions of the table's index, row by row |
| ScenarioNodes.StorageTable | src/deflex/scenario_tools/nodes.py:599-624 | having both storage tables is an error; the deprecated table is used with its medium set to electricity; otherwise the "storages" table or none |
| ScenarioNodes.StorageRule | src/deflex/scenario_tools/nodes.py:627-654 | a missing bus of the medium raises; otherwise a storage charging from and discharging to that bus with the row's capacities and efficiencies |
| ScenarioNodes.OtherDemandRule | src/deflex/scenario_tools/nodes.py:660-674 | a column whose sum is not positive changes nothing; a missing commodity bus raises; otherwise the demand sink on it |
| ScenarioNodes.ConverterRule | src/deflex/scenario_tools/nodes.py:680-723 | like a power plant between the buses of the source and the target medium: a capacity <= 0 changes nothing, a missing bus raises, otherwise the converter is inserted |
| ScenarioNodes.FindMobility | src/deflex/scenario_tools/nodes.py:742-746 | finds the mobility row with the column's region and name, and fails only when there is none |
| ScenarioNodes.MobilityRule | src/deflex/scenario_tools/nodes.py:741-776 | a missing mobility row is an error; then, in this order, an existing mobility bus, a missing fuel bus, a taken converter label and a taken demand label raise with that label; it succeeds exactly when none of these happens, and then exactly the bus, the fuel converter into it and the demand sink are added, in this order |
| ScenarioNodes.MobilityLabelsDistinct | src/deflex/scenario_tools/nodes.py:745-756 | the mobility bus, converter and demand labels differ from each other and from the fuel bus |
| ScenarioNodes.BusKeys | src/deflex/scenario_tools/nodes.py:791-793 | exactly the keys whose node is a bus, in insertion order |
| ScenarioNodes.Advance | src/deflex/scenario_tools/nodes.py:27-87 | a stage that raises ends the whole build with its exception; a stage that goes through hands its registry to the next stage |
| ScenarioNodes.BuildFromEnd | src/deflex/scenario_tools/nodes.py:85-87 | after the last stage, the build adds shortage and excess for every bus |
| ScenarioNodes.ShortageExcessRule | src/deflex/scenario_tools/nodes.py:794-803 | a missing bus raises; otherwise an excess sink fed by the bus and a shortage source feeding it at variable costs 9999 |
| Builder.AddSource | src/deflex/scenario_tools/nodes.py:120-152 | the dictionary ends as `add_source` leaves it, or the method reports its exception; it only grows |
| Builder.AddSink | src/deflex/scenario_tools/nodes.py:155-189 | the dictionary ends as `add_sink` leaves it, or the method reports its exception; it only grows |
| Builder.CheckElectricityBuses | src/deflex/scenario_tools/nodes.py:111-114 | the dictionary ends with an electricity bus for every listed region |
| Builder.AddCommodityRow | src/deflex/scenario_tools/nodes.py:207-223 | one row of `add_commodity_sources`, reported against its rule |
| Builder.AddCommoditySources | src/deflex/scenario_tools/nodes.py:195-224 | the loop over the commodity table leaves the dictionary as the rule fold does, stopping at the first exception |
| Builder.AddVolatileRow | src/deflex/scenario_tools/nodes.py:243-259 | one row of `add_volatile_sources`, reported against its rule |
| Builder.AddVolatileSources | src/deflex/scenario_tools/nodes.py:227-259 | the loop over the volatile plants leaves the dictionary as the rule fold does |
| Builder.AddHeatSystemNodes | src/deflex/scenario_tools/nodes.py:286-323 | inserts the source bus when missing, then the heat bus, the heating system and the demand, as `AddHeatSystem` says, replacing nothing it did not report |
| Builder.InsertHeatNodes | src/deflex/scenario_tools/nodes.py:296-323 | the insertions of the heat bus, the heating system and the demand stop at the first failure and leave the dictionary as the pure chain of insertions computes |
| Builder.AddDecentralisedHeatRow | src/deflex/scenario_tools/nodes.py:280-323 | one column of `add_decentralised_heating_systems`, reported against its rule |
| Builder.AddDecentralisedHeatingSystems | src/deflex/scenario_tools/nodes.py:262-323 | the loop over the non-district heat columns leaves the dictionary as the rule fold does |
| Builder.AddElectricityDemandColumn | src/deflex/scenario_tools/nodes.py:341-357 | one column of `add_electricity_demand`, reported against its rule |
| Builder.AddElectricityDemand | src/deflex/scenario_tools/nodes.py:326-357 | the loop over the demand columns leaves the dictionary as the rule fold does |
| Builder.AddDistrictHeatingColumn | src/deflex/scenario_tools/nodes.py:378-391 | one column of `add_district_heating_demand`, reported against its rule |
| Builder.AddDistrictHeatingDemand | src/deflex/scenario_tools/nodes.py:360-391 | the loop over the district heating columns leaves the dictionary as the rule fold does |
| Builder.AddLineDirection | src/deflex/scenario_tools/nodes.py:412-452 | one direction of a line, reported against its rule |
| Builder.AddLineRow | src/deflex/scenario_tools/nodes.py:409-452 | one line, both directions, reported against its rule |
| Builder.AddTransmissionLines | src/deflex/scenario_tools/nodes.py:394-452 | the loop over the power lines leaves the dictionary as the rule fold does |
| Builder.AddPowerPlantRow | src/deflex/scenario_tools/nodes.py:472-509 | one power plant row, reported against its rule |
| Builder.AddPowerPlants | src/deflex/scenario_tools/nodes.py:455-509 | the electricity buses of all plant regions first, then the loop over the rows, as the specification fold does |
| Builder.AddChpPart | src/deflex/scenario_tools/nodes.py:536-565 | the CHP part of a row, reported against its rule |
| Builder.AddHeatPlantPart | src/deflex/scenario_tools/nodes.py:568-583 | the heat plant part of a row, reported against its rule |
| Builder.AddChpRow | src/deflex/scenario_tools/nodes.py:518-583 | one row of `add_heat_and_chp_plants`, reported against its rule |
| Builder.AddHeatAndChpPlants | src/deflex/scenario_tools/nodes.py:512-583 | the electricity buses first, then the loop over the rows, as the specification fold does |
| Builder.AddStorageRow | src/deflex/scenario_tools/nodes.py:628-654 | one storage row, reported against its rule |
| Builder.AddStorages | src/deflex/scenario_tools/nodes.py:586-654 | the table choice (an error for both tables), then the loop over the rows, as the specification does |
| Builder.AddOtherDemandColumn | src/deflex/scenario_tools/nodes.py:661-674 | one column of `add_other_demand`, reported against its rule |
| Builder.AddOtherDemand | src/deflex/scenario_tools/nodes.py:657-674 | the loop over the other demand columns leaves the dictionary as the rule fold does |
| Builder.AddConverterRow | src/deflex/scenario_tools/nodes.py:681-723 | one converter row, reported against its rule |
| Builder.AddOtherConverters | src/deflex/scenario_tools/nodes.py:677-723 | the loop over the converters leaves the dictionary as the rule fold does |
| Builder.AddMobilityColumn | src/deflex/scenario_tools/nodes.py:742-776 | one mobility column, reported against its rule |
| Builder.AddMobility | src/deflex/scenario_tools/nodes.py:726-777 | the loop over the mobility demand columns leaves the dictionary as the rule fold does |
| Builder.AddShortageExcessBus | src/deflex/scenario_tools/nodes.py:795-803 | the guards of one bus, reported against their rule |
| Builder.AddShortageExcess | src/deflex/scenario_tools/nodes.py:780-803 | the bus keys are collected first, then every bus gets its guards, as the specification fold does |
| Builder.RunStages | src/deflex/scenario_tools/nodes.py:40-83 | the stage loop fails with the build's first exception, and when it goes through it leaves the registry from which the build only adds shortage and excess |
| Builder.RunStage | src/deflex/scenario_tools/nodes.py:40-83 | stage k runs its `add_*` call exactly when its tables are present, as `StageSpec` says |
| Builder.CreateNodesFromData | src/deflex/scenario_tools/nodes.py:27-87 | all stages in the builder's order, stopping at the first exception, then shortage and excess: the dictionary ends as `BuildSpec` says |
| BuilderProperties.FoldRowsPrefix | src/deflex/scenario_tools/nodes.py:207-224 | when a table goes through, each of its prefixes went through and the registry only grew after it |
| BuilderProperties.FoldRowsConflict | src/deflex/scenario.py:40-48 | a row that always leaves a key behind followed by a row that fails when that key exists makes the whole table fail |
| BuilderProperties.CommodityStepInsertOnly | src/deflex/scenario_tools/nodes.py:207-223 | a commodity row never replaces an entry |
| BuilderProperties.RepeatedCommodityRowFails | src/deflex/scenario_tools/nodes.py:207-213 | two commodity rows for the same region and fuel make `add_commodity_sources` raise |
| BuilderProperties.OppositeLinesCollide | src/deflex/scenario_tools/nodes.py:408-431 | a line listed as "A-B" and again as "B-A" makes the second row collide with the reverse transformer of the first |
| BuilderProperties.GuardLabels | src/deflex/scenario_tools/nodes.py:795-799 | two labels per bus key |
| BuilderProperties.GuardLabelOf | src/deflex/scenario_tools/nodes.py:795-799 | every guard label is the excess or shortage label of one of the keys |
| BuilderProperties.ShortageExcessFoldOrder | src/deflex/scenario_tools/nodes.py:794-803 | a run over the bus keys only inserts and appends exactly the guard labels |
| BuilderProperties.ShortageExcessFoldFresh | src/deflex/scenario_tools/nodes.py:794-803 | none of the guard labels was in the dictionary before the run |
| BuilderProperties.ShortageExcessFoldEntries | src/deflex/scenario_tools/nodes.py:794-803 | after the run every key has its excess sink and shortage source, and every other entry was there before |
| BuilderProperties.ShortageExcessCoversEveryBus | src/deflex/scenario_tools/nodes.py:780-803 | every bus gets one excess sink and one shortage source (variable costs 9999), two entries per bus and nothing else, and no existing entry changes |
| BuilderProperties.ShortageExcessTagCollision | src/deflex/scenario_tools/nodes.py:795-799 | the guard labels drop the bus's tag, so two buses that differ only in their tag make `add_shortage_excess` raise |
| BuilderProperties.StageInsertOnly | src/deflex/scenario_tools/nodes.py:40-83 | no stage replaces an entry |
| BuilderProperties.BuildFromFacts | src/deflex/scenario_tools/nodes.py:40-87 | the remaining stages only insert, and every bus present before the guards gets both guards |
| BuilderProperties.BuildSpecFacts | src/deflex/scenario_tools/nodes.py:27-87 | `create_solph_nodes_from_data` never replaces a node already in the dictionary and leaves every bus with an excess sink and a shortage source |
| ScenarioTables.Names | src/deflex/scenario.py:212 | the table names of the input dictionary, in its order |
| ScenarioTables.Find | src/deflex/scenario.py:238 | the first position holding the table name, or none exactly when no table has that name |
| ScenarioTables.FindSameNames | src/deflex/scenario.py:228-238 | replacing tables in place (keeping their names) does not change where a table is found |
| ScenarioTables.Lookup | src/deflex/scenario.py:238 | `input_data[name]` succeeds exactly when a table of that name exists, and gives that table |
| ScenarioTables.Trunc | src/deflex/scenario.py:99-100 | `int()` of a float truncates towards zero |
| ScenarioTables.ParseNat | src/deflex/scenario.py:99-100 | an unsigned decimal text parses exactly when it is a non-empty string of digits |
| ScenarioTables.NatDigits | src/deflex/scenario.py:113 | the decimal form of a number is a non-empty string of digits |
| ScenarioTables.DigitsOfNat | src/deflex/scenario.py:113 | reading the digits of a number gives the number back |
| ScenarioTables.ParseShow | src/deflex/scenario.py:99-113 | `int(str(n)) == n` for every integer |
| ScenarioTables.IntOf | src/deflex/scenario.py:99-100 | `int()` of a cell: an empty cell raises, a number is truncated to within one of its value |
| ScenarioTables.SeriesAt | src/deflex/scenario.py:99-100 | `series[key]` finds an entry with that key, and fails only when there is none |
| ScenarioTables.GeneralInt | src/deflex/scenario.py:99-100 | a missing "general" table raises; a value read is `int()` of the "general" entry for the key |
| ScenarioTables.HourlyIndex | src/deflex/scenario.py:112-114 | `n` hourly steps starting at hour 0, each one hour after the previous |
| ScenarioTables.SeriesSheets | src/deflex/scenario.py:103 | exactly the tables whose name contains "series" |
| ScenarioTables.FirstLengthMismatch | src/deflex/scenario.py:103-109 | none exactly when every series table has the number of time steps as length; otherwise a table whose length differs |
| ScenarioTables.EnergySystemSpecFacts | src/deflex/scenario.py:83-118 | empty input is refused; a created energy system has the year and exactly the number of time steps of "general", and every "series" table then has one row per time step; a length error names a series table of another length |
| ScenarioTables.Filled | src/deflex/scenario.py:228-230 | the number of non-empty cells: all of them exactly when no cell is empty, at least one exactly when some cell is filled |
| ScenarioTables.KeepFilled | src/deflex/scenario.py:228-230 | `dropna(thresh=n)` keeps exactly the rows with at least `n` filled cells, in order |
| ScenarioTables.DropIncompleteFacts | src/deflex/scenario.py:228-230 | dropping keeps the columns and the kind of table; on a DataFrame with one cell per column it leaves no empty cell and keeps every complete row |
| ScenarioTables.SeriesToFrame | src/deflex/scenario.py:238-242 | a Series becomes a one-column DataFrame named after it, with the same keys, values and empty cells; a DataFrame is left as it is |
| ScenarioTables.EntriesDict | src/deflex/scenario.py:187-188 | `to_dict` of pairs holds exactly the keys that occur |
| ScenarioTables.LastEntryWins | src/deflex/scenario.py:187-188 | the last pair with a key gives that key's value |
| ScenarioTables.ColumnEntries | src/deflex/scenario.py:187-188 | one pair per row |
| ScenarioTables.ColumnsDict | src/deflex/scenario.py:187-188 | `to_dict` of a DataFrame holds exactly its column names |
| ScenarioTables.ToDict | src/deflex/scenario.py:187-188 | `to_dict` holds exactly the keys of a Series or the columns of a DataFrame |
| ScenarioTables.MetaUpdate | src/deflex/scenario.py:185-188 | "general" must exist; the meta dictionary afterwards holds the old keys, those of "info" and those of "general", with "general" winning over "info" and "info" over the old values |
| ScenarioTables.WithSuffixEnds | src/deflex/scenario.py:268-271 | the name afterwards ends in the suffix and starts with the given name; adding the suffix twice changes nothing; the name is unchanged exactly when it already ended in the suffix; the package scenario class applies the same rule (src/deflex/scenario/scenario.py:213-215 and 339-341) |
| Scenario.EmptyCellTables | src/deflex/scenario.py:211-236 | exactly the names of the tables with an empty cell, no more names than tables |
| Scenario.DropAllIncomplete | src/deflex/scenario.py:220-230 | every DataFrame replaced by its complete rows, every Series kept, names unchanged |
| Scenario.EmptyCellTablesNext | src/deflex/scenario.py:212-236 | one more table adds its name exactly when it has an empty cell |
| Scenario.EmptyCellTablesNone | src/deflex/scenario.py:243 | no table is listed exactly when no table has an empty cell |
| Scenario.CheckSpecOutcome | src/deflex/scenario.py:190-248 | `check_input_data` passes exactly when there is a "volatile plants" table and no table has an empty cell; otherwise it fails with the missing table or one error naming every table with an empty cell, the same tables that were warned about; names are kept |
| Scenario.CheckedTablesAreComplete | src/deflex/scenario.py:220-242 | after a check that passes, no table has an empty cell and "volatile plants" is a DataFrame |
| Scenario.DumpFileName | src/deflex/scenario.py:468-470 | the dump file name ends in ".dflx", starts with the given name, and is not extended again |
| Scenario.XlsxFileName | src/deflex/scenario.py:269-271 | the workbook name ends in ".xlsx", starts with the given name, and is not extended again |
| Scenario.Scenario.constructor | src/deflex/scenario.py:77-81 | a scenario with the given meta data and tables and no energy system |
| Scenario.Scenario.InitialiseEnergySystem | src/deflex/scenario.py:83-118 | the energy system is set exactly as `EnergySystemSpec` creates it, and the error is raised exactly when it fails; meta data and tables unchanged |
| Scenario.Scenario.DropIncompleteRows | src/deflex/scenario.py:211-236 | the loop replaces every DataFrame by its complete rows and collects exactly the tables with an empty cell, in order |
| Scenario.Scenario.CheckInputData | src/deflex/scenario.py:190-248 | the tables, outcome and warnings afterwards are those of `CheckSpec` |
| Scenario.Scenario.AddMetaData | src/deflex/scenario.py:185-188 | the meta dictionary and outcome afterwards are those of `MetaUpdate`; the tables are unchanged |
| Scenario.CreateNodes | src/deflex/scenario.py:595-609 | a fresh node dictionary, filled as `create_solph_nodes_from_data` specifies from an empty one |
| PackageScenario.HoursOfYear | src/deflex/scenario/scenario.py:106 | 8784 hours exactly in a leap year, 8760 otherwise |
| PackageScenario.LeapYearWarningsExact | src/deflex/scenario/scenario.py:101-108 | at most one warning, and one exactly when "general" gives a leap year and a number of time steps other than 8784 |
| PackageScenario.ValueColumns | src/deflex/scenario/scenario.py:184 | exactly the columns that hold a value, in order |
| PackageScenario.Pick | src/deflex/scenario/scenario.py:184 | the elements at the given positions |
| PackageScenario.TrimEmptyRectangular | src/deflex/scenario/scenario.py:183-184 | the trimmed table has one cell per column |
| PackageScenario.TrimEmptyRowsHaveValues | src/deflex/scenario/scenario.py:183-184 | every row left after the two drops holds a value |
| PackageScenario.TrimEmptyColumnsHaveValues | src/deflex/scenario/scenario.py:184 | every column left after the two drops holds a value |
| PackageScenario.TrimEmptyAddsNoEmptyCell | src/deflex/scenario/scenario.py:183-185 | the drops create no empty cell, so a table flagged afterwards had one before |
| PackageScenario.FirstFlagged | src/deflex/scenario/scenario.py:174-202 | the first table left with an empty cell after the drops, or none exactly when no table is |
| PackageScenario.FlaggedWarningsExact | src/deflex/scenario/scenario.py:188-200 | with `warning`, the warnings name exactly the tables left with an empty cell |
| PackageScenario.FlaggedWarningsNext | src/deflex/scenario/scenario.py:174-202 | one more table adds a warning exactly when it is flagged |
| PackageScenario.RaisedAt | src/deflex/scenario/scenario.py:174-202 | when table `i` raises, the tables before it are checked, it is trimmed and the rest untouched |
| PackageScenario.CheckAll | src/deflex/scenario/scenario.py:174-202 | every table checked |
| PackageScenario.PackageCheckOutcome | src/deflex/scenario/scenario.py:168-208 | without `warning`, an empty cell left after the drops raises, naming the first such table, and nothing is warned; with `warning` only a missing "volatile plants" table can raise and every flagged table is warned about; `check_input_data` passes exactly when neither happens |
| PackageScenario.WarnedFramesAreComplete | src/deflex/scenario/scenario.py:185-194 | with `warning`, no DataFrame with one cell per column keeps an empty cell, even one it warned about |
| PackageScenario.Scenario.constructor | src/deflex/scenario/scenario.py:79-83 | a scenario with the given meta data and tables and no energy system |
| PackageScenario.Scenario.InitialiseEnergySystem | src/deflex/scenario/scenario.py:85-126 | the energy system and outcome are those of the live rule, the leap-year warning is issued exactly as `LeapYearWarnings` says |
| PackageScenario.CheckSheets | src/deflex/scenario/scenario.py:174-202 | the loop passes exactly when `warning` is set or no table is flagged; then every table is checked and the warnings are the flagged ones; otherwise its result is that of `PackageCheckSpec` |
| PackageScenario.Scenario.CheckTables | src/deflex/scenario/scenario.py:174-202 | the loop passes exactly when `warning` is set or no table is flagged; then every table is checked and the warnings are the flagged ones; otherwise it stops at the first flagged table |
| PackageScenario.Scenario.CheckInputData | src/deflex/scenario/scenario.py:168-208 | the tables, outcome and warnings afterwards are those of `PackageCheckSpec` |
| PackageScenario.Scenario.AddMetaData | src/deflex/scenario/scenario.py:163-166 | the meta dictionary and outcome afterwards are those of `MetaUpdate` |
| Chp.MethodOf | src/deflex/tools/chp.py:104-129 | each accepted method name maps to its method, "alternative_generation" to the Finnish and "carnot" to the exergy method; any other name to none |
| Chp.Div | src/deflex/tools/chp.py:185 | a float division succeeds exactly when the divisor is not zero, and then quotient * divisor == dividend; otherwise it raises |
| Chp.IeaMethod | src/deflex/tools/chp.py:147-185 | succeeds exactly when the efficiencies do not add up to zero; the electricity share times their sum is the electrical efficiency, and it lies in [0, 1] for non-negative efficiencies |
| Chp.EfficiencyMethod | src/deflex/tools/chp.py:188-226 | succeeds exactly when the efficiencies do not add up to zero; the electricity share times their sum is the thermal efficiency, and it lies in [0, 1] for non-negative efficiencies |
| Chp.FinnishMethod | src/deflex/tools/chp.py:229-284 | succeeds exactly when both reference efficiencies and the sum of the two ratios to them are non-zero; the share times that sum is the electrical ratio, and it lies in [0, 1] for non-negative efficiencies and positive references |
| Chp.ExergyMethod | src/deflex/tools/chp.py:287-332 | succeeds exactly when the electrical efficiency plus the Carnot-weighted thermal efficiency is non-zero; the share times that sum is the electrical efficiency, and it lies in [0, 1] for non-negative inputs |
| Chp.Missing | src/deflex/tools/chp.py:134-139 | exactly the mandatory parameters not given, no more than the mandatory ones |
| Chp.CheckInput | src/deflex/tools/chp.py:134-144 | passes exactly when the given parameters are the mandatory ones; missing ones raise one error naming all of them; extra ones raise a type error |
| Chp.Allocate | src/deflex/tools/chp.py:101-131 | whenever an allocation succeeds, the heat and electricity factors add up to 1 |
| Chp.AllocateErrors | src/deflex/tools/chp.py:101-131 | a known method never raises "not implemented"; "electricity" and "heat" give the whole fuel to one product; missing parameters raise one error naming all of them, and that is the only way to get that error |
| Chp.AllocateFuel | src/deflex/tools/chp.py:16-131 | the heat and electricity factors always add up to 1 |
| Chp.AllocateFuelCases | src/deflex/tools/chp.py:101-131 | unknown names raise "not implemented"; "electricity" and "heat" give the whole fuel to one product whatever the arguments; the other methods raise one error naming every missing parameter |
| Chp.AllocateFuelComputes | src/deflex/tools/chp.py:104-119 | a computing method succeeds exactly when given its own parameters and no others (a zero division aside) |
| Chp.SameMethodAgrees | src/deflex/tools/chp.py:104-119 | two names of one method compute the same factors |
| Chp.AliasesAgree | src/deflex/tools/chp.py:104-112 | "carnot" computes as "exergy" and "alternative_generation" as "finnish" |
| Chp.IeaEfficiencyComplement | src/deflex/tools/chp.py:147-226 | the IEA share and the efficiency-method share of electricity add up to the whole fuel |
| Chp.FinnishEqualReferences | src/deflex/tools/chp.py:229-284 | with equal reference efficiencies the Finnish method is the IEA method |
| Chp.ExergyUnitCarnot | src/deflex/tools/chp.py:287-332 | with Carnot factor 1 the exergy method is the IEA method |
| Chp.FactorsStrictlyBetween | src/deflex/tools/chp.py:147-332 | for strictly positive efficiencies every method computes a share strictly between 0 and 1 |
| Chp.IeaExample | src/deflex/tools/chp.py:94-98 | the IEA method on 0.3 and 0.5 gives 0.375 of the fuel to electricity and 0.625 to heat |
| Analyses.AllNodes | src/deflex/postprocessing/analyses.py:255-262 | exactly the source nodes and the (non-empty) target nodes of the result keys |
| Analyses.CountOther | src/deflex/postprocessing/analyses.py:94-101 | the number of nodes of a cycle not in the category; all of them exactly when none is in it |
| Analyses.FilterCycles | src/deflex/postprocessing/analyses.py:89-103 | exactly the cycles that pass the storage (or line) filter, in order |
| Analyses.FilterCyclesConcat | src/deflex/postprocessing/analyses.py:91-103 | filtering keeps the cycles' order: it distributes over concatenation |
| Analyses.FilterSimpleCycles | src/deflex/postprocessing/analyses.py:89-103 | a cycle is kept exactly when storages are allowed or it has no storage node, and lines are allowed or its non-line nodes are not half its length |
| Analyses.CycleFilterExamples | src/deflex/postprocessing/analyses.py:89-103 | a storage node removes a cycle when storages are filtered; with lines filtered an even alternating line/bus cycle goes and an odd one stays |
| Analyses.FindFlow | src/deflex/postprocessing/analyses.py:150-154 | the first flow from `a` to `b`, or none exactly when there is no such flow |
| Analyses.Prev | src/deflex/postprocessing/analyses.py:153 | `n - 1` with Python's wrap-around to the last position |
| Analyses.CycleColumn | src/deflex/postprocessing/analyses.py:149-156 | column `n` of a cycle holds the flow on the edge into node `n` (closing from the last node to the first) and is named "{n}_from_{source}" |
| Analyses.CycleFrame | src/deflex/postprocessing/analyses.py:143-158 | one column per node of the cycle, over the results' time steps |
| Analyses.FlowingSteps | src/deflex/postprocessing/analyses.py:191-192 | exactly the time steps in which no flow rounds to zero, in increasing order |
| Analyses.UsedCycles | src/deflex/postprocessing/analyses.py:160-172 | exactly the cycles none of whose column sums rounds to zero |
| Analyses.SuspiciousCycles | src/deflex/postprocessing/analyses.py:176-195 | exactly the cycles with a time step in which all flows are non-zero |
| Analyses.SelectRows | src/deflex/postprocessing/analyses.py:192 | the frame restricted to the given time steps, in their order, every column kept |
| Analyses.Scale | src/deflex/postprocessing/analyses.py:171 | the factor `round(x, digits)` scales by is positive, at least 1 for non-negative digits and at most 1 for negative ones |
| Analyses.ScaleStep | src/deflex/postprocessing/analyses.py:171 | the factor is 1 at zero digits and one more digit multiplies it by ten, so it is `10 ** digits` |
| Analyses.SuspiciousRows | src/deflex/postprocessing/analyses.py:199-210 | one non-empty frame per suspicious cycle, and frame `i` holds exactly the all-flowing rows of cycle `i` |
| Analyses.RowsOf | src/deflex/postprocessing/analyses.py:191-192 | the same columns, and row `k` is the `k`-th time step at which every rounded flow is non-zero; every such step appears |
| Analyses.SuspiciousRowsAllFlowing | src/deflex/postprocessing/analyses.py:199-210 | in every selected row all flows are non-zero |
| Analyses.SuspiciousIsUsed | src/deflex/postprocessing/analyses.py:160-195 | with non-negative flows a suspicious cycle is a used cycle |
| Analyses.SuspiciousUsedAll | src/deflex/postprocessing/analyses.py:82-87 | suspicious cycles are among the used ones, and those among all cycles |
| Analyses.Cycles.constructor | src/deflex/postprocessing/analyses.py:67-79 | the filtered simple cycles are stored; the cycle frames are computed unless `no_values`, when they are none |
| Analyses.Cycles.GetCycleValues | src/deflex/postprocessing/analyses.py:120-158 | one frame per simple cycle, in order, each the cycle's frame |
| Analyses.Cycles.UsedCyclesOf | src/deflex/postprocessing/analyses.py:81-83 | none when the values were skipped, otherwise exactly the used cycles |
| Analyses.Cycles.SuspiciousCyclesOf | src/deflex/postprocessing/analyses.py:85-87 | none when the values were skipped, otherwise exactly the suspicious cycles |
| Analyses.ChpFactor | src/deflex/postprocessing/analyses.py:509-513 | defined exactly for non-zero efficiencies, and then factor * eta_e == 1 - eta_th / eta_ref |
| Analyses.WithMarginalCosts | src/deflex/postprocessing/analyses.py:499-519 | a missing reference efficiency becomes 1 and a missing heat efficiency 0; the fuel columns are kept |
| Analyses.ConverterTable.constructor | src/deflex/postprocessing/analyses.py:477 | the table holds the given rows |
| Analyses.CalculateMarginalCosts | src/deflex/postprocessing/analyses.py:477-520 | every row of the table is replaced in place by the row with its marginal costs and emissions |
| Analyses.MarginalCostsWithoutHeat | src/deflex/postprocessing/analyses.py:509-519 | without heat the marginal costs are the fuel costs over the electrical efficiency, and the emissions scale the same way |
| Analyses.MarginalCostsAndEmissionsProportional | src/deflex/postprocessing/analyses.py:509-519 | costs and emissions are computed with one factor, so they keep the fuel's proportion |
| Analyses.ChpCreditLowersCosts | src/deflex/postprocessing/analyses.py:509-513 | the heat credit lowers a CHP plant's marginal costs below those of an electricity-only plant of the same efficiency |
| Analyses.SelectNodes | src/deflex/postprocessing/analyses.py:590-601 | exactly the distinct source nodes of the class that pass the label filters |
| Analyses.BusBalanceKeys | src/deflex/postprocessing/analyses.py:602-615 | a flow into a selected bus is keyed "in" by its source's label, a flow out of it "out" by its target's |
| Analyses.ConverterBalanceKeys | src/deflex/postprocessing/analyses.py:634-651 | a key is present exactly when a flow enters ("in") or leaves ("out") a selected converter, keyed by the converter's own label, so a converter has at most one "in" and one "out" column |
| Analyses.ConverterBalanceMergesOutputs | src/deflex/postprocessing/analyses.py:646-651 | a CHP plant with an electricity and a heat output has a single "out" column |
| Views.FirstBadField | src/deflex/postprocessing/views.py:83-85 | the field of the first rule that names no label field, or none exactly when every rule names one |
| Views.FieldsAfter | src/deflex/postprocessing/views.py:82-87 | the changed fields always hold "tag" and "subtag" |
| Views.ChangedFields | src/deflex/postprocessing/views.py:81-87 | `change_field` raises exactly when some rule names no label field |
| Views.LastRuleWins | src/deflex/postprocessing/views.py:83-86 | the last applying rule decides a field; without one the label's own value stays |
| Views.ChangeField | src/deflex/postprocessing/views.py:81-87 | the loop over the rules computes `ChangedFields` |
| Views.FirstBadPrefix | src/deflex/postprocessing/views.py:83-85 | one more rule reports its field exactly when it is the first bad one |
| Views.Distinct | src/deflex/postprocessing/views.py:79 | the same elements without repetition |
| Views.BusesOf | src/deflex/postprocessing/views.py:76-79 | a single bus becomes a one-element list; a list keeps its buses without repetition |
| Views.NodeFlows | src/deflex/postprocessing/views.py:92-96 | exactly the flows with a target that start or end at the bus, in result order |
| Views.FlowKeyAt | src/deflex/postprocessing/views.py:99-118 | a flow out of the bus is keyed "out" with its target's category, a flow into it "in" with its source's; the key carries the bus's label |
| Views.BusAssignments | src/deflex/postprocessing/views.py:99-122 | one step per flow of the bus, each with its key and index |
| Views.Assignments | src/deflex/postprocessing/views.py:90-122 | every step visits a flow with a target |
| Views.Add | src/deflex/postprocessing/views.py:120 | element-wise addition |
| Views.Step | src/deflex/postprocessing/views.py:119-122 | a taken key has the flow added to the flow object it holds, a new key holds the flow itself; the lengths are kept |
| Views.Run | src/deflex/postprocessing/views.py:90-122 | the steps keep the lengths of the flow objects |
| Views.Flows | src/deflex/postprocessing/views.py:120-122 | the flow values of the results, one per entry |
| Views.Columns | src/deflex/postprocessing/views.py:123 | one column per key |
| Views.RunAppend | src/deflex/postprocessing/views.py:90-122 | running two lists of steps one after the other is running them joined |
| Views.ViewFlow | src/deflex/postprocessing/views.py:99-122 | one flow: an error exactly when a rule names no field, and then nothing changes; otherwise exactly one step |
| Views.BusFlows | src/deflex/postprocessing/views.py:92-122 | the loop over a bus's flows ends as `BusDone` says |
| Views.RunNext | src/deflex/postprocessing/views.py:90-122 | one more step of the run |
| Views.RunBuses | src/deflex/postprocessing/views.py:90-122 | the loop over the buses ends in the state of all the steps, or with the error of the first bus that has a flow |
| Views.ReshapeBusView | src/deflex/postprocessing/views.py:17-124 | the columns and the results' flow values afterwards are those of `ViewSpec` |
| Views.NoFlowsNoSteps | src/deflex/postprocessing/views.py:90-99 | buses without flows give no steps |
| Views.BusStep | src/deflex/postprocessing/views.py:90-122 | one turn of the loop over the buses keeps the state equal to the run over the buses so far |
| ViewTotals.KeySumAbsent | src/deflex/postprocessing/views.py:119-122 | a key no flow was given sums to zero |
| ViewTotals.SetsNext | src/deflex/postprocessing/views.py:119-122 | one more step adds its key and its flow to the sets visited |
| ViewTotals.StepAccumulates | src/deflex/postprocessing/views.py:119-122 | a step on a new flow keeps every key's flow equal to the sum of the flows given that key |
| ViewTotals.StepTakenKey | src/deflex/postprocessing/views.py:119-120 | a taken key has the new flow added to the flow it holds |
| ViewTotals.StepNewKey | src/deflex/postprocessing/views.py:121-122 | a new key holds the new flow |
| ViewTotals.NewKeySums | src/deflex/postprocessing/views.py:121-122 | after a new key every key's flow carries its sum |
| ViewTotals.RunAccumulates | src/deflex/postprocessing/views.py:90-122 | all steps from the original values keep every key's flow equal to its sum |
| ViewTotals.ColumnsOfRun | src/deflex/postprocessing/views.py:90-123 | one column per key, each the sum of the original flows given that key and held by one visited flow; a flow holding no column keeps its value |
| ViewTotals.ViewColumnsAreSums | src/deflex/postprocessing/views.py:17-124 | when no flow is visited twice, each column of a view that succeeds is the sum of the flows given its key, and the results' flow objects were changed in place to hold it |
| ViewTotals.KeyList | src/deflex/postprocessing/views.py:119-123 | the keys in the order they are first given, each once |
| ViewTotals.SumOverNext | src/deflex/postprocessing/views.py:119-122 | one more step raises the sum over distinct keys by the flow's value exactly when its key is one of them |
| ViewTotals.KeySumsMakeTotal | src/deflex/postprocessing/views.py:119-122 | the key sums add up to the total of the flows visited |
| ViewTotals.ColumnsTotalIsSumOver | src/deflex/postprocessing/views.py:123 | columns that are the key sums add up to the sum over the keys |
| ViewTotals.ViewKeepsTotal | src/deflex/postprocessing/views.py:17-124 | when no flow is visited twice, the columns of a view add up at every time step to the total of the flows visited |
| ViewTotals.StepsFromBuses | src/deflex/postprocessing/views.py:90-96 | every step visits a flow of one of the buses |
| ViewTotals.DistinctAppend | src/deflex/postprocessing/views.py:90-122 | two lists visiting different flows join without a repeat |
| ViewTotals.LaterBusApart | src/deflex/postprocessing/views.py:92-96 | a flow of earlier buses is no flow of a later bus when no flow links two buses |
| ViewTotals.NoLinksNoRepeats | src/deflex/postprocessing/views.py:90-96 | between distinct buses that no flow links, every flow is visited at most once |
| ViewTotals.RulesKeepFlows | src/deflex/postprocessing/views.py:99-118 | the aggregation rules do not change which flows are visited, nor their order |
| ViewTotals.SameFlowsSameTotal | src/deflex/postprocessing/views.py:119-122 | lists of steps visiting the same flows have the same total |
| ViewTotals.AggregationKeepsTotal | src/deflex/postprocessing/views.py:31-48 | when no flow links two of the buses, two views of the same buses under any two sets of rules add up to the same total at every time step |
| ViewExamples.ExampleSteps | src/deflex/postprocessing/views.py:42-48 | two power plants feeding one bus get the same key under the rule ("cat", "power plant", "tag", "all") |
| ViewExamples.ExampleRun | src/deflex/postprocessing/views.py:119-122 | the first flow is stored under the key and the second added to it |
| ViewExamples.AggregationMutatesResults | src/deflex/postprocessing/views.py:119-122 | the aggregated column is the two plants' sum, and the first plant's flow in the results now holds that sum |
| Electricity.KeyLeTotal | src/deflex/postprocessing/electricity.py:100 | the sort key order (costs, then capacity, undefined costs last) is total |
| Electricity.KeyLeTransitive | src/deflex/postprocessing/electricity.py:100 | the sort key order is transitive |
| Electricity.Insert | src/deflex/postprocessing/electricity.py:100 | inserting adds exactly the one element |
| Electricity.InsertSorted | src/deflex/postprocessing/electricity.py:100 | inserting into a sorted list keeps it sorted |
| Electricity.SortCorrect | src/deflex/postprocessing/electricity.py:100 | `sort_values(["costs_total", "capacity"])`, here and on line 223, is sorted and a permutation of its input |
| Electricity.CapacityCum | src/deflex/postprocessing/electricity.py:101 | one cumulated value per row |
| Electricity.CapacityCumFacts | src/deflex/postprocessing/electricity.py:101 | entry `i` is the capacity of the first `i + 1` rows in thousands, the last entry is the total, and with non-negative capacities it never decreases |
| Electricity.PlantTable.constructor | src/deflex/postprocessing/electricity.py:77 | the scenario's power plant table with its rows |
| Electricity.Quot | src/deflex/postprocessing/electricity.py:91 | a division is defined exactly for a non-zero divisor, and then quotient * divisor == dividend |
| Electricity.Derated | src/deflex/postprocessing/electricity.py:80-83 | each capacity multiplied by 1 - downtime factor, a missing factor read as 0.1, every other column kept |
| Electricity.NonZero | src/deflex/postprocessing/electricity.py:84 | exactly the plants whose capacity is not zero, in order |
| Electricity.PlantCosts | src/deflex/postprocessing/electricity.py:85-98 | the row of the plant itself, with its commodity values and costs and no cumulated capacity yet |
| Electricity.ScenarioCaps | src/deflex/postprocessing/electricity.py:101 | the capacities of the rows, in order |
| Electricity.WithScenarioCum | src/deflex/postprocessing/electricity.py:101 | each row with its cumulated capacity, nothing else changed |
| Electricity.Uncum | src/deflex/postprocessing/electricity.py:101 | each row without its cumulated capacity |
| Electricity.ScenarioRows | src/deflex/postprocessing/electricity.py:85-98 | one costed row per plant, in order |
| Electricity.MeritOrderFromScenario | src/deflex/postprocessing/electricity.py:29-102 | the scenario's own table is derated in place (when asked and possible) and the returned merit order is `ScenarioMeritOrder` of the original table |
| Electricity.ScenarioMeritOrderSorted | src/deflex/postprocessing/electricity.py:100 | the merit order is sorted by costs and then capacity |
| Electricity.SortedCostedRows | src/deflex/postprocessing/electricity.py:100 | sorting keeps the number of plants, and every sorted row is a costed plant without cumulated capacity |
| Electricity.ScenarioMeritOrderPermutation | src/deflex/postprocessing/electricity.py:84-101 | but for the cumulated capacity, the merit order holds exactly the costed plants, each as often as in the table |
| Electricity.ScenarioMeritOrderNonZero | src/deflex/postprocessing/electricity.py:84 | no plant of zero capacity is in the merit order |
| Electricity.ScenarioMeritOrder | src/deflex/postprocessing/electricity.py:84-101 | one row per plant of non-zero capacity, and row `i`'s cumulated capacity is the capacity of rows 0 to `i` in thousands |
| Electricity.DeratingDefault | src/deflex/postprocessing/electricity.py:80-83 | without derating the table is unchanged; with it, a plant without a downtime factor loses a tenth of its capacity |
| Electricity.Co2PriceRaisesCosts | src/deflex/postprocessing/electricity.py:91-98 | the co2 price adds price * emission / efficiency to a plant's total costs; the specific emission is emission / efficiency |
| Electricity.UnknownFuelSortsLast | src/deflex/postprocessing/electricity.py:87-100 | a plant whose fuel has no commodity row has undefined costs and sorts after every plant with defined costs |
| Electricity.LineInflows | src/deflex/postprocessing/electricity.py:105-112 | exactly the flows into an electricity bus from a node that is not a line |
| Electricity.IntoExcept | src/deflex/postprocessing/electricity.py:160-164 | exactly the flows into the component from another node than the electricity bus |
| Electricity.NonShortageInto | src/deflex/postprocessing/electricity.py:181-185 | exactly the flows into the fuel bus from a node that is not a shortage source |
| Electricity.Upsert | src/deflex/postprocessing/electricity.py:151-221 | `values.loc[label, ...] = ...` leaves the row in the table, keeps every row of another label, and keeps the labels distinct; a repeated label replaces the whole row (see Left out) |
| Electricity.WithFuel | src/deflex/postprocessing/electricity.py:222 | exactly the rows with a fuel, in order |
| Electricity.ResultCaps | src/deflex/postprocessing/electricity.py:224 | the capacities of the rows, in order |
| Electricity.WithResultCum | src/deflex/postprocessing/electricity.py:224 | each row with its cumulated capacity |
| Electricity.MeritOrderFromResults | src/deflex/postprocessing/electricity.py:115-225 | the loop over the inflows computes `ResultMeritOrder` |
| Electricity.ResultRows | src/deflex/postprocessing/electricity.py:144-221 | every row of the loop is labelled by the component of one of the inflows and has no cumulated capacity yet |
| Electricity.InflowRow | src/deflex/postprocessing/electricity.py:145-221 | a row that is computed carries the component's label and no cumulated capacity yet |
| Electricity.ResultRowsFailure | src/deflex/postprocessing/electricity.py:144-191 | an error in a prefix of the loop is the error of the whole loop |
| Electricity.InflowRowCases | src/deflex/postprocessing/electricity.py:155-212 | a component without nominal value counts with capacity 10000; one fed only from its electricity bus is "no fuel" with efficiency 1; more than one non-shortage source of its fuel bus raises |
| Electricity.FuelRowCosts | src/deflex/postprocessing/electricity.py:214-221 | a row with fuel has total costs out + (in + fuel) / efficiency |
| Electricity.ResultMeritOrderFuel | src/deflex/postprocessing/electricity.py:222 | every row of the merit order from results has a fuel |
| Electricity.ResultMeritOrderSorted | src/deflex/postprocessing/electricity.py:223 | the merit order from results is sorted by costs and capacity |
| Electricity.ResultMeritOrder | src/deflex/postprocessing/electricity.py:115-225 | fails exactly when there is no inflow (the `KeyError` on the missing "fuel" column) or some inflow's row fails, with that error; on success row `i`'s cumulated capacity is the capacity of rows 0 to `i` in thousands |
| Electricity.ResultMeritOrderPermutation | src/deflex/postprocessing/electricity.py:222-223 | the merit order without its cumulated capacity holds exactly the rows of the inflow loop that have a fuel, each as often as there |
| Electricity.ResultUncum | src/deflex/postprocessing/electricity.py:224 | each row without its cumulated capacity |
| Graph.Targets | src/deflex/postprocessing/graph.py:96 | exactly the targets that are not None |
| Graph.FetchNodesExact | src/deflex/postprocessing/graph.py:92-98 | the graph's nodes are exactly the nodes of the results, each once |
| Graph.FetchEdges | src/deflex/postprocessing/graph.py:74-90 | the loop over the results builds `EdgesOf` |
| Graph.EdgesOfExact | src/deflex/postprocessing/graph.py:78-90 | one edge per result entry with a target, in order, weighing the sum of its flow and coloured with the default |
| Graph.GroupKeyInjective | src/deflex/postprocessing/graph.py:131-135 | distinct node classes have distinct group keys |
| Graph.OfKey | src/deflex/postprocessing/graph.py:136-138 | exactly the nodes of the class with that key, in order |
| Graph.LastMatch | src/deflex/postprocessing/graph.py:255-259 | the last substring the text contains, or none exactly when it contains none |
| Graph.SubstringColorLastMatch | src/deflex/postprocessing/graph.py:252-259 | the last matching substring decides a node's colour; without a match it keeps the default |
| Graph.SubstringStep | src/deflex/postprocessing/graph.py:255-259 | one more substring: the nodes whose label string contains it take its colour |
| Graph.MaxOf | src/deflex/postprocessing/graph.py:306-307 | none exactly for no weights, otherwise one of them and at least every other |
| Graph.Weights | src/deflex/postprocessing/graph.py:307 | the edge weights, in order |
| Graph.Pow10 | src/deflex/postprocessing/graph.py:358 | `10 ** weight_exponent` is positive |
| Graph.Endpoints | src/deflex/postprocessing/graph.py:355-357 | every endpoint belongs to an edge |
| Graph.AddNodesKeys | src/deflex/postprocessing/graph.py:344-352 | the graph's node keys are exactly the node labels, and there are no edges yet |
| Graph.AddNodesAttrs | src/deflex/postprocessing/graph.py:345-352 | a node no later node shares a label with keeps its own label string, colours and class name |
| Graph.AddEndpointsKeys | src/deflex/postprocessing/graph.py:355-357 | `add_edge` adds both endpoints as nodes |
| Graph.AddEdgesEdgeKeys | src/deflex/postprocessing/graph.py:354-360 | the edge keys gained are the label pairs of the edges |
| Graph.AddEdgesNodeKeys | src/deflex/postprocessing/graph.py:354-360 | the node keys gain the endpoints of the edges |
| Graph.AddEdgesKeepsNodes | src/deflex/postprocessing/graph.py:354-360 | adding edges keeps the attributes of the nodes already there |
| Graph.AddEdgesAttrs | src/deflex/postprocessing/graph.py:355-360 | an edge whose key no later edge shares carries its scaled weight and its colour |
| Graph.AddEdgesNext | src/deflex/postprocessing/graph.py:354-360 | one more edge of the loop |
| Graph.BuildDiGraph | src/deflex/postprocessing/graph.py:344-360 | the two loops build `DiGraphOf` |
| Graph.DeflexGraph.constructor | src/deflex/postprocessing/graph.py:25-72 | the graph holds the results, the default colours, the fetched nodes and edges, no node colours and no cached graph |
| Graph.DeflexGraph.GroupNodesByType | src/deflex/postprocessing/graph.py:100-139 | one key per node class present, each listing exactly the nodes of that class |
| Graph.DeflexGraph.ColorNodesByType | src/deflex/postprocessing/graph.py:141-207 | every node gets its class's colour or the default, other colours stay, and the cached graph is dropped |
| Graph.DeflexGraph.ColorNodesBySubstring | src/deflex/postprocessing/graph.py:209-259 | every node is reset to the default and then takes the colour of each substring its label string contains, the last one winning; the cached graph is kept |
| Graph.DeflexGraph.ColorMatching | src/deflex/postprocessing/graph.py:255-259 | the nodes whose label string contains the substring take its colour, the others keep theirs |
| Graph.DeflexGraph.MaxEdgeWeight | src/deflex/postprocessing/graph.py:306-307 | the largest edge weight, none without edges |
| Graph.DeflexGraph.ColorEdgesByWeight | src/deflex/postprocessing/graph.py:261-304 | every edge is coloured by its normalised weight, the maximum defaulting to the largest weight; a negative maximum raises and changes nothing; the cached graph is dropped |
| Graph.DeflexGraph.CreateDiGraph | src/deflex/postprocessing/graph.py:309-361 | the cached graph becomes `DiGraphOf` the nodes, colours and edges |
| Graph.DeflexGraph.Get | src/deflex/postprocessing/graph.py:395-428 | the graph is rebuilt exactly when none is cached or an exponent is passed (a missing one builds with 0); otherwise the cached graph is returned |
| Graph.EndpointsAreNodes | src/deflex/postprocessing/graph.py:74-98 | every edge of a result joins two nodes of the result |
| Graph.ResultEdgeKeys | src/deflex/postprocessing/graph.py:78-90 | the edges of a result are keyed by the label pairs of its flows with a target |
| Graph.ResultGraph | src/deflex/postprocessing/graph.py:309-361 | the result graph's node keys are the labels of the result's nodes and its edge keys the label pairs of its flows with a target |
| Graph.ResultGraphNodeAttrs | src/deflex/postprocessing/graph.py:345-352 | a node whose label no other node of the result has is drawn with its own label string, colours and class name |
| Transmission.IdInverter | src/deflex/creator/transmission.py:44-46 | the second dash-separated part, a dash and the first; a name without a dash is the error |
| Transmission.IdInverterInvolution | src/deflex/creator/transmission.py:44-46 | on names with exactly one dash, inverting twice gives the name back |
| Transmission.InvertNames | src/deflex/creator/transmission.py:48 | every name is inverted in place, and the mapping fails exactly when some name has no dash |
| Transmission.ReversedFacts | src/deflex/creator/transmission.py:37-50 | the result succeeds exactly when every name has a dash; it holds the original rows first and then every row again under its inverted name |
| Transmission.ReversedTwice | src/deflex/creator/transmission.py:37-50 | inverting the reversed half once more gives back the original names |
| Transmission.LineFrame.constructor | src/deflex/creator/transmission.py:37 | the frame holds the caller's table |
| Transmission.AddReverseDirection | src/deflex/creator/transmission.py:37-50 | the result is the old table followed by the inverted one, and the caller's frame keeps its rows under the inverted names; on failure nothing changes |
| Transmission.DefaultLinesFacts | src/deflex/creator/transmission.py:104-108 | each line appears once, with infinite capacity, efficiency 1 and no distance column |
| Transmission.TransmissionDefault | src/deflex/creator/transmission.py:53-112 | the loop over the line names builds the default table, reversed when both directions are asked for |
| Transmission.Matching | src/deflex/creator/transmission.py:22-26 | exactly the grid rows of the pair in the status-quo distance scenario |
| Transmission.Capacities | src/deflex/creator/transmission.py:29 | the capacity column of the selected rows, in order |
| Transmission.GridCapacityIgnoresOthers | src/deflex/creator/transmission.py:20-34 | rows of other pairs or other scenarios, wherever they are, do not change a pair's capacity and distance |
| Transmission.GridCapacityFacts | src/deflex/creator/transmission.py:28-33 | the capacity is non-negative when the grid's are, and (0, 0) when nothing matches |
| Transmission.CombineFacts | src/deflex/creator/transmission.py:199-207 | a row is set exactly when one direction has no capacity, then with the other direction's capacity and distance; the rule is symmetric |
| Transmission.LineIds | src/deflex/creator/transmission.py:191-194 | a first region part that is not a number raises the `ValueError` before the dash is looked at; then a missing dash raises, then a bad second region; otherwise the two ids |
| Transmission.NoDashBadRegion | src/deflex/creator/transmission.py:192-193 | "DEXX", which has no dash, fails with the `ValueError` of the first `int(...)` |
| Transmission.TransmissionRenpass | src/deflex/creator/transmission.py:115-215 | the loop over the lines builds the renpass table, stopping at the first bad name |
| Transmission.RenpassRowsFailure | src/deflex/creator/transmission.py:191-194 | an error on one line is the error of the whole loop |
| Transmission.RenpassRowsFacts | src/deflex/creator/transmission.py:191-210 | one row per given line, in order, each the row the combination rule gives for that line |
| Transmission.WithEfficiency | src/deflex/creator/transmission.py:255 | the lines and the number of rows stay, every row gets the efficiency |
| Transmission.IndexOf | src/deflex/creator/transmission.py:275-277 | the position of a line name, or none when the line is missing |
| Transmission.LastIndexOf | src/deflex/creator/transmission.py:275-277 | the position found is that of the last row with the name |
| Transmission.Offshore | src/deflex/creator/transmission.py:267-270 | the lines whose names contain an offshore region get infinite capacity; every other row is unchanged |
| Transmission.ScenarioTransmission | src/deflex/creator/transmission.py:218-281 | fails exactly when building the base lines fails, with the same error; the base lines come first in the result; unless the de22 patch applies, every line on an offshore region has infinite capacity |
| Transmission.CopperplateLines | src/deflex/creator/transmission.py:243-263 | with copperplate or another map every line has infinite capacity and efficiency 1 |
| Transmission.RenpassChosen | src/deflex/creator/transmission.py:249-261 | without copperplate on de21 or de22 the renpass lines carry the configured efficiency, and a missing efficiency is an error |
| Transmission.PatchFollowsConfiguration | src/deflex/creator/transmission.py:272-277 | the de22 patch follows the configured map, not the `rmap` argument |
| Transmission.PatchedFacts | src/deflex/creator/transmission.py:275-277 | the DE22-DE01 line gets its fixed values and every other line keeps its row |
| Creator.Fuels | src/deflex/creator/scenario_creator.py:42-50 | the fuel of each heat row, in order |
| Creator.SetHeat | src/deflex/creator/scenario_creator.py:52-53 | a new fuel is appended with efficiency 0.85 and its source; a fuel already present keeps the number of rows |
| Creator.DefaultHeatRowsFacts | src/deflex/creator/scenario_creator.py:34-57 | one row per listed fuel with efficiency 0.85, its commodity as source and "DE" as region and as source region |
| Creator.DefaultDecentralisedHeat | src/deflex/creator/scenario_creator.py:41-57 | the loop over the fuels builds the default table |
| Creator.HeatTable | src/deflex/creator/scenario_creator.py:114-116 | the heat rows stored as a rectangular table with one row per heat row |
| Creator.StorageMediumFacts | src/deflex/creator/scenario_creator.py:85-86 | every storage ends up with a medium: an existing column is kept, otherwise every row gets "electricity" |
| Creator.ColumnIndex | src/deflex/creator/scenario_creator.py:122-125 | the position of a column, and none exactly when the column is missing |
| Creator.PopRows | src/deflex/creator/scenario_creator.py:122-124 | every row keeps its key and loses exactly the popped cell |
| Creator.PopKeepsColumn | src/deflex/creator/scenario_creator.py:122-125 | popping another column keeps the emission column and its numbers |
| Creator.PopRemoves | src/deflex/creator/scenario_creator.py:122-124 | once popped, no price column is left |
| Creator.MoveCo2PriceFacts | src/deflex/creator/scenario_creator.py:121-126 | moving the co2 price succeeds exactly when the price column exists, there is a row and the emission column is numeric; the price column is gone afterwards |
| Creator.DividedNumeric | src/deflex/creator/scenario_creator.py:125 | dividing a numeric column by 1000 never fails |
| Creator.Divided | src/deflex/creator/scenario_creator.py:125 | fails exactly when a cell of the column is text; otherwise every row keeps its key and other cells, and the cell of the column is divided by 1000 |
| Creator.MoveCo2Price | src/deflex/creator/scenario_creator.py:121-126 | a Series or a table without "co2_price" is a missing column, an empty table has no rows; on success the price is the first row's "co2_price" cell, that column is gone from the columns and every row, no row is lost and each "emission" cell is divided by 1000 |
| Creator.CreateScenario | src/deflex/creator/scenario_creator.py:60-161 | a failure to move the co2 price is the result's failure; a created scenario has the configuration as "info" and a "general" frame of column "value" whose first row is the co2 price |
| Creator.GeneralData | src/deflex/creator/scenario_creator.py:164-183 | fails exactly when the electricity demand series is missing, and otherwise the number of time steps is that series' length |
| Creator.ScenarioNameParts | src/deflex/creator/scenario_creator.py:172-182 | the name splits at its underscores back into "deflex", the year, the map and the two settings |
| Creator.OpsdVersion | src/deflex/creator/scenario_creator.py:77-79 | a given version is kept; without one the 2019-06-05 release is used exactly for years before 2015 |
| Creator.PlantStageFacts | src/deflex/creator/scenario_creator.py:83-118 | lines only for more than one region, CHP plants and decentralised heat only with heat, and every storage has a medium |
| Creator.CreateScenarioFails | src/deflex/creator/scenario_creator.py:60-161 | creation fails exactly when the co2 price cannot be moved or there is no electricity demand series |
| Creator.CreateScenarioTables | src/deflex/creator/scenario_creator.py:81-139 | a table the demand tables do not replace is the one set before it |
| Creator.CreateScenarioGeneral | src/deflex/creator/scenario_creator.py:155-191 | "general" holds the co2 price and then the year, the number of time steps and the name; "info" is the configuration |
| Creator.NonZeroColumns | src/deflex/creator/scenario_creator.py:211-218 | exactly the columns whose sum is not zero, in order |
| Creator.CleanSeries | src/deflex/creator/scenario_creator.py:205-218 | every table whose name contains "series" loses its zero-sum columns; the others stay |
| Creator.RowsOf | src/deflex/creator/scenario_creator.py:221-222 | exactly the plant rows under the key |
| Creator.DropKey | src/deflex/creator/scenario_creator.py:239 | exactly the rows under other keys are kept |
| Creator.IndexOfTable | src/deflex/creator/scenario_creator.py:207-208 | the position of a named table, and none exactly when it is missing |
| Creator.DropZeroPlantsDistinct | src/deflex/creator/scenario_creator.py:241-243 | with distinct keys, a plant table loses exactly its rows of capacity 0 |
| Creator.VolatileFilterUnique | src/deflex/creator/scenario_creator.py:220-239 | with one plant per key, the series kept are exactly those whose plant exists with a capacity other than 0 |
| Creator.UniqueRows | src/deflex/creator/scenario_creator.py:221-222 | under distinct keys a key matches at most one row, and exactly one when it is present |
| Creator.CleanSpecPasses | src/deflex/creator/scenario_creator.py:194-245 | with one plant per key the cleaning does not fail |
| Creator.CleanSpecSeries | src/deflex/creator/scenario_creator.py:205-218 | every other "series" table keeps exactly its non-zero columns, and the other tables are untouched |
| Creator.CleanSpecVolatile | src/deflex/creator/scenario_creator.py:210-239 | the volatile series keep exactly the non-zero columns whose plant has a capacity other than 0 |
| Creator.CleanSpecPlants | src/deflex/creator/scenario_creator.py:241-243 | the power plants lose exactly their rows of capacity 0 |
| Creator.TableCollection.constructor | src/deflex/creator/scenario_creator.py:194 | the collection holds the given tables |
| Creator.TableCollection.CleanTimeSeries | src/deflex/creator/scenario_creator.py:194-245 | the collection is replaced by the cleaned tables; the volatile plants are untouched |
| Creator.CleanTables | src/deflex/creator/scenario_creator.py:205-245 | the three loops and the table lookups compute the cleaning, stopping at the first missing table |
| Creator.CleanVolatile | src/deflex/creator/scenario_creator.py:210-239 | the first two loops |
| Creator.CleanSeriesFrames | src/deflex/creator/scenario_creator.py:210-218 | the first loop, table by table and column by column |
| Creator.DropZeroColumns | src/deflex/creator/scenario_creator.py:211-218 | `del` of every zero-sum column leaves the non-zero columns |
| Creator.FilterVolatile | src/deflex/creator/scenario_creator.py:220-239 | the loop over the volatile series |
| Creator.DropPlants | src/deflex/creator/scenario_creator.py:241-243 | the loop over the power plants, dropping by label from the current table |
| Creator.SharedLabelDropsBoth | src/deflex/creator/scenario_creator.py:241-243 | two plants under one label, one without capacity: both rows go, since `drop` removes a label |
| ScenarioIo.BasenameOfJoin | src/deflex/scenario_tools/scenario_io.py:208 | the base name of a joined path is the name that was joined |
| ScenarioIo.Visible | src/deflex/scenario_tools/scenario_io.py:54-55 | exactly the names that do not start with a dot |
| ScenarioIo.Matching | src/deflex/scenario_tools/scenario_io.py:57-59 | exactly the files whose last dot-suffix is the extension, joined to the directory |
| ScenarioIo.CollectDir | src/deflex/scenario_tools/scenario_io.py:52-59 | the loop over one directory's files appends the hits of that directory |
| ScenarioIo.JoinEndsWithLast | src/deflex/scenario_tools/scenario_io.py:58 | a joined list of at least two parts ends with the separator and the last part |
| ScenarioIo.DottedNameEnds | src/deflex/scenario_tools/scenario_io.py:56-58 | a name with a dot contains "." followed by its last suffix |
| ScenarioIo.ListTextHolds | src/deflex/scenario_tools/scenario_io.py:56 | text inside a listed name appears in the text of the list |
| ScenarioIo.DottedMatchOpensScan | src/deflex/scenario_tools/scenario_io.py:56-59 | once one visible file carries ".extension", every visible file with that last suffix is collected |
| ScenarioIo.DotlessNameAlone | src/deflex/scenario_tools/scenario_io.py:56-59 | a file named exactly like the extension is skipped when it is alone in its directory |
| ScenarioIo.DotlessNameWithSibling | src/deflex/scenario_tools/scenario_io.py:56-59 | the same file is collected next to a sibling "a." + extension |
| ScenarioIo.Items | src/deflex/scenario_tools/scenario_io.py:75 | a list gives its items; a bare string gives its characters one by one |
| ScenarioIo.KeepAccepted | src/deflex/scenario_tools/scenario_io.py:69-78 | exactly the dumps that this filter accepts |
| ScenarioIo.FilterDumpsExactly | src/deflex/scenario_tools/scenario_io.py:68-78 | a dump survives exactly when every filter accepts one of its values: AND across keys, OR within a key |
| ScenarioIo.SearchDumpedScenarios | src/deflex/scenario_tools/scenario_io.py:10-79 | fails with `NotFound` exactly when the file `os.path.join(path, name)` of some found name is not on the disk; otherwise a name is returned exactly when the walk finds it and the meta data of that file passes every filter |
| ScenarioIo.LoadDumps | src/deflex/scenario_tools/scenario_io.py:63-67 | loads every name from `os.path.join(path, name)` and keeps its meta data under the name, or fails with the first name whose file is missing |
| ScenarioIo.OsJoin | src/deflex/scenario_tools/scenario_io.py:64 | an absolute name stands on its own; any other name is joined after the path |
| ScenarioIo.WalkStartsWith | src/deflex/scenario_tools/scenario_io.py:52-59 | every name the walk finds starts with the path it walks from |
| ScenarioIo.AbsoluteSearchOpensFound | src/deflex/scenario_tools/scenario_io.py:52-67 | from an absolute path, the file opened for a found name is that name, so the search succeeds exactly when every found file is on the disk and keeps the names whose own meta data passes the filters |
| ScenarioIo.RelativeSearchJoinsTwice | src/deflex/scenario_tools/scenario_io.py:52-67 | from the relative path "out", the dump found at "out/a.dflx" is read from "out/out/a.dflx", so the search fails although the file exists |
| ScenarioIo.FilterExamples | src/deflex/scenario_tools/scenario_io.py:74 | the comparison ignores case, a missing key reads as "none", and a bare string matches only single characters |
| ScenarioIo.Ending | src/deflex/scenario_tools/scenario_io.py:139-143 | exactly the listed names with the suffix, joined to the path, when that kind is switched on |
| ScenarioIo.Excluding | src/deflex/scenario_tools/scenario_io.py:149-152 | exactly the paths whose base name lacks the excluded text, and all of them without one |
| Strings.SortStrings | src/deflex/scenario_tools/scenario_io.py:144-145 | `sorted` of a list of names: in Python string order and a permutation of the list |
| ScenarioIo.SearchInputScenarios | src/deflex/scenario_tools/scenario_io.py:82-153 | the listing loop, the sorting and the exclusion compute the input scenarios |
| ScenarioIo.InputScenariosExactly | src/deflex/scenario_tools/scenario_io.py:137-153 | a path is returned exactly when its name ends in "_csv" with csv on or in "xlsx" with xlsx on, and lacks the excluded text |
| ScenarioIo.InputScenariosOrder | src/deflex/scenario_tools/scenario_io.py:144-148 | the sorted csv directories come before the sorted xlsx files |
| ScenarioIo.RestoreScenario | src/deflex/scenario_tools/scenario_io.py:217-248 | a name whose last suffix is not "dflx" is refused; otherwise the stored dump is returned, or the file is missing |
| ScenarioIo.RestoreAcceptsDumpName | src/deflex/scenario/scenario.py:339-341 | the file name `dump` writes to is never refused for its suffix |
| ScenarioIo.FileType | src/deflex/scenario_tools/scenario_io.py:289-295 | a given type is kept; otherwise ".xlsx" in the last five characters means xlsx, then "csv" in the last four means csv |
| ScenarioIo.CreateScenario | src/deflex/scenario_tools/scenario_io.py:251-301 | without a path nothing is read; otherwise the reader follows the type |
| ScenarioIo.CsvDirectoryDetected | src/deflex/scenario_tools/scenario_io.py:290-300 | a "_csv" directory is read as csv |
| ScenarioIo.XlsxFileDetected | src/deflex/scenario_tools/scenario_io.py:290-298 | a ".xlsx" file is read as xlsx |
| ScenarioIo.UndottedXlsxNotRead | src/deflex/scenario_tools/scenario_io.py:290-295 | a name ending in "xlsx" without the dot is found by the search but read by nothing |
| ScenarioIo.RestoredFrom | src/deflex/scenario_tools/scenario_io.py:206-210 | succeeds exactly when the file restores; the results carry the file's base name and, when asked, the input data |
| ScenarioIo.RestoredAll | src/deflex/scenario_tools/scenario_io.py:205-210 | one result per file, in order; a failure is the failure of some file |
| ScenarioIo.Collapse | src/deflex/scenario_tools/scenario_io.py:212-213 | no results is an error, one result is returned alone, and two or more stay a list |
| ScenarioIo.RestoreResults | src/deflex/scenario_tools/scenario_io.py:166-214 | the loop over the files and the collapse compute the restored results; without input data it is also the older `restore_results` of src/deflex/postprocessing.py, lines 89-126 |
| ScenarioIo.RestoredAllStops | src/deflex/scenario_tools/scenario_io.py:205-206 | the first failing file is the failure of the whole list |
| ScenarioIo.RestoreResultsShape | src/deflex/scenario_tools/scenario_io.py:201-214 | one name gives one dictionary, two or more names a list of as many, and an empty list is an error |
| LegacyResults.SliceIndex | src/deflex/postprocessing.py:226-228 | the index where a Python slice by `k` splits the parts, within the list |
| LegacyResults.CutPartsPieces | src/deflex/postprocessing.py:225-228 | a negative cut keeps all but the last parts, a positive one drops the first parts, and a cut of every part leaves "" |
| LegacyResults.CutLastPart | src/deflex/postprocessing.py:226 | cutting the last part off and putting it back gives the subtag |
| LegacyResults.CutExamples | src/deflex/postprocessing.py:168-173 | "oil_038" cut by -1 is "oil", by 1 is "038", and "oil" cut by -1 is "" |
| LegacyResults.FirstBadField | src/deflex/postprocessing.py:223 | none exactly when every rule names a label field, and otherwise a named field the label lacks |
| LegacyResults.NoChangeKeeps | src/deflex/postprocessing.py:220-231 | without an applying rule the label's own subtag stays |
| LegacyResults.LastChangeWins | src/deflex/postprocessing.py:222-230 | otherwise the last applying rule decides the subtag |
| LegacyResults.CutsDoNotAddUp | src/deflex/postprocessing.py:225-226 | two applying cuts by one part cut one part, since each cut starts from the original subtag |
| LegacyResults.ChangeSubtag | src/deflex/postprocessing.py:220-231 | the loop over the rules computes the changed subtag or the error of the first unknown field |
| LegacyResults.FirstBadAt | src/deflex/postprocessing.py:223 | the first unknown field after known ones is the error |
| LegacyResults.FlowColumn | src/deflex/postprocessing.py:242-260 | the column carries the flow's values under the bus label, "out" with the target's category and tag or "in" with the source's |
| LegacyResults.BusColumns | src/deflex/postprocessing.py:235-260 | one column per flow at the bus that has a target, in result order |
| LegacyResults.KeyIndex | src/deflex/postprocessing.py:264 | the position of a key among the columns, and none exactly when it is missing |
| LegacyResults.Put | src/deflex/postprocessing.py:264-267 | writing a column keeps every column at the frame's length |
| LegacyResults.Fold | src/deflex/postprocessing.py:242-267 | writing the columns in turn keeps every column at the frame's length |
| LegacyResults.FoldAppend | src/deflex/postprocessing.py:233-267 | writing two lists of columns is writing the first, then the second |
| LegacyResults.PutDistinct | src/deflex/postprocessing.py:264-267 | writing a column keeps the keys apart |
| LegacyResults.PutHasKey | src/deflex/postprocessing.py:264-267 | after a write a key is a column exactly when it was one or is the written key |
| LegacyResults.PutValue | src/deflex/postprocessing.py:264-267 | the written values are added to the column of their key only |
| LegacyResults.KeyIndexDistinct | src/deflex/postprocessing.py:264 | with distinct keys, a key is found at its one position |
| LegacyResults.FoldDistinct | src/deflex/postprocessing.py:242-267 | the columns of the frame stay apart |
| LegacyResults.FoldHasKey | src/deflex/postprocessing.py:242-267 | a key is a column exactly when `data` or some flow has it |
| LegacyResults.FoldValue | src/deflex/postprocessing.py:264-267 | each column keeps its values plus those of the flows with its key, so colliding flows are added up |
| LegacyResults.PutTotal | src/deflex/postprocessing.py:264-267 | a write adds its values to the total, whether added to a column or appended |
| LegacyResults.FoldTotal | src/deflex/postprocessing.py:242-267 | the total after the writes is the total before plus that of the flows |
| LegacyResults.AllColumnsUniform | src/deflex/postprocessing.py:233-260 | every flow column has the length of the results |
| LegacyResults.RulesKeepValues | src/deflex/postprocessing.py:244-253 | the rules change keys only, so the flow values come in the same order whatever the rules |
| LegacyResults.LexTotal | src/deflex/postprocessing.py:269 | of two keys of equal length one is at most the other |
| LegacyResults.LexAtMostTransitive | src/deflex/postprocessing.py:269 | the key order is transitive |
| LegacyResults.InsertColumn | src/deflex/postprocessing.py:269 | inserting into a sorted frame keeps it sorted and adds exactly the column |
| LegacyResults.SortColumns | src/deflex/postprocessing.py:269 | the same columns, sorted by key |
| LegacyResults.SortTotal | src/deflex/postprocessing.py:269 | sorting keeps the total |
| LegacyResults.NextBusInto | src/deflex/postprocessing.py:242-267 | one bus of the outer loop either raises the error the whole view raises, or extends the frame to the next bus as the view demands |
| LegacyResults.BusInto | src/deflex/postprocessing.py:242-267 | the inner loop writes the flows of a bus into the frame, or stops at the first unknown field |
| LegacyResults.ErrorIsFailure | src/deflex/postprocessing.py:220-244 | an error on one bus is the error of the whole view |
| LegacyResults.ReachedAll | src/deflex/postprocessing.py:233-269 | after all buses the sorted frame is the view |
| LegacyResults.ReshapeBusView | src/deflex/postprocessing.py:143-269 | the loops over the buses and their flows compute the view |
| LegacyResults.NoFlowsNoColumns | src/deflex/postprocessing.py:235-239 | buses without flows add no columns |
| LegacyResults.ReshapeKeepsTotal | src/deflex/postprocessing.py:143-269 | the view's total at every step is that of `data` plus every flow at the buses, whatever the aggregation rules |
| LegacyResults.ReshapeExtendsData | src/deflex/postprocessing.py:264-269 | a column of `data` that no flow has is kept as it was, and every flow's key is a column of the view |
| LegacyResults.SourcesOfClass | src/deflex/postprocessing.py:130-132 | exactly the source nodes of the class among the result keys |
| LegacyResults.ApplyFilters | src/deflex/postprocessing.py:134-139 | the nodes left are among the nodes given |
| LegacyResults.FiltersExactly | src/deflex/postprocessing.py:129-140 | with known fields a node is found exactly when every filter holds its field's value; a single value acts as a one-element list |
| LegacyResults.SearchNodes | src/deflex/postprocessing.py:129-140 | every node found is a source of the class in the results; the only failure names a filter field that labels do not have; with known fields the search succeeds and a node is found exactly when it is a source of the class and every filter holds its field's value |
| LegacyResults.UnknownFieldFails | src/deflex/postprocessing.py:137-139 | an unknown field raises once some node is left to test |
| LegacyResults.Survivors | src/deflex/postprocessing.py:80-85 | exactly the files that every filter accepts, in order |
| LegacyResults.Kept | src/deflex/postprocessing.py:82-85 | exactly the files that one filter accepts |
| LegacyResults.FilterResults | src/deflex/postprocessing.py:80-86 | the pop loop leaves the files that survive the filters |
| LegacyResults.SearchResults | src/deflex/postprocessing.py:60-86 | fails with `NotFound` exactly when the file `os.path.join(path, name)` of some found name is not on the disk; otherwise a name is returned exactly when the walk finds it and every filter accepts the meta data of that file |
| LegacyResults.LegacyFilterExamples | src/deflex/postprocessing.py:84 | the comparison is exact, a bare string accepts any part of it, and a missing key reads as "None" |
| LegacyNodes.CommodityNameTwice | src/deflex/nodes.py:90 | a fuel name read with "_" as " " has no "_" left, so reading it again changes nothing |
| LegacyNodes.NoUnderscoreName | src/deflex/nodes.py:90 | a fuel without "_" is its own commodity name |
| LegacyNodes.FindCommodity | src/deflex/nodes.py:91 | the row of "commodity sources" for the region and fuel, or none exactly when there is no such row |
| LegacyNodes.FuelFlow | src/deflex/nodes.py:98-126 | costs are the priced emission plus the fuel costs; a finite annual limit becomes the nominal value with summed_max 1, and without one the flow is unbounded |
| LegacyNodes.FuelBusWithSource | src/deflex/nodes.py:76-126 | a missing table or row is the error; otherwise nothing is replaced, the fuel bus exists, and a missing fuel source is added with its flow |
| LegacyNodes.FuelBusWithSourceTwice | src/deflex/nodes.py:93-117 | once the call went through, calling it again changes nothing |
| LegacyNodes.EnsureElectricityBuses | src/deflex/nodes.py:129-133 | every listed region has its electricity bus, nothing is replaced, and nothing else is added |
| LegacyNodes.FuelPairsCovered | src/deflex/nodes.py:374-379 | after the loop every (fuel, source region) pair has a fuel bus and nothing was replaced |
| LegacyNodes.CheckInOutCovers | src/deflex/nodes.py:373-383 | every pair of the table has its fuel bus and every region its electricity bus, and nothing was replaced |
| LegacyNodes.PowerPlantRule | src/deflex/nodes.py:386-442 | a plant without positive capacity adds nothing; otherwise both buses must exist, the fuel bus checked first, and the transformer is added under its label |
| LegacyNodes.PlantPairs | src/deflex/nodes.py:374 | the (fuel, source region) pair of each plant row, in order |
| LegacyNodes.PlantFindsItsBuses | src/deflex/nodes.py:386-442 | after `check_in_out_buses`, a plant whose fuel has no "_" finds both its buses and can only fail on a label already taken |
| LegacyNodes.UnderscoreFuelNotWired | src/deflex/nodes.py:373-383 | a plant whose fuel holds "_" looks for a bus that `check_in_out_buses` created under another name, and fails |
| LegacyNodes.ChpSummedMax | src/deflex/nodes.py:445-509 | none for a zero heat efficiency, and otherwise the heat limit over the heat capacity |
| LegacyNodes.ChpFuelLimit | src/deflex/nodes.py:445-509 | the fuel flow allows exactly the fuel the heat limit needs |
| LegacyNodes.AddChp | src/deflex/nodes.py:445-509 | a row without CHP adds nothing; the fuel, electricity and district heat buses must exist, and the CHP transformer is added |
| LegacyNodes.AddHeatPlant | src/deflex/nodes.py:445-509 | a row without heat plant adds nothing; the fuel and district heat buses must exist, and the heat plant is added |
| LegacyNodes.ChpRule | src/deflex/nodes.py:445-509 | the CHP, then the heat plant of a row: a missing fuel bus raises first, then a missing electricity bus (CHP) and a missing district heat bus; the row goes through exactly when these buses are there and the new labels are free; the keys afterwards are the old ones plus the CHP and the heat plant of positive capacity, and nothing is replaced |
| LegacyNodes.ChpPairs | src/deflex/nodes.py:374 | the (fuel, source region) pair of each CHP row, in order |
| LegacyNodes.SameFuelChpsCollide | src/deflex/nodes.py:445-509 | two CHP rows of one region burning the same fuel make the table raise, since the label leaves out the plant's name |
| LegacyNodes.LineDirectionRule | src/deflex/nodes.py:312-370 | both buses of a direction must exist, the in-bus checked first; nothing is replaced |
| LegacyNodes.LineRule | src/deflex/nodes.py:312-370 | a name that does not split into two regions is the error; otherwise both directions are added |
| LegacyNodes.HeatSourceRule | src/deflex/nodes.py:178-239 | the electricity bus is created when missing; a commodity bus is created with its source when missing |
| LegacyNodes.DecentralisedHeatRule | src/deflex/nodes.py:178-239 | a missing heating system is the error; otherwise the source bus (with its fuel source when the bus was missing), a heat bus, the heating transformer and the demand sink are added without replacing anything, and no other key |
| LegacyNodes.ElectricityDemandRule | src/deflex/nodes.py:242-274 | a column with no positive total adds nothing; otherwise the electricity bus and a demand sink are added |
| LegacyNodes.DistrictHeatingRule | src/deflex/nodes.py:277-309 | a column with no positive total adds nothing; otherwise the district heat bus and a demand sink labelled by the region are added |
| LegacyNodes.VolatileRule | src/deflex/nodes.py:136-175 | a missing feed-in series is an error exactly for a positive capacity; a taken source label raises when a source is due; on success the electricity bus exists, the source is added exactly when capacity times the series' sum is positive, and no other key is added |
| LegacyNodes.StorageRule | src/deflex/nodes.py:512-546 | the electricity bus must exist, and the storage is added under its label |
| LegacyNodes.MobilityRule | src/deflex/nodes.py:549-599 | a missing "mobility" row is the error; a column with no positive total adds nothing; otherwise a taken process label raises, then a taken demand label; with both free, exactly both buses, the fuel process and the demand sink are added |
| LegacyNodes.BusKeys | src/deflex/nodes.py:613 | exactly the keys whose category contains "bus", in insertion order |
| LegacyNodes.ShortageExcessRule | src/deflex/nodes.py:614-623 | an excess sink fed by the bus and a shortage source feeding it are added without replacing anything |
| LegacyNodes.ShortageExcessFold | src/deflex/nodes.py:614-623 | after the loop every bus key has its excess sink and shortage source |
| LegacyNodes.ShortageExcessCoversBusKeys | src/deflex/nodes.py:602-623 | every bus key gets an excess sink and a shortage source at costs 900, and no entry changes |
| LegacyNodes.Advance | src/deflex/nodes.py:25-73 | a stage that raises ends the whole build with its exception; a stage that goes through hands its registry to the next stage |
| LegacyNodes.BuildFromEnd | src/deflex/nodes.py:71-73 | after the last stage, the build adds shortage and excess for every bus |
| LegacyBuilder.CreateFuelBusWithSource | src/deflex/nodes.py:76-126 | the dictionary follows `FuelBusWithSource` and nothing is replaced; a missing co2 price raises after the fuel bus was created, and a missing commodity row changes nothing |
| LegacyBuilder.CreateElectricityBuses | src/deflex/nodes.py:129-133 | the dictionary gains exactly the missing electricity buses of the regions |
| LegacyBuilder.CheckFuelPair | src/deflex/nodes.py:375-379 | one pair of the loop follows its rule without replacing anything |
| LegacyBuilder.CheckInOutBusesOf | src/deflex/nodes.py:373-383 | the two loops leave the dictionary `CheckInOutBuses` computes, or report its exception |
| LegacyBuilder.AddPowerPlantRow | src/deflex/nodes.py:386-442 | one plant row follows its rule without replacing anything |
| LegacyBuilder.AddPowerPlants | src/deflex/nodes.py:386-442 | the dictionary ends as the table of power plants computes, or the first exception is reported |
| LegacyBuilder.AddChpPart | src/deflex/nodes.py:445-509 | the CHP part of a row follows its rule without replacing anything |
| LegacyBuilder.AddHeatPlantPart | src/deflex/nodes.py:445-509 | the heat-plant part of a row follows its rule without replacing anything |
| LegacyBuilder.AddChpRow | src/deflex/nodes.py:445-509 | one row adds its CHP and then its heat plant |
| LegacyBuilder.AddHeatAndChpPlants | src/deflex/nodes.py:445-509 | the dictionary ends as the CHP table computes, or the first exception is reported |
| LegacyBuilder.AddLineDirection | src/deflex/nodes.py:312-370 | one direction of a line follows its rule without replacing anything |
| LegacyBuilder.AddLineRow | src/deflex/nodes.py:312-370 | one line adds both directions |
| LegacyBuilder.AddTransmissionLines | src/deflex/nodes.py:312-370 | the dictionary ends as the line table computes, or the first exception is reported |
| LegacyBuilder.AddHeatSource | src/deflex/nodes.py:178-239 | the source bus of a heating system follows its rule without replacing anything |
| LegacyBuilder.AddDecentralisedHeatColumn | src/deflex/nodes.py:178-239 | one heating system follows its rule without replacing anything |
| LegacyBuilder.AddDecentralisedHeatingSystems | src/deflex/nodes.py:178-239 | the dictionary ends as the heat demand columns compute, or the first exception is reported |
| LegacyBuilder.AddElectricityDemandColumn | src/deflex/nodes.py:242-274 | one demand column follows its rule without replacing anything |
| LegacyBuilder.AddElectricityDemand | src/deflex/nodes.py:242-274 | the dictionary ends as the demand columns compute, or the first exception is reported |
| LegacyBuilder.AddDistrictHeatingColumn | src/deflex/nodes.py:277-309 | one district heating column follows its rule without replacing anything |
| LegacyBuilder.AddDistrictHeatingDemand | src/deflex/nodes.py:277-309 | the dictionary ends as the district heating columns compute, or the first exception is reported |
| LegacyBuilder.AddVolatileRow | src/deflex/nodes.py:136-175 | one volatile plant follows its rule without replacing anything |
| LegacyBuilder.AddVolatileSources | src/deflex/nodes.py:136-175 | the dictionary ends as the volatile table computes, or the first exception is reported |
| LegacyBuilder.AddStorageRow | src/deflex/nodes.py:512-546 | one storage follows its rule without replacing anything |
| LegacyBuilder.AddElectricityStorages | src/deflex/nodes.py:512-546 | the dictionary ends as the storage table computes, or the first exception is reported |
| LegacyBuilder.AddMobilityColumn | src/deflex/nodes.py:549-599 | one mobility column follows its rule without replacing anything |
| LegacyBuilder.AddMobility | src/deflex/nodes.py:549-599 | the dictionary ends as the mobility columns compute, or the first exception is reported |
| LegacyBuilder.AddShortageExcessBus | src/deflex/nodes.py:614-623 | one bus key gets its excess sink and shortage source |
| LegacyBuilder.AddShortageExcess | src/deflex/nodes.py:602-623 | the bus keys collected before the loop each get their excess sink and shortage source |
| LegacyBuilder.RunStages | src/deflex/nodes.py:38-69 | the stage loop fails with the build's first exception, and when it goes through it leaves the registry from which the build only adds shortage and excess |
| LegacyBuilder.RunStage | src/deflex/nodes.py:38-69 | one stage runs its `add_*` call when its tables are present |
| LegacyBuilder.CreateSolphNodesFromData | src/deflex/nodes.py:25-73 | the stages in order, stopping at the first exception, then shortage and excess, leave the dictionary `BuildSpec` computes |
| LegacyScenario.MetaYear | src/deflex/scenario_tools.py:86 | a missing "meta" table is the error; a "meta" frame as the loaders read it (src/deflex/scenario_tools.py:119-146), one "year" row of one cell, gives that cell's integer, and so does a one-entry Series; a frame without a "year" row is a missing entry; any year read is the integer of the one "year" cell |
| LegacyScenario.YearAfter | src/deflex/scenario_tools.py:85-86 | a year that was given is kept; otherwise the year of "meta", or its error |
| LegacyScenario.RequestedStepsOrder | src/deflex/scenario_tools.py:88-104 | an explicit count wins over debug mode, debug mode gives 3, and otherwise a leap year asks for 8784 hours and any other year for 8760; it fails exactly for a non-numeric year with neither given |
| LegacyScenario.TimeStepsCapped | src/deflex/scenario_tools.py:106-111 | the steps never exceed the rows of the demand series, and are the requested count whenever that series has enough rows or is absent |
| LegacyScenario.InitialiseFacts | src/deflex/scenario_tools.py:78-117 | a missing year without "meta" fails, a missing year is read from a "meta" frame in the loaders' form, a non-numeric year fails, and a created system starts in the scenario's year with the capped number of hourly steps |
| LegacyScenario.NullColumnsExactly | src/deflex/scenario_tools.py:183-186 | the list names exactly the columns that hold an empty cell |
| LegacyScenario.CheckTableRaisesIff | src/deflex/scenario_tools.py:171-189 | `check_table` fails exactly when some column holds an empty cell, and the error then names at least one column |
| LegacyScenario.Scenario.constructor | src/deflex/scenario_tools.py:63-76 | the scenario holds its year, its debug flag and its table collection |
| LegacyScenario.Scenario.InitialiseEnergySystem | src/deflex/scenario_tools.py:78-117 | the result is `InitialiseSpec`; a missing year is read from "meta" and kept even when a later step raises, and nothing else changes |
| LegacyScenario.Scenario.CheckTable | src/deflex/scenario_tools.py:171-189 | the loop over the columns computes `CheckTableSpec` |
| LegacyToolNodes.SwapLevels | src/deflex/scenario_tools.py:656 | the two column levels change places and the columns keep their order |
| LegacyToolNodes.SwapLevelsTwice | src/deflex/scenario_tools.py:656 | swapping twice restores the frame |
| LegacyToolNodes.Under | src/deflex/scenario_tools.py:657 | exactly the columns under the top-level key, in frame order |
| LegacyToolNodes.ColumnValues | src/deflex/scenario_tools.py:635 | the values of the column with both keys, or none exactly when there is no such column |
| LegacyToolNodes.UnderscoredNames | src/deflex/scenario_tools.py:502-509 | writing " " as "_" is idempotent, and both spellings read back to the same commodity name |
| LegacyToolNodes.RegionRows | src/deflex/scenario_tools.py:583 | exactly the rows of the region |
| LegacyToolNodes.GermanCommodities | src/deflex/scenario_tools.py:583 | a missing table or a table without German rows is the error; otherwise exactly the German rows |
| LegacyToolNodes.FindFuel | src/deflex/scenario_tools.py:509 | the row of the fuel, or none exactly when there is no such row |
| LegacyToolNodes.FuelSourceFlow | src/deflex/scenario_tools.py:508-524 | costs are the emission priced at the row's co2 price (0 without one) plus the fuel costs, with no bound on the amount |
| LegacyToolNodes.FuelBusWithSource | src/deflex/scenario_tools.py:488-524 | fails exactly when the fuel has no row; otherwise the bus exists, the source is added when missing, and nothing is replaced |
| LegacyToolNodes.FuelSpellingsAgree | src/deflex/scenario_tools.py:502-509 | a fuel written with " " and with "_" reaches the same bus, row and source |
| LegacyToolNodes.FuelBusWithSourceTwice | src/deflex/scenario_tools.py:503-515 | once the call went through, calling it again changes nothing |
| LegacyToolNodes.DemandRegions | src/deflex/scenario_tools.py:586 | "DE_demand" and every extra region, and nothing else |
| LegacyToolNodes.DataName | src/deflex/scenario_tools.py:589-594 | the demand region itself when the heating table lists its region name, "DE_demand" otherwise |
| LegacyToolNodes.HeatRowsOf | src/deflex/scenario_tools.py:596 | exactly the heating rows under the name |
| LegacyToolNodes.HeatFuels | src/deflex/scenario_tools.py:596 | exactly the systems whose fuel has a column under the demand region |
| LegacyToolNodes.HeatSourceRule | src/deflex/scenario_tools.py:598-605 | an existing source bus changes nothing; otherwise the outcome is create_fuel_bus_with_source's (the bus with its source), and the keys afterwards are the old ones plus the bus and its source |
| LegacyToolNodes.HeatSystemRule | src/deflex/scenario_tools.py:597-639 | a missing commodity row or a heat bus already there fails; otherwise the heat bus, transformer and demand sink are added without replacing anything, together with the source bus and its source when the bus was missing, and no other key |
| LegacyToolNodes.DemandRegionRule | src/deflex/scenario_tools.py:588-639 | a demand region whose rows are missing, or that is no key of the demand series, is the error; on success every listed fuel with a column has its heat bus, transformer and demand sink, nothing is replaced, and every new key belongs to one of those heating systems |
| LegacyToolNodes.HeatSystemsFold | src/deflex/scenario_tools.py:597-639 | the loop over the fuels of a demand region, when it goes through, holds every system's heat bus, transformer and demand sink, replaces nothing and adds only those systems' labels |
| LegacyToolNodes.SameHeatFuelCollides | src/deflex/scenario_tools.py:608-611 | two systems of one fuel in one region collide on the heat bus |
| LegacyToolNodes.ElectricityDemandColumnRule | src/deflex/scenario_tools.py:658-671 | a column with no positive total adds nothing; otherwise the electricity bus and a demand sink are added |
| LegacyToolNodes.ElectricityLoadSpec | src/deflex/scenario_tools.py:657 | a frame without "electrical_load" is the error |
| LegacyToolNodes.ElectricityDemandSpec | src/deflex/scenario_tools.py:642-671 | a missing demand series or one without "electrical_load" is the error |
| LegacyToolNodes.DistrictHeatingSpec | src/deflex/scenario_tools.py:674-703 | a missing demand series is the error, and without "district heating" nothing is added |
| LegacyToolNodes.ToolPlantName | src/deflex/scenario_tools.py:880-884 | the name has no space and no dot |
| LegacyToolNodes.DeleteCharKeeps | src/deflex/scenario_tools.py:883 | deleting a character brings in no other |
| LegacyToolNodes.PlantCapacity | src/deflex/scenario_tools.py:849-857 | the capacity is reduced by the downtime factor when there is one |
| LegacyToolNodes.PlantNode | src/deflex/scenario_tools.py:860-897 | German fuel in, the region's electricity out at the plant's efficiency, with the reduced capacity as nominal value |
| LegacyToolNodes.PlantRule | src/deflex/scenario_tools.py:839-897 | a plant without positive capacity adds nothing; a NaN downtime factor or NaN variable costs raise; then the German fuel bus and the electricity bus must exist |
| LegacyToolNodes.ChpAsWritten | src/deflex/scenario_tools.py:906-948 | the CHP and heat plant labels carry the fuel with "_" for " ", and the fuel bus is the German one |
| LegacyToolNodes.FuelBusRule | src/deflex/scenario_tools.py:820-837 | the fuel bus of an extra region is created in that region, and in Germany otherwise; nothing is replaced |
| LegacyToolNodes.PlantsIn | src/deflex/scenario_tools.py:811-813 | exactly the plants of the region, in table order |
| LegacyToolNodes.ChpIn | src/deflex/scenario_tools.py:804-806 | exactly the CHP rows of the region |
| LegacyToolNodes.PlantFuels | src/deflex/scenario_tools.py:812 | the fuel of each plant row, in order |
| LegacyToolNodes.ChpFuels | src/deflex/scenario_tools.py:805 | the fuel of each CHP row, in order |
| LegacyToolNodes.RegionFuels | src/deflex/scenario_tools.py:804-818 | every fuel of the region's plants and CHP rows is included |
| LegacyToolNodes.PlantRegionsOf | src/deflex/scenario_tools.py:793 | the region of each plant row, in order |
| LegacyToolNodes.ChpRegionsOf | src/deflex/scenario_tools.py:787 | the region of each CHP row, in order |
| LegacyToolNodes.PowerAndHeatPlantsSpec | src/deflex/scenario_tools.py:784-791 | a missing "transformer" or "commodity_source" table is the error |
| LegacyToolNodes.FoldRowsKeepsOut | src/deflex/scenario_tools.py:797-960 | a loop whose steps never add a key leaves it out |
| LegacyToolNodes.FoldRowsNeedsKey | src/deflex/scenario_tools.py:797-960 | such a loop fails at a row that needs the key |
| LegacyToolNodes.ExtraRegionPlantNeedsGermanBus | src/deflex/scenario_tools.py:820-895 | an extra region's fuel buses are created in the region, but its plants look for the German bus and raise without it |
| LegacyToolNodes.FuelBusesCovered | src/deflex/scenario_tools.py:820-837 | after the fuel loop every fuel has its bus and nothing was replaced |
| LegacyToolNodes.GermanRegionPlantsFindFuel | src/deflex/scenario_tools.py:830-894 | in a region that is not an extra region, every plant finds its German fuel bus |
| LegacyToolNodes.SwapStorageLevels | src/deflex/scenario_tools.py:976 | the two index levels change places, row by row |
| LegacyToolNodes.SwapStorageLevelsTwice | src/deflex/scenario_tools.py:976 | swapping twice restores the index |
| LegacyToolNodes.PumpedHydro | src/deflex/scenario_tools.py:977-980 | exactly the "phes" rows, read as storages |
| LegacyToolNodes.PumpedHydroSpec | src/deflex/scenario_tools.py:977 | without "phes" rows the lookup raises |
| LegacyToolNodes.StoragesSpec | src/deflex/scenario_tools.py:963-992 | a missing table, or one without "phes", is the error |
| LegacyToolNodes.PhesWiring | src/deflex/scenario_tools.py:978-992 | every pumped hydro storage is labelled "phes" in its region, sits at that region's electricity bus and has loss rate 0 |
| LegacyToolNodes.MobilitySpec | src/deflex/scenario_tools.py:1007-1008 | "mobility_series" is read before "mobility", and each missing table is the error |
| LegacyToolNodes.PowerLinesSpec | src/deflex/scenario_tools.py:719 | a missing "transmission" table is the error |
| LegacyToolNodes.VolatileSourcesSpec | src/deflex/scenario_tools.py:527-567 | a missing "volatile_source" table is the error |
| LegacyToolNodes.StageTables | src/deflex/scenario_tools.py:642-992 | only the electricity demand and the storages stages change the tables |
| LegacyToolNodes.BuildFromStage | src/deflex/scenario_tools.py:440-485 | a stage that went through hands its registry and tables on |
| LegacyToolNodes.BuildFromFails | src/deflex/scenario_tools.py:440-485 | a stage that raises ends the build with its exception, keeping the tables it changed |
| LegacyToolNodes.BuildFromTables | src/deflex/scenario_tools.py:440-485 | a build that goes through leaves the tables the stages change |
| LegacyToolNodes.TablesFromStart | src/deflex/scenario_tools.py:440-485 | from the start, the tables end with both swaps done |
| LegacyToolNodes.BuildSwapsTables | src/deflex/scenario_tools.py:440-485 | a successful build swaps the demand series' columns and the storages' index and changes no other table; swapping twice restores them |
| LegacyToolNodes.BuildEndsWithShortageExcess | src/deflex/scenario_tools.py:1048-1069 | every bus key gets an excess sink and a shortage source at costs 900 |
| LegacyTools.TableCollection.constructor | src/deflex/scenario_tools.py:65 | the collection holds the given tables |
| LegacyTools.TableCollection.SwapDemandSeriesLevels | src/deflex/scenario_tools.py:655-656 | only the demand series changes, its column levels swapped |
| LegacyTools.TableCollection.SwapStorageIndexLevels | src/deflex/scenario_tools.py:975-976 | only the storages change, their index levels swapped |
| LegacyTools.CreateFuelBusWithSource | src/deflex/scenario_tools.py:488-524 | the dictionary follows `FuelBusWithSource` without replacing anything; a missing German row raises after the fuel bus was created |
| LegacyTools.AddHeatSource | src/deflex/scenario_tools.py:598-605 | the source bus of a heating system follows its rule without replacing anything |
| LegacyTools.AddHeatSystem | src/deflex/scenario_tools.py:597-639 | one heating system follows its rule without replacing anything |
| LegacyTools.AddDemandRegion | src/deflex/scenario_tools.py:588-639 | one demand region adds its heating systems, fuel by fuel, or reports the first exception |
| LegacyTools.AddDecentralisedHeatingSystems | src/deflex/scenario_tools.py:569-639 | the dictionary ends as `DecentralisedHeatSpec` computes, or its exception is reported |
| LegacyTools.AddElectricityLoad | src/deflex/scenario_tools.py:657-671 | the loop over the "electrical_load" columns computes `ElectricityLoadSpec` |
| LegacyTools.AddElectricityDemand | src/deflex/scenario_tools.py:642-671 | the demand series' levels are swapped in the collection, then the dictionary ends as `ElectricityDemandSpec` computes |
| LegacyTools.AddDistrictHeatingSystems | src/deflex/scenario_tools.py:674-703 | the dictionary ends as `DistrictHeatingSpec` computes, or its exception is reported |
| LegacyTools.AddFuelBus | src/deflex/scenario_tools.py:820-837 | one fuel of a region follows its rule |
| LegacyTools.AddRegionFuels | src/deflex/scenario_tools.py:820-837 | the loop over the fuels of a region adds their buses |
| LegacyTools.AddPlantRow | src/deflex/scenario_tools.py:839-897 | one power plant follows its rule |
| LegacyTools.AddRegionPowerPlants | src/deflex/scenario_tools.py:839-897 | the loop over the plants of a region |
| LegacyTools.AddRegionChps | src/deflex/scenario_tools.py:899-960 | the loop over the CHP and heat plants of a region |
| LegacyTools.AddRegionPlants | src/deflex/scenario_tools.py:797-960 | one region's heat bus, fuel buses, power plants and CHP plants, as `RegionRule` computes |
| LegacyTools.AddPowerAndHeatPlants | src/deflex/scenario_tools.py:771-960 | the dictionary ends as `PowerAndHeatPlantsSpec` computes, or its exception is reported |
| LegacyTools.AddPumpedHydro | src/deflex/scenario_tools.py:977-992 | the loop over the pumped hydro storages computes `PumpedHydroSpec` |
| LegacyTools.AddStorages | src/deflex/scenario_tools.py:963-992 | the storages' index levels are swapped in the collection, then the dictionary ends as `StoragesSpec` computes |
| LegacyTools.AddMobility | src/deflex/scenario_tools.py:995-1045 | the dictionary ends as `MobilitySpec` computes, or its exception is reported |
| LegacyTools.AddTransmissionLines | src/deflex/scenario_tools.py:706-768 | the dictionary ends as `PowerLinesSpec` computes, or its exception is reported |
| LegacyTools.AddVolatileSources | src/deflex/scenario_tools.py:527-567 | the dictionary ends as `VolatileSourcesSpec` computes, or its exception is reported |
| LegacyTools.RunStage | src/deflex/scenario_tools.py:452-481 | one stage runs its `add_*` call when its table is present, and leaves the tables as `StageTables` says |
| LegacyTools.CreateNodes | src/deflex/scenario_tools.py:440-485 | a fresh dictionary ends as `BuildSpec` computes, and the collection is left as the stages that ran left it |

## Left out

- Building and solving the LP is left out: `solph.Model`, `receive_duals`, `solve`, `compute` (and so its request for duals), `compute_debug` and the oemof and Pyomo result processing. These belong to external libraries, so the model stops at the node records the builders store.
- The enumeration of simple cycles (networkx `simple_cycles`) belongs to an external library. The list of cycles is an input to `Analyses.Cycles`.
- Reading and writing files is not modelled: xlsx and csv tables, dill and pickle dumps, `table2es` and `add_nodes_to_es`. Directory trees, listings and stored dumps are parameters of the `ScenarioIo` functions.
- Downloads, plotting, matplotlib colour maps, geometry (`src/deflex/geometries.py` and the offshore detection), configuration and logging all reach outside the program. Colour maps, the offshore regions and the configured values are parameters, and logging has no effect on any result.
- Data generation through scenario_builder, reegis and reegis_tools (`create_basic_reegis_scenario`, the tables `create_scenario` takes from them) and orchestration (`model_multi_scenarios`, console scripts) call code that is not part of this model. The tables they produce are inputs to `Creator.CreateScenario`.
- The mobility step of `create_scenario` downloads a file and calls scenario_builder, so `Creator.CreateScenario` does not model it.
- `results2scenario` of `src/deflex/scenario_tools.py` and the older copies in `src/deflex/results.py`, `src/deflex/transmission.py` and `src/deflex/analyses.py` only repeat modelled code or reach files and the network.
- The deprecated `search_results` of `src/deflex/scenario_tools/scenario_io.py` only issues a `FutureWarning` and returns `None`, so it is not modelled.
- The `capacity_calc` column of the renpass grid data (a product with √3) is an input column of `Transmission.TransmissionRenpass`, because the model has no irrational numbers.
- Floating point is modelled as exact `real` arithmetic. Rounding exists only where the source rounds (`round(digits)` in the cycle analyses). NaN is modelled only as an empty table cell or as the `None` of a quotient with a zero divisor.
- `pd.date_range` is modelled only by its length and its hourly steps.
- The frames of the results must all have the number of time steps of the result (`ValidResults`). pandas' alignment of series with different indexes is not modelled.
- Where the source iterates over a Python set (`list(set(buses))` in the bus views, `list(set(nodes))` in the graph, the regions and fuels of the older `add_power_and_heat_plants`, and `demand_regions = list({"DE_demand"}.union(set(extra_regions)))` of the older `create_nodes`, modelled by `LegacyToolNodes.DemandRegions`), the model uses the order of first appearance. That is one of the orders the set can give. The bus views sort their columns afterwards, so the order does not show there.
- The live builder's `add_volatile_sources` and the older builders visit rows grouped by region, in the order regions first appear. The model visits the rows in table order. The two orders are the same for tables whose rows of one region are adjacent, which is how the MultiIndex tables are stored.
- The builder stages of `create_solph_nodes_from_data` and `create_nodes` are called one after another in the source. The model loops over a stage index (`StageSpec`, `RunStage`), and each stage is the source's call with the same table guard.
- Typed views of the tables are parameters of the builders (`InputData`: rows of plants, series columns, lines). Converting the raw sheets into these rows is not modelled.
- The registry's values are never `None` in the model. So "a key mapped to None may be overwritten" is "an absent key may be set".
- Exception messages are error values that carry the labels, tables and names the message text shows. The text itself is not modelled.
- `repr` of a file name is modelled for names without quotes or backslashes.
- `str.lower` is modelled for ASCII letters only.
- `str.contains` in the offshore rule of `scenario_transmission` reads the region name as a regular expression. Region names have no special characters, so the model tests for a substring.
- A storage's `initial_storage_level` is always `None` in the source, so the storage record does not carry it.
- Builder.CreateNodesFromData, Builder.RunStages, LegacyBuilder.CreateSolphNodesFromData, LegacyBuilder.RunStages and LegacyTools.CreateNodes: after an exception, these state the exception but not the nodes that the stages before it left in the dictionary. `create_nodes` discards that dictionary together with the exception.
- ScenarioNodes.StorageTable: the source sets the "storage medium" column inside the caller's own "electricity storages" table and issues a `FutureWarning`. The model returns the rewritten rows and leaves the caller's `InputData` as it was, and warnings are not modelled.
- LegacyResults.ReshapeBusView: the source adds columns to the `data` frame the caller passes and adds flows to its existing columns in place, so the caller's frame becomes the view before sorting. The model takes `data` as a value and returns the new frame; the change to the caller's object is not captured.
- Analyses.BusBalanceKeys and Analyses.ConverterBalanceKeys: these state the column keys of the balances, not the series in the columns. Where several flows share one key the source keeps only the flow written last and drops the others: a CHP's electricity and heat outputs share one "out" column of the converter balance (`Analyses.ConverterBalanceMergesOutputs`). Which flow survives depends on the iteration order of a Python set, so the model does not say which.
- Transmission.Offshore writes the number `Inf`, while the source assigns the text "inf" (src/deflex/creator/transmission.py:267-270). A table passed on without a file round trip reaches the builder's `!= float("inf")` test (src/deflex/scenario_tools/nodes.py:427) with that text, so the builder treats the line as finite and builds a line whose capacity is a string. The model does not tell the text from the number.
- Graph.DeflexGraph.constructor: `color_nodes_by_type` and `color_nodes_by_substring` store `bgcolor` and `fgcolor` as attributes of the results' own node objects (src/deflex/postprocessing/graph.py:203-205 and 253-259), and `create_di_graph` reads them with `getattr` (graph.py:347-348). A second `DeflexGraph` of the same results therefore starts with the colours an earlier one set. The model keeps the colours in the graph object (`nodeColors`), so every new graph starts without node colours; the sharing through the node objects is not modelled.
- Electricity.Upsert: `values.loc[label, column] = v` overwrites only the columns the current branch writes, so a later "no fuel" row for a label would keep an earlier `spec_emission`; the model replaces the whole row. The two differ only for a component with two flows into electricity buses from non-line nodes, which none of the builders creates.
- ScenarioTables.ParseInt: Python's `int()` also accepts surrounding blanks and digit-group underscores (" 12", "1_0"); the model reads only an optional sign followed by digits and treats the rest as the `ValueError`.
