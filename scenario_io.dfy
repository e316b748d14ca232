/** Finding, opening and restoring scenario files
    (src/deflex/scenario_tools/scenario_io.py): the recursive search for
    dump files with its meta-data filter, the search for input scenarios
    in one directory, the suffix check of `restore_scenario`, the file
    type detection of `create_scenario` and the shape of
    `restore_results`. The file system is a parameter: a directory tree
    for the walk, a list of names for a listing, and a map from paths to
    the dumps stored there. */
module ScenarioIo {
  import opened Wrappers
  import opened Strings
  import Scenario

  // ----------------------------------------------------------------- paths

  /** `os.path.join(root, name)` for a name without "/". */
  function PathJoin(root: string, name: string): (r: string)
    ensures |r| >= |root| && r[..|root|] == root
  {
    if |root| == 0 then name
    else if root[|root| - 1] == '/' then root + name
    else root + "/" + name
  }

  /** `os.path.basename(path)`: the part after the last "/". */
  function Basename(path: string): string
  {
    LastPiece(path, '/')
  }

  /** The base name of a joined path is the name that was joined. */
  lemma BasenameOfJoin(root: string, name: string)
    requires '/' !in name
    ensures Basename(PathJoin(root, name)) == name
  {
    SplitNoSeparator(name, '/');
    if |root| > 0 {
      if root[|root| - 1] == '/' {
        var front := root[..|root| - 1];
        assert root + name == front + ['/'] + name;
        LastPieceAfter(front, name, '/');
      } else {
        assert root + "/" + name == root + ['/'] + name;
        LastPieceAfter(root, name, '/');
      }
    }
  }

  // ------------------------------------------------ search_dumped_scenarios

  /** A directory: its own files and its sub-directories, in listing order. */
  datatype Dir = Dir(name: string, files: seq<string>, subdirs: seq<Dir>)

  /** Names starting with "." are hidden. */
  predicate Hidden(name: string)
  {
    |name| > 0 && name[0] == '.'
  }

  /** `[f for f in files if not f[0] == "."]` */
  function Visible(names: seq<string>): (r: seq<string>)
    ensures forall f :: f in r <==> f in names && !Hidden(f)
    ensures |r| <= |names|
  {
    if |names| == 0 then []
    else
      var rest := Visible(names[1..]);
      assert names == [names[0]] + names[1..];
      if Hidden(names[0]) then rest else [names[0]] + rest
  }

  /** `repr(name)` for a name without quotes or backslashes. */
  function Quoted(name: string): string
  {
    "'" + name + "'"
  }

  /** `str(files)` for a list of such names. */
  function ListText(names: seq<string>): string
  {
    "[" + Join(seq(|names|, i requires 0 <= i < |names| => Quoted(names[i])), ", ") + "]"
  }

  /** The files of one directory that the scan appends: those whose last
      dot-suffix is the extension, joined to the directory path. */
  function Matching(root: string, names: seq<string>, ext: string): (r: seq<string>)
    ensures forall p :: p in r <==> exists f :: f in names && LastPiece(f, '.') == ext && p == PathJoin(root, f)
  {
    if |names| == 0 then []
    else
      var last := names[|names| - 1];
      var front := Matching(root, names[..|names| - 1], ext);
      assert names == names[..|names| - 1] + [last];
      if LastPiece(last, '.') == ext then front + [PathJoin(root, last)] else front
  }

  /** One directory of the walk: the visible files are scanned only when
      "." + extension occurs in the text of their list. */
  function DirHits(root: string, files: seq<string>, ext: string): seq<string>
  {
    var visible := Visible(files);
    if Contains(ListText(visible), "." + ext) then Matching(root, visible, ext) else []
  }

  /** `os.walk` from `root`, top-down, not entering hidden directories. */
  function Walk(root: string, d: Dir, ext: string): seq<string>
    decreases d, 1
  {
    DirHits(root, d.files, ext) + WalkFrom(root, d, 0, ext)
  }

  function WalkFrom(root: string, d: Dir, i: nat, ext: string): seq<string>
    decreases d, 0, |d.subdirs| - i
  {
    if i >= |d.subdirs| then []
    else
      var sub := d.subdirs[i];
      (if Hidden(sub.name) then [] else Walk(PathJoin(root, sub.name), sub, ext)) + WalkFrom(root, d, i + 1, ext)
  }

  /** The scan of one directory's files, as the loop appends them. */
  method CollectDir(root: string, files: seq<string>, ext: string) returns (found: seq<string>)
    ensures found == DirHits(root, files, ext)
  {
    var visible := Visible(files);
    found := [];
    if !Contains(ListText(visible), "." + ext) {
      return;
    }
    var i := 0;
    while i < |visible|
      invariant 0 <= i <= |visible|
      invariant found == Matching(root, visible[..i], ext)
    {
      assert visible[..i + 1][..i] == visible[..i];
      if LastPiece(visible[i], '.') == ext {
        found := found + [PathJoin(root, visible[i])];
      }
      i := i + 1;
    }
    assert visible[..i] == visible;
  }

  /** `sep.join(parts)` ends with the separator and the last part. */
  lemma {:induction false} JoinEndsWithLast(parts: seq<string>, sep: string)
    requires |parts| >= 2
    ensures exists front :: Join(parts, sep) == front + sep + parts[|parts| - 1]
    decreases |parts|
  {
    if |parts| == 2 {
      assert Join(parts, sep) == parts[0] + sep + Join(parts[1..], sep);
      assert Join(parts, sep) == parts[0] + sep + parts[1];
    } else {
      JoinEndsWithLast(parts[1..], sep);
      var front :| Join(parts[1..], sep) == front + sep + parts[1..][|parts[1..]| - 1];
      assert Join(parts, sep) == (parts[0] + sep + front) + sep + parts[|parts| - 1];
    }
  }

  /** A name with a dot ends with "." and its last dot-suffix. */
  lemma DottedNameEnds(f: string)
    requires '.' in f
    ensures Contains(f, "." + LastPiece(f, '.'))
  {
    var parts := Split(f, '.');
    JoinSplit(f, '.');
    SplitCount(f, '.');
    CountPositive(f, '.');
    JoinEndsWithLast(parts, ".");
    var front :| Join(parts, ".") == front + "." + parts[|parts| - 1];
    var tail := "." + LastPiece(f, '.');
    assert f == front + tail + "";
    assert Contains(tail, tail) by {
      assert tail[..|tail|] == tail;
    }
    ContainsWithin(front, tail, "", tail);
  }

  lemma {:induction false} CountPositive(s: string, c: char)
    requires c in s
    ensures Count(s, c) > 0
    decreases |s|
  {
    if s[0] != c {
      CountPositive(s[1..], c);
    }
  }

  /** The name of the i-th entry appears in the text of the list. */
  lemma {:induction false} ListTextHolds(names: seq<string>, i: nat, sub: string)
    requires i < |names| && Contains(names[i], sub)
    ensures Contains(ListText(names), sub)
  {
    var quoted := seq(|names|, k requires 0 <= k < |names| => Quoted(names[k]));
    JoinHolds(quoted, ", ", i, sub, names[i]);
    var inner := Join(quoted, ", ");
    ContainsWithin("[", inner, "]", sub);
    assert ListText(names) == "[" + inner + "]";
  }

  lemma {:induction false} JoinHolds(parts: seq<string>, sep: string, i: nat, sub: string, name: string)
    requires i < |parts| && parts[i] == Quoted(name) && Contains(name, sub)
    ensures Contains(Join(parts, sep), sub)
    decreases |parts|
  {
    if i == 0 {
      ContainsWithin("'", name, "'", sub);
      if |parts| > 1 {
        ContainsWithin("", parts[0], sep + Join(parts[1..], sep), sub);
        assert "" + parts[0] + (sep + Join(parts[1..], sep)) == Join(parts, sep);
      }
    } else {
      JoinHolds(parts[1..], sep, i - 1, sub, name);
      ContainsWithin(parts[0] + sep, Join(parts[1..], sep), "", sub);
      assert parts[0] + sep + Join(parts[1..], sep) + "" == Join(parts, sep);
    }
  }

  /** The text guard only matters for dot-less names: once a visible file
      carries the extension after a dot, every visible file whose last
      dot-suffix is the extension is collected. */
  lemma DottedMatchOpensScan(root: string, files: seq<string>, ext: string, f: string)
    requires f in Visible(files) && '.' in f && LastPiece(f, '.') == ext
    ensures DirHits(root, files, ext) == Matching(root, Visible(files), ext)
  {
    var visible := Visible(files);
    var i :| 0 <= i < |visible| && visible[i] == f;
    DottedNameEnds(f);
    ListTextHolds(visible, i, "." + ext);
  }

  /** A character in neither the separator nor any part is not in the
      joined string. */
  lemma {:induction false} JoinLacks(parts: seq<string>, sep: string, c: char)
    requires c !in sep && forall k :: 0 <= k < |parts| ==> c !in parts[k]
    ensures c !in Join(parts, sep)
    decreases |parts|
  {
    if |parts| > 1 {
      JoinLacks(parts[1..], sep, c);
    }
  }

  /** A file named just like the extension, without a dot, is skipped
      when it is alone in its directory, although its last dot-suffix is
      the extension ... */
  lemma DotlessNameAlone(root: string, ext: string)
    requires '.' !in ext
    ensures LastPiece(ext, '.') == ext
    ensures DirHits(root, [ext], ext) == []
  {
    SplitNoSeparator(ext, '.');
    var visible := Visible([ext]);
    var quoted := seq(|visible|, k requires 0 <= k < |visible| => Quoted(visible[k]));
    JoinLacks(quoted, ", ", '.');
    assert '.' !in ListText(visible);
    if Contains(ListText(visible), "." + ext) {
      ContainsFirstChar(ListText(visible), "." + ext);
    }
  }

  /** ... and is collected next to a sibling "a." + extension. */
  lemma DotlessNameWithSibling(root: string, a: string, ext: string)
    requires '.' !in ext && '.' !in a && |a| > 0
    ensures DirHits(root, [a + "." + ext, ext], ext) == [PathJoin(root, a + "." + ext), PathJoin(root, ext)]
  {
    var f := a + "." + ext;
    var two := [f, ext];
    assert Visible(two) == two by {
      assert two[1..] == [ext];
      assert !Hidden(f) by {
        assert f[0] == a[0];
      }
    }
    assert f == a + ['.'] + ext;
    LastPieceAfter(a, ext, '.');
    SplitNoSeparator(ext, '.');
    DottedMatchOpensScan(root, two, ext, f);
    assert two[..1] == [f];
    assert Matching(root, [f], ext) == [PathJoin(root, f)] by {
      assert [f][..0] == [];
    }
  }

  /** The meta data of a dump with every value in its `str()` form. */
  type Meta = map<string, string>

  /** `str(meta.get(key))`: a missing key reads as "None". */
  function MetaText(meta: Meta, key: string): string
  {
    if key in meta then meta[key] else "None"
  }

  /** A filter value: a list of strings, or a bare string, which the
      comprehension walks character by character. */
  datatype FilterValue = Values(items: seq<string>) | Text(text: string)

  function Items(v: FilterValue): (r: seq<string>)
    ensures v.Values? ==> r == v.items
    ensures v.Text? ==> |r| == |v.text| && forall i :: 0 <= i < |r| ==> r[i] == [v.text[i]]
  {
    match v
    case Values(items) => items
    case Text(t) => seq(|t|, i requires 0 <= i < |t| => [t[i]])
  }

  /** `any(str(meta.get(key)).lower() == str(f).lower() for f in value)` */
  predicate Accepts(meta: Meta, key: string, v: FilterValue)
  {
    exists f :: f in Items(v) && Lower(MetaText(meta, key)) == Lower(f)
  }

  datatype Dump = Dump(path: string, meta: Meta)

  /** One filter's dictionary comprehension. */
  function KeepAccepted(files: seq<Dump>, key: string, v: FilterValue): (r: seq<Dump>)
    ensures forall d :: d in r <==> d in files && Accepts(d.meta, key, v)
    ensures |r| <= |files|
  {
    if |files| == 0 then []
    else
      var rest := KeepAccepted(files[1..], key, v);
      assert files == [files[0]] + files[1..];
      if Accepts(files[0].meta, key, v) then [files[0]] + rest else rest
  }

  /** The filters in turn. */
  function FilterDumps(files: seq<Dump>, filters: seq<(string, FilterValue)>): seq<Dump>
    decreases |filters|
  {
    if |filters| == 0 then files
    else FilterDumps(KeepAccepted(files, filters[0].0, filters[0].1), filters[1..])
  }

  /** A dump survives exactly when every filter accepts it: AND across
      the keys, OR within one key's values. */
  lemma {:induction false} FilterDumpsExactly(files: seq<Dump>, filters: seq<(string, FilterValue)>, d: Dump)
    ensures d in FilterDumps(files, filters) <==>
      d in files && forall i :: 0 <= i < |filters| ==> Accepts(d.meta, filters[i].0, filters[i].1)
    decreases |filters|
  {
    if |filters| > 0 {
      FilterDumpsExactly(KeepAccepted(files, filters[0].0, filters[0].1), filters[1..], d);
      assert forall i :: 1 <= i < |filters| ==> filters[i] == filters[1..][i - 1];
    }
  }

  /** `os.path.join(path, name)`: a name starting with "/" stands on its
      own, any other name is joined to the path. */
  function OsJoin(path: string, name: string): (r: string)
    ensures |name| > 0 && name[0] == '/' ==> r == name
    ensures !(|name| > 0 && name[0] == '/') ==> |r| >= |path| && r[..|path|] == path
  {
    if |name| > 0 && name[0] == '/' then name else PathJoin(path, name)
  }

  /** The loading loop: every found name is opened at
      `os.path.join(path, name)` and its meta data kept under the name;
      the first name whose file is not on the disk raises
      `FileNotFoundError`. */
  function LoadDumps(path: string, names: seq<string>, disk: map<string, Meta>): (r: Result<seq<Dump>, IoError>)
    ensures r.Success? <==> forall i :: 0 <= i < |names| ==> OsJoin(path, names[i]) in disk
    ensures r.Success? ==> |r.value| == |names|
    ensures r.Success? ==> forall i :: 0 <= i < |names| ==> r.value[i] == Dump(names[i], disk[OsJoin(path, names[i])])
    ensures r.Failure? ==> exists i :: 0 <= i < |names| && OsJoin(path, names[i]) !in disk && r.error == NotFound(OsJoin(path, names[i]))
  {
    if |names| == 0 then Success([])
    else
      var fn := OsJoin(path, names[0]);
      if fn !in disk then Failure(NotFound(fn))
      else
        match LoadDumps(path, names[1..], disk)
        case Failure(e) => Failure(e)
        case Success(rest) => Success([Dump(names[0], disk[fn])] + rest)
  }

  /** Every filter accepts a dump's meta data. */
  predicate AcceptedByAll(meta: Meta, filters: seq<(string, FilterValue)>)
  {
    forall i :: 0 <= i < |filters| ==> Accepts(meta, filters[i].0, filters[i].1)
  }

  /** The names of a sequence of dumps. */
  function Paths(ds: seq<Dump>): (r: seq<string>)
    ensures |r| == |ds| && forall i :: 0 <= i < |ds| ==> r[i] == ds[i].path
  {
    seq(|ds|, i requires 0 <= i < |ds| => ds[i].path)
  }

  /** The names left after the filters are those of the dumps every
      filter accepts. */
  lemma FilteredPaths(dumps: seq<Dump>, filters: seq<(string, FilterValue)>)
    ensures forall p :: p in Paths(FilterDumps(dumps, filters)) <==>
      exists d :: d in dumps && d.path == p && AcceptedByAll(d.meta, filters)
  {
    var kept := FilterDumps(dumps, filters);
    var r := Paths(kept);
    forall p | p in r
      ensures exists d :: d in dumps && d.path == p && AcceptedByAll(d.meta, filters)
    {
      var j :| 0 <= j < |r| && r[j] == p;
      FilterDumpsExactly(dumps, filters, kept[j]);
    }
    forall d | d in dumps && AcceptedByAll(d.meta, filters)
      ensures d.path in r
    {
      FilterDumpsExactly(dumps, filters, d);
      var k :| 0 <= k < |kept| && kept[k] == d;
      assert r[k] == d.path;
    }
  }

  /** The dumps loaded for the found names carry, for each name, the meta
      data of the file opened for it. */
  lemma LoadedNames(path: string, found: seq<string>, disk: map<string, Meta>, dumps: seq<Dump>,
                    filters: seq<(string, FilterValue)>)
    requires |dumps| == |found|
    requires forall i :: 0 <= i < |found| ==> OsJoin(path, found[i]) in disk && dumps[i] == Dump(found[i], disk[OsJoin(path, found[i])])
    ensures forall p :: (exists d :: d in dumps && d.path == p && AcceptedByAll(d.meta, filters)) <==>
      p in found && AcceptedByAll(disk[OsJoin(path, p)], filters)
  {
    forall p | p in found && AcceptedByAll(disk[OsJoin(path, p)], filters)
      ensures exists d :: d in dumps && d.path == p && AcceptedByAll(d.meta, filters)
    {
      var j :| 0 <= j < |found| && found[j] == p;
      assert dumps[j] in dumps;
    }
    forall d | d in dumps
      ensures d.path in found && d.meta == disk[OsJoin(path, d.path)]
    {
      var j :| 0 <= j < |dumps| && dumps[j] == d;
    }
  }

  /** `search_dumped_scenarios(path, extension, **parameter_filter)`: the
      names the walk finds, each read from `os.path.join(path, name)` on
      the disk, kept when every filter accepts its meta data. A name the
      walk finds already starts with `path`, so for a relative path the
      file opened is the path joined twice. */
  function SearchDumpedScenarios(path: string, tree: Dir, ext: string, disk: map<string, Meta>,
                                 filters: seq<(string, FilterValue)>): (r: Result<seq<string>, IoError>)
    ensures r.Failure? <==> exists p :: p in Walk(path, tree, ext) && OsJoin(path, p) !in disk
    ensures r.Failure? ==> exists p :: p in Walk(path, tree, ext) && OsJoin(path, p) !in disk && r.error == NotFound(OsJoin(path, p))
    ensures r.Success? ==> forall p :: p in r.value <==>
      p in Walk(path, tree, ext) && AcceptedByAll(disk[OsJoin(path, p)], filters)
  {
    var found := Walk(path, tree, ext);
    match LoadDumps(path, found, disk)
    case Failure(e) => Failure(e)
    case Success(dumps) =>
      FilteredPaths(dumps, filters);
      LoadedNames(path, found, disk, dumps, filters);
      Success(Paths(FilterDumps(dumps, filters)))
  }

  /** Every name the walk finds starts with the path it walks from. */
  lemma {:induction false} WalkStartsWith(root: string, d: Dir, ext: string)
    ensures forall p :: p in Walk(root, d, ext) ==> |p| >= |root| && p[..|root|] == root
    decreases d, 1
  {
    WalkFromStartsWith(root, d, 0, ext);
  }

  lemma {:induction false} WalkFromStartsWith(root: string, d: Dir, i: nat, ext: string)
    ensures forall p :: p in WalkFrom(root, d, i, ext) ==> |p| >= |root| && p[..|root|] == root
    decreases d, 0, |d.subdirs| - i
  {
    if i < |d.subdirs| {
      var sub := d.subdirs[i];
      if !Hidden(sub.name) {
        var inner := PathJoin(root, sub.name);
        WalkStartsWith(inner, sub, ext);
        forall p | p in Walk(inner, sub, ext)
          ensures |p| >= |root| && p[..|root|] == root
        {
          assert p[..|root|] == p[..|inner|][..|root|];
        }
      }
      WalkFromStartsWith(root, d, i + 1, ext);
    }
  }

  /** Searching from an absolute path, every found name is absolute, so
      the file opened for a name is the file the walk found. */
  lemma AbsoluteSearchOpensFound(path: string, tree: Dir, ext: string, disk: map<string, Meta>,
                                 filters: seq<(string, FilterValue)>)
    requires |path| > 0 && path[0] == '/'
    ensures forall p :: p in Walk(path, tree, ext) ==> OsJoin(path, p) == p
    ensures SearchDumpedScenarios(path, tree, ext, disk, filters).Success? <==>
      forall p :: p in Walk(path, tree, ext) ==> p in disk
    ensures SearchDumpedScenarios(path, tree, ext, disk, filters).Success? ==>
      forall p :: p in SearchDumpedScenarios(path, tree, ext, disk, filters).value <==>
        p in Walk(path, tree, ext) && AcceptedByAll(disk[p], filters)
  {
    WalkStartsWith(path, tree, ext);
    forall p | p in Walk(path, tree, ext)
      ensures OsJoin(path, p) == p
    {
      assert p[0] == p[..|path|][0];
    }
  }

  /** "a.dflx" has the extension "dflx". */
  lemma OneDumpSuffix()
    ensures LastPiece("a.dflx", '.') == "dflx"
  {
    assert "a.dflx" == "a" + ['.'] + "dflx";
    LastPieceAfter("a", "dflx", '.');
    SplitNoSeparator("dflx", '.');
  }

  /** The text of the list ["a.dflx"] contains ".dflx". */
  lemma OneDumpListed()
    ensures Contains(ListText(["a.dflx"]), ".dflx")
  {
    ContainsSelf(".dflx");
    ContainsWithin("['a", ".dflx", "']", ".dflx");
    assert Quoted("a.dflx") == "'a.dflx'";
    assert ListText(["a.dflx"]) == "[" + "'a.dflx'" + "]";
    assert "[" + "'a.dflx'" + "]" == "['a" + ".dflx" + "']";
  }

  /** The joins of the example: the found name, and the file opened for it. */
  lemma OneDumpJoins()
    ensures PathJoin("out", "a.dflx") == "out/a.dflx"
    ensures OsJoin("out", "out/a.dflx") == "out/out/a.dflx"
  {
  }

  /** A directory holding one visible file of the extension scans it. */
  lemma DirHitsOne(root: string, f: string, ext: string)
    requires !Hidden(f) && LastPiece(f, '.') == ext && Contains(ListText([f]), "." + ext)
    ensures DirHits(root, [f], ext) == [PathJoin(root, f)]
  {
    assert Visible([f]) == [f];
    assert Matching(root, [f], ext) == [PathJoin(root, f)];
  }

  /** The scan of a directory "out" holding the one dump "a.dflx". */
  lemma OneDumpHits()
    ensures DirHits("out", ["a.dflx"], "dflx") == ["out/a.dflx"]
  {
    OneDumpSuffix();
    OneDumpListed();
    OneDumpJoins();
    assert "." + "dflx" == ".dflx";
    DirHitsOne("out", "a.dflx", "dflx");
  }

  /** The walk of a directory "out" holding the one dump "a.dflx". */
  lemma WalkOneDump()
    ensures Walk("out", Dir("out", ["a.dflx"], []), "dflx") == ["out/a.dflx"]
  {
    OneDumpHits();
    assert WalkFrom("out", Dir("out", ["a.dflx"], []), 0, "dflx") == [];
  }

  /** Searching from a relative path, a found name already starts with
      the path and is joined to it once more: the dump found at
      "out/a.dflx" is read from "out/out/a.dflx", which is not there. */
  lemma RelativeSearchJoinsTwice()
    ensures SearchDumpedScenarios("out", Dir("out", ["a.dflx"], []), "dflx", map["out/a.dflx" := map[]], []) ==
      Failure(NotFound("out/out/a.dflx"))
  {
    WalkOneDump();
    OneDumpJoins();
  }

  /** The comparison ignores case: "True" and "true" select the same
      dumps, and a bare string matches single characters only. */
  lemma FilterExamples(m: Meta)
    requires m == map["heat" := "True", "map" := "de17"]
    ensures Accepts(m, "heat", Values(["true"]))
    ensures Accepts(m, "map", Values(["de21", "DE17"]))
    ensures !Accepts(m, "map", Text("de17"))
    ensures !Accepts(m, "year", Values(["2014"])) && Accepts(m, "year", Values(["none"]))
  {
    assert Lower("True") == "true" && Lower("true") == "true";
    assert Items(Values(["true"]))[0] == "true";
    assert Lower("DE17") == "de17" && Lower("de17") == "de17";
    assert Items(Values(["de21", "DE17"]))[1] == "DE17";
    forall f | f in Items(Text("de17"))
      ensures Lower(f) != Lower("de17")
    {
      assert |f| == 1;
    }
    assert MetaText(m, "year") == "None";
    assert Lower("None") == "none" && Lower("none") == "none";
    assert Items(Values(["none"]))[0] == "none";
    forall f | f in Items(Values(["2014"]))
      ensures Lower(f) != Lower("None")
    {
      assert f == "2014";
      assert Lower(f)[0] == '2';
    }
  }

  // ------------------------------------------------- search_input_scenarios

  /** The names the listing loop appends for one suffix. */
  function Ending(path: string, names: seq<string>, suffix: string, on: bool): (r: seq<string>)
    ensures forall p :: p in r <==> on && exists n :: n in names && EndsWith(n, suffix) && p == PathJoin(path, n)
  {
    if |names| == 0 then []
    else
      var last := names[|names| - 1];
      var front := Ending(path, names[..|names| - 1], suffix, on);
      assert names == names[..|names| - 1] + [last];
      if on && EndsWith(last, suffix) then front + [PathJoin(path, last)] else front
  }

  /** `[s for s in scenarios if exclude not in os.path.basename(s)]` */
  function Excluding(scenarios: seq<string>, exclude: Option<string>): (r: seq<string>)
    ensures forall s :: s in r <==> s in scenarios && (exclude.None? || !Contains(Basename(s), exclude.value))
    ensures exclude.None? ==> r == scenarios
  {
    if |scenarios| == 0 then []
    else
      var rest := Excluding(scenarios[1..], exclude);
      assert scenarios == [scenarios[0]] + scenarios[1..];
      if exclude.Some? && Contains(Basename(scenarios[0]), exclude.value) then rest else [scenarios[0]] + rest
  }

  /** The sorted csv directories, then the sorted xlsx files, without the
      excluded names. */
  function InputScenarios(path: string, names: seq<string>, csv: bool, xlsx: bool, exclude: Option<string>): seq<string>
  {
    Excluding(SortStrings(Ending(path, names, "_csv", csv)) + SortStrings(Ending(path, names, "xlsx", xlsx)), exclude)
  }

  /** `search_input_scenarios(path, csv, xlsx, exclude)` over the listing
      `names` of `path`. */
  method SearchInputScenarios(path: string, names: seq<string>, csv: bool, xlsx: bool, exclude: Option<string>)
    returns (r: seq<string>)
    ensures r == InputScenarios(path, names, csv, xlsx, exclude)
  {
    var xlsxScenarios := [];
    var csvScenarios := [];
    var i := 0;
    while i < |names|
      invariant 0 <= i <= |names|
      invariant xlsxScenarios == Ending(path, names[..i], "xlsx", xlsx)
      invariant csvScenarios == Ending(path, names[..i], "_csv", csv)
    {
      assert names[..i + 1][..i] == names[..i];
      var name := names[i];
      if Tail(name, 4) == "xlsx" && xlsx {
        xlsxScenarios := xlsxScenarios + [PathJoin(path, name)];
      }
      if Tail(name, 4) == "_csv" && csv {
        csvScenarios := csvScenarios + [PathJoin(path, name)];
      }
      i := i + 1;
    }
    assert names[..i] == names;
    r := SortStrings(csvScenarios) + SortStrings(xlsxScenarios);
    r := Excluding(r, exclude);
  }

  /** A path is returned exactly when a listed name ends in "_csv" (with
      csv on) or in "xlsx" (with xlsx on) and does not hold the excluded
      text. */
  lemma InputScenariosExactly(path: string, names: seq<string>, csv: bool, xlsx: bool, exclude: Option<string>, p: string)
    requires forall n :: n in names ==> '/' !in n
    ensures p in InputScenarios(path, names, csv, xlsx, exclude) <==>
      exists n :: n in names && p == PathJoin(path, n)
        && ((csv && EndsWith(n, "_csv")) || (xlsx && EndsWith(n, "xlsx")))
        && (exclude.None? || !Contains(n, exclude.value))
  {
    var c := Ending(path, names, "_csv", csv);
    var x := Ending(path, names, "xlsx", xlsx);
    assert multiset(SortStrings(c)) == multiset(c) && multiset(SortStrings(x)) == multiset(x);
    assert p in SortStrings(c) <==> p in c by {
      assert p in SortStrings(c) <==> p in multiset(SortStrings(c));
    }
    assert p in SortStrings(x) <==> p in x by {
      assert p in SortStrings(x) <==> p in multiset(SortStrings(x));
    }
    forall n | n in names
      ensures Basename(PathJoin(path, n)) == n
    {
      BasenameOfJoin(path, n);
    }
  }

  /** Every csv entry comes before every xlsx entry, and both runs are
      sorted. */
  lemma InputScenariosOrder(path: string, names: seq<string>, csv: bool, xlsx: bool)
    ensures InputScenarios(path, names, csv, xlsx, None) ==
      SortStrings(Ending(path, names, "_csv", csv)) + SortStrings(Ending(path, names, "xlsx", xlsx))
    ensures SortedStrings(SortStrings(Ending(path, names, "_csv", csv)))
    ensures SortedStrings(SortStrings(Ending(path, names, "xlsx", xlsx)))
  {
  }

  // -------------------------------------------------------- restore_scenario

  /** The exceptions of restoring: a suffix other than "dflx" (`IOError`,
      raised before the file is opened), a missing file, and an empty
      list of files (`IndexError`). */
  datatype IoError = NotDflx(filename: string) | NotFound(filename: string) | NoFiles

  /** What a dump file holds: the results with their meta data, and the
      scenario's input data. */
  datatype Stored<R, I> = Stored(resultsMeta: map<string, string>, results: R, inputData: I)

  /** `restore_scenario(filename)` on a file system mapping paths to dumps. */
  function RestoreScenario<R, I>(filename: string, disk: map<string, Stored<R, I>>): (r: Result<Stored<R, I>, IoError>)
    ensures r.Failure? && r.error.NotDflx? <==> LastPiece(filename, '.') != "dflx"
    ensures r.Success? <==> LastPiece(filename, '.') == "dflx" && filename in disk
    ensures r.Success? ==> r.value == disk[filename]
  {
    if LastPiece(filename, '.') != "dflx" then Failure(NotDflx(filename))
    else if filename !in disk then Failure(NotFound(filename))
    else Success(disk[filename])
  }

  /** The name `dump` writes to is one `restore_scenario` accepts. */
  lemma RestoreAcceptsDumpName<R, I>(filename: string, disk: map<string, Stored<R, I>>)
    ensures RestoreScenario(Scenario.DumpFileName(filename), disk).Failure? ==>
      RestoreScenario(Scenario.DumpFileName(filename), disk) == Failure(NotFound(Scenario.DumpFileName(filename)))
  {
  }

  // --------------------------------------------------------- create_scenario

  /** The reader `create_scenario` calls. */
  datatype Reader = ReadXlsx | ReadCsv | ReadNothing

  /** The file type: the given one, or the one the path's end suggests. */
  function FileType(path: string, fileType: Option<string>): (r: Option<string>)
    ensures fileType.Some? ==> r == fileType
    ensures fileType.None? ==>
      (r == Some("xlsx") <==> EndsWith(path, ".xlsx")) &&
      (r == Some("csv") <==> !EndsWith(path, ".xlsx") && Contains(Tail(path, 4), "csv")) &&
      (r.None? <==> !EndsWith(path, ".xlsx") && !Contains(Tail(path, 4), "csv"))
  {
    if fileType.Some? then fileType
    else if Contains(Tail(path, 5), ".xlsx") then
      ContainsSameLength(Tail(path, 5), ".xlsx");
      Some("xlsx")
    else
      EndsWithContains(path, ".xlsx");
      if Contains(Tail(path, 4), "csv") then Some("csv") else None
  }

  lemma ContainsSameLength(s: string, sub: string)
    requires |s| <= |sub| && Contains(s, sub)
    ensures s == sub
  {
  }

  /** `create_scenario(path, file_type)`: which reader fills the scenario;
      without a path, or for any other type, none does. */
  function CreateScenario(path: Option<string>, fileType: Option<string>): (r: Reader)
    ensures path.None? ==> r == ReadNothing
    ensures path.Some? ==>
      (r == ReadXlsx <==> FileType(path.value, fileType) == Some("xlsx")) &&
      (r == ReadCsv <==> FileType(path.value, fileType) == Some("csv"))
  {
    if path.None? then ReadNothing
    else
      var t := FileType(path.value, fileType);
      if t == Some("xlsx") then ReadXlsx else if t == Some("csv") then ReadCsv else ReadNothing
  }

  /** A csv directory the search finds is read as csv ... */
  lemma CsvDirectoryDetected(name: string)
    requires EndsWith(name, "_csv")
    ensures CreateScenario(Some(name), None) == ReadCsv
  {
    var t := Tail(name, 4);
    assert t[1..][..3] == "csv";
    assert Contains(t[1..], "csv");
    if |name| >= 5 {
      assert Tail(name, 5)[4] == t[3] == 'v';
    }
  }

  /** ... and a ".xlsx" file as xlsx ... */
  lemma XlsxFileDetected(name: string)
    requires EndsWith(name, ".xlsx")
    ensures CreateScenario(Some(name), None) == ReadXlsx
  {
  }

  /** ... but a name ending in "xlsx" without the dot is found by the
      search and read by nothing. */
  lemma UndottedXlsxNotRead(name: string)
    requires EndsWith(name, "xlsx") && !EndsWith(name, ".xlsx")
    ensures CreateScenario(Some(name), None) == ReadNothing
  {
    assert Tail(name, 4) == "xlsx";
    if Contains("xlsx", "csv") {
      ContainsFirstChar("xlsx", "csv");
    }
  }

  // --------------------------------------------------------- restore_results

  /** `restore_results` takes one name or a list of names. */
  datatype FileNames = OneFile(name: string) | FileList(names: seq<string>)

  function NameList(f: FileNames): seq<string>
  {
    match f
    case OneFile(n) => [n]
    case FileList(ns) => ns
  }

  /** A results dictionary as returned: the meta data, the other results
      and, where the version stores it, the input data. */
  datatype Restored<R, I> = Restored(meta: map<string, string>, results: R, inputData: Option<I>)

  /** The result of one file: its results with the file's base name in
      the meta data and, when `withInput` is set, its input data. */
  function RestoredFrom<R, I>(path: string, disk: map<string, Stored<R, I>>, withInput: bool): (r: Result<Restored<R, I>, IoError>)
    ensures r.Success? <==> RestoreScenario(path, disk).Success?
    ensures r.Success? ==>
      r.value.meta == disk[path].resultsMeta["filename" := Basename(path)] && r.value.results == disk[path].results &&
      r.value.inputData == (if withInput then Some(disk[path].inputData) else None)
  {
    match RestoreScenario(path, disk)
    case Failure(e) => Failure(e)
    case Success(sc) =>
      Success(Restored(sc.resultsMeta["filename" := Basename(path)], sc.results,
                       if withInput then Some(sc.inputData) else None))
  }

  /** The results of the files in order, stopping at the first error. */
  function RestoredAll<R, I>(paths: seq<string>, disk: map<string, Stored<R, I>>, withInput: bool): (r: Result<seq<Restored<R, I>>, IoError>)
    ensures r.Success? ==> (|r.value| == |paths| &&
      forall i :: 0 <= i < |paths| ==> RestoredFrom(paths[i], disk, withInput) == Success(r.value[i]))
    ensures r.Failure? ==> exists i :: 0 <= i < |paths| && RestoredFrom(paths[i], disk, withInput) == Failure(r.error)
    decreases |paths|
  {
    if |paths| == 0 then Success([])
    else
      var front := paths[..|paths| - 1];
      var last := paths[|paths| - 1];
      match RestoredAll(front, disk, withInput)
      case Failure(e) => Failure(e)
      case Success(rs) =>
        match RestoredFrom(last, disk, withInput)
        case Failure(e) => Failure(e)
        case Success(x) => Success(rs + [x])
  }

  /** One dictionary, or a list of them. */
  datatype Shape<T> = Single(one: T) | Several(all: seq<T>)

  /** `if len(results) < 2: results = results[0]` */
  function Collapse<T>(results: seq<T>): (r: Result<Shape<T>, IoError>)
    ensures r.Failure? <==> |results| == 0
    ensures r.Success? && r.value.Single? <==> |results| == 1
    ensures r.Success? && r.value.Single? ==> r.value.one == results[0]
    ensures r.Success? && r.value.Several? ==> r.value.all == results && |results| >= 2
  {
    if |results| == 0 then Failure(NoFiles)
    else if |results| < 2 then Success(Single(results[0]))
    else Success(Several(results))
  }

  function RestoreResultsSpec<R, I>(files: FileNames, disk: map<string, Stored<R, I>>, withInput: bool): Result<Shape<Restored<R, I>>, IoError>
  {
    match RestoredAll(NameList(files), disk, withInput)
    case Failure(e) => Failure(e)
    case Success(rs) => Collapse(rs)
  }

  /** `restore_results(file_names)`: the loop over the files, then the
      collapse of a one-element list. */
  method RestoreResults<R, I>(files: FileNames, disk: map<string, Stored<R, I>>, withInput: bool)
    returns (r: Result<Shape<Restored<R, I>>, IoError>)
    ensures r == RestoreResultsSpec(files, disk, withInput)
  {
    var paths := NameList(files);
    var results: seq<Restored<R, I>> := [];
    var i := 0;
    while i < |paths|
      invariant 0 <= i <= |paths|
      invariant RestoredAll(paths[..i], disk, withInput) == Success(results)
    {
      assert paths[..i + 1][..i] == paths[..i];
      var res := RestoredFrom(paths[i], disk, withInput);
      if res.Failure? {
        RestoredAllStops(paths, i, disk, withInput);
        return Failure(res.error);
      }
      results := results + [res.value];
      i := i + 1;
    }
    assert paths[..i] == paths;
    r := Collapse(results);
  }

  /** A failing file is the failure of the whole list. */
  lemma {:induction false} RestoredAllStops<R, I>(paths: seq<string>, i: nat, disk: map<string, Stored<R, I>>, withInput: bool)
    requires i < |paths| && RestoredAll(paths[..i], disk, withInput).Success?
    requires RestoredFrom(paths[i], disk, withInput).Failure?
    ensures RestoredAll(paths, disk, withInput) == Failure(RestoredFrom(paths[i], disk, withInput).error)
    decreases |paths|
  {
    var front := paths[..|paths| - 1];
    if i == |paths| - 1 {
      assert front == paths[..i];
    } else {
      assert front[..i] == paths[..i] && front[i] == paths[i];
      RestoredAllStops(front, i, disk, withInput);
    }
  }

  /** One name always gives one dictionary, a list of at least two names
      a list of as many, and each carries its file's base name. */
  lemma RestoreResultsShape<R, I>(files: FileNames, disk: map<string, Stored<R, I>>, withInput: bool)
    ensures files.OneFile? && RestoreResultsSpec(files, disk, withInput).Success? ==>
      RestoreResultsSpec(files, disk, withInput).value.Single? &&
      RestoreResultsSpec(files, disk, withInput).value.one.meta["filename"] == Basename(files.name)
    ensures files.FileList? && |files.names| >= 2 && RestoreResultsSpec(files, disk, withInput).Success? ==>
      RestoreResultsSpec(files, disk, withInput).value.Several? &&
      |RestoreResultsSpec(files, disk, withInput).value.all| == |files.names| &&
      forall i :: 0 <= i < |files.names| ==>
        RestoreResultsSpec(files, disk, withInput).value.all[i].meta["filename"] == Basename(files.names[i])
    ensures files == FileList([]) ==> RestoreResultsSpec(files, disk, withInput) == Failure(NoFiles)
  {
  }
}
