/** `TSPCatalog`: the list of instances read from a directory, with lookup by
    name, a stable sort by dimension, a filter by edge weight type and the
    lazy matrix load of one instance. The directory listing, the files'
    contents (None for a file that cannot be read) and the optimal results
    table are parameters. */
module TspCatalog {
  import opened Wrappers
  import opened Text
  import opened TsplibHeader
  import opened TsplibSections
  import opened TsplibParser
  import opened TspInstance
  import opened Sorting

  /** The snapshots of a list of instances, in order. */
  function InfosOf(fs: seq<TspFile>): (r: seq<Info>)
    reads set f | f in fs
    ensures |r| == |fs|
    ensures forall i :: 0 <= i < |fs| ==> r[i] == fs[i].Snapshot()
  {
    if fs == [] then [] else InfosOf(fs[..|fs| - 1]) + [fs[|fs| - 1].Snapshot()]
  }

  /** The states of the instances' parsers, in order. */
  function ParsersOf(fs: seq<TspFile>): (r: seq<State>)
    reads set f | f in fs :: f.parser
    ensures |r| == |fs|
    ensures forall i :: 0 <= i < |fs| ==> r[i] == fs[i].parser.Snapshot()
  {
    if fs == [] then [] else ParsersOf(fs[..|fs| - 1]) + [fs[|fs| - 1].parser.Snapshot()]
  }

  /** No two instances of the list share a parser. */
  predicate OwnParsers(fs: seq<TspFile>)
    reads set f | f in fs
  {
    forall f, g :: f in fs && g in fs && f.parser == g.parser ==> f == g
  }

  /** A list drawn from one whose instances own their parsers owns them too. */
  lemma OwnParsersKept(fs: seq<TspFile>, gs: seq<TspFile>)
    requires OwnParsers(fs) && forall g :: g in gs ==> g in fs
    ensures OwnParsers(gs)
  {
  }

  /** A list whose instances and parsers have the given states. */
  lemma InfosSame(fs: seq<TspFile>, infos: seq<Info>)
    requires |fs| == |infos| && forall i :: 0 <= i < |fs| ==> fs[i].Snapshot() == infos[i]
    ensures InfosOf(fs) == infos
  {
  }

  lemma ParsersSame(fs: seq<TspFile>, states: seq<State>)
    requires |fs| == |states| && forall i :: 0 <= i < |fs| ==> fs[i].parser.Snapshot() == states[i]
    ensures ParsersOf(fs) == states
  {
  }

  lemma ParsersAppend(fs: seq<TspFile>, f: TspFile)
    ensures ParsersOf(fs + [f]) == ParsersOf(fs) + [f.parser.Snapshot()]
  {
    assert (fs + [f])[..|fs|] == fs;
  }

  lemma InfosAppend(fs: seq<TspFile>, f: TspFile)
    ensures InfosOf(fs + [f]) == InfosOf(fs) + [f.Snapshot()]
  {
    assert (fs + [f])[..|fs|] == fs;
  }

  // ------------------------------------------------------------ load_files

  /** The parser `load_metadata` leaves behind after reading `path` with a
      fresh parser. */
  function LoadedParser(path: string, resultsPath: string, read: string -> Option<seq<string>>,
                        table: OptimalTable, metric: (string, Coord, Coord) -> int): State
  {
    Metadata(NewInfo(path, resultsPath), Fresh, read(path), table, metric).1
  }

  /** What one round of the `load_files` loop adds: a ".tsp" name whose
      `load_metadata` succeeds gives the instance it read; any other name, or
      a load that raises, gives nothing. */
  function Loaded(directory: string, name: string, resultsPath: string,
                  read: string -> Option<seq<string>>, table: OptimalTable,
                  metric: (string, Coord, Coord) -> int): Option<Info>
  {
    if !EndsWith(name, ".tsp") then None
    else
      var path := PathJoin(directory, name);
      var r := Metadata(NewInfo(path, resultsPath), Fresh, read(path), table, metric);
      if r.2.Pass? then Some(r.0) else None
  }

  /** `Loaded` for one directory, results path, file system and table. */
  function Loader(directory: string, resultsPath: string, read: string -> Option<seq<string>>,
                  table: OptimalTable, metric: (string, Coord, Coord) -> int): string -> Option<Info>
  {
    name => Loaded(directory, name, resultsPath, read, table, metric)
  }

  /** What one name of the listing adds: its instance, or nothing. */
  function Entry(directory: string, name: string, resultsPath: string,
                 read: string -> Option<seq<string>>, table: OptimalTable,
                 metric: (string, Coord, Coord) -> int): seq<Info>
  {
    var l := Loaded(directory, name, resultsPath, read, table, metric);
    if l.Some? then [l.value] else []
  }

  /** The parser a name of the listing leaves with its instance, if it
      loads. */
  function ParserLoader(directory: string, resultsPath: string, read: string -> Option<seq<string>>,
                        table: OptimalTable, metric: (string, Coord, Coord) -> int): string -> Option<State>
  {
    name => if Loaded(directory, name, resultsPath, read, table, metric).Some?
            then Some(LoadedParser(PathJoin(directory, name), resultsPath, read, table, metric))
            else None
  }

  /** What one name of the listing adds to the parsers: the one its
      instance keeps, or nothing. */
  function ParserEntry(directory: string, name: string, resultsPath: string,
                       read: string -> Option<seq<string>>, table: OptimalTable,
                       metric: (string, Coord, Coord) -> int): seq<State>
  {
    if Loaded(directory, name, resultsPath, read, table, metric).Some?
    then [LoadedParser(PathJoin(directory, name), resultsPath, read, table, metric)]
    else []
  }

  /** The parsers of the instances `load_files` appends, in listing order. */
  function LoadedParsers(directory: string, names: seq<string>, resultsPath: string,
                         read: string -> Option<seq<string>>, table: OptimalTable,
                         metric: (string, Coord, Coord) -> int): seq<State>
  {
    Successes(names, ParserLoader(directory, resultsPath, read, table, metric))
  }

  /** The instances `load_files` appends for a listing, in listing order. */
  function LoadedInfos(directory: string, names: seq<string>, resultsPath: string,
                       read: string -> Option<seq<string>>, table: OptimalTable,
                       metric: (string, Coord, Coord) -> int): seq<Info>
  {
    Successes(names, Loader(directory, resultsPath, read, table, metric))
  }

  /** Reading one more name of the listing appends what that name gives. */
  lemma LoadedInfosStep(directory: string, listing: seq<string>, i: nat, resultsPath: string,
                        read: string -> Option<seq<string>>, table: OptimalTable,
                        metric: (string, Coord, Coord) -> int)
    requires i <= |listing|
    ensures i == 0 ==> LoadedInfos(directory, listing[..i], resultsPath, read, table, metric) == []
    ensures i < |listing| ==>
      LoadedInfos(directory, listing[..i + 1], resultsPath, read, table, metric) ==
        LoadedInfos(directory, listing[..i], resultsPath, read, table, metric) + Entry(directory, listing[i], resultsPath, read, table, metric)
  {
    if i < |listing| {
      assert listing[..i + 1][..i] == listing[..i];
    }
  }

  /** Reading one more name of the listing appends the parser of what that
      name gives. */
  lemma LoadedParsersStep(directory: string, listing: seq<string>, i: nat, resultsPath: string,
                          read: string -> Option<seq<string>>, table: OptimalTable,
                          metric: (string, Coord, Coord) -> int)
    requires i <= |listing|
    ensures i == 0 ==> LoadedParsers(directory, listing[..i], resultsPath, read, table, metric) == []
    ensures i < |listing| ==>
      LoadedParsers(directory, listing[..i + 1], resultsPath, read, table, metric) ==
        LoadedParsers(directory, listing[..i], resultsPath, read, table, metric) + ParserEntry(directory, listing[i], resultsPath, read, table, metric)
  {
    if i < |listing| {
      assert listing[..i + 1][..i] == listing[..i];
    }
  }

  /** An instance that loads has the path it was read from, a positive
      dimension and a supported edge weight type, and nothing is loaded for a
      name without the ".tsp" suffix. */
  lemma LoadedShape(directory: string, name: string, resultsPath: string,
                    read: string -> Option<seq<string>>, table: OptimalTable,
                    metric: (string, Coord, Coord) -> int)
    ensures !EndsWith(name, ".tsp") ==> Loaded(directory, name, resultsPath, read, table, metric).None?
    ensures Loaded(directory, name, resultsPath, read, table, metric).Some? ==>
      var info := Loaded(directory, name, resultsPath, read, table, metric).value;
      info.filePath == PathJoin(directory, name) && info.optimalResultsPath == resultsPath &&
      info.dimension.Some? && info.dimension.value > 0 &&
      info.edgeWeightType.Some? && info.edgeWeightType.value in SupportedTypes
  {
    if EndsWith(name, ".tsp") {
      var path := PathJoin(directory, name);
      var info := NewInfo(path, resultsPath);
      ReadyKept(Fresh, path, read(path));
      if read(path).Some? && Metadata(info, Fresh, read(path), table, metric).2.Pass? {
        MetadataFields(info, Fresh, read(path).value, table, metric);
      }
    }
  }

  /** The listing is read name by name: the instances of a concatenated
      listing are those of its two parts, in order. */
  lemma LoadedInfosConcat(directory: string, a: seq<string>, b: seq<string>, resultsPath: string,
                          read: string -> Option<seq<string>>, table: OptimalTable,
                          metric: (string, Coord, Coord) -> int)
    ensures LoadedInfos(directory, a + b, resultsPath, read, table, metric) ==
      LoadedInfos(directory, a, resultsPath, read, table, metric) + LoadedInfos(directory, b, resultsPath, read, table, metric)
  {
    SuccessesConcat(a, b, Loader(directory, resultsPath, read, table, metric));
  }

  /** A file that loads is never dropped: a listing made only of files that
      load gives one instance per name, in listing order. */
  lemma LoadedInfosAll(directory: string, names: seq<string>, resultsPath: string,
                       read: string -> Option<seq<string>>, table: OptimalTable,
                       metric: (string, Coord, Coord) -> int)
    requires AllLoad(directory, names, resultsPath, read, table, metric)
    ensures var r := LoadedInfos(directory, names, resultsPath, read, table, metric);
      |r| == |names| &&
      forall k :: 0 <= k < |names| ==> r[k] == Loaded(directory, names[k], resultsPath, read, table, metric).value
  {
    SuccessesAll(names, Loader(directory, resultsPath, read, table, metric));
  }

  predicate AllLoad(directory: string, names: seq<string>, resultsPath: string,
                    read: string -> Option<seq<string>>, table: OptimalTable,
                    metric: (string, Coord, Coord) -> int)
  {
    forall k :: 0 <= k < |names| ==> Loaded(directory, names[k], resultsPath, read, table, metric).Some?
  }

  /** One round of the `load_files` loop: a fresh parser and instance for a
      ".tsp" name, kept when `load_metadata` succeeds. */
  method LoadFile(directory: string, name: string, resultsPath: string, read: string -> Option<seq<string>>,
                  table: OptimalTable, metric: (string, Coord, Coord) -> int) returns (f: TspFile?)
    ensures f == null <==> Loaded(directory, name, resultsPath, read, table, metric).None?
    ensures f != null ==>
      fresh(f) && fresh(f.parser) && f.dimension.Some? && Ready(f.parser.Snapshot()) &&
      f.Snapshot() == Loaded(directory, name, resultsPath, read, table, metric).value
    ensures f != null ==> f.parser.Snapshot() == LoadedParser(PathJoin(directory, name), resultsPath, read, table, metric)
  {
    if !EndsWith(name, ".tsp") {
      return null;
    }
    var path := PathJoin(directory, name);
    var parser := new Parser();
    f := new TspFile(path, resultsPath, parser);
    ReadyKept(Fresh, path, read(path));
    var r := f.LoadMetadata(read(path), table, metric);
    LoadedShape(directory, name, resultsPath, read, table, metric);
    if r.Fail? {
      f := null;
    }
  }

  // ------------------------------------------------------- get_file_by_name

  /** The index of the first instance called `name`. */
  function FirstNamed(infos: seq<Info>, name: string): (r: Option<nat>)
    ensures r.None? <==> forall k :: 0 <= k < |infos| ==> infos[k].name != Some(name)
    ensures r.Some? ==> r.value < |infos| && infos[r.value].name == Some(name) &&
                        forall k :: 0 <= k < r.value ==> infos[k].name != Some(name)
  {
    if infos == [] then None
    else if infos[0].name == Some(name) then Some(0)
    else match FirstNamed(infos[1..], name)
      case None => None
      case Some(k) => Some(k + 1)
  }

  // ----------------------------------------------------- sort_by_dimension

  /** The instances keyed by their dimension. */
  function Keyed(fs: seq<TspFile>): (r: seq<(int, TspFile)>)
    requires forall k :: 0 <= k < |fs| ==> fs[k].dimension.Some?
    reads set f | f in fs
    ensures |r| == |fs|
    ensures forall k :: 0 <= k < |fs| ==> r[k] == (fs[k].dimension.value, fs[k])
  {
    if fs == [] then [] else Keyed(fs[..|fs| - 1]) + [(fs[|fs| - 1].dimension.value, fs[|fs| - 1])]
  }

  // ------------------------------------------- filter_by_edge_weight_type

  /** The instances whose edge weight type is `t`, in catalog order. */
  function OfType(fs: seq<TspFile>, t: string): (r: seq<TspFile>)
    reads set f | f in fs
    ensures |r| <= |fs|
    ensures forall k :: 0 <= k < |r| ==> r[k] in fs && r[k].edgeWeightType == Some(t)
    ensures forall k :: 0 <= k < |fs| && fs[k].edgeWeightType == Some(t) ==> fs[k] in r
  {
    if fs == [] then []
    else
      var n := |fs| - 1;
      OfType(fs[..n], t) + (if fs[n].edgeWeightType == Some(t) then [fs[n]] else [])
  }

  /** The filter keeps order: filtering a concatenation filters each part. */
  lemma {:induction false} OfTypeConcat(a: seq<TspFile>, b: seq<TspFile>, t: string)
    ensures OfType(a + b, t) == OfType(a, t) + OfType(b, t)
  {
    if b == [] {
      assert a + b == a;
    } else {
      var n := |b| - 1;
      var last := if b[n].edgeWeightType == Some(t) then [b[n]] else [];
      assert (a + b)[..|a + b| - 1] == a + b[..n];
      assert (a + b)[|a + b| - 1] == b[n];
      assert OfType(a + b, t) == OfType(a + b[..n], t) + last;
      assert OfType(b, t) == OfType(b[..n], t) + last;
      hide *;
      OfTypeConcat(a, b[..n], t);
    }
  }

  // ---------------------------------------------------------------- class

  class Catalog {
    var files: seq<TspFile>
    const optimalResultsPath: string

    /** Every instance in the catalog was loaded: it has a dimension and a
        parser whose matrix can be generated; no instance is listed twice,
        and each has a parser of its own. */
    ghost predicate Valid()
      reads this, set f | f in files, set f | f in files :: f.parser
    {
      (forall f :: f in files ==> f.dimension.Some? && Ready(f.parser.Snapshot())) &&
      Distinct(files) && OwnParsers(files)
    }

    constructor(optimalResultsPath: string)
      ensures Valid() && files == [] && this.optimalResultsPath == optimalResultsPath
    {
      files := [];
      this.optimalResultsPath := optimalResultsPath;
    }

    /** `clear_files` */
    method ClearFiles()
      modifies this
      ensures Valid() && files == []
    {
      files := [];
    }

    /** `load_files`: every ".tsp" name of the listing gets a fresh parser and
        instance; the instances whose `load_metadata` succeeds are appended
        in listing order, after what the catalog held. */
    method LoadFiles(directory: string, listing: seq<string>, read: string -> Option<seq<string>>,
                     table: OptimalTable, metric: (string, Coord, Coord) -> int)
      requires Valid()
      modifies this
      ensures Valid()
      ensures |files| >= |old(files)| && files[..|old(files)|] == old(files)
      ensures InfosOf(files) == old(InfosOf(files)) + LoadedInfos(directory, listing, optimalResultsPath, read, table, metric)
      ensures ParsersOf(files) == old(ParsersOf(files)) + LoadedParsers(directory, listing, optimalResultsPath, read, table, metric)
    {
      hide *;
      LoadedInfosStep(directory, listing, 0, optimalResultsPath, read, table, metric);
      LoadedParsersStep(directory, listing, 0, optimalResultsPath, read, table, metric);
      ghost var start := InfosOf(files);
      ghost var parsers := ParsersOf(files);
      var i := 0;
      while i < |listing|
        invariant 0 <= i <= |listing|
        invariant Valid()
        invariant |files| >= |old(files)| && files[..|old(files)|] == old(files)
        invariant InfosOf(files) == start + LoadedInfos(directory, listing[..i], optimalResultsPath, read, table, metric)
        invariant ParsersOf(files) == parsers + LoadedParsers(directory, listing[..i], optimalResultsPath, read, table, metric)
      {
        LoadedInfosStep(directory, listing, i, optimalResultsPath, read, table, metric);
        LoadedParsersStep(directory, listing, i, optimalResultsPath, read, table, metric);
        ghost var prefix := files;
        LoadNext(directory, listing[i], read, table, metric);
        ConcatAssoc(start, LoadedInfos(directory, listing[..i], optimalResultsPath, read, table, metric),
                    Entry(directory, listing[i], optimalResultsPath, read, table, metric));
        ConcatAssoc(parsers, LoadedParsers(directory, listing[..i], optimalResultsPath, read, table, metric),
                    ParserEntry(directory, listing[i], optimalResultsPath, read, table, metric));
        assert files[..|old(files)|] == prefix[..|old(files)|];
        i := i + 1;
      }
      assert listing[..i] == listing;
    }

    /** One round of the `load_files` loop: the instance of `name`, if it
        loads, is appended, and its parser is the one `load_metadata` left. */
    method LoadNext(directory: string, name: string, read: string -> Option<seq<string>>,
                    table: OptimalTable, metric: (string, Coord, Coord) -> int)
      requires Valid()
      modifies this
      ensures Valid() && |files| >= |old(files)| && files[..|old(files)|] == old(files)
      ensures InfosOf(files) == old(InfosOf(files)) + Entry(directory, name, optimalResultsPath, read, table, metric)
      ensures ParsersOf(files) == old(ParsersOf(files)) + ParserEntry(directory, name, optimalResultsPath, read, table, metric)
    {
      hide LoadedParser, Metadata, Ready, Distinct, OwnParsers, InfosOf, ParsersOf, Valid, PathJoin, EndsWith, NewInfo;
      ghost var before := InfosOf(files);
      ghost var parsers := ParsersOf(files);
      ghost var owned := set g | g in files :: g.parser;
      var f := LoadFile(directory, name, optimalResultsPath, read, table, metric);
      ghost var grown := if f == null then files else files + [f];
      ghost var infos := before + Entry(directory, name, optimalResultsPath, read, table, metric);
      ghost var states := parsers + ParserEntry(directory, name, optimalResultsPath, read, table, metric);
      if f != null {
        assert forall g :: g in files ==> g.parser in owned;
        Add(f);
      }
      assert files == grown;
      forall i | 0 <= i < |files|
        ensures files[i].Snapshot() == infos[i] && files[i].parser.Snapshot() == states[i]
      {
      }
      InfosSame(files, infos);
      ParsersSame(files, states);
    }

    /** Appends one instance that was just loaded. */
    method Add(f: TspFile)
      requires Valid() && f !in files && f.dimension.Some? && Ready(f.parser.Snapshot())
      requires forall g :: g in files ==> g.parser != f.parser
      modifies this
      ensures Valid() && files == old(files) + [f]
    {
      DistinctAppend(files, f);
      files := files + [f];
    }

    /** `get_file_by_name`: the first instance called `name`, or nothing. */
    method GetFileByName(name: string) returns (r: TspFile?)
      ensures var k := FirstNamed(InfosOf(files), name);
        if k.None? then r == null else r == files[k.value]
    {
      var i := 0;
      while i < |files|
        invariant 0 <= i <= |files|
        invariant forall k :: 0 <= k < i ==> files[k].name != Some(name)
      {
        if files[i].name == Some(name) {
          return files[i];
        }
        i := i + 1;
      }
      return null;
    }

    /** `sort_by_dimension`: a stable sort of the list by dimension; the
        instances themselves are not touched. */
    method SortByDimension()
      requires Valid()
      modifies this
      ensures Valid()
      ensures Keyed(files) == SortByKey(Keyed(old(files)))
      ensures multiset(Keyed(files)) == multiset(Keyed(old(files)))
      ensures forall j, k :: 0 <= j < k < |files| ==> files[j].dimension.value <= files[k].dimension.value
      ensures forall d :: WithKey(Keyed(files), d) == WithKey(Keyed(old(files)), d)
    {
      hide *;
      ValidMeans(this);
      var keyed := Keyed(files);
      var sorted := SortByKey(keyed);
      SortPermutes(keyed);
      var result := Items(sorted);
      SortedKeys(keyed, sorted, result);
      SortedValid(files, result, keyed, sorted);
      OwnParsersKept(files, result);
      forall d
        ensures WithKey(sorted, d) == WithKey(keyed, d)
      {
        SortStable(keyed, d);
      }
      files := result;
      ValidMeans(this);
      assert Keyed(files) == sorted;
      assert multiset(Keyed(files)) == multiset(keyed);
    }

    /** `filter_by_edge_weight_type` */
    function FilterByEdgeWeightType(t: string): (r: seq<TspFile>)
      reads this, set f | f in files
      ensures r == OfType(files, t)
    {
      OfType(files, t)
    }

    /** `load_distance_matrix_for_file`: the first instance called `name`
        loads its matrix, and no other instance or parser changes. The
        loader's error, if it raises, is passed on. */
    method LoadDistanceMatrixForFile(name: string, metric: (string, Coord, Coord) -> int)
      returns (r: TspFile?, o: Outcome<ParseError>)
      requires Valid()
      modifies set f | f in files, set f | f in files :: f.parser
      ensures Valid() && files == old(files)
      ensures var k := FirstNamed(old(InfosOf(files)), name);
        if k.None? then r == null && o == Pass && InfosOf(files) == old(InfosOf(files)) &&
          ParsersOf(files) == old(ParsersOf(files))
        else
          var l := LoadDistance(old(files[k.value].Snapshot()), old(files[k.value].parser.Snapshot()), metric);
          r == files[k.value] && o == l.2 && InfosOf(files) == old(InfosOf(files))[k.value := l.0] &&
          ParsersOf(files) == old(ParsersOf(files))[k.value := l.1]
    {
      hide *;
      r := GetFileByName(name);
      if r == null {
        return r, Pass;
      }
      ghost var k := FirstNamed(InfosOf(files), name).value;
      o := LoadAt(k, r, metric);
    }

    /** The matrix load of the instance at index `k`. */
    method LoadAt(ghost k: nat, f: TspFile, metric: (string, Coord, Coord) -> int) returns (o: Outcome<ParseError>)
      requires Valid() && k < |files| && f == files[k]
      modifies f, f.parser
      ensures Valid()
      ensures var l := LoadDistance(old(files[k].Snapshot()), old(files[k].parser.Snapshot()), metric);
        o == l.2 && InfosOf(files) == old(InfosOf(files))[k := l.0] && ParsersOf(files) == old(ParsersOf(files))[k := l.1]
    {
      hide LoadDistance, InfosOf, ParsersOf;
      ghost var before := InfosOf(files);
      ghost var parsers := ParsersOf(files);
      o := f.LoadDistanceMatrix(metric);
      forall j | 0 <= j < |files| && j != k
        ensures files[j].Snapshot() == before[j]
      {
        assert files[j] != f by {
          if j < k {
            assert files[j] != files[k];
          } else {
            assert files[k] != files[j];
          }
        }
      }
      assert InfosOf(files) == before[k := f.Snapshot()];
      forall j | 0 <= j < |files| && j != k
        ensures files[j].parser.Snapshot() == parsers[j]
      {
        assert files[j] != f by {
          if j < k {
            assert files[j] != files[k];
          } else {
            assert files[k] != files[j];
          }
        }
        assert files[j].parser != f.parser;
      }
      assert ParsersOf(files) == parsers[k := f.parser.Snapshot()];
      forall g | g in files
        ensures g.dimension.Some? && Ready(g.parser.Snapshot())
      {
        if g.parser != f.parser {
          assert g.parser.Snapshot() == old(g.parser.Snapshot());
        }
      }
    }
  }

  /** What `Valid` says, for a method that hides function bodies. */
  lemma ValidMeans(c: Catalog)
    ensures c.Valid() <==>
      (forall f :: f in c.files ==> f.dimension.Some? && Ready(f.parser.Snapshot())) && Distinct(c.files) &&
      OwnParsers(c.files)
  {
  }

  lemma DistinctAppend<T>(s: seq<T>, x: T)
    requires Distinct(s) && x !in s
    ensures Distinct(s + [x])
  {
  }

  /** Reordering the list keeps every instance it lists, each once. */
  lemma SortedValid(fs: seq<TspFile>, result: seq<TspFile>, keyed: seq<(int, TspFile)>, sorted: seq<(int, TspFile)>)
    requires Distinct(fs)
    requires |keyed| == |fs| && forall k :: 0 <= k < |fs| ==> keyed[k].1 == fs[k]
    requires multiset(sorted) == multiset(keyed)
    requires forall k :: 0 <= k < |sorted| ==> sorted[k].1.dimension.Some? && sorted[k].0 == sorted[k].1.dimension.value
    requires |result| == |sorted| && forall k :: 0 <= k < |sorted| ==> result[k] == sorted[k].1
    ensures forall f :: f in result ==> f in fs
    ensures Distinct(result)
  {
    forall f | f in result
      ensures f in fs
    {
      var k :| 0 <= k < |result| && result[k] == f;
      assert sorted[k] in multiset(keyed);
      var m :| 0 <= m < |keyed| && keyed[m] == sorted[k];
      assert fs[m] == result[k];
    }
    assert Distinct(keyed) by {
      forall j, k | 0 <= j < k < |keyed|
        ensures keyed[j] != keyed[k]
      {
        assert keyed[j].1 == fs[j] && keyed[k].1 == fs[k];
      }
    }
    DistinctPerm(keyed, sorted);
  }

  /** The key-ordered pairs come from the catalog, whose keys are the
      dimensions, so the reordered list has the sorted pairs as its keys. */
  lemma SortedKeys(keyed: seq<(int, TspFile)>, sorted: seq<(int, TspFile)>, result: seq<TspFile>)
    requires multiset(sorted) == multiset(keyed)
    requires forall k :: 0 <= k < |keyed| ==> keyed[k].1.dimension.Some? && keyed[k].0 == keyed[k].1.dimension.value
    requires |result| == |sorted| && forall k :: 0 <= k < |sorted| ==> result[k] == sorted[k].1
    requires SortedByKey(sorted)
    ensures forall k :: 0 <= k < |result| ==> result[k].dimension.Some?
    ensures Keyed(result) == sorted
    ensures forall j, k :: 0 <= j < k < |result| ==> result[j].dimension.value <= result[k].dimension.value
  {
    forall k | 0 <= k < |sorted|
      ensures sorted[k].1.dimension.Some? && sorted[k].0 == sorted[k].1.dimension.value
    {
      assert sorted[k] in multiset(keyed);
      var j :| 0 <= j < |keyed| && keyed[j] == sorted[k];
    }
  }
}
