/** One TSP instance of the catalog (`TSPFile`): its metadata read through a
    parser of its own, the optimal tour length looked up by file stem, and a
    distance matrix loaded at most once. */
module TspInstance {
  import opened Wrappers
  import opened Text
  import opened TsplibHeader
  import opened TsplibSections
  import opened TsplibParser

  // ------------------------------------------------------------ paths and stems

  /** `os.path.basename`: the text after the last '/'. */
  function Basename(path: string): (r: string)
    ensures '/' !in r
    ensures |r| <= |path| && path[|path| - |r|..] == r
    ensures |r| == |path| || path[|path| - |r| - 1] == '/'
  {
    var parts := SplitOn(path, '/');
    SplitOnLastSuffix(path, '/');
    parts[|parts| - 1]
  }

  /** `os.path.join(directory, name)`: an absolute name wins, otherwise a
      separator is put between the two unless the directory is empty or
      already ends with one. */
  function PathJoin(directory: string, name: string): string {
    if name != [] && name[0] == '/' then name
    else if directory == [] || directory[|directory| - 1] == '/' then directory + name
    else directory + "/" + name
  }

  /** Joining a directory and a plain file name and taking the base name
      gives the file name back. */
  lemma BasenameOfJoin(directory: string, name: string)
    requires '/' !in name
    ensures Basename(PathJoin(directory, name)) == name
  {
    if name != [] && name[0] == '/' {
    } else if directory == [] {
      assert directory + name == name;
      SplitOnNoSeparator(name, '/');
    } else if directory[|directory| - 1] == '/' {
      var d := directory[..|directory| - 1];
      assert directory == d + ['/'];
      assert d + ['/'] + name == d + "/" + name;
      JoinedBasename(d, name);
    } else {
      JoinedBasename(directory, name);
    }
  }

  lemma JoinedBasename(directory: string, name: string)
    requires '/' !in name
    ensures Basename(directory + "/" + name) == name
  {
    assert directory + "/" + name == directory + ['/'] + name;
    SplitOnLast(directory, name, '/');
  }

  /** `s.replace(pattern, "")`: every occurrence, scanning left to right
      without overlaps, is removed. The text changes, and then shrinks,
      exactly when the pattern occurs in it. */
  function RemoveAll(s: string, pattern: string): (r: string)
    requires pattern != []
    ensures |r| <= |s|
    ensures Contains(s, pattern) <==> |r| < |s|
    ensures !Contains(s, pattern) ==> r == s
    decreases |s|
  {
    if |s| < |pattern| then
      ContainsIff(s, pattern);
      s
    else if s[..|pattern|] == pattern then RemoveAll(s[|pattern|..], pattern)
    else [s[0]] + RemoveAll(s[1..], pattern)
  }

  /** The key of a file in the optimal results table. */
  function Stem(path: string): string {
    RemoveAll(Basename(path), ".tsp")
  }

  /** A name without a dot loses exactly its ".tsp" extension. */
  lemma {:induction false} StemOfName(name: string)
    requires '.' !in name
    ensures RemoveAll(name + ".tsp", ".tsp") == name
  {
    if name == [] {
      assert ("" + ".tsp")[4..] == "";
    } else {
      assert (name + ".tsp")[..4] != ".tsp" by {
        if |name| >= 4 {
          assert (name + ".tsp")[..4][0] == name[0];
        } else {
          assert (name + ".tsp")[..4][|name|] == '.';
        }
      }
      assert (name + ".tsp")[1..] == name[1..] + ".tsp";
      StemOfName(name[1..]);
      assert [name[0]] + name[1..] == name;
    }
  }

  /** Every occurrence goes, not just a trailing extension. */
  lemma StemRemovesEveryOccurrence()
    ensures RemoveAll("a.tsp.tsp", ".tsp") == "a"
  {
    var s := "a.tsp.tsp";
    assert s[..4] != ".tsp" by { assert s[0] == 'a'; }
    assert s[1..] == ".tsp.tsp";
    assert s[1..][..4] == ".tsp" && s[1..][4..] == ".tsp";
    assert s[1..][4..][..4] == ".tsp" && s[1..][4..][4..] == "";
  }

  /** One pass only: removing the inner ".tsp" of ".t.tspsp" joins a new one,
      which stays. */
  lemma StemMayLeaveOccurrence()
    ensures RemoveAll(".t.tspsp", ".tsp") == ".tsp"
  {
    var p := ".tsp";
    assert ".t.tspsp"[..4] != p by { assert ".t.tspsp"[1] == 't'; }
    assert RemoveAll(".t.tspsp", p) == ['.'] + RemoveAll("t.tspsp", p) by {
      assert ".t.tspsp"[1..] == "t.tspsp";
    }
    assert "t.tspsp"[..4] != p by { assert "t.tspsp"[0] == 't'; }
    assert RemoveAll("t.tspsp", p) == ['t'] + RemoveAll(".tspsp", p) by {
      assert "t.tspsp"[1..] == ".tspsp";
    }
    assert RemoveAll(".tspsp", p) == "sp" by {
      assert ".tspsp"[..4] == p && ".tspsp"[4..] == "sp";
    }
  }

  // ---------------------------------------------------------- optimal results

  /** What reading the optimal results JSON file gives: no such file, text
      that is not JSON, JSON whose top level is not an object, or an object
      mapping instance names to tour lengths. */
  datatype OptimalTable = NoFile | Malformed | NotADict | Table(entries: map<string, int>)

  /** `load_optimal_results`: the entry under the file's stem; every way of
      not finding it gives None, and none of them raises. */
  function OptimalResult(filePath: string, resultsPath: string, table: OptimalTable): Option<int> {
    if resultsPath == [] then None
    else match table
      case Table(entries) =>
        var key := Stem(filePath);
        if key in entries then Some(entries[key]) else None
      case _ => None
  }

  /** The optimal result is found exactly when a results path is set, the
      file holds an object, and the object has the stem as a key. */
  lemma OptimalResultFound(filePath: string, resultsPath: string, table: OptimalTable)
    ensures var r := OptimalResult(filePath, resultsPath, table);
      (r.Some? <==> resultsPath != [] && table.Table? && Stem(filePath) in table.entries) &&
      (r.Some? ==> r.value == table.entries[Stem(filePath)])
  {
  }

  /** A file `name.tsp` in any directory is looked up under `name`. */
  lemma OptimalResultByName(directory: string, name: string, resultsPath: string, entries: map<string, int>)
    requires '/' !in name && '.' !in name
    requires resultsPath != [] && name in entries
    ensures OptimalResult(PathJoin(directory, name + ".tsp"), resultsPath, Table(entries)) == Some(entries[name])
  {
    assert '/' !in name + ".tsp";
    BasenameOfJoin(directory, name + ".tsp");
    StemOfName(name);
  }

  // --------------------------------------------------------------- the state

  /** The attributes of a `TSPFile`, apart from its parser. */
  datatype Info = Info(
    filePath: string,
    name: Option<string>,
    kind: Option<string>,
    dimension: Option<int>,
    edgeWeightType: Option<string>,
    edgeWeightFormat: Option<string>,
    coordinates: seq<Coord>,
    displayCoordinates: seq<Coord>,
    distanceMatrix: seq<seq<int>>,
    hasLoaded: bool,
    optimalResult: Option<int>,
    optimalResultsPath: string)

  function NewInfo(filePath: string, resultsPath: string): Info {
    Info(filePath, None, None, None, None, None, [], [], [], false, None, resultsPath)
  }

  /** `get_distance_matrix`: nothing until the matrix has been loaded. */
  function MatrixView(info: Info): (r: Option<seq<seq<int>>>)
    ensures r.Some? <==> info.hasLoaded
  {
    if info.hasLoaded then Some(info.distanceMatrix) else None
  }

  /** `load_distance_matrix`: the parser generates the matrix only on the
      first successful call; a failed generation leaves the flag down. */
  function LoadDistance(info: Info, ps: State, metric: (string, Coord, Coord) -> int): (r: (Info, State, Outcome<ParseError>))
    requires Ready(ps)
    ensures Ready(r.1)
    ensures r.2.Pass? ==> r.0.hasLoaded
    ensures info.hasLoaded ==> r == (info, ps, Pass)
    ensures r.0 == info.(distanceMatrix := r.0.distanceMatrix, hasLoaded := r.0.hasLoaded)
  {
    if info.hasLoaded then (info, ps, Pass)
    else
      var (p, o) := Generate(ps, metric);
      if o.Fail? then (info, p, o)
      else (info.(distanceMatrix := p.distanceMatrix, hasLoaded := true), p, Pass)
  }

  /** Once loaded, loading again changes neither the file nor its parser. */
  lemma LoadDistanceIdempotent(info: Info, ps: State, metric: (string, Coord, Coord) -> int)
    requires Ready(ps)
    ensures var (i1, p1, o1) := LoadDistance(info, ps, metric);
      o1.Pass? ==> LoadDistance(i1, p1, metric) == (i1, p1, Pass)
  {
  }

  /** The first successful load raises the flag and takes the parser's
      matrix; until then the matrix is hidden. */
  lemma LoadDistanceFirst(info: Info, ps: State, metric: (string, Coord, Coord) -> int)
    requires Ready(ps) && !info.hasLoaded
    ensures MatrixView(info) == None
    ensures var (i1, p1, o1) := LoadDistance(info, ps, metric);
      o1 == Generate(ps, metric).1 && p1 == Generate(ps, metric).0 &&
      (o1.Pass? ==> MatrixView(i1) == Some(p1.distanceMatrix))
  {
  }

  /** The header fields `load_metadata` reads after validation, in order. */
  datatype FieldStep = ReadName | ReadKind | ReadDimension | ReadEdgeType | ReadFormat

  const HeaderSteps: seq<FieldStep> := [ReadName] + ([ReadKind] + ([ReadDimension] + ([ReadEdgeType] + [ReadFormat])))

  /** One field read with `get_field_value` and stored; DIMENSION goes
      through `int` first. */
  function ReadStep(info: Info, lines: seq<string>, step: FieldStep): (r: Result<Info, ParseError>)
    ensures r.Success? ==> r.value == info.(name := r.value.name, kind := r.value.kind, dimension := r.value.dimension,
                                            edgeWeightType := r.value.edgeWeightType,
                                            edgeWeightFormat := r.value.edgeWeightFormat)
  {
    match step
    case ReadName =>
      (match FieldValue(lines, "NAME", false)
       case Failure(e) => Failure(e)
       case Success(v) => Success(info.(name := v)))
    case ReadKind =>
      (match FieldValue(lines, "TYPE", false)
       case Failure(e) => Failure(e)
       case Success(v) => Success(info.(kind := v)))
    case ReadDimension =>
      (match FieldValue(lines, "DIMENSION", false)
       case Failure(e) => Failure(e)
       case Success(d) =>
         match ParseInt(d.value)
         case None => Failure(BadInteger(d.value))
         case Some(n) => Success(info.(dimension := Some(n))))
    case ReadEdgeType =>
      (match FieldValue(lines, "EDGE_WEIGHT_TYPE", false)
       case Failure(e) => Failure(e)
       case Success(v) => Success(info.(edgeWeightType := v)))
    case ReadFormat =>
      (match FieldValue(lines, "EDGE_WEIGHT_FORMAT", true)
       case Failure(e) => Failure(e)
       case Success(v) => Success(info.(edgeWeightFormat := v)))
  }

  /** The steps in order; the fields read before a failing one stay set. */
  function ReadSteps(info: Info, lines: seq<string>, steps: seq<FieldStep>): (r: (Info, Outcome<ParseError>))
    decreases |steps|
    ensures r.0 == info.(name := r.0.name, kind := r.0.kind, dimension := r.0.dimension,
                         edgeWeightType := r.0.edgeWeightType, edgeWeightFormat := r.0.edgeWeightFormat)
  {
    if steps == [] then (info, Pass)
    else match ReadStep(info, lines, steps[0])
      case Failure(e) => (info, Fail(e))
      case Success(next) => ReadSteps(next, lines, steps[1..])
  }

  lemma ReadStepsNext(info: Info, lines: seq<string>, step: FieldStep, rest: seq<FieldStep>)
    ensures var s := ReadStep(info, lines, step);
      ReadSteps(info, lines, [step] + rest) ==
        if s.Failure? then (info, Fail(s.error)) else ReadSteps(s.value, lines, rest)
  {
    assert ([step] + rest)[1..] == rest;
  }


  /** The field reads of `load_metadata`, then the optimal result, which
      never fails. */
  function ReadFields(info: Info, lines: seq<string>, table: OptimalTable): (r: (Info, Outcome<ParseError>))
    ensures r.0 == info.(name := r.0.name, kind := r.0.kind, dimension := r.0.dimension,
                         edgeWeightType := r.0.edgeWeightType, edgeWeightFormat := r.0.edgeWeightFormat,
                         optimalResult := r.0.optimalResult)
  {
    var (i, o) := ReadSteps(info, lines, HeaderSteps);
    if o.Fail? then (i, o)
    else (i.(optimalResult := OptimalResult(info.filePath, info.optimalResultsPath, table)), Pass)
  }

  /** On an accepted header every field is read: the dimension is the value
      of the digit string and the type and format are the header's. */
  lemma ReadFieldsAccepted(info: Info, lines: seq<string>, table: OptimalTable)
    requires ReadHeader(lines).Success?
    ensures var h := ReadHeader(lines).value;
      ValidDimension(Value(lines, "DIMENSION")) &&
      ReadFields(info, lines, table) ==
        (info.(name := Some(Value(lines, "NAME")), kind := Some(Value(lines, "TYPE")),
               dimension := Some(DigitsValue(Value(lines, "DIMENSION"))),
               edgeWeightType := Some(h.edgeWeightType), edgeWeightFormat := h.edgeWeightFormat,
               optimalResult := OptimalResult(info.filePath, info.optimalResultsPath, table)), Pass)
  {
    HeaderValues(lines);
    ReadPresentFields(info, lines, table);
  }

  lemma HeaderValues(lines: seq<string>)
    requires ReadHeader(lines).Success?
    ensures Present(lines, "NAME") && Present(lines, "TYPE") && Present(lines, "DIMENSION")
    ensures Present(lines, "EDGE_WEIGHT_TYPE") && ValidDimension(Value(lines, "DIMENSION"))
    ensures FieldValue(lines, "EDGE_WEIGHT_FORMAT", true).Success?
    ensures ReadHeader(lines).value ==
      Header(Value(lines, "EDGE_WEIGHT_TYPE"), FieldValue(lines, "EDGE_WEIGHT_FORMAT", true).value)
  {
    ReadHeaderAccepts(lines);
  }

  lemma ReadPresentFields(info: Info, lines: seq<string>, table: OptimalTable)
    requires Present(lines, "NAME") && Present(lines, "TYPE") && Present(lines, "DIMENSION")
    requires Present(lines, "EDGE_WEIGHT_TYPE") && ValidDimension(Value(lines, "DIMENSION"))
    requires FieldValue(lines, "EDGE_WEIGHT_FORMAT", true).Success?
    ensures ReadFields(info, lines, table) ==
      (info.(name := Some(Value(lines, "NAME")), kind := Some(Value(lines, "TYPE")),
             dimension := Some(DigitsValue(Value(lines, "DIMENSION"))),
             edgeWeightType := Some(Value(lines, "EDGE_WEIGHT_TYPE")),
             edgeWeightFormat := FieldValue(lines, "EDGE_WEIGHT_FORMAT", true).value,
             optimalResult := OptimalResult(info.filePath, info.optimalResultsPath, table)), Pass)
  {
    var i1 := info.(name := Some(Value(lines, "NAME")));
    var i2 := i1.(kind := Some(Value(lines, "TYPE")));
    var i3 := i2.(dimension := Some(DigitsValue(Value(lines, "DIMENSION")) as int));
    var i4 := i3.(edgeWeightType := Some(Value(lines, "EDGE_WEIGHT_TYPE")));
    var i5 := i4.(edgeWeightFormat := FieldValue(lines, "EDGE_WEIGHT_FORMAT", true).value);
    hide *;
    NameRead(info, lines);
    KindRead(i1, lines);
    DimensionRead(i2, lines);
    EdgeTypeRead(i3, lines);
    FormatRead(i4, lines);
    StepThrough(info, lines, ReadName, [ReadKind] + ([ReadDimension] + ([ReadEdgeType] + [ReadFormat])), i1);
    StepThrough(i1, lines, ReadKind, [ReadDimension] + ([ReadEdgeType] + [ReadFormat]), i2);
    StepThrough(i2, lines, ReadDimension, [ReadEdgeType] + [ReadFormat], i3);
    StepThrough(i3, lines, ReadEdgeType, [ReadFormat], i4);
    StepThrough(i4, lines, ReadFormat, [], i5);
    NoSteps(i5, lines);
    HeaderStepsOrder();
    ReadFieldsPass(info, lines, table, i5);
  }

  lemma NameRead(info: Info, lines: seq<string>)
    requires Present(lines, "NAME")
    ensures ReadStep(info, lines, ReadName) == Success(info.(name := Some(Value(lines, "NAME"))))
  {
  }

  lemma KindRead(info: Info, lines: seq<string>)
    requires Present(lines, "TYPE")
    ensures ReadStep(info, lines, ReadKind) == Success(info.(kind := Some(Value(lines, "TYPE"))))
  {
  }

  lemma DimensionRead(info: Info, lines: seq<string>)
    requires Present(lines, "DIMENSION") && ValidDimension(Value(lines, "DIMENSION"))
    ensures ReadStep(info, lines, ReadDimension) ==
      Success(info.(dimension := Some(DigitsValue(Value(lines, "DIMENSION")) as int)))
  {
    assert ParseInt(Value(lines, "DIMENSION")) == Some(DigitsValue(Value(lines, "DIMENSION")) as int);
  }

  lemma EdgeTypeRead(info: Info, lines: seq<string>)
    requires Present(lines, "EDGE_WEIGHT_TYPE")
    ensures ReadStep(info, lines, ReadEdgeType) == Success(info.(edgeWeightType := Some(Value(lines, "EDGE_WEIGHT_TYPE"))))
  {
  }

  lemma FormatRead(info: Info, lines: seq<string>)
    requires FieldValue(lines, "EDGE_WEIGHT_FORMAT", true).Success?
    ensures ReadStep(info, lines, ReadFormat) ==
      Success(info.(edgeWeightFormat := FieldValue(lines, "EDGE_WEIGHT_FORMAT", true).value))
  {
  }

  lemma NoSteps(info: Info, lines: seq<string>)
    ensures ReadSteps(info, lines, []) == (info, Pass)
  {
  }

  lemma HeaderStepsOrder()
    ensures HeaderSteps == [ReadName] + ([ReadKind] + ([ReadDimension] + ([ReadEdgeType] + [ReadFormat])))
  {
  }

  lemma ReadFieldsPass(info: Info, lines: seq<string>, table: OptimalTable, read: Info)
    requires ReadSteps(info, lines, HeaderSteps) == (read, Pass)
    ensures ReadFields(info, lines, table) ==
      (read.(optimalResult := OptimalResult(info.filePath, info.optimalResultsPath, table)), Pass)
  {
  }

  /** A step that fails ends the reads with its error. */
  lemma StepStops(info: Info, lines: seq<string>, step: FieldStep, rest: seq<FieldStep>, e: ParseError)
    requires ReadStep(info, lines, step) == Failure(e)
    ensures ReadSteps(info, lines, [step] + rest) == (info, Fail(e))
  {
  }

  lemma ReadFieldsFail(info: Info, lines: seq<string>, table: OptimalTable, e: ParseError)
    requires ReadSteps(info, lines, HeaderSteps).1 == Fail(e)
    ensures ReadFields(info, lines, table) == (ReadSteps(info, lines, HeaderSteps).0, Fail(e))
  {
  }

  /** A step that succeeds hands its record to the remaining steps. */
  lemma StepThrough(info: Info, lines: seq<string>, step: FieldStep, rest: seq<FieldStep>, next: Info)
    requires ReadStep(info, lines, step) == Success(next)
    ensures ReadSteps(info, lines, [step] + rest) == ReadSteps(next, lines, rest)
  {
    assert ([step] + rest)[1..] == rest;
  }

  /** The tail of `load_metadata`: DISPLAY_DATA_TYPE decides whether the
      display coordinates are read. */
  function ReadDisplay(info: Info, lines: seq<string>): (r: (Info, Outcome<ParseError>))
    ensures r.0 == info.(displayCoordinates := r.0.displayCoordinates)
    ensures r.0 != info ==> FieldValue(lines, "DISPLAY_DATA_TYPE", true) == Success(Some("TWOD_DISPLAY"))
    ensures r.1.Pass? && FieldValue(lines, "DISPLAY_DATA_TYPE", true) == Success(Some("TWOD_DISPLAY")) ==>
      DisplayCoordinates(lines) == Success(r.0.displayCoordinates)
  {
    match FieldValue(lines, "DISPLAY_DATA_TYPE", true)
    case Failure(e) => (info, Fail(e))
    case Success(dt) =>
      if dt == Some("TWOD_DISPLAY") then
        match DisplayCoordinates(lines)
        case Failure(e) => (info, Fail(e))
        case Success(dc) => (info.(displayCoordinates := dc), Pass)
      else (info, Pass)
  }

  /** `load_metadata`: validate, read the header fields, take the
      coordinates (non-EXPLICIT) or load the matrix (EXPLICIT), then the
      display coordinates. The first step that raises stops it, with what
      was set before it kept. */
  function Metadata(info: Info, ps: State, file: Option<seq<string>>, table: OptimalTable,
                    metric: (string, Coord, Coord) -> int): (r: (Info, State, Outcome<ParseError>))
    requires Ready(ps)
    ensures Ready(r.1)
    ensures r.0.filePath == info.filePath && r.0.optimalResultsPath == info.optimalResultsPath
  {
    var (p1, o1) := Validate(ps, info.filePath, file);
    if o1.Fail? then (info, p1, o1)
    else Loaded(info, p1, file.value, table, metric)
  }

  /** The part of `load_metadata` after the parser has accepted the file:
      header fields, then the coordinates or the explicit matrix, then the
      display data. */
  function Loaded(info: Info, ps: State, lines: seq<string>, table: OptimalTable,
                  metric: (string, Coord, Coord) -> int): (r: (Info, State, Outcome<ParseError>))
    requires Ready(ps)
    ensures Ready(r.1)
    ensures r.0.filePath == info.filePath && r.0.optimalResultsPath == info.optimalResultsPath
  {
    var (i5, o5) := ReadFields(info, lines, table);
    if o5.Fail? then (i5, ps, o5)
    else
      var t := i5.edgeWeightType;
      var i6 := if t != Some("EXPLICIT") then i5.(coordinates := ps.coordinates) else i5;
      var (i7, p2, o2) := if t == Some("EXPLICIT") then LoadDistance(i6, ps, metric) else (i6, ps, Pass);
      if o2.Fail? then (i7, p2, o2)
      else
        var (i8, o8) := ReadDisplay(i7, lines);
        (i8, p2, o8)
  }

  /** A file the parser rejects leaves the instance untouched and reports the
      parser's error. */
  lemma MetadataRejected(info: Info, ps: State, file: Option<seq<string>>, table: OptimalTable,
                         metric: (string, Coord, Coord) -> int)
    requires Ready(ps)
    requires Validate(ps, info.filePath, file).1.Fail?
    ensures Metadata(info, ps, file, table, metric) ==
      (info, Validate(ps, info.filePath, file).0, Validate(ps, info.filePath, file).1)
  {
  }

  /** After a successful load the header fields are the validated ones: the
      dimension is the value of the digit string, the type one of the five
      supported ones. */
  lemma MetadataFields(info: Info, ps: State, lines: seq<string>, table: OptimalTable,
                       metric: (string, Coord, Coord) -> int)
    requires Ready(ps)
    requires Metadata(info, ps, Some(lines), table, metric).2.Pass?
    ensures var i := Metadata(info, ps, Some(lines), table, metric).0;
      ReadHeader(lines).Success? &&
      i.name == Some(Value(lines, "NAME")) && i.kind == Some(Value(lines, "TYPE")) &&
      ValidDimension(Value(lines, "DIMENSION")) &&
      i.dimension == Some(DigitsValue(Value(lines, "DIMENSION"))) && i.dimension.value > 0 &&
      i.edgeWeightType == Some(ReadHeader(lines).value.edgeWeightType) &&
      i.edgeWeightFormat == ReadHeader(lines).value.edgeWeightFormat &&
      i.optimalResult == OptimalResult(info.filePath, info.optimalResultsPath, table)
  {
    ValidateHeader(ps, info.filePath, lines);
    ReadFieldsAccepted(info, lines, table);
  }

  /** An EXPLICIT file loads its matrix eagerly: a fresh instance ends up with
      the flag raised and exactly the matrix validation decoded, and keeps no
      coordinates. */
  lemma MetadataExplicit(info: Info, ps: State, lines: seq<string>, table: OptimalTable,
                         metric: (string, Coord, Coord) -> int)
    requires Ready(ps) && !info.hasLoaded
    requires var (v, o) := Validate(ps, info.filePath, Some(lines)); o.Pass? && v.edgeWeightType == Some("EXPLICIT")
    ensures var (i, p, o) := Metadata(info, ps, Some(lines), table, metric);
      var v := Validate(ps, info.filePath, Some(lines)).0;
      i.hasLoaded && i.distanceMatrix == v.distanceMatrix && i.coordinates == info.coordinates && p == v
  {
    GenerateAfterValidate(ps, info.filePath, lines, metric);
    ValidateHeader(ps, info.filePath, lines);
    ValidateLoads(ps, info.filePath, lines);
    ReadFieldsAccepted(info, lines, table);
  }

  /** Any other type copies the parser's coordinates and leaves the matrix
      and its flag alone. */
  lemma MetadataCoordinates(info: Info, ps: State, lines: seq<string>, table: OptimalTable,
                            metric: (string, Coord, Coord) -> int)
    requires Ready(ps)
    requires var (v, o) := Validate(ps, info.filePath, Some(lines)); o.Pass? && v.edgeWeightType != Some("EXPLICIT")
    ensures var (i, p, o) := Metadata(info, ps, Some(lines), table, metric);
      var v := Validate(ps, info.filePath, Some(lines)).0;
      p == v && i.hasLoaded == info.hasLoaded && i.distanceMatrix == info.distanceMatrix &&
      (o.Pass? ==> i.coordinates == v.coordinates)
  {
    ValidateHeader(ps, info.filePath, lines);
    ValidateLoads(ps, info.filePath, lines);
    ReadFieldsAccepted(info, lines, table);
  }

  /** Display coordinates change only when DISPLAY_DATA_TYPE is TWOD_DISPLAY,
      and then they are the DISPLAY_DATA_SECTION's. */
  lemma MetadataDisplay(info: Info, ps: State, lines: seq<string>, table: OptimalTable,
                        metric: (string, Coord, Coord) -> int)
    requires Ready(ps)
    ensures var (i, p, o) := Metadata(info, ps, Some(lines), table, metric);
      (i.displayCoordinates != info.displayCoordinates ==>
        FieldValue(lines, "DISPLAY_DATA_TYPE", true) == Success(Some("TWOD_DISPLAY"))) &&
      (o.Pass? && FieldValue(lines, "DISPLAY_DATA_TYPE", true) == Success(Some("TWOD_DISPLAY")) ==>
        Success(i.displayCoordinates) == DisplayCoordinates(lines))
  {
  }

  /** What `to_dict` exports. */
  datatype Record = Record(
    filePath: string,
    name: Option<string>,
    kind: Option<string>,
    dimension: Option<int>,
    edgeWeightType: Option<string>,
    edgeWeightFormat: Option<string>,
    optimalLength: Option<int>,
    coordinates: seq<Coord>,
    displayCoordinates: seq<Coord>,
    distanceMatrix: Option<seq<seq<int>>>,
    hasLoaded: bool,
    optimalResultsPath: string)

  // --------------------------------------------------------------- the class

  /** `TSPFile`, holding the parser it was given. */
  class TspFile {
    var filePath: string
    var name: Option<string>
    var kind: Option<string>
    var dimension: Option<int>
    var edgeWeightType: Option<string>
    var edgeWeightFormat: Option<string>
    var coordinates: seq<Coord>
    var displayCoordinates: seq<Coord>
    var distanceMatrix: seq<seq<int>>
    var hasLoaded: bool
    var optimalResult: Option<int>
    var optimalResultsPath: string
    const parser: Parser

    function Snapshot(): Info
      reads this
    {
      Info(filePath, name, kind, dimension, edgeWeightType, edgeWeightFormat, coordinates,
           displayCoordinates, distanceMatrix, hasLoaded, optimalResult, optimalResultsPath)
    }

    constructor(filePath: string, optimalResultsPath: string, parser: Parser)
      ensures Snapshot() == NewInfo(filePath, optimalResultsPath)
      ensures this.parser == parser
    {
      this.filePath := filePath;
      name := None;
      kind := None;
      dimension := None;
      edgeWeightType := None;
      edgeWeightFormat := None;
      coordinates := [];
      displayCoordinates := [];
      distanceMatrix := [];
      hasLoaded := false;
      optimalResult := None;
      this.optimalResultsPath := optimalResultsPath;
      this.parser := parser;
    }

    /** `load_metadata`, given what reading the file and the optimal results
        table produced. */
    method LoadMetadata(file: Option<seq<string>>, table: OptimalTable, metric: (string, Coord, Coord) -> int)
      returns (r: Outcome<ParseError>)
      requires Ready(parser.Snapshot())
      modifies this, parser
      ensures (Snapshot(), parser.Snapshot(), r) == Metadata(old(Snapshot()), old(parser.Snapshot()), file, table, metric)
    {
      r := parser.ValidateFile(filePath, file);
      if r.Fail? {
        return;
      }
      r := LoadValidated(table, metric);
    }

    /** `load_metadata` once the parser has accepted the file. */
    method LoadValidated(table: OptimalTable, metric: (string, Coord, Coord) -> int) returns (r: Outcome<ParseError>)
      requires Ready(parser.Snapshot()) && parser.content.Some?
      modifies this, parser
      ensures (Snapshot(), parser.Snapshot(), r) ==
        Loaded(old(Snapshot()), old(parser.Snapshot()), old(parser.content.value), table, metric)
    {
      hide ReadFields, LoadDistance, ReadDisplay;
      r := ReadHeaderFields(table);
      if r.Fail? {
        return;
      }
      if edgeWeightType != Some("EXPLICIT") {
        coordinates := parser.coordinates;
      }
      if edgeWeightType == Some("EXPLICIT") {
        r := LoadDistanceMatrix(metric);
        if r.Fail? {
          return;
        }
      }
      r := ReadDisplayData();
    }

    /** The field reads of `load_metadata`, up to the optimal result. */
    method ReadHeaderFields(table: OptimalTable) returns (r: Outcome<ParseError>)
      requires parser.content.Some?
      modifies this
      ensures (Snapshot(), r) == ReadFields(old(Snapshot()), parser.content.value, table)
    {
      ghost var lines := parser.content.value;
      ghost var i0 := Snapshot();
      HeaderStepsOrder();
      assert [ReadFormat] + [] == [ReadFormat];
      hide ReadStep, ReadSteps, ReadFields, FieldValue, ParseInt, OptimalResult;
      r := ReadField(ReadName);
      if r.Fail? {
        StepStops(i0, lines, ReadName, [ReadKind] + ([ReadDimension] + ([ReadEdgeType] + [ReadFormat])), r.error);
        ReadFieldsFail(i0, lines, table, r.error);
        return;
      }
      ghost var i1 := Snapshot();
      StepThrough(i0, lines, ReadName, [ReadKind] + ([ReadDimension] + ([ReadEdgeType] + [ReadFormat])), i1);
      r := ReadField(ReadKind);
      if r.Fail? {
        StepStops(i1, lines, ReadKind, [ReadDimension] + ([ReadEdgeType] + [ReadFormat]), r.error);
        ReadFieldsFail(i0, lines, table, r.error);
        return;
      }
      ghost var i2 := Snapshot();
      StepThrough(i1, lines, ReadKind, [ReadDimension] + ([ReadEdgeType] + [ReadFormat]), i2);
      r := ReadField(ReadDimension);
      if r.Fail? {
        StepStops(i2, lines, ReadDimension, [ReadEdgeType] + [ReadFormat], r.error);
        ReadFieldsFail(i0, lines, table, r.error);
        return;
      }
      ghost var i3 := Snapshot();
      StepThrough(i2, lines, ReadDimension, [ReadEdgeType] + [ReadFormat], i3);
      r := ReadField(ReadEdgeType);
      if r.Fail? {
        StepStops(i3, lines, ReadEdgeType, [ReadFormat], r.error);
        ReadFieldsFail(i0, lines, table, r.error);
        return;
      }
      ghost var i4 := Snapshot();
      StepThrough(i3, lines, ReadEdgeType, [ReadFormat], i4);
      r := ReadField(ReadFormat);
      if r.Fail? {
        StepStops(i4, lines, ReadFormat, [], r.error);
        ReadFieldsFail(i0, lines, table, r.error);
        return;
      }
      ghost var i5 := Snapshot();
      StepThrough(i4, lines, ReadFormat, [], i5);
      NoSteps(i5, lines);
      ReadFieldsPass(i0, lines, table, i5);
      LoadOptimalResults(table);
    }

    /** One `self.<field> = self.parser.get_field_value(...)` statement of
        `load_metadata`; a failing lookup leaves the object as it was. */
    method ReadField(step: FieldStep) returns (r: Outcome<ParseError>)
      requires parser.content.Some?
      modifies this
      ensures match ReadStep(old(Snapshot()), parser.content.value, step)
        case Success(next) => Snapshot() == next && r == Pass
        case Failure(e) => Snapshot() == old(Snapshot()) && r == Fail(e)
    {
      hide FieldValue, ParseInt;
      match step {
        case ReadName =>
          var v := parser.GetFieldValue("NAME", false);
          if v.Failure? {
            return Fail(v.error);
          }
          name := v.value;
        case ReadKind =>
          var v := parser.GetFieldValue("TYPE", false);
          if v.Failure? {
            return Fail(v.error);
          }
          kind := v.value;
        case ReadDimension =>
          var v := parser.GetFieldValue("DIMENSION", false);
          if v.Failure? {
            return Fail(v.error);
          }
          var n := ParseInt(v.value.value);
          if n.None? {
            return Fail(BadInteger(v.value.value));
          }
          dimension := n;
        case ReadEdgeType =>
          var v := parser.GetFieldValue("EDGE_WEIGHT_TYPE", false);
          if v.Failure? {
            return Fail(v.error);
          }
          edgeWeightType := v.value;
        case ReadFormat =>
          var v := parser.GetFieldValue("EDGE_WEIGHT_FORMAT", true);
          if v.Failure? {
            return Fail(v.error);
          }
          edgeWeightFormat := v.value;
      }
      return Pass;
    }

    /** The last step of `load_metadata`. */
    method ReadDisplayData() returns (r: Outcome<ParseError>)
      requires parser.content.Some?
      modifies this
      ensures (Snapshot(), r) == ReadDisplay(old(Snapshot()), parser.content.value)
    {
      var dt := parser.GetFieldValue("DISPLAY_DATA_TYPE", true);
      if dt.Failure? {
        return Fail(dt.error);
      }
      r := Pass;
      if dt.value == Some("TWOD_DISPLAY") {
        r := LoadDisplayCoordinates();
      }
    }

    /** `load_optimal_results` */
    method LoadOptimalResults(table: OptimalTable)
      modifies this
      ensures Snapshot() == old(Snapshot()).(optimalResult := OptimalResult(filePath, optimalResultsPath, table))
    {
      optimalResult := None;
      if optimalResultsPath == [] || table.NoFile? || table.Malformed? || table.NotADict? {
        return;
      }
      var key := Stem(filePath);
      if key in table.entries {
        optimalResult := Some(table.entries[key]);
      }
    }

    /** `load_display_coordinates` */
    method LoadDisplayCoordinates() returns (r: Outcome<ParseError>)
      requires parser.content.Some?
      modifies this
      ensures var d := DisplayCoordinates(parser.content.value);
        (d.Success? ==> Snapshot() == old(Snapshot()).(displayCoordinates := d.value) && r == Pass) &&
        (d.Failure? ==> Snapshot() == old(Snapshot()) && r == Fail(d.error))
    {
      var d := parser.LoadDisplayCoordinates();
      if d.Failure? {
        return Fail(d.error);
      }
      displayCoordinates := d.value;
      return Pass;
    }

    /** `load_distance_matrix` */
    method LoadDistanceMatrix(metric: (string, Coord, Coord) -> int) returns (r: Outcome<ParseError>)
      requires Ready(parser.Snapshot())
      modifies this, parser
      ensures (Snapshot(), parser.Snapshot(), r) == LoadDistance(old(Snapshot()), old(parser.Snapshot()), metric)
      ensures parser.content == old(parser.content)
    {
      if hasLoaded {
        return Pass;
      }
      r := parser.GenerateDistanceMatrix(metric);
      if r.Fail? {
        return;
      }
      distanceMatrix := parser.GetDistanceMatrix();
      hasLoaded := true;
    }

    /** `get_distance_matrix` */
    function GetDistanceMatrix(): (r: Option<seq<seq<int>>>)
      reads this
      ensures r == MatrixView(Snapshot())
    {
      if hasLoaded then Some(distanceMatrix) else None
    }

    /** `to_dict`: the attributes, with the matrix hidden until loaded. */
    function ToDict(): (d: Record)
      reads this
      ensures d.distanceMatrix == MatrixView(Snapshot())
      ensures d.optimalLength == optimalResult && d.hasLoaded == hasLoaded
    {
      Record(filePath, name, kind, dimension, edgeWeightType, edgeWeightFormat, optimalResult,
             coordinates, displayCoordinates, GetDistanceMatrix(), hasLoaded, optimalResultsPath)
    }
  }
}
