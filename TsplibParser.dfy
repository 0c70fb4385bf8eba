/** The TSPLIB parser object: the file it read, the header values it kept,
    and the coordinates or distance matrix it built. The functions give each
    operation's effect on a snapshot of the parser; the class `Parser`
    performs the same operations step by step and is proved to agree. */
module TsplibParser {
  import opened Wrappers
  import opened Text
  import opened TsplibHeader
  import opened TsplibSections
  import opened TsplibMatrix

  /** A snapshot of the parser's six attributes. */
  datatype State = State(
    filePath: Option<string>,
    content: Option<seq<string>>,
    coordinates: seq<Coord>,
    distanceMatrix: seq<seq<int>>,
    edgeWeightType: Option<string>,
    edgeWeightFormat: Option<string>)

  /** The attributes of a newly built parser. */
  const Fresh: State := State(None, None, [], [], None, None)

  const RowFormats: seq<string> := ["LOWER_DIAG_ROW", "LOWER_ROW", "UPPER_DIAG_ROW", "UPPER_ROW"]

  function Raised(e: Option<ParseError>): (r: Outcome<ParseError>)
    ensures r.Pass? <==> e.None?
  {
    if e.None? then Pass else Fail(e.value)
  }

  /** `_load_coordinates`: fails at once when no line names the section;
      otherwise the coordinates read before a bad line are kept even when
      that line stops the scan. */
  function NodeCoordinates(lines: seq<string>): (r: (seq<Coord>, Outcome<ParseError>))
    ensures r.1 == Fail(MissingCoordSection) <==> !AnyLineContains(lines, NodeCoordSection)
    ensures r.1.Fail? ==> r.1.error.MissingCoordSection? || r.1.error.BadInteger? || r.1.error.BadFloat?
    ensures |r.0| <= |lines|
  {
    if !AnyLineContains(lines, NodeCoordSection) then ([], Fail(MissingCoordSection))
    else
      var s := ScanCoords(lines, NodeCoordSection, false, false);
      (s.coords, Raised(s.error))
  }

  /** The older copy of `_load_coordinates`, which does not check that the
      section exists: a file without one simply yields no coordinates. */
  function LegacyNodeCoordinates(lines: seq<string>): (r: (seq<Coord>, Outcome<ParseError>))
    ensures !AnyLineContains(lines, NodeCoordSection) ==> r == ([], Pass)
    ensures r.1.Fail? ==> r.1.error.BadInteger? || r.1.error.BadFloat?
  {
    var s := ScanCoords(lines, NodeCoordSection, false, false);
    (s.coords, Raised(s.error))
  }

  /** The two copies disagree exactly on files without the section, which
      `validate_file` never hands to either of them. */
  lemma LegacyNodeCoordinatesAgree(lines: seq<string>)
    ensures LegacyNodeCoordinates(lines) == NodeCoordinates(lines) <==> AnyLineContains(lines, NodeCoordSection)
  {
  }

  /** `load_display_coordinates`: the DISPLAY_DATA_SECTION lines with exactly
      three tokens; nothing at all when the file has no such section. */
  function DisplayCoordinates(lines: seq<string>): (r: Result<seq<Coord>, ParseError>)
    ensures !AnyLineContains(lines, DisplayDataSection) ==> r == Success([])
    ensures r.Success? ==> |r.value| <= |lines|
  {
    var s := ScanCoords(lines, DisplayDataSection, true, false);
    if s.error.Some? then Failure(s.error.value) else Success(s.coords)
  }

  /** The reader the (remapped) format selects, applied to the stream:
      FULL_MATRIX cuts it into rows, the four row layouts fill a symmetric
      matrix, any other name (or none) is refused. */
  function Decode(values: seq<int>, dimension: int, format: Option<string>): (r: Result<seq<seq<int>>, ParseError>)
    ensures r.Failure? <==> format.None? || (format.value != "FULL_MATRIX" && format.value !in RowFormats)
    ensures r.Failure? ==> r.error == UnsupportedFormat(format)
    ensures r.Success? ==> |r.value| == Rows(dimension)
    ensures r.Success? && format.value != "FULL_MATRIX" ==>
      IsSquare(r.value, Rows(dimension)) && Symmetric(r.value)
  {
    if format == Some("FULL_MATRIX") then Success(FullMatrix(values, dimension))
    else if format.Some? && LayoutOf(format.value, Rows(dimension)).Some? then
      Success(Triangular(values, LayoutOf(format.value, Rows(dimension)).value))
    else Failure(UnsupportedFormat(format))
  }

  /** What `_load_explicit_weights` leaves behind. */
  datatype Weights = Weights(matrix: seq<seq<int>>, format: Option<string>, outcome: Outcome<ParseError>)

  /** `_load_explicit_weights`: DIMENSION is read first, then the weight
      stream; the format is remapped only once the stream has been read, and
      the matrix stays empty whenever a step fails. */
  function ExplicitWeights(lines: seq<string>, format: Option<string>): (r: Weights)
    ensures r.outcome.Fail? ==> r.matrix == []
    ensures r.format == format || r.format == RemapFormat(format)
    ensures r.outcome.Pass? ==>
      (r.format == RemapFormat(format) && r.format.Some? &&
       (r.format.value == "FULL_MATRIX" || r.format.value in RowFormats))
  {
    match FieldValue(lines, "DIMENSION", false)
    case Failure(e) => Weights([], format, Fail(e))
    case Success(d) =>
      match ParseInt(d.value)
      case None => Weights([], format, Fail(BadInteger(d.value)))
      case Some(n) =>
        match ScanWeights(lines, false)
        case Failure(e) => Weights([], format, Fail(e))
        case Success(values) =>
          var f := RemapFormat(format);
          match Decode(values, n, f)
          case Failure(e) => Weights([], f, Fail(e))
          case Success(m) => Weights(m, f, Pass)
  }

  /** The part of `validate_file` after the required fields pass: the edge
      weight type is stored, then the format once the type is supported;
      then EXPLICIT files load their weights and files with a
      NODE_COORD_SECTION load their coordinates. */
  function LoadByType(s: State, lines: seq<string>): (r: (State, Outcome<ParseError>))
    ensures r.0.filePath == s.filePath && r.0.content == s.content
  {
    match FieldValue(lines, "EDGE_WEIGHT_TYPE", false)
    case Failure(e) => (s, Fail(e))
    case Success(t) =>
      var s3 := s.(edgeWeightType := t);
      if t.None? || t.value !in SupportedTypes then (s3, Fail(UnsupportedType(t)))
      else
        match FieldValue(lines, "EDGE_WEIGHT_FORMAT", true)
        case Failure(e) => (s3, Fail(e))
        case Success(f) =>
          var s4 := s3.(edgeWeightFormat := f);
          if t.value == "EXPLICIT" then
            var w := ExplicitWeights(lines, f);
            (s4.(distanceMatrix := w.matrix, edgeWeightFormat := w.format), w.outcome)
          else if AnyLineContains(lines, NodeCoordSection) then
            var c := NodeCoordinates(lines);
            (s4.(coordinates := c.0), c.1)
          else (s4, Pass)
  }

  /** `validate_file`: the path is recorded first; a missing file changes
      nothing else; the content is kept; the required fields are checked in
      order, and once they pass the file is loaded by its type. */
  function Validate(s: State, path: string, file: Option<seq<string>>): (r: (State, Outcome<ParseError>))
    ensures r.0.filePath == Some(path)
    ensures file.None? ==> r == (s.(filePath := Some(path)), Fail(FileNotFound(path)))
    ensures file.Some? ==> r.0.content == file
  {
    var s1 := s.(filePath := Some(path));
    if file.None? then (s1, Fail(FileNotFound(path)))
    else
      var lines := file.value;
      var s2 := s1.(content := file);
      match CheckFields(lines, RequiredFields)
      case Fail(e) => (s2, Fail(e))
      case Pass => LoadByType(s2, lines)
  }

  /** Validation fails with exactly the header's error when the header is
      rejected, and when it succeeds the header was accepted and its edge
      weight type is the one stored. */
  lemma ValidateHeader(s: State, path: string, lines: seq<string>)
    ensures var r := Validate(s, path, Some(lines));
      (ReadHeader(lines).Failure? ==> r.1 == Fail(ReadHeader(lines).error)) &&
      (r.1.Pass? ==>
        (ReadHeader(lines).Success? &&
         r.0.edgeWeightType == Some(ReadHeader(lines).value.edgeWeightType)))
  {
  }

  /** After an accepted header, validation is the load the edge weight type
      selects, and nothing but the loaded attributes changes. */
  lemma ValidateLoads(s: State, path: string, lines: seq<string>)
    requires ReadHeader(lines).Success?
    ensures var h := ReadHeader(lines).value;
      var base := s.(filePath := Some(path), content := Some(lines),
                     edgeWeightType := Some(h.edgeWeightType), edgeWeightFormat := h.edgeWeightFormat);
      var r := Validate(s, path, Some(lines));
      if h.edgeWeightType == "EXPLICIT" then
        var w := ExplicitWeights(lines, h.edgeWeightFormat);
        r == (base.(distanceMatrix := w.matrix, edgeWeightFormat := w.format), w.outcome)
      else if AnyLineContains(lines, NodeCoordSection) then
        r == (base.(coordinates := NodeCoordinates(lines).0), NodeCoordinates(lines).1)
      else r == (base, Pass)
  {
  }

  /** Reading the weights again with the format validation stored gives the
      same matrix: `generate_distance_matrix` after `validate_file` rebuilds
      what validation built. */
  lemma ExplicitWeightsAgain(lines: seq<string>, format: Option<string>)
    ensures var w := ExplicitWeights(lines, format);
      w.outcome.Pass? ==> ExplicitWeights(lines, w.format) == w
  {
    RemapIdempotent(format);
  }

  const CoordinateTypes: seq<string> := ["EUC_2D", "CEIL_2D", "ATT", "GEO"]

  /** A parser whose content is there whenever its type asks for explicit
      weights: `validate_file` stores the content before the type. */
  predicate Ready(s: State) {
    s.edgeWeightType == Some("EXPLICIT") ==> s.content.Some?
  }

  /** A new parser is ready, and validating or generating keeps it so. */
  lemma ReadyKept(s: State, path: string, file: Option<seq<string>>)
    requires Ready(s)
    ensures Ready(Fresh) && Ready(Validate(s, path, file).0)
  {
  }

  /** `generate_distance_matrix`, with the floating-point distance of each
      coordinate type given as `metric(type, a, b)`: the coordinate types fill
      a matrix sized by the coordinates read (refusing an empty list),
      EXPLICIT decodes the weights again, anything else is refused. */
  function Generate(s: State, metric: (string, Coord, Coord) -> int): (r: (State, Outcome<ParseError>))
    requires Ready(s)
    ensures r.0 == s.(distanceMatrix := r.0.distanceMatrix, edgeWeightFormat := r.0.edgeWeightFormat)
    ensures r.1.Fail? ==> r.0.distanceMatrix == [] || r.0 == s
  {
    var t := s.edgeWeightType;
    if t.Some? && t.value in CoordinateTypes then
      if s.coordinates == [] then (s, Fail(NoCoordinates(t.value)))
      else (s.(distanceMatrix := PairMatrix(s.coordinates, (a, b) => metric(t.value, a, b))), Pass)
    else if t == Some("EXPLICIT") then
      var w := ExplicitWeights(s.content.value, s.edgeWeightFormat);
      (s.(distanceMatrix := w.matrix, edgeWeightFormat := w.format), w.outcome)
    else (s, Fail(UnsupportedType(t)))
  }

  /** A coordinate metric always yields a k x k symmetric matrix with a zero
      diagonal for the k coordinates read, each cell above the diagonal
      measured by the metric, and fails only when there are no coordinates. */
  lemma GenerateCoordinates(s: State, metric: (string, Coord, Coord) -> int)
    requires s.edgeWeightType.Some? && s.edgeWeightType.value in CoordinateTypes
    ensures var (s', r) := Generate(s, metric);
      var k := |s.coordinates|;
      (r.Fail? <==> k == 0) &&
      (k == 0 ==> r == Fail(NoCoordinates(s.edgeWeightType.value)) && s' == s) &&
      (k > 0 ==>
        (s' == s.(distanceMatrix := s'.distanceMatrix) &&
         IsSquare(s'.distanceMatrix, k) && Symmetric(s'.distanceMatrix) && ZeroDiagonal(s'.distanceMatrix) &&
         forall a, b :: 0 <= a < b < k ==>
           s'.distanceMatrix[a][b] == metric(s.edgeWeightType.value, s.coordinates[a], s.coordinates[b])))
  {
  }

  /** After a successful validation, generating again rebuilds the very
      matrix and format validation left behind. */
  lemma GenerateAfterValidate(s: State, path: string, lines: seq<string>, metric: (string, Coord, Coord) -> int)
    requires var (v, r) := Validate(s, path, Some(lines)); r.Pass? && v.edgeWeightType == Some("EXPLICIT")
    ensures var v := Validate(s, path, Some(lines)).0; Generate(v, metric) == (v, Pass)
  {
    ValidateHeader(s, path, lines);
    ValidateLoads(s, path, lines);
    ExplicitWeightsAgain(lines, ReadHeader(lines).value.edgeWeightFormat);
  }

  /** The values collected before the rest of the scan, prepended to what
      the rest yields. */
  function AfterValues(values: seq<int>, rest: Result<seq<int>, ParseError>): Result<seq<int>, ParseError> {
    match rest
    case Success(vs) => Success(values + vs)
    case Failure(e) => Failure(e)
  }

  function AfterCoords(coords: seq<Coord>, rest: Scan): Scan {
    Scan(coords + rest.coords, rest.error)
  }

  /** One step of the coordinate scan at line `i`. */
  lemma ScanCoordsAt(lines: seq<string>, i: nat, marker: string, exactlyThree: bool, inSection: bool)
    requires i < |lines|
    ensures var rest := ScanCoords(lines[i + 1..], marker, exactlyThree, true);
      ScanCoords(lines[i..], marker, exactlyThree, inSection) ==
        if Contains(lines[i], marker) then rest
        else if !inSection then ScanCoords(lines[i + 1..], marker, exactlyThree, false)
        else if Strip(lines[i]) == EndOfFile then Scan([], None)
        else match ReadCoordLine(lines[i], exactlyThree)
          case Skipped => rest
          case Rejected(e) => Scan([], Some(e))
          case Kept(c) => Scan([c] + rest.coords, rest.error)
  {
    assert lines[i..][0] == lines[i] && lines[i..][1..] == lines[i + 1..];
  }

  /** One step of the weight scan at line `i`. */
  lemma ScanWeightsAt(lines: seq<string>, i: nat, inSection: bool)
    requires i < |lines|
    ensures ScanWeights(lines[i..], inSection) ==
      if StopsWeights(lines[i]) then Success([])
      else if Contains(lines[i], EdgeWeightSection) then ScanWeights(lines[i + 1..], true)
      else if inSection then
        match ParseAll(Words(lines[i]))
        case Failure(t) => Failure(BadInteger(t))
        case Success(vs) => AfterValues(vs, ScanWeights(lines[i + 1..], true))
      else ScanWeights(lines[i + 1..], false)
  {
    assert lines[i..][0] == lines[i] && lines[i..][1..] == lines[i + 1..];
  }

  lemma AfterValuesJoin(values: seq<int>, vs: seq<int>, rest: Result<seq<int>, ParseError>)
    ensures AfterValues(values, AfterValues(vs, rest)) == AfterValues(values + vs, rest)
  {
    if rest.Success? {
      assert values + (vs + rest.value) == values + vs + rest.value;
    }
  }

  lemma AfterCoordsStart(lines: seq<string>, marker: string, exactlyThree: bool)
    ensures ScanCoords(lines, marker, exactlyThree, false) ==
      AfterCoords([], ScanCoords(lines[0..], marker, exactlyThree, false))
  {
    assert lines[0..] == lines;
    var r := ScanCoords(lines, marker, exactlyThree, false);
    assert [] + r.coords == r.coords;
  }

  lemma AfterCoordsJoin(coords: seq<Coord>, c: Coord, rest: Scan)
    ensures AfterCoords(coords, Scan([c] + rest.coords, rest.error)) == AfterCoords(coords + [c], rest)
  {
    assert coords + ([c] + rest.coords) == coords + [c] + rest.coords;
  }

  /** The scan is over: at the end of the lines or at the EOF line. */
  lemma AfterCoordsEnd(coords: seq<Coord>, lines: seq<string>, i: nat, marker: string, exactlyThree: bool, inSection: bool)
    requires i <= |lines|
    requires ScanCoords(lines[i..], marker, exactlyThree, inSection) == Scan([], None)
    ensures AfterCoords(coords, ScanCoords(lines[i..], marker, exactlyThree, inSection)) == Scan(coords, None)
  {
    assert coords + [] == coords;
  }

  lemma ScanCoordsEmpty(lines: seq<string>, marker: string, exactlyThree: bool, inSection: bool)
    ensures ScanCoords(lines[|lines|..], marker, exactlyThree, inSection) == Scan([], None)
  {
    assert lines[|lines|..] == [];
  }

  lemma AfterValuesStart(lines: seq<string>)
    ensures ScanWeights(lines, false) == AfterValues([], ScanWeights(lines[0..], false))
  {
    assert lines[0..] == lines;
    var w := ScanWeights(lines, false);
    if w.Success? {
      assert [] + w.value == w.value;
    }
  }

  lemma AfterValuesEnd(values: seq<int>, lines: seq<string>, i: nat, inSection: bool)
    requires i <= |lines|
    requires ScanWeights(lines[i..], inSection) == Success([])
    ensures AfterValues(values, ScanWeights(lines[i..], inSection)) == Success(values)
  {
    assert values + [] == values;
  }

  lemma ScanWeightsEmpty(lines: seq<string>, inSection: bool)
    ensures ScanWeights(lines[|lines|..], inSection) == Success([])
  {
    assert lines[|lines|..] == [];
  }

  /** `TSPLIBParser`. */
  class Parser {
    var filePath: Option<string>
    var content: Option<seq<string>>
    var coordinates: seq<Coord>
    var distanceMatrix: seq<seq<int>>
    var edgeWeightType: Option<string>
    var edgeWeightFormat: Option<string>

    function Snapshot(): State
      reads this
    {
      State(filePath, content, coordinates, distanceMatrix, edgeWeightType, edgeWeightFormat)
    }

    constructor()
      ensures Snapshot() == Fresh
    {
      filePath := None;
      content := None;
      coordinates := [];
      distanceMatrix := [];
      edgeWeightType := None;
      edgeWeightFormat := None;
    }

    /** `get_field_value`: the first line starting with the field decides. */
    method GetFieldValue(field: string, optional: bool) returns (r: Result<Option<string>, ParseError>)
      requires content.Some?
      ensures r == FieldValue(content.value, field, optional)
    {
      var lines := content.value;
      var i := 0;
      while i < |lines|
        invariant 0 <= i <= |lines|
        invariant forall k :: 0 <= k < i ==> !StartsWith(lines[k], field)
      {
        if StartsWith(lines[i], field) {
          FirstLineAt(lines, field, i);
          FieldValueFirst(lines, field, optional);
          var parts := SplitOn(lines[i], ':');
          if |parts| < 2 {
            return Failure(MissingColon(lines[i]));
          }
          return Success(Some(Strip(parts[1])));
        }
        i := i + 1;
      }
      if !optional {
        return Failure(FieldNotFound(field));
      }
      return Success(None);
    }

    /** `validate_file`, given what reading `path` produced (None when the
        file does not exist). */
    method ValidateFile(path: string, file: Option<seq<string>>) returns (r: Outcome<ParseError>)
      modifies this
      ensures (Snapshot(), r) == Validate(old(Snapshot()), path, file)
    {
      filePath := Some(path);
      if file.None? {
        return Fail(FileNotFound(path));
      }
      content := file;
      var lines := file.value;
      var i := 0;
      while i < |RequiredFields|
        invariant 0 <= i <= |RequiredFields|
        invariant CheckFields(lines, RequiredFields) == CheckFields(lines, RequiredFields[i..])
        invariant Snapshot() == old(Snapshot()).(filePath := Some(path), content := file)
      {
        var field := RequiredFields[i];
        assert RequiredFields[i..] == [field] + RequiredFields[i + 1..];
        var value := GetFieldValue(field, false);
        if value.Failure? {
          return Fail(value.error);
        }
        if value.value.None? || value.value.value == "" {
          return Fail(MissingField(field));
        }
        if field == "DIMENSION" && !(IsDigits(value.value.value) && DigitsValue(value.value.value) > 0) {
          return Fail(InvalidDimension(value.value.value));
        }
        i := i + 1;
      }
      r := ValidateType(lines);
    }

    /** The tail of `validate_file`, once the required fields pass. */
    method ValidateType(lines: seq<string>) returns (r: Outcome<ParseError>)
      requires content == Some(lines)
      modifies this
      ensures (Snapshot(), r) == LoadByType(old(Snapshot()), lines)
    {
      var t := GetFieldValue("EDGE_WEIGHT_TYPE", false);
      if t.Failure? {
        return Fail(t.error);
      }
      edgeWeightType := t.value;
      if t.value.None? || t.value.value !in SupportedTypes {
        return Fail(UnsupportedType(t.value));
      }
      var f := GetFieldValue("EDGE_WEIGHT_FORMAT", true);
      if f.Failure? {
        return Fail(f.error);
      }
      edgeWeightFormat := f.value;
      if t.value.value == "EXPLICIT" {
        r := LoadExplicitWeights();
      } else if exists k :: 0 <= k < |lines| && Contains(lines[k], NodeCoordSection) {
        r := LoadCoordinates();
      } else {
        r := Pass;
      }
    }

    /** `_load_coordinates`: coordinates read before a bad line stay stored. */
    method LoadCoordinates() returns (r: Outcome<ParseError>)
      requires content.Some?
      modifies this
      ensures Snapshot() == old(Snapshot()).(coordinates := NodeCoordinates(old(content).value).0)
      ensures r == NodeCoordinates(old(content).value).1
    {
      coordinates := [];
      var lines := content.value;
      if !AnyLineContains(lines, NodeCoordSection) {
        return Fail(MissingCoordSection);
      }
      var scan := ReadCoords(lines, NodeCoordSection, false);
      coordinates := scan.coords;
      r := if scan.error.Some? then Fail(scan.error.value) else Pass;
    }

    /** `load_display_coordinates` */
    method LoadDisplayCoordinates() returns (r: Result<seq<Coord>, ParseError>)
      requires content.Some?
      ensures r == DisplayCoordinates(content.value)
    {
      var scan := ReadCoords(content.value, DisplayDataSection, true);
      r := if scan.error.Some? then Failure(scan.error.value) else Success(scan.coords);
    }

    /** The coordinate loop shared by `_load_coordinates` and
        `load_display_coordinates`: the coordinates appended before the loop
        stopped, and the error that stopped it. */
    static method ReadCoords(lines: seq<string>, marker: string, exactlyThree: bool) returns (r: Scan)
      ensures r == ScanCoords(lines, marker, exactlyThree, false)
    {
      hide ScanCoords, ReadCoordLine, Contains, Strip;
      var coords: seq<Coord> := [];
      var inSection := false;
      var i := 0;
      AfterCoordsStart(lines, marker, exactlyThree);
      while i < |lines|
        invariant 0 <= i <= |lines|
        invariant ScanCoords(lines, marker, exactlyThree, false) ==
          AfterCoords(coords, ScanCoords(lines[i..], marker, exactlyThree, inSection))
      {
        var line := lines[i];
        ScanCoordsAt(lines, i, marker, exactlyThree, inSection);
        if Contains(line, marker) {
          inSection := true;
        } else if inSection {
          if Strip(line) == EndOfFile {
            AfterCoordsEnd(coords, lines, i, marker, exactlyThree, inSection);
            return Scan(coords, None);
          }
          var reading := ReadCoordLine(line, exactlyThree);
          if reading.Rejected? {
            return Scan(coords, Some(reading.e));
          }
          if reading.Kept? {
            AfterCoordsJoin(coords, reading.c, ScanCoords(lines[i + 1..], marker, exactlyThree, true));
            coords := coords + [reading.c];
          }
        }
        i := i + 1;
      }
      ScanCoordsEmpty(lines, marker, exactlyThree, inSection);
      AfterCoordsEnd(coords, lines, i, marker, exactlyThree, inSection);
      return Scan(coords, None);
    }

    /** `_load_explicit_weights` */
    method LoadExplicitWeights() returns (r: Outcome<ParseError>)
      requires content.Some?
      modifies this
      ensures var w := ExplicitWeights(old(content).value, old(edgeWeightFormat));
        Snapshot() == old(Snapshot()).(distanceMatrix := w.matrix, edgeWeightFormat := w.format) &&
        r == w.outcome
    {
      distanceMatrix := [];
      var lines := content.value;
      var d := GetFieldValue("DIMENSION", false);
      if d.Failure? {
        return Fail(d.error);
      }
      var dimension := ParseInt(d.value.value);
      if dimension.None? {
        return Fail(BadInteger(d.value.value));
      }
      var n := dimension.value;
      var values := ReadWeights(lines);
      if values.Failure? {
        return Fail(values.error);
      }
      edgeWeightFormat := RemapFormat(edgeWeightFormat);
      if edgeWeightFormat == Some("FULL_MATRIX") {
        distanceMatrix := FullMatrix(values.value, n);
      } else if edgeWeightFormat.Some? && LayoutOf(edgeWeightFormat.value, Rows(n)).Some? {
        distanceMatrix := LoadTriangular(values.value, LayoutOf(edgeWeightFormat.value, Rows(n)).value);
      } else {
        return Fail(UnsupportedFormat(edgeWeightFormat));
      }
      return Pass;
    }

    /** The weight loop of `_load_explicit_weights`. */
    static method ReadWeights(lines: seq<string>) returns (r: Result<seq<int>, ParseError>)
      ensures r == ScanWeights(lines, false)
    {
      var values: seq<int> := [];
      var inSection := false;
      var i := 0;
      AfterValuesStart(lines);
      while i < |lines|
        invariant 0 <= i <= |lines|
        invariant ScanWeights(lines, false) == AfterValues(values, ScanWeights(lines[i..], inSection))
      {
        var line := lines[i];
        ScanWeightsAt(lines, i, inSection);
        if StopsWeights(line) {
          AfterValuesEnd(values, lines, i, inSection);
          return Success(values);
        }
        if Contains(line, EdgeWeightSection) {
          inSection := true;
        } else if inSection {
          var parsed := ParseAll(Words(line));
          if parsed.Failure? {
            return Failure(BadInteger(parsed.error));
          }
          AfterValuesJoin(values, parsed.value, ScanWeights(lines[i + 1..], true));
          values := values + parsed.value;
        }
        i := i + 1;
      }
      ScanWeightsEmpty(lines, inSection);
      AfterValuesEnd(values, lines, i, inSection);
      return Success(values);
    }

    /** `generate_distance_matrix`, with the floating-point metric of each
        coordinate type given as `metric(type, a, b)`. */
    method GenerateDistanceMatrix(metric: (string, Coord, Coord) -> int) returns (r: Outcome<ParseError>)
      requires Ready(Snapshot())
      modifies this
      ensures (Snapshot(), r) == Generate(old(Snapshot()), metric)
    {
      if edgeWeightType.Some? && edgeWeightType.value in CoordinateTypes {
        var t := edgeWeightType.value;
        if coordinates == [] {
          return Fail(NoCoordinates(t));
        }
        distanceMatrix := FillSymmetric(coordinates, (a, b) => metric(t, a, b));
        return Pass;
      } else if edgeWeightType == Some("EXPLICIT") {
        r := LoadExplicitWeights();
      } else {
        return Fail(UnsupportedType(edgeWeightType));
      }
    }

    /** `get_distance_matrix` */
    method GetDistanceMatrix() returns (m: seq<seq<int>>)
      ensures m == distanceMatrix
    {
      return distanceMatrix;
    }
  }
}
