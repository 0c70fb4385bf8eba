/** Files as a TSPLIB writer puts them, and what the parser reads back from
    them: a header followed by an EDGE_WEIGHT_SECTION of full rows gives the
    matrix back, and a header followed by a NODE_COORD_SECTION gives the
    coordinates back. */
module TsplibWritten {
  import opened Wrappers
  import opened Text
  import opened TsplibHeader
  import opened TsplibSections
  import opened TsplibMatrix
  import opened TsplibParser

  // ------------------------------------------------------------ the header

  /** A lookup that the header answers is not changed by lines after it. */
  lemma FieldValueExtend(header: seq<string>, rest: seq<string>, field: string, optional: bool)
    requires FirstLineStarting(header, field) < |header|
    ensures FieldValue(header + rest, field, optional) == FieldValue(header, field, optional)
  {
    var k := FirstLineStarting(header, field);
    assert forall i :: 0 <= i <= k ==> (header + rest)[i] == header[i];
    FirstLineAt(header + rest, field, k);
    FieldValueFirst(header + rest, field, optional);
    FieldValueFirst(header, field, optional);
  }

  /** A field that was found sits on a line of the file. */
  lemma FoundField(lines: seq<string>, field: string, optional: bool)
    requires FieldValue(lines, field, optional).Success? && FieldValue(lines, field, optional).value.Some?
    ensures FirstLineStarting(lines, field) < |lines|
  {
  }

  lemma PresentExtend(header: seq<string>, rest: seq<string>, field: string)
    requires Present(header, field)
    ensures CheckField(header + rest, field) == CheckField(header, field)
    ensures FieldValue(header + rest, field, false) == FieldValue(header, field, false)
  {
    FoundField(header, field, false);
    FieldValueExtend(header, rest, field, false);
  }

  lemma {:induction false} CheckFieldsSame(a: seq<string>, b: seq<string>, fields: seq<string>)
    requires forall k :: 0 <= k < |fields| ==> CheckField(a, fields[k]) == CheckField(b, fields[k])
    ensures CheckFields(a, fields) == CheckFields(b, fields)
  {
    if fields != [] {
      CheckFieldsSame(a, b, fields[1..]);
    }
  }

  /** An accepted header stays accepted, with the same values, whatever
      follows it, as long as no later line supplies an EDGE_WEIGHT_FORMAT the
      header left out. */
  lemma ReadHeaderExtend(header: seq<string>, rest: seq<string>)
    requires ReadHeader(header).Success?
    requires ReadHeader(header).value.edgeWeightFormat.Some? ||
             forall k :: 0 <= k < |rest| ==> !StartsWith(rest[k], "EDGE_WEIGHT_FORMAT")
    ensures ReadHeader(header + rest) == ReadHeader(header)
  {
    ReadHeaderAccepts(header);
    PresentExtend(header, rest, "NAME");
    PresentExtend(header, rest, "TYPE");
    PresentExtend(header, rest, "DIMENSION");
    PresentExtend(header, rest, "EDGE_WEIGHT_TYPE");
    SameRequired(header + rest, header);
    FormatExtend(header, rest);
  }

  lemma SameRequired(a: seq<string>, b: seq<string>)
    requires CheckField(a, "NAME") == CheckField(b, "NAME")
    requires CheckField(a, "TYPE") == CheckField(b, "TYPE")
    requires CheckField(a, "DIMENSION") == CheckField(b, "DIMENSION")
    requires CheckField(a, "EDGE_WEIGHT_TYPE") == CheckField(b, "EDGE_WEIGHT_TYPE")
    ensures CheckFields(a, RequiredFields) == CheckFields(b, RequiredFields)
  {
    var fields := RequiredFields;
    forall k | 0 <= k < |fields| ensures CheckField(a, fields[k]) == CheckField(b, fields[k]) {
      if k == 0 {
        assert fields[k] == "NAME";
      } else if k == 1 {
        assert fields[k] == "TYPE";
      } else if k == 2 {
        assert fields[k] == "DIMENSION";
      } else {
        assert fields[k] == "EDGE_WEIGHT_TYPE";
      }
    }
    CheckFieldsSame(a, b, fields);
  }

  lemma FormatExtend(header: seq<string>, rest: seq<string>)
    requires FieldValue(header, "EDGE_WEIGHT_FORMAT", true).Success?
    requires FieldValue(header, "EDGE_WEIGHT_FORMAT", true).value.Some? ||
             forall k :: 0 <= k < |rest| ==> !StartsWith(rest[k], "EDGE_WEIGHT_FORMAT")
    ensures FieldValue(header + rest, "EDGE_WEIGHT_FORMAT", true) == FieldValue(header, "EDGE_WEIGHT_FORMAT", true)
  {
    var field := "EDGE_WEIGHT_FORMAT";
    if FieldValue(header, field, true).value.Some? {
      FoundField(header, field, true);
      FieldValueExtend(header, rest, field, true);
    } else {
      var lines := header + rest;
      forall i | 0 <= i < |lines| ensures !StartsWith(lines[i], field) {
        if i < |header| {
          assert lines[i] == header[i];
        } else {
          assert lines[i] == rest[i - |header|];
        }
      }
    }
  }

  // ------------------------------------------------------ EDGE_WEIGHT_SECTION

  /** The weight part of a FULL_MATRIX file: the section keyword, one line
      per row, and EOF. */
  function WeightSection(m: seq<seq<int>>): (r: seq<string>)
    ensures |r| == |m| + 2 && r[0] == EdgeWeightSection && r[|r| - 1] == EndOfFile
  {
    [EdgeWeightSection] + RowLines(m) + [EndOfFile]
  }

  function RowLines(m: seq<seq<int>>): (r: seq<string>)
    ensures |r| == |m|
    ensures forall k :: 0 <= k < |m| ==> r[k] == WeightLine(m[k])
  {
    seq(|m|, k requires 0 <= k < |m| => WeightLine(m[k]))
  }

  /** Lines ahead of the section that neither stop collection nor open the
      section are passed over. */
  lemma {:induction false} ScanWeightsSkip(before: seq<string>, rest: seq<string>)
    requires forall k :: 0 <= k < |before| ==> !StopsWeights(before[k]) && !Contains(before[k], EdgeWeightSection)
    ensures ScanWeights(before + rest, false) == ScanWeights(rest, false)
  {
    var lines := before + rest;
    if before != [] {
      assert lines[0] == before[0] && lines[1..] == before[1..] + rest;
      ScanWeightsSkip(before[1..], rest);
    } else {
      assert lines == rest;
    }
  }

  /** No keyword that stops or opens the weight section occurs in the text
      of printed numbers. */
  lemma NumericPassive(line: string)
    requires Numeric(line)
    ensures !StopsWeights(line) && !Contains(line, EdgeWeightSection)
    ensures !Contains(line, NodeCoordSection)
  {
    NumericNoKeyword(line, DisplayDataSection);
    NumericNoKeyword(line, EndOfFile);
    NumericNoKeyword(line, NodeCoordSection);
    NumericNoKeyword(line, EdgeWeightSection);
  }

  /** The section keyword line opens the section and stops nothing. */
  lemma SectionLineOpens()
    ensures !StopsWeights(EdgeWeightSection) && Contains(EdgeWeightSection, EdgeWeightSection)
  {
    SectionLineNoDisplay();
    SectionLineNoEof();
    SectionLineNoNodes();
    assert StartsWith(EdgeWeightSection, EdgeWeightSection);
  }

  lemma SectionLineNoDisplay()
    ensures !Contains(EdgeWeightSection, DisplayDataSection)
  {
    assert 'P' in DisplayDataSection && 'P' !in EdgeWeightSection;
    NotContainsChar(EdgeWeightSection, DisplayDataSection, 'P');
  }

  lemma SectionLineNoEof()
    ensures !Contains(EdgeWeightSection, EndOfFile)
  {
    assert 'F' in EndOfFile && 'F' !in EdgeWeightSection;
    NotContainsChar(EdgeWeightSection, EndOfFile, 'F');
  }

  lemma SectionLineNoNodes()
    ensures !Contains(EdgeWeightSection, NodeCoordSection)
  {
    assert 'R' in NodeCoordSection && 'R' !in EdgeWeightSection;
    NotContainsChar(EdgeWeightSection, NodeCoordSection, 'R');
  }

  /** The weight part of a written file yields the rows' numbers in order. */
  lemma WeightSectionScan(m: seq<seq<int>>)
    ensures ScanWeights(WeightSection(m), false) == Success(Flatten(m))
  {
    var body := RowLines(m);
    forall k | 0 <= k < |body|
      ensures !StopsWeights(body[k]) && !Contains(body[k], EdgeWeightSection)
      ensures ParseAll(Words(body[k])) == Success(m[k])
    {
      WeightLineNumeric(m[k]);
      NumericPassive(body[k]);
      ReadWeightLine(m[k]);
    }
    assert StopsWeights(EndOfFile) by {
      assert StartsWith(EndOfFile, EndOfFile);
    }
    var ws := WeightSection(m);
    assert ws == [EdgeWeightSection] + body + [EndOfFile];
    hide *;
    FramedTail(EdgeWeightSection, body, EndOfFile);
    ScanWeightRows(body, m, [], EndOfFile);
    SectionLineOpens();
    ScanWeightsOpens(ws);
  }

  lemma FramedTail<T>(a: T, body: seq<T>, c: T)
    ensures ([a] + body + [c])[1..] == body + [c] + []
  {
  }

  /** The section keyword as the first line switches collection on. */
  lemma ScanWeightsOpens(lines: seq<string>)
    requires lines != [] && lines[0] == EdgeWeightSection
    requires !StopsWeights(EdgeWeightSection) && Contains(EdgeWeightSection, EdgeWeightSection)
    ensures ScanWeights(lines, false) == ScanWeights(lines[1..], true)
  {
  }

  /** No header line ends the weight stream or opens an EDGE_WEIGHT_SECTION. */
  predicate HeaderBeforeWeights(header: seq<string>) {
    forall k :: 0 <= k < |header| ==> !StopsWeights(header[k]) && !Contains(header[k], EdgeWeightSection)
  }

  /** A header declaring an EXPLICIT FULL_MATRIX instance of dimension n,
      followed by the n rows of an n x n matrix, validates to exactly that
      matrix; the coordinates are left as they were. */
  lemma FullMatrixFileRoundTrip(s: State, path: string, header: seq<string>, m: seq<seq<int>>, n: nat)
    requires IsSquare(m, n)
    requires ReadHeader(header) == Success(Header("EXPLICIT", Some("FULL_MATRIX")))
    requires FieldValue(header, "DIMENSION", false) == Success(Some(ShowInt(n)))
    requires HeaderBeforeWeights(header)
    ensures Validate(s, path, Some(header + WeightSection(m))) ==
      (State(Some(path), Some(header + WeightSection(m)), s.coordinates, m, Some("EXPLICIT"), Some("FULL_MATRIX")), Pass)
  {
    FullMatrixFile(header, m, n);
    FullMatrixValidate(s, path, header + WeightSection(m), m);
  }

  lemma FullMatrixFile(header: seq<string>, m: seq<seq<int>>, n: nat)
    requires IsSquare(m, n)
    requires ReadHeader(header) == Success(Header("EXPLICIT", Some("FULL_MATRIX")))
    requires FieldValue(header, "DIMENSION", false) == Success(Some(ShowInt(n)))
    requires HeaderBeforeWeights(header)
    ensures ReadHeader(header + WeightSection(m)) == Success(Header("EXPLICIT", Some("FULL_MATRIX")))
    ensures ExplicitWeights(header + WeightSection(m), Some("FULL_MATRIX")) == Weights(m, Some("FULL_MATRIX"), Pass)
  {
    FullMatrixWeights(header, m, n);
    FullMatrixHeader(header, WeightSection(m));
  }

  lemma FullMatrixValidate(s: State, path: string, lines: seq<string>, m: seq<seq<int>>)
    requires ReadHeader(lines) == Success(Header("EXPLICIT", Some("FULL_MATRIX")))
    requires ExplicitWeights(lines, Some("FULL_MATRIX")) == Weights(m, Some("FULL_MATRIX"), Pass)
    ensures Validate(s, path, Some(lines)) ==
      (State(Some(path), Some(lines), s.coordinates, m, Some("EXPLICIT"), Some("FULL_MATRIX")), Pass)
  {
    ValidateLoads(s, path, lines);
  }

  lemma FullMatrixHeader(header: seq<string>, rest: seq<string>)
    requires ReadHeader(header) == Success(Header("EXPLICIT", Some("FULL_MATRIX")))
    ensures ReadHeader(header + rest) == Success(Header("EXPLICIT", Some("FULL_MATRIX")))
  {
    ReadHeaderExtend(header, rest);
  }

  /** The weight loader's part of the round trip. */
  lemma FullMatrixWeights(header: seq<string>, m: seq<seq<int>>, n: nat)
    requires IsSquare(m, n)
    requires FieldValue(header, "DIMENSION", false) == Success(Some(ShowInt(n)))
    requires HeaderBeforeWeights(header)
    ensures ExplicitWeights(header + WeightSection(m), Some("FULL_MATRIX")) == Weights(m, Some("FULL_MATRIX"), Pass)
  {
    var ws := WeightSection(m);
    FoundField(header, "DIMENSION", false);
    FieldValueExtend(header, ws, "DIMENSION", false);
    ScanWeightsSkip(header, ws);
    WeightSectionScan(m);
    ExplicitWeightsSteps(header + ws, Some("FULL_MATRIX"), n, Flatten(m));
    DecodeFull(Flatten(m), n);
    FullMatrixRoundTrip(m, n);
  }

  /** With the dimension and the stream read, the weight loader is the
      decoder the remapped format selects. */
  lemma ExplicitWeightsSteps(lines: seq<string>, format: Option<string>, n: int, values: seq<int>)
    requires FieldValue(lines, "DIMENSION", false) == Success(Some(ShowInt(n)))
    requires ScanWeights(lines, false) == Success(values)
    ensures ExplicitWeights(lines, format) ==
      match Decode(values, n, RemapFormat(format))
      case Failure(e) => Weights([], RemapFormat(format), Fail(e))
      case Success(d) => Weights(d, RemapFormat(format), Pass)
  {
    ParseShow(n);
  }

  lemma DecodeFull(values: seq<int>, n: int)
    ensures RemapFormat(Some("FULL_MATRIX")) == Some("FULL_MATRIX")
    ensures Decode(values, n, Some("FULL_MATRIX")) == Success(FullMatrix(values, n))
  {
  }

  // ------------------------------------------------------- NODE_COORD_SECTION

  /** Integer coordinates written as tokens. */
  function IntCoord(p: (int, int)): Coord {
    Coord(ShowInt(p.0), ShowInt(p.1))
  }

  function CoordLines(points: seq<(int, int)>): (r: seq<string>)
    ensures |r| == |points|
    ensures forall k :: 0 <= k < |points| ==> r[k] == CoordLineText(k + 1, IntCoord(points[k]))
  {
    seq(|points|, k requires 0 <= k < |points| => CoordLineText(k + 1, IntCoord(points[k])))
  }

  /** The coordinate part of a file: the section keyword, one line
      `id x y` per city numbered from 1, and EOF. */
  function CoordSection(points: seq<(int, int)>): (r: seq<string>)
    ensures |r| == |points| + 2 && r[0] == NodeCoordSection && r[|r| - 1] == EndOfFile
  {
    [NodeCoordSection] + CoordLines(points) + [EndOfFile]
  }

  lemma CoordLineNumeric(id: int, c: (int, int))
    ensures Numeric(CoordLineText(id, IntCoord(c)))
  {
    ShowIntNumeric(id);
    ShowIntNumeric(c.0);
    ShowIntNumeric(c.1);
    NumericConcat(ShowInt(id), " ");
    NumericConcat(ShowInt(id) + " ", ShowInt(c.0));
    NumericConcat(ShowInt(id) + " " + ShowInt(c.0), " ");
    NumericConcat(ShowInt(id) + " " + ShowInt(c.0) + " ", ShowInt(c.1));
  }

  lemma CoordLineKept(id: int, c: (int, int))
    ensures ReadCoordLine(CoordLineText(id, IntCoord(c)), false) == Kept(IntCoord(c))
    ensures Strip(CoordLineText(id, IntCoord(c))) != EndOfFile
  {
    ShowIntIsWord(c.0);
    ShowIntIsWord(c.1);
    ShowIntFloat(c.0);
    ShowIntFloat(c.1);
    ReadCoordLineText(id, IntCoord(c), false);
  }

  /** The coordinate part of a written file keeps one coordinate per line. */
  lemma CoordSectionScan(header: seq<string>, points: seq<(int, int)>)
    requires forall k :: 0 <= k < |header| ==> !Contains(header[k], NodeCoordSection)
    ensures ScanCoords(header + CoordSection(points), NodeCoordSection, false, false) ==
      Scan(seq(|points|, k requires 0 <= k < |points| => IntCoord(points[k])), None)
  {
    var body := CoordLines(points);
    assert |NodeCoordSection| > |EndOfFile|;
    hide *;
    CoordBody(points);
    KeptIntCoords(body, points);
    CoordSectionShape(header, points);
    ScanSection(header, NodeCoordSection, body, [], false);
  }

  /** Every written node line is kept by the scan and neither opens nor
      closes the section. */
  lemma CoordBody(points: seq<(int, int)>)
    ensures |CoordLines(points)| == |points|
    ensures forall k :: 0 <= k < |points| ==>
      !Contains(CoordLines(points)[k], NodeCoordSection) && Strip(CoordLines(points)[k]) != EndOfFile
    ensures forall k :: 0 <= k < |points| ==> ReadCoordLine(CoordLines(points)[k], false).Kept?
    ensures forall k :: 0 <= k < |points| ==> ReadCoordLine(CoordLines(points)[k], false).c == IntCoord(points[k])
  {
    var body := CoordLines(points);
    forall k | 0 <= k < |body|
      ensures !Contains(body[k], NodeCoordSection) && Strip(body[k]) != EndOfFile
      ensures ReadCoordLine(body[k], false).Kept?
      ensures ReadCoordLine(body[k], false).c == IntCoord(points[k])
    {
      CoordLineNumeric(k + 1, points[k]);
      NumericPassive(body[k]);
      CoordLineKept(k + 1, points[k]);
    }
  }

  lemma KeptIntCoords(body: seq<string>, points: seq<(int, int)>)
    requires |body| == |points|
    requires forall k :: 0 <= k < |body| ==> ReadCoordLine(body[k], false).Kept?
    requires forall k :: 0 <= k < |body| ==> ReadCoordLine(body[k], false).c == IntCoord(points[k])
    ensures KeptCoords(body, false) == seq(|points|, k requires 0 <= k < |points| => IntCoord(points[k]))
  {
    hide *;
    var r := KeptCoords(body, false);
    assert forall k :: 0 <= k < |points| ==> r[k] == IntCoord(points[k]);
  }

  lemma CoordSectionShape(header: seq<string>, points: seq<(int, int)>)
    ensures header + CoordSection(points) == header + [NodeCoordSection] + CoordLines(points) + [EndOfFile] + []
  {
    assert CoordSection(points) == [NodeCoordSection] + CoordLines(points) + [EndOfFile];
    hide *;
    FramedAppend(header, NodeCoordSection, CoordLines(points), EndOfFile);
  }

  lemma FramedAppend<T>(before: seq<T>, a: T, body: seq<T>, c: T)
    ensures before + ([a] + body + [c]) == before + [a] + body + [c] + []
  {
  }

  /** No line of the coordinate part starts with EDGE_WEIGHT_FORMAT. */
  lemma CoordSectionNoFormat(points: seq<(int, int)>)
    ensures forall k :: 0 <= k < |CoordSection(points)| ==> !StartsWith(CoordSection(points)[k], "EDGE_WEIGHT_FORMAT")
  {
    var cs := CoordSection(points);
    forall k | 0 <= k < |cs| ensures !StartsWith(cs[k], "EDGE_WEIGHT_FORMAT") {
      if 0 < k < |cs| - 1 {
        CoordLineNumeric(k, points[k - 1]);
        NumericNoKeyword(cs[k], "EDGE_WEIGHT_FORMAT");
      } else if k == 0 {
        assert cs[k][0] != "EDGE_WEIGHT_FORMAT"[0];
      }
    }
  }

  /** A header declaring a coordinate instance without EDGE_WEIGHT_FORMAT,
      followed by a NODE_COORD_SECTION of integer coordinates, validates to
      exactly those coordinates; the distance matrix is left as it was. */
  lemma CoordinateFileRoundTrip(s: State, path: string, header: seq<string>, points: seq<(int, int)>)
    requires ReadHeader(header).Success?
    requires ReadHeader(header).value.edgeWeightType != "EXPLICIT"
    requires ReadHeader(header).value.edgeWeightFormat.None?
    requires forall k :: 0 <= k < |header| ==> !Contains(header[k], NodeCoordSection)
    ensures Validate(s, path, Some(header + CoordSection(points))) ==
      (State(Some(path), Some(header + CoordSection(points)),
             seq(|points|, k requires 0 <= k < |points| => IntCoord(points[k])), s.distanceMatrix,
             Some(ReadHeader(header).value.edgeWeightType), None), Pass)
  {
    var cs := CoordSection(points);
    var lines := header + cs;
    CoordSectionNoFormat(points);
    ReadHeaderExtend(header, cs);
    ValidateLoads(s, path, lines);
    assert lines[|header|] == NodeCoordSection && StartsWith(NodeCoordSection, NodeCoordSection);
    assert AnyLineContains(lines, NodeCoordSection);
    CoordSectionScan(header, points);
  }
}
