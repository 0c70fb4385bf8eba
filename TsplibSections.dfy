/** The data part of a TSPLIB file (TSPLIB 95, section 1.2) as the parser
    scans it: NODE_COORD_SECTION and DISPLAY_DATA_SECTION lines `id x y`, and
    the integer stream after EDGE_WEIGHT_SECTION. Coordinates are kept as the
    text of their tokens; the distance functions that would read them are
    parameters elsewhere. */
module TsplibSections {
  import opened Wrappers
  import opened Text
  import opened TsplibHeader
  import opened TsplibMatrix

  const NodeCoordSection: string := "NODE_COORD_SECTION"
  const DisplayDataSection: string := "DISPLAY_DATA_SECTION"
  const EdgeWeightSection: string := "EDGE_WEIGHT_SECTION"
  const EndOfFile: string := "EOF"

  /** `keyword in content` for a keyword without line breaks. */
  predicate AnyLineContains(lines: seq<string>, keyword: string) {
    exists i :: 0 <= i < |lines| && Contains(lines[i], keyword)
  }

  /** The x and y tokens of a coordinate line. */
  datatype Coord = Coord(x: string, y: string)

  datatype LineReading = Skipped | Kept(c: Coord) | Rejected(e: ParseError)

  /** One line inside a coordinate section: a node line has at least three
      tokens (exactly three in the display section); its first token must be
      an integer and the next two must be floats, checked in that order. */
  function ReadCoordLine(line: string, exactlyThree: bool): LineReading {
    var parts := Words(line);
    if (if exactlyThree then |parts| == 3 else |parts| >= 3) then
      if ParseInt(parts[0]).None? then Rejected(BadInteger(parts[0]))
      else if !FloatToken(parts[1]) then Rejected(BadFloat(parts[1]))
      else if !FloatToken(parts[2]) then Rejected(BadFloat(parts[2]))
      else Kept(Coord(parts[1], parts[2]))
    else Skipped
  }

  /** What a coordinate scan leaves behind: the coordinates appended so far
      and the error that stopped it, if any. */
  datatype Scan = Scan(coords: seq<Coord>, error: Option<ParseError>)

  /** The coordinate loop: a line holding the marker opens the section; inside
      it a line that strips to "EOF" ends the scan. */
  function ScanCoords(lines: seq<string>, marker: string, exactlyThree: bool, inSection: bool): (r: Scan)
    ensures |r.coords| <= |lines|
    ensures r.error.Some? ==> r.error.value.BadInteger? || r.error.value.BadFloat?
    ensures !inSection && !AnyLineContains(lines, marker) ==> r == Scan([], None)
  {
    if lines == [] then Scan([], None)
    else if Contains(lines[0], marker) then ScanCoords(lines[1..], marker, exactlyThree, true)
    else if !inSection then
      var r := ScanCoords(lines[1..], marker, exactlyThree, false);
      assert AnyLineContains(lines[1..], marker) ==> AnyLineContains(lines, marker);
      r
    else if Strip(lines[0]) == EndOfFile then Scan([], None)
    else match ReadCoordLine(lines[0], exactlyThree)
      case Skipped => ScanCoords(lines[1..], marker, exactlyThree, true)
      case Rejected(e) => Scan([], Some(e))
      case Kept(c) =>
        var rest := ScanCoords(lines[1..], marker, exactlyThree, true);
        Scan([c] + rest.coords, rest.error)
  }

  /** The coordinates kept from lines that are all node lines. */
  function KeptCoords(body: seq<string>, exactlyThree: bool): (r: seq<Coord>)
    requires forall k :: 0 <= k < |body| ==> ReadCoordLine(body[k], exactlyThree).Kept?
    ensures |r| == |body|
    ensures forall k :: 0 <= k < |body| ==> r[k] == ReadCoordLine(body[k], exactlyThree).c
  {
    if body == [] then [] else [ReadCoordLine(body[0], exactlyThree).c] + KeptCoords(body[1..], exactlyThree)
  }

  lemma ContainsShorter(s: string, p: string)
    requires Contains(s, p)
    ensures |p| <= |s|
  {
    ContainsIff(s, p);
  }

  /** A section of node lines closed by "EOF" yields one coordinate per line,
      in file order, and nothing after "EOF" is read. */
  lemma {:induction false} ScanSection(before: seq<string>, marker: string, body: seq<string>, after: seq<string>, exactlyThree: bool)
    requires |marker| > |EndOfFile|
    requires forall k :: 0 <= k < |before| ==> !Contains(before[k], marker)
    requires forall k :: 0 <= k < |body| ==> !Contains(body[k], marker) && Strip(body[k]) != EndOfFile
    requires forall k :: 0 <= k < |body| ==> ReadCoordLine(body[k], exactlyThree).Kept?
    ensures ScanCoords(before + [marker] + body + [EndOfFile] + after, marker, exactlyThree, false)
         == Scan(KeptCoords(body, exactlyThree), None)
  {
    assert Contains(marker, marker) by {
      assert StartsWith(marker, marker);
    }
    hide ReadCoordLine, Strip, Contains, KeptCoords;
    SectionShape(before, marker, body, EndOfFile, after);
    if before == [] {
      ScanBody(body, marker, [EndOfFile] + after, exactlyThree);
    } else {
      ScanSection(before[1..], marker, body, after, exactlyThree);
    }
  }

  /** The first line and the rest of lines framed around a section. */
  lemma SectionShape<T>(before: seq<T>, marker: T, body: seq<T>, eof: T, after: seq<T>)
    ensures var lines := before + [marker] + body + [eof] + after;
      lines != [] &&
      (before == [] ==> lines[0] == marker && lines[1..] == body + ([eof] + after)) &&
      (before != [] ==> lines[0] == before[0] && lines[1..] == before[1..] + [marker] + body + [eof] + after)
  {
  }

  lemma {:induction false} ScanBody(body: seq<string>, marker: string, tail: seq<string>, exactlyThree: bool)
    requires |marker| > |EndOfFile|
    requires forall k :: 0 <= k < |body| ==> !Contains(body[k], marker) && Strip(body[k]) != EndOfFile
    requires forall k :: 0 <= k < |body| ==> ReadCoordLine(body[k], exactlyThree).Kept?
    requires tail != [] && tail[0] == EndOfFile
    ensures ScanCoords(body + tail, marker, exactlyThree, true) == Scan(KeptCoords(body, exactlyThree), None)
  {
    if body == [] {
      assert body + tail == tail;
      EofEndsSection(marker, tail, exactlyThree);
    } else {
      PeelFirst(body, tail);
      ScanBody(body[1..], marker, tail, exactlyThree);
      ScanKeptLine(body[0], body[1..] + tail, marker, exactlyThree);
    }
  }

  lemma EofEndsSection(marker: string, tail: seq<string>, exactlyThree: bool)
    requires |marker| > |EndOfFile|
    requires tail != [] && tail[0] == EndOfFile
    ensures ScanCoords(tail, marker, exactlyThree, true) == Scan([], None)
  {
    if Contains(EndOfFile, marker) {
      ContainsShorter(EndOfFile, marker);
    }
    StripNoSpace(EndOfFile);
  }

  lemma PeelFirst<T>(xs: seq<T>, ys: seq<T>)
    requires xs != []
    ensures xs + ys == [xs[0]] + (xs[1..] + ys)
  {
  }

  /** A node line inside the section adds its coordinate in front of what
      the rest of the scan keeps. */
  lemma ScanKeptLine(line: string, rest: seq<string>, marker: string, exactlyThree: bool)
    requires !Contains(line, marker) && Strip(line) != EndOfFile
    requires ReadCoordLine(line, exactlyThree).Kept?
    ensures var r := ScanCoords(rest, marker, exactlyThree, true);
      ScanCoords([line] + rest, marker, exactlyThree, true) == Scan([ReadCoordLine(line, exactlyThree).c] + r.coords, r.error)
  {
    assert ([line] + rest)[0] == line && ([line] + rest)[1..] == rest;
  }

  /** A node line as a TSPLIB writer puts it. */
  function CoordLineText(id: int, c: Coord): string {
    ShowInt(id) + " " + c.x + " " + c.y
  }

  lemma TakeWordPrefix(w: string, rest: string)
    requires NoSpace(w)
    ensures TakeWord(w + " " + rest) == w
  {
    if w != [] {
      TakeWordPrefix(w[1..], rest);
      assert (w + " " + rest)[1..] == w[1..] + " " + rest;
    }
  }

  lemma TrimLeftSpace(s: string)
    ensures TrimLeft(" " + s) == TrimLeft(s)
  {
    assert (" " + s)[1..] == s;
  }

  lemma WordsSpace(s: string)
    ensures Words(" " + s) == Words(s)
  {
    TrimLeftSpace(s);
  }

  lemma TrimLeftNonSpace(s: string)
    requires s != [] && !IsSpace(s[0])
    ensures TrimLeft(s) == s
  {
  }

  lemma WordsCons(w: string, rest: string)
    requires IsWord(w)
    ensures Words(w + " " + rest) == [w] + Words(rest)
  {
    var s := w + " " + rest;
    TrimLeftNonSpace(s);
    TakeWordPrefix(w, rest);
    assert s[|w|..] == " " + rest;
    WordsSpace(rest);
  }

  lemma WordsSingle(w: string)
    requires IsWord(w)
    ensures Words(w) == [w]
  {
    assert TrimLeft(w) == w;
    assert TakeWord(w) == w by {
      TakeWordPrefix(w, "");
      TakeWordAll(w);
    }
    assert w[|w|..] == [];
  }

  lemma TakeWordAll(w: string)
    requires NoSpace(w)
    ensures TakeWord(w) == w
  {
    if w != [] {
      TakeWordAll(w[1..]);
      assert [w[0]] + w[1..] == w;
    }
  }

  lemma ShowIntIsWord(n: int)
    ensures IsWord(ShowInt(n))
  {
    NoSpaceAll(ShowInt(n));
  }

  lemma WordsOfCoordLine(id: int, c: Coord)
    requires IsWord(c.x) && IsWord(c.y)
    ensures Words(CoordLineText(id, c)) == [ShowInt(id), c.x, c.y]
  {
    var idText := ShowInt(id);
    ShowIntIsWord(id);
    ThreeWords(idText, c.x, c.y);
  }

  lemma ThreeWords(a: string, b: string, c: string)
    requires IsWord(a) && IsWord(b) && IsWord(c)
    ensures Words(a + " " + b + " " + c) == [a, b, c]
  {
    TwoWords(b, c);
    WordsCons(a, b + " " + c);
    SpacedAssoc(a, b, c);
  }

  lemma SpacedAssoc(a: string, b: string, c: string)
    ensures a + " " + b + " " + c == a + " " + (b + " " + c)
  {
  }

  lemma TwoWords(b: string, c: string)
    requires IsWord(b) && IsWord(c)
    ensures Words(b + " " + c) == [b, c]
  {
    hide *;
    WordsSingle(c);
    WordsCons(b, c);
  }

  /** A line starting with something other than whitespace keeps its first
      character when stripped. */
  lemma StripFirst(s: string)
    requires s != [] && !IsSpace(s[0])
    ensures Strip(s) != [] && Strip(s)[0] == s[0]
  {
    TrimLeftNonSpace(s);
  }

  /** Reading a written node line gives its coordinate back, and the line
      does not end the section. */
  lemma ReadCoordLineText(id: int, c: Coord, exactlyThree: bool)
    requires IsWord(c.x) && IsWord(c.y) && FloatToken(c.x) && FloatToken(c.y)
    ensures ReadCoordLine(CoordLineText(id, c), exactlyThree) == Kept(c)
    ensures Strip(CoordLineText(id, c)) != EndOfFile
  {
    WordsOfCoordLine(id, c);
    ReadThreeWords(CoordLineText(id, c), id, c, exactlyThree);
    CoordLineNotEof(id, c);
  }

  lemma ReadThreeWords(line: string, id: int, c: Coord, exactlyThree: bool)
    requires Words(line) == [ShowInt(id), c.x, c.y]
    requires FloatToken(c.x) && FloatToken(c.y)
    ensures ReadCoordLine(line, exactlyThree) == Kept(c)
  {
    hide Words, FloatToken, ParseInt, ShowInt;
    ParseShow(id);
  }

  lemma CoordLineNotEof(id: int, c: Coord)
    ensures Strip(CoordLineText(id, c)) != EndOfFile
  {
    var text := CoordLineText(id, c);
    var idText := ShowInt(id);
    assert text[0] == idText[0];
    StripFirst(text);
  }

  // ---------------------------------------------------------- EDGE_WEIGHT_SECTION

  /** A line that ends weight collection, even before the section starts. */
  predicate StopsWeights(line: string) {
    Contains(line, DisplayDataSection) || Contains(line, EndOfFile) || Contains(line, NodeCoordSection)
  }

  /** The weight loop: the integers on the lines after EDGE_WEIGHT_SECTION,
      in file order, up to the first line that stops collection. */
  function ScanWeights(lines: seq<string>, inSection: bool): (r: Result<seq<int>, ParseError>)
    ensures !inSection && !AnyLineContains(lines, EdgeWeightSection) ==> r == Success([])
  {
    if lines == [] then Success([])
    else if StopsWeights(lines[0]) then Success([])
    else if Contains(lines[0], EdgeWeightSection) then ScanWeights(lines[1..], true)
    else if inSection then
      match ParseAll(Words(lines[0]))
      case Failure(t) => Failure(BadInteger(t))
      case Success(vs) =>
        match ScanWeights(lines[1..], true)
        case Failure(e) => Failure(e)
        case Success(rest) => Success(vs + rest)
    else
      var r := ScanWeights(lines[1..], false);
      assert AnyLineContains(lines[1..], EdgeWeightSection) ==> AnyLineContains(lines, EdgeWeightSection);
      r
  }

  /** A line containing "EOF" ahead of the weight section ends collection
      before any weight is read. */
  lemma {:induction false} EofBeforeSection(before: seq<string>, stop: string, after: seq<string>)
    requires forall k :: 0 <= k < |before| ==> !StopsWeights(before[k]) && !Contains(before[k], EdgeWeightSection)
    requires Contains(stop, EndOfFile)
    ensures ScanWeights(before + [stop] + after, false) == Success([])
  {
    var lines := before + [stop] + after;
    if before != [] {
      assert lines[1..] == before[1..] + [stop] + after;
      EofBeforeSection(before[1..], stop, after);
    } else {
      assert lines[0] == stop;
    }
  }

  /** A row of weights as a writer puts it: the numbers separated by spaces. */
  function WeightLine(row: seq<int>): string {
    Join(Map(row), ' ')
  }

  lemma {:induction false} WeightLineNumeric(row: seq<int>)
    ensures Numeric(WeightLine(row))
  {
    if |row| == 1 {
      ShowIntNumeric(row[0]);
    } else if |row| > 1 {
      WeightLineNumeric(row[1..]);
      assert Map(row)[1..] == Map(row[1..]);
      ShowIntNumeric(row[0]);
      NumericConcat(ShowInt(row[0]), " ");
      NumericConcat(ShowInt(row[0]) + " ", WeightLine(row[1..]));
    }
  }

  lemma {:induction false} WordsJoin(ws: seq<string>)
    requires forall k :: 0 <= k < |ws| ==> IsWord(ws[k])
    ensures Words(Join(ws, ' ')) == ws
  {
    if ws == [] {
    } else if |ws| == 1 {
      WordsSingle(ws[0]);
    } else {
      WordsJoin(ws[1..]);
      WordsJoinCons(ws);
    }
  }

  lemma WordsJoinCons(ws: seq<string>)
    requires |ws| >= 2 && IsWord(ws[0]) && Words(Join(ws[1..], ' ')) == ws[1..]
    ensures Words(Join(ws, ' ')) == ws
  {
    assert [ws[0]] + ws[1..] == ws;
    var tail := Join(ws[1..], ' ');
    assert Join(ws, ' ') == ws[0] + " " + tail;
    WordsCons(ws[0], tail);
  }

  /** Reading a written weight row gives its numbers back. */
  lemma ReadWeightLine(row: seq<int>)
    ensures ParseAll(Words(WeightLine(row))) == Success(row)
  {
    forall k | 0 <= k < |row| ensures IsWord(Map(row)[k]) {
      ShowIntIsWord(row[k]);
    }
    WordsJoin(Map(row));
    ParseAllShow(row);
  }

  /** The first line and the rest of a block of lines followed by a stop line. */
  lemma SplitAtStop<T>(body: seq<T>, stop: T, after: seq<T>)
    ensures body == [] ==> (body + [stop] + after)[0] == stop
    ensures body != [] ==> (body + [stop] + after)[0] == body[0]
    ensures body != [] ==> (body + [stop] + after)[1..] == body[1..] + [stop] + after
  {
  }

  /** A weight section whose rows end before a stopping line yields all the
      rows' numbers, concatenated in file order. */
  lemma {:induction false} ScanWeightRows(body: seq<string>, rows: seq<seq<int>>, after: seq<string>, stop: string)
    requires |body| == |rows|
    requires forall k :: 0 <= k < |body| ==> !StopsWeights(body[k]) && !Contains(body[k], EdgeWeightSection)
    requires forall k :: 0 <= k < |body| ==> ParseAll(Words(body[k])) == Success(rows[k])
    requires StopsWeights(stop)
    ensures ScanWeights(body + [stop] + after, true) == Success(Flatten(rows))
  {
    assert rows == [] ==> Flatten(rows) == [];
    hide Words, ParseAll, StopsWeights, Contains, Flatten;
    var lines := body + [stop] + after;
    SplitAtStop(body, stop, after);
    if body != [] {
      ScanWeightRows(body[1..], rows[1..], after, stop);
      FlattenCons(rows);
    }
  }
}
