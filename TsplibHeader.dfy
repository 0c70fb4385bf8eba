/** The specification part of a TSPLIB file (TSPLIB 95, section 1.1): lines of
    the form `KEY : value`, looked up by line prefix, and the checks made on
    them before anything else is read. A file is its list of lines. */
module TsplibHeader {
  import opened Wrappers
  import opened Text

  const RequiredFields: seq<string> := ["NAME", "TYPE", "DIMENSION", "EDGE_WEIGHT_TYPE"]
  const SupportedTypes: seq<string> := ["EXPLICIT", "EUC_2D", "CEIL_2D", "ATT", "GEO"]

  /** Everything that makes reading a file fail: the exceptions of the parser. */
  datatype ParseError =
    | FileNotFound(path: string)
    | FieldNotFound(field: string)
    | MissingColon(line: string)
    | MissingField(field: string)
    | InvalidDimension(value: string)
    | UnsupportedType(edgeWeightType: Option<string>)
    | BadInteger(token: string)
    | BadFloat(token: string)
    | MissingCoordSection
    | NoCoordinates(metric: string)
    | UnsupportedFormat(format: Option<string>)

  /** The index of the first line that starts with `field`, or |lines|. */
  function FirstLineStarting(lines: seq<string>, field: string): (k: nat)
    ensures k <= |lines|
    ensures k < |lines| ==> StartsWith(lines[k], field)
    ensures forall i :: 0 <= i < k ==> !StartsWith(lines[i], field)
  {
    if lines == [] then 0
    else if StartsWith(lines[0], field) then 0
    else 1 + FirstLineStarting(lines[1..], field)
  }

  /** `line.split(":")[1].strip()`: the text between the first and the second
      colon, stripped; a line without a colon raises IndexError. */
  function AfterColon(line: string): (r: Result<string, ParseError>)
    ensures r.Failure? <==> ':' !in line
  {
    var parts := SplitOn(line, ':');
    if |parts| < 2 then Failure(MissingColon(line)) else Success(Strip(parts[1]))
  }

  /** `get_field_value(field, optional)`: the first line that starts with
      the field decides. */
  function FieldValue(lines: seq<string>, field: string, optional: bool): (r: Result<Option<string>, ParseError>)
    ensures !optional && r.Success? ==> r.value.Some?
    ensures r == Success(None) <==> optional && forall i :: 0 <= i < |lines| ==> !StartsWith(lines[i], field)
    ensures r == Failure(FieldNotFound(field)) <==> !optional && forall i :: 0 <= i < |lines| ==> !StartsWith(lines[i], field)
  {
    if lines == [] then
      if optional then Success(None) else Failure(FieldNotFound(field))
    else if StartsWith(lines[0], field) then
      match AfterColon(lines[0])
      case Success(v) => Success(Some(v))
      case Failure(e) => Failure(e)
    else
      assert forall i :: 1 <= i < |lines| ==> lines[i] == lines[1..][i - 1];
      FieldValue(lines[1..], field, optional)
  }

  /** The line `FirstLineStarting` finds is the one whose value comes back. */
  lemma {:induction false} FieldValueFirst(lines: seq<string>, field: string, optional: bool)
    requires FirstLineStarting(lines, field) < |lines|
    ensures FieldValue(lines, field, optional) ==
      match AfterColon(lines[FirstLineStarting(lines, field)])
      case Success(v) => Success(Some(v))
      case Failure(e) => Failure(e)
  {
    if !StartsWith(lines[0], field) {
      FieldValueFirst(lines[1..], field, optional);
    }
  }

  /** A header line as a TSPLIB writer puts it. */
  function HeaderLine(field: string, value: string): string {
    field + ": " + value
  }

  lemma StripPadded(value: string)
    requires value == [] || (!IsSpace(value[0]) && !IsSpace(value[|value| - 1]))
    ensures Strip(" " + value) == value
  {
    var padded := " " + value;
    assert padded[0] == ' ' && padded[1..] == value;
    assert TrimLeft(value) == value;
    assert TrimLeft(padded) == value;
    assert TrimRight(value) == value;
  }

  /** The first line that starts with the field decides, and its value comes
      back stripped: reading a written header line gives the value back. */
  lemma FieldValueOfHeader(before: seq<string>, field: string, value: string, after: seq<string>, optional: bool)
    requires forall i :: 0 <= i < |before| ==> !StartsWith(before[i], field)
    requires ':' !in field && ':' !in value
    requires value == [] || (!IsSpace(value[0]) && !IsSpace(value[|value| - 1]))
    ensures FieldValue(before + [HeaderLine(field, value)] + after, field, optional) == Success(Some(value))
  {
    var lines := before + [HeaderLine(field, value)] + after;
    assert lines[|before|] == HeaderLine(field, value);
    assert forall i :: 0 <= i < |before| ==> lines[i] == before[i];
    FirstLineAt(lines, field, |before|);
    FieldValueFirst(lines, field, optional);
    AfterColonOfHeader(field, value);
  }

  /** The value of a written header line is read back. */
  lemma AfterColonOfHeader(field: string, value: string)
    requires ':' !in field && ':' !in value
    requires value == [] || (!IsSpace(value[0]) && !IsSpace(value[|value| - 1]))
    ensures AfterColon(HeaderLine(field, value)) == Success(value)
  {
    assert HeaderLine(field, value) == field + [':'] + (" " + value);
    SplitOnCut(field, " " + value, ':');
    SplitOnNoSeparator(" " + value, ':');
    StripPadded(value);
  }

  lemma {:induction false} FirstLineAt(lines: seq<string>, field: string, k: nat)
    requires k < |lines| && StartsWith(lines[k], field)
    requires forall i :: 0 <= i < k ==> !StartsWith(lines[i], field)
    ensures FirstLineStarting(lines, field) == k
  {
    if k > 0 {
      FirstLineAt(lines[1..], field, k - 1);
    }
  }

  /** `value.isdigit() and int(value) > 0`. */
  predicate ValidDimension(value: string) {
    IsDigits(value) && DigitsValue(value) > 0
  }

  /** One round of the required-field loop of `validate_file`. */
  function CheckField(lines: seq<string>, field: string): Outcome<ParseError> {
    match FieldValue(lines, field, false)
    case Failure(e) => Fail(e)
    case Success(None) => Fail(MissingField(field))
    case Success(Some(v)) =>
      if v == "" then Fail(MissingField(field))
      else if field == "DIMENSION" && !ValidDimension(v) then Fail(InvalidDimension(v))
      else Pass
  }

  /** The required-field loop: the first field that fails decides the error. */
  function CheckFields(lines: seq<string>, fields: seq<string>): (r: Outcome<ParseError>)
    ensures r.Pass? <==> forall k :: 0 <= k < |fields| ==> CheckField(lines, fields[k]).Pass?
  {
    if fields == [] then Pass
    else match CheckField(lines, fields[0])
      case Fail(e) => Fail(e)
      case Pass => CheckFields(lines, fields[1..])
  }

  /** A field whose first matching line carries a non-empty value. */
  predicate Present(lines: seq<string>, field: string) {
    var r := FieldValue(lines, field, false);
    r.Success? && r.value.Some? && r.value.value != ""
  }

  /** The value of a present field; the empty text otherwise. */
  function Value(lines: seq<string>, field: string): string {
    var r := FieldValue(lines, field, false);
    if r.Success? && r.value.Some? then r.value.value else ""
  }

  /** What `validate_file` reads from the header before loading data: the
      edge weight type and the optional edge weight format. */
  datatype Header = Header(edgeWeightType: string, edgeWeightFormat: Option<string>)

  function ReadHeader(lines: seq<string>): (r: Result<Header, ParseError>)
    ensures r.Success? ==> r.value.edgeWeightType in SupportedTypes
  {
    match CheckFields(lines, RequiredFields)
    case Fail(e) => Failure(e)
    case Pass =>
      match FieldValue(lines, "EDGE_WEIGHT_TYPE", false)
      case Failure(e) => Failure(e)
      case Success(t) =>
        if t.None? || t.value !in SupportedTypes then Failure(UnsupportedType(t))
        else match FieldValue(lines, "EDGE_WEIGHT_FORMAT", true)
          case Failure(e) => Failure(e)
          case Success(f) => Success(Header(t.value, f))
  }

  /** The header is accepted exactly when NAME, TYPE, DIMENSION and
      EDGE_WEIGHT_TYPE are present and non-empty, DIMENSION is a positive
      digit string, the edge weight type is one of the five supported ones,
      and an EDGE_WEIGHT_FORMAT line, if there is one, has a colon. */
  lemma ReadHeaderAccepts(lines: seq<string>)
    ensures ReadHeader(lines).Success? <==>
      Present(lines, "NAME") && Present(lines, "TYPE") &&
      Present(lines, "DIMENSION") && ValidDimension(Value(lines, "DIMENSION")) &&
      Present(lines, "EDGE_WEIGHT_TYPE") && Value(lines, "EDGE_WEIGHT_TYPE") in SupportedTypes &&
      FieldValue(lines, "EDGE_WEIGHT_FORMAT", true).Success?
  {
    var fields := RequiredFields;
    assert fields == ["NAME"] + (["TYPE"] + (["DIMENSION"] + (["EDGE_WEIGHT_TYPE"] + [])));
    CheckFieldsCons(lines, "NAME", ["TYPE", "DIMENSION", "EDGE_WEIGHT_TYPE"]);
    CheckFieldsCons(lines, "TYPE", ["DIMENSION", "EDGE_WEIGHT_TYPE"]);
    CheckFieldsCons(lines, "DIMENSION", ["EDGE_WEIGHT_TYPE"]);
    CheckFieldsCons(lines, "EDGE_WEIGHT_TYPE", []);
    CheckFieldPass(lines, "NAME");
    CheckFieldPass(lines, "TYPE");
    CheckFieldPass(lines, "DIMENSION");
    CheckFieldPass(lines, "EDGE_WEIGHT_TYPE");
  }

  lemma CheckFieldsCons(lines: seq<string>, field: string, rest: seq<string>)
    ensures CheckFields(lines, [field] + rest).Pass? <==> CheckField(lines, field).Pass? && CheckFields(lines, rest).Pass?
  {
    assert ([field] + rest)[0] == field && ([field] + rest)[1..] == rest;
  }

  lemma CheckFieldPass(lines: seq<string>, field: string)
    ensures CheckField(lines, field).Pass? <==>
      Present(lines, field) && (field == "DIMENSION" ==> ValidDimension(Value(lines, field)))
  {
  }
}
