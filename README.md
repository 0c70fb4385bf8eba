# TSP solver workbench: a verified model of its core

The modelled application is a desktop workbench for the travelling salesman
problem. It reads TSPLIB 95 instance files into a catalog. It then starts a
simulated annealing (SA) solver and a tabu search (TS) solver, both written
in C++, on a chosen instance. Each solver streams its progress over a socket.
A receiver process relays the stream to a queue, and the GUI drains that
queue to plot the run. This project models the sequential core of that
pipeline in Dafny and proves what each part promises.

The modules follow the program's structure:

- `TsplibHeader`: the specification part of a TSPLIB file. It covers the
  prefix lookup of `get_field_value` and the required-field check of
  `validate_file`.
- `TsplibSections`: the data part of a file. It covers the
  NODE_COORD_SECTION and DISPLAY_DATA_SECTION scans and the
  EDGE_WEIGHT_SECTION stream.
- `TsplibMatrix`: the flat-stream-to-matrix decoders. These are the
  row-major FULL_MATRIX reader, the four triangular layouts with mirroring,
  the column-to-row format remap, and the "fill i < j, mirror" loop of the
  coordinate metrics.
- `TsplibParser`: the `TSPLIBParser` object. Its attributes are fields of a
  class, and its loaders are methods proved against functions on a state
  snapshot. The older parser copy differs only in the missing-section check
  of `_load_coordinates`, and is instantiated as
  `LegacyNodeCoordinates`.
- `TsplibWritten`: files as a TSPLIB writer lays them out, and the round
  trips through the parser.
- `TspInstance`: `TSPFile`. This covers metadata loading, the
  optimal-result lookup, the lazy matrix load behind `has_loaded`, and
  `to_dict`.
- `TspCatalog`: `TSPCatalog`. This covers clearing, batch loading over a
  directory listing, first-match lookup, the stable sort by dimension, the
  type filter and the lazy load of one file. The copies differ in what they
  offer. All three have the constructor, `load_files` and `get_file_by_name`.
  Only `src/backend/tsp_management/tsp_catalog.py` has `clear_files`. Only
  the two copies under `src/backend/components/` have `sort_by_dimension`,
  `filter_by_edge_weight_type` and `load_distance_matrix_for_file`.
- `Telemetry`: the progress line `"elapsed best current c1,c2,..."`. This
  covers the C++ encoder and its frequency throttle, the final `"EOF"`, the
  Python decoder with its all-zero fallback, and the best-solution file
  format.
- `Receiver`: the queue between processes, and the relay loop of
  `receive_data`.
- `AlgorithmManager`: the process slots, `is_receiving`, `check_queue` and
  `terminate_processes`.
- `TaskManager`: the coordinator. This covers the start decisions, queue
  polling with timer re-arming, data filtering, stopping, and the instance
  view.
- `Tours`: tours, closed-tour cost, the nearest-neighbour initial tour, and
  the swap, reverse and insert edits shared by both solvers.
- `Tabu`: the tabu list. It is a multimap from remaining tenure to a
  normalised city pair.
- `TabuSearch`: the tabu-list limit formula, the swap and 2-opt
  neighbourhoods, and move acceptance with aspiration. The run state is a
  class.
- `SimulatedAnnealing`: the SWAP, INSERT and INVERT neighbours, and the run
  state with the acceptance step.
- `Settings`: the port and frequency check of the settings dialog.
- `Text`, `Sorting` and `Wrappers`: Python and C++ library semantics the
  core relies on. These are `split`, `strip`, `int`, `str`, the stable
  multimap order, and Option, Result and Outcome.

### Inputs that become parameters

- A file's content is given as its list of lines, or as None when the file
  cannot be opened.
- A directory listing is a sequence of names. Reading a file is a function
  from path to lines.
- The optimal-results JSON file is one of four cases: no file, malformed
  JSON, not an object, or a table.
- The floating-point distance of a coordinate metric is an uninterpreted
  function. It maps the edge weight type and two coordinates to an integer.
- Random draws are passed in as values or finite streams. These are the
  shuffled tour, the start city, index draws and random tenures.
- Clock readings are integers in milliseconds.
- What the socket delivers is a sequence of messages or receive errors.
  Socket setup is a success flag.
- The Metropolis test of SA is a boolean input.
- Qt signals, timer re-arms and diagnostic prints are entries of an event
  log. Processes are slots: none, alive, or ended.

Where the TSPLIB 95 specification and the code differ, the model follows the code.
The Python `int()` is modelled by a strict grammar: an optional `+` or `-`,
then ASCII digits (`Text.ParseInt`). This is an assumption of the model.

## Model

| member | source | states |
|---|---|---|
| TsplibHeader.FieldValue | src/backend/tsp_management/tsplib_parser.py:371-384 | The lookup answers None exactly when the field is optional and no line starts with it. It fails with FieldNotFound exactly when the field is required and no line starts with it. A required field that is found always has a value. The copy in `src/backend/components/tsplib_management/tsplib_parser.py:340-354` does the same. |
| TsplibHeader.FirstLineStarting | src/backend/tsp_management/tsplib_parser.py:379-381 | The index returned is the first line starting with the field. Every earlier line does not start with it. |
| TsplibHeader.FieldValueFirst | src/backend/tsp_management/tsplib_parser.py:379-381 | When some line starts with the field, the value is read from the first such line. |
| TsplibHeader.AfterColon | src/backend/tsp_management/tsplib_parser.py:381 | `split(":")[1]` raises an IndexError exactly when the line has no colon. |
| TsplibHeader.FieldValueOfHeader | src/backend/tsp_management/tsplib_parser.py:371-384 | A header line `FIELD : value` after lines that do not start with the field yields exactly `value`. Later lines cannot change this. |
| TsplibHeader.AfterColonOfHeader | src/backend/tsp_management/tsplib_parser.py:381 | The stripped text after the colon of a written header line is the value written. |
| TsplibHeader.CheckFields | src/backend/tsp_management/tsplib_parser.py:42-47 | The required-field loop passes exactly when every field passes its own check. |
| TsplibHeader.ReadHeader | src/backend/tsp_management/tsplib_parser.py:42-55 | An accepted header always has one of the five supported edge weight types. |
| TsplibHeader.ReadHeaderAccepts | src/backend/tsp_management/tsplib_parser.py:42-54 | The header is accepted exactly when NAME, TYPE and EDGE_WEIGHT_TYPE are non-empty, DIMENSION is a positive digit string, the type is in the whitelist, and an EDGE_WEIGHT_FORMAT line, if there is one, has a colon after its key. A line without one is rejected, because `split(":")[1]` fails on it. This holds in both directions. The copy in `src/backend/components/tsplib_management/tsplib_parser.py:38-50` does the same. |
| TsplibSections.ScanCoords | src/backend/tsp_management/tsplib_parser.py:83-94 | The coordinate loop keeps at most one coordinate per line. A failure is always a bad integer or a bad float. Without a line naming the section, nothing is kept. |
| TsplibSections.ScanSection | src/backend/tsp_management/tsplib_parser.py:83-94 | For a section of node lines closed by "EOF", the scan keeps exactly one coordinate per line, in file order. Lines after "EOF" are ignored. |
| TsplibSections.KeptCoords | src/backend/tsp_management/tsplib_parser.py:90-94 | For node lines, the kept coordinates are the x and y tokens of each line, in order. |
| TsplibSections.ReadCoordLineText | src/backend/tsp_management/tsplib_parser.py:90-94 | Reading a written node line gives its x and y back. Such a line is never taken for "EOF". |
| TsplibSections.ScanWeights | src/backend/tsp_management/tsplib_parser.py:280-288 | Without an EDGE_WEIGHT_SECTION line, no values are collected. |
| TsplibSections.EofBeforeSection | src/backend/tsp_management/tsplib_parser.py:282-283 | A line containing "EOF" ahead of the weight section ends collection with no values. |
| TsplibSections.ScanWeightRows | src/backend/tsp_management/tsplib_parser.py:281-288 | The rows of a weight section that ends at a stopping line are collected as the concatenation of their integers, in file order. |
| TsplibSections.ReadWeightLine | src/backend/tsp_management/tsplib_parser.py:288 | `map(int, line.split())` on a written row of weights gives the row back. |
| TsplibMatrix.Slice | src/backend/tsp_management/tsplib_parser.py:319 | Python slicing: the bounds are clamped, so a short stream gives short rows and never an error. |
| TsplibMatrix.FullMatrix | src/backend/tsp_management/tsplib_parser.py:311-320 | There is one row per city. When the stream holds at least n*n values, the result is an n by n matrix. The copy in `src/backend/components/tsplib_management/tsplib_parser.py:296-299` does the same. |
| TsplibMatrix.FullMatrixCell | src/backend/tsp_management/tsplib_parser.py:319 | Cell (i, j) is value i*n+j of the stream. |
| TsplibMatrix.FullMatrixRoundTrip | src/backend/tsp_management/tsplib_parser.py:319 | Flattening an n by n matrix row by row and reading it back as FULL_MATRIX gives the matrix back. |
| TsplibMatrix.FullMatrixNotMirrored | src/backend/tsp_management/tsplib_parser.py:319 | FULL_MATRIX is not mirrored: the stream [0,1,2,0] gives the asymmetric [[0,1],[2,0]]. |
| TsplibMatrix.Pos | src/backend/tsp_management/tsplib_parser.py:332-349 | The index of the value that fills a cell in the region a layout writes. |
| TsplibMatrix.PosRowMajor | src/backend/tsp_management/tsplib_parser.py:335-349 | The region is visited row by row, so the positions count up by one along a row and continue on the next row. |
| TsplibMatrix.LayoutSize | src/backend/tsp_management/tsplib_parser.py:335-349 | A layout consumes n(n+1)/2 values with the diagonal and n(n-1)/2 values without it. |
| TsplibMatrix.Triangular | src/backend/tsp_management/tsplib_parser.py:322-352 | A triangular decode is always an n by n symmetric matrix. Without the diagonal, the diagonal is zero. |
| TsplibMatrix.TriangularCell | src/backend/tsp_management/tsplib_parser.py:332-349 | A cell in the written region, and its mirror, hold the value at the cell's position, or 0 when the stream is too short. Every other cell is 0. |
| TsplibMatrix.TriangularIgnoresExtras | src/backend/tsp_management/tsplib_parser.py:339 | Values beyond the layout's size do not change the matrix. |
| TsplibMatrix.UpperRowExample | src/backend/tsp_management/tsplib_parser.py:344-349 | UPPER_ROW with n=3 and stream [7,9,3] gives [[0,7,9],[7,0,3],[9,3,0]]. |
| TsplibMatrix.TriangularRoundTrip | src/backend/tsp_management/tsplib_parser.py:332-349 | Writing the region of a symmetric matrix row by row and decoding it gives the matrix back. Without the diagonal, the diagonal must be zero for this to hold. |
| TsplibMatrix.ExtractRowsAt | src/backend/tsp_management/tsplib_parser.py:335-349 | In the written stream of a matrix, the cell (a, b) of the region sits at position Pos(a, b). |
| TsplibMatrix.LoadTriangular | src/backend/tsp_management/tsplib_parser.py:332-349 | The nested loop with a running value index yields exactly the triangular decode. The copy in `src/backend/components/tsplib_management/tsplib_parser.py:310-327` does the same. |
| TsplibMatrix.LoadRow | src/backend/tsp_management/tsplib_parser.py:336-349 | One pass of the inner loop advances the value index over one row and keeps the loop invariant. |
| TsplibMatrix.RemapFormat | src/backend/tsp_management/tsplib_parser.py:290-298 | No column format survives, every other value is kept, and a present format stays present. |
| TsplibMatrix.RemapIdempotent | src/backend/tsp_management/tsplib_parser.py:290-298 | Remapping twice is remapping once. |
| TsplibMatrix.PairMatrix | src/backend/tsp_management/tsplib_parser.py:136-154 | A coordinate metric gives a k by k symmetric matrix with a zero diagonal, for k coordinates. Each pair a < b holds the metric of points a and b. |
| TsplibMatrix.FillSymmetric | src/backend/tsp_management/tsplib_parser.py:145-154 | The shared fill loop of the EUC_2D, CEIL_2D, ATT and GEO routines yields exactly PairMatrix. |
| TsplibParser.NodeCoordinates | src/backend/tsp_management/tsplib_parser.py:70-94 | Loading fails with MissingCoordSection exactly when no line names the section. Any other failure is a bad number. |
| TsplibParser.LegacyNodeCoordinates | src/backend/components/tsplib_management/tsplib_parser.py:71-85 | The older copy never fails for a missing section: it keeps nothing and passes. |
| TsplibParser.LegacyNodeCoordinatesAgree | src/backend/components/tsplib_management/tsplib_parser.py:71-85 | The two copies agree exactly on files that name NODE_COORD_SECTION. This holds in both directions. |
| TsplibParser.DisplayCoordinates | src/backend/tsp_management/tsplib_parser.py:96-115 | Without DISPLAY_DATA_SECTION the result is empty. The result never has more points than the file has lines. The copy in `src/backend/components/tsplib_management/tsplib_parser.py:87-102` does the same. |
| TsplibParser.Decode | src/backend/tsp_management/tsplib_parser.py:300-309 | Decoding fails with UnsupportedFormat exactly when the format is missing or is not FULL_MATRIX or a row layout. A success has one row per city. |
| TsplibParser.ExplicitWeights | src/backend/tsp_management/tsplib_parser.py:267-309 | A failure leaves the matrix empty. The format is either kept or remapped. On success, the matrix is the decode of the collected stream under the remapped format. The copy in `src/backend/components/tsplib_management/tsplib_parser.py:256-294` does the same. |
| TsplibParser.ExplicitWeightsAgain | src/backend/tsp_management/tsplib_parser.py:290-309 | Loading the weights again with the format stored by validation gives the same matrix. |
| TsplibParser.LoadByType | src/backend/tsp_management/tsplib_parser.py:49-61 | After the required fields pass, the path and content are kept. EXPLICIT files are decoded. Other types load coordinates only when NODE_COORD_SECTION occurs. |
| TsplibParser.Validate | src/backend/tsp_management/tsplib_parser.py:24-68 | The path is always recorded. A missing file fails with FileNotFound and changes nothing else. Otherwise the content is stored. |
| TsplibParser.ValidateHeader | src/backend/tsp_management/tsplib_parser.py:42-55 | Validation fails with exactly the header's error when the header is rejected. Otherwise the edge weight type and format are the header's. |
| TsplibParser.ValidateLoads | src/backend/tsp_management/tsplib_parser.py:55-61 | After an accepted header, validation is the load the edge weight type selects. |
| TsplibParser.ReadyKept | src/backend/tsp_management/tsplib_parser.py:8-22 | A new parser can generate a matrix, and validation keeps it able to. |
| TsplibParser.Generate | src/backend/tsp_management/tsplib_parser.py:117-134 | Generation changes only the matrix and the format. On a failure, the matrix is empty or nothing changed. |
| TsplibParser.GenerateCoordinates | src/backend/tsp_management/tsplib_parser.py:136-154 | A coordinate metric fails exactly when there are no coordinates. Otherwise it sets the k by k PairMatrix of the kept coordinates, sized by the coordinates and not by DIMENSION. |
| TsplibParser.GenerateAfterValidate | src/backend/tsp_management/tsplib_parser.py:131-132 | For EXPLICIT, generating after a successful validation rebuilds the very same state. |
| TsplibParser.Parser.constructor | src/backend/tsp_management/tsplib_parser.py:8-22 | A new parser has no path, no content, no coordinates, no matrix and no type or format. |
| TsplibParser.Parser.GetFieldValue | src/backend/tsp_management/tsplib_parser.py:371-384 | The line loop returns exactly FieldValue. |
| TsplibParser.Parser.ValidateFile | src/backend/tsp_management/tsplib_parser.py:24-68 | The attributes after the call, and the outcome, are exactly Validate of the attributes before. |
| TsplibParser.Parser.ValidateType | src/backend/tsp_management/tsplib_parser.py:49-61 | The type and format reads and the dispatch are exactly LoadByType. |
| TsplibParser.Parser.LoadCoordinates | src/backend/tsp_management/tsplib_parser.py:70-94 | Only `coordinates` changes. It holds what was read before any bad line, and the outcome is NodeCoordinates'. |
| TsplibParser.Parser.LoadDisplayCoordinates | src/backend/tsp_management/tsplib_parser.py:96-115 | The result is exactly DisplayCoordinates of the content. |
| TsplibParser.Parser.LoadExplicitWeights | src/backend/tsp_management/tsplib_parser.py:267-309 | The matrix and format become exactly those of ExplicitWeights. |
| TsplibParser.Parser.ReadCoords | src/backend/tsp_management/tsplib_parser.py:83-94 | The line loop with its in-section flag computes exactly ScanCoords. |
| TsplibParser.Parser.ReadWeights | src/backend/tsp_management/tsplib_parser.py:280-288 | The collection loop computes exactly ScanWeights. |
| TsplibParser.Parser.GenerateDistanceMatrix | src/backend/tsp_management/tsplib_parser.py:117-134 | The attributes after the call are exactly Generate of the attributes before. |
| TsplibParser.Parser.GetDistanceMatrix | src/backend/tsp_management/tsplib_parser.py:386-392 | The stored matrix is returned. |
| TsplibWritten.ReadHeaderExtend | src/backend/tsp_management/tsplib_parser.py:42-55 | Data lines after an accepted header never change its acceptance or its values. |
| TsplibWritten.WeightSectionScan | src/backend/tsp_management/tsplib_parser.py:280-288 | The weight part of a written FULL_MATRIX file yields the rows' numbers in order. |
| TsplibWritten.FullMatrixFileRoundTrip | src/backend/tsp_management/tsplib_parser.py:24-68 | Validating a written EXPLICIT FULL_MATRIX file of an n by n matrix passes, and the parser then holds exactly that matrix. |
| TsplibWritten.CoordSectionScan | src/backend/tsp_management/tsplib_parser.py:83-94 | The coordinate part of a written file keeps one coordinate per node line, in order. |
| TsplibWritten.CoordinateFileRoundTrip | src/backend/tsp_management/tsplib_parser.py:24-94 | Validating a written coordinate file passes, and the parser then holds exactly the written points. |
| TspInstance.Basename | src/backend/tsp_management/tsp_file.py:85 | Like `os.path.basename`, the base name holds no '/'. It is a suffix of the path, and it is either the whole path or follows a '/'. So it is exactly the part after the last '/'. |
| Text.SplitOnLastSuffix | src/backend/tsp_management/tsp_file.py:85 | The last piece of splitting on a character is a suffix of the text. It is the whole text or follows that character. |
| TspInstance.BasenameOfJoin | src/backend/tsp_management/tsp_file.py:85 | Joining a directory and a plain file name, then taking the base name, gives the name back. |
| TspInstance.RemoveAll | src/backend/tsp_management/tsp_file.py:85 | `replace(".tsp", "")` is one left-to-right pass that removes non-overlapping occurrences. The result is never longer. It is shorter exactly when the pattern occurs in the text, and otherwise it is the text unchanged. |
| TspInstance.StemOfName | src/backend/tsp_management/tsp_file.py:85 | A name without a dot loses exactly its ".tsp" extension. |
| TspInstance.StemMayLeaveOccurrence | src/backend/tsp_management/tsp_file.py:85 | The removal is a single pass, so it can leave an occurrence behind: ".t.tspsp" becomes ".tsp". |
| TspInstance.StemRemovesEveryOccurrence | src/backend/tsp_management/tsp_file.py:85 | Every occurrence is removed, so "a.tsp.tsp" becomes "a". |
| TspInstance.OptimalResultFound | src/backend/tsp_management/tsp_file.py:61-100 | The optimal result is found exactly when a results path is set, the file holds an object, and the stem is a key. It is then that key's value. No case raises. The copy in `src/backend/components/tsplib_management/tsp_file.py:62-98` does the same. |
| TspInstance.OptimalResultByName | src/backend/tsp_management/tsp_file.py:85-88 | A file `name.tsp` in any directory is looked up under `name`. |
| TspInstance.MatrixView | src/backend/tsp_management/tsp_file.py:123-133 | A matrix is shown exactly when `has_loaded` is set. |
| TspInstance.LoadDistance | src/backend/tsp_management/tsp_file.py:110-121 | Once loaded, nothing changes. A passing load sets the flag. Only the matrix and the flag of the file change. |
| TspInstance.LoadDistanceIdempotent | src/backend/tsp_management/tsp_file.py:116-121 | After a successful load, loading again changes neither the file nor its parser. The copy in `src/backend/components/tsplib_management/tsp_file.py:106-117` does the same. |
| TspInstance.LoadDistanceFirst | src/backend/tsp_management/tsp_file.py:117-119 | The first successful load sets the flag, and the matrix is then the parser's generated matrix. |
| TspInstance.ReadFields | src/backend/tsp_management/tsp_file.py:40-46 | The field reads stop at the first failing read, keeping the fields read before it. |
| TspInstance.ReadFieldsAccepted | src/backend/tsp_management/tsp_file.py:40-46 | On an accepted header every read passes. The dimension is the value of the digit string, and the optimal result is looked up. |
| TspInstance.ReadDisplay | src/backend/tsp_management/tsp_file.py:57-59 | Display coordinates are read only when DISPLAY_DATA_TYPE is TWOD_DISPLAY. |
| TspInstance.Metadata | src/backend/tsp_management/tsp_file.py:33-59 | `load_metadata` never changes the file path or the results path. |
| TspInstance.MetadataRejected | src/backend/tsp_management/tsp_file.py:33-39 | A file the parser rejects leaves the instance untouched and reports the parser's error. |
| TspInstance.MetadataFields | src/backend/tsp_management/tsp_file.py:40-46 | After a successful load, the fields are the validated header values. The dimension is positive and the type is supported. |
| TspInstance.MetadataExplicit | src/backend/tsp_management/tsp_file.py:49-54 | An EXPLICIT file loads its matrix eagerly: the flag is set, the matrix is the one validation decoded, and the coordinates are not touched. The copy in `src/backend/components/tsplib_management/tsp_file.py:51-55` does the same. |
| TspInstance.MetadataCoordinates | src/backend/tsp_management/tsp_file.py:49-50 | Any other type copies the parser's coordinates and leaves the matrix and its flag alone. |
| TspInstance.MetadataDisplay | src/backend/tsp_management/tsp_file.py:57-59 | The display coordinates change only under TWOD_DISPLAY, and they are then the DISPLAY_DATA_SECTION's. |
| TspInstance.TspFile.constructor | src/backend/tsp_management/tsp_file.py:10-31 | A new instance has only its paths set, and `has_loaded` is False. |
| TspInstance.TspFile.LoadMetadata | src/backend/tsp_management/tsp_file.py:33-59 | The instance and its parser after the call are exactly Metadata of their states before. |
| TspInstance.TspFile.LoadValidated | src/backend/tsp_management/tsp_file.py:40-59 | The part after validation is exactly Loaded. |
| TspInstance.TspFile.ReadHeaderFields | src/backend/tsp_management/tsp_file.py:40-46 | The five field statements and the optimal-result load are exactly ReadFields. |
| TspInstance.ReadStep | src/backend/tsp_management/tsp_file.py:40-45 | One field read changes only the field it reads. |
| TspInstance.Loaded | src/backend/tsp_management/tsp_file.py:40-59 | Once the parser has accepted the file, the rest of the load never changes the paths, and the parser stays able to generate a matrix. |
| TspInstance.TspFile.ReadField | src/backend/tsp_management/tsp_file.py:40-45 | One field statement stores the field exactly as ReadStep does, or raises its error. |
| TspInstance.TspFile.ReadDisplayData | src/backend/tsp_management/tsp_file.py:57-59 | The display step is exactly ReadDisplay. |
| TspInstance.TspFile.LoadOptimalResults | src/backend/tsp_management/tsp_file.py:61-100 | Only `optimal_result` changes, and it becomes the value under the stem. |
| TspInstance.TspFile.LoadDisplayCoordinates | src/backend/tsp_management/tsp_file.py:102-108 | The display coordinates become the parser's, or the error is reported. |
| TspInstance.TspFile.LoadDistanceMatrix | src/backend/tsp_management/tsp_file.py:110-121 | The instance and parser after the call are exactly LoadDistance of their states before. |
| TspInstance.TspFile.GetDistanceMatrix | src/backend/tsp_management/tsp_file.py:123-133 | None until loaded, then the matrix. The copy in `src/backend/components/tsplib_management/tsp_file.py:119-129` does the same. |
| TspInstance.TspFile.ToDict | src/backend/tsp_management/tsp_file.py:135-154 | The exported matrix is None unless `has_loaded` is set. The optimal length and the flag are exported as they are. The copy in `src/backend/components/tsplib_management/tsp_file.py:131-150` does the same. |
| TspCatalog.LoadedShape | src/backend/tsp_management/tsp_catalog.py:36-45 | Only ".tsp" names are considered. An instance that loads has the path it was read from, the configured optimal-results path, a positive dimension, and an edge weight type among the five supported ones. |
| TspCatalog.LoadedInfosConcat | src/backend/tsp_management/tsp_catalog.py:36-45 | The listing is read name by name: the instances from a concatenated listing are those of each part, in order. |
| TspCatalog.LoadedInfosAll | src/backend/tsp_management/tsp_catalog.py:36-45 | A listing made only of files that load gives one instance per name, in order. A loading file is never dropped. |
| TspCatalog.LoadFile | src/backend/tsp_management/tsp_catalog.py:38-45 | One round builds a fresh parser and instance. It yields nothing exactly when the name is skipped or its metadata fails. A kept instance's parser is left exactly as `load_metadata` leaves a fresh parser on that file. |
| TspCatalog.LoadedInfosStep | src/backend/tsp_management/tsp_catalog.py:36-45 | Each pass of the listing loop appends exactly the instance of that name, when it loads. |
| TspCatalog.FirstNamed | src/backend/tsp_management/tsp_catalog.py:47-57 | None exactly when no instance has the name. Otherwise the index of the first instance with the name. |
| TspCatalog.OfType | src/backend/components/tsplib_management/tsp_catalog.py:66-73 | The filter keeps exactly the instances of the type. |
| TspCatalog.OfTypeConcat | src/backend/components/tsplib_management/tsp_catalog.py:66-73 | The filter preserves order: filtering a concatenation filters each part. |
| TspCatalog.Catalog.constructor | src/backend/tsp_management/tsp_catalog.py:11-19 | A new catalog is empty. |
| TspCatalog.Catalog.ClearFiles | src/backend/tsp_management/tsp_catalog.py:21-27 | The catalog is left empty. |
| TspCatalog.Catalog.LoadFiles | src/backend/tsp_management/tsp_catalog.py:29-45 | Earlier entries are kept. Exactly the instances that load from the listing are appended, in listing order. Their parsers are exactly those `load_metadata` left, so a later lazy load is determined. Every instance keeps a parser of its own. The copy in `src/backend/components/tsplib_management/tsp_catalog.py:21-37` and the copy in `src/backend/components/tsp_management/tsp_catalog.py:22-39` do the same. |
| TspCatalog.Catalog.GetFileByName | src/backend/tsp_management/tsp_catalog.py:47-57 | The first instance with the name, or null when there is none. The copy in `src/backend/components/tsplib_management/tsp_catalog.py:50-60` and the copy in `src/backend/components/tsp_management/tsp_catalog.py:54-64` do the same. |
| TspCatalog.Catalog.SortByDimension | src/backend/components/tsplib_management/tsp_catalog.py:62-64 | The list becomes a permutation of itself, ordered by non-decreasing dimension. Instances with equal dimension keep their relative order. The copy in `src/backend/components/tsp_management/tsp_catalog.py:66-72` does the same. |
| TspCatalog.Catalog.FilterByEdgeWeightType | src/backend/components/tsp_management/tsp_catalog.py:74-81 | The result is the order-preserving subsequence of the type, and the catalog is unchanged. |
| TspCatalog.Catalog.LoadDistanceMatrixForFile | src/backend/components/tsplib_management/tsp_catalog.py:75-85 | Only the first instance with the name is loaded, and its instance and parser become the `load_distance_matrix` result. Every other instance and parser is unchanged, and nothing changes when the name is absent. The copy in `src/backend/components/tsp_management/tsp_catalog.py:83-93` does the same. |
| TspCatalog.Catalog.LoadNext | src/backend/tsp_management/tsp_catalog.py:38-45 | One round of the `load_files` loop keeps the earlier entries. It appends the name's instance exactly when it loads, and that instance's parser is the one `load_metadata` left. |
| TspCatalog.Catalog.LoadAt | src/backend/components/tsplib_management/tsp_catalog.py:83-84 | Loading the matrix of entry k replaces only that entry and its parser, with their LoadDistance result. |
| TspCatalog.SortedKeys | src/backend/components/tsplib_management/tsp_catalog.py:64 | A key-ordered permutation of the keyed list is ordered by dimension. |
| TspCatalog.SortedValid | src/backend/components/tsplib_management/tsp_catalog.py:64 | Reordering the list keeps every instance it held, each exactly once. |
| Sorting.SortByKey | src/backend/components/tsplib_management/tsp_catalog.py:64 | The stable sort yields a list of the same length ordered by key. |
| Sorting.SortSorted | src/backend/components/tsplib_management/tsp_catalog.py:64 | Sorting an already ordered list leaves it unchanged. |
| Telemetry.WriteTour | src/tsp_algorithms/ts/TabuSearch.cpp:118-124 | The solution stream loop writes the cities separated by commas, with no trailing comma. |
| Telemetry.EncodeMessage | src/tsp_algorithms/ts/TabuSearch.cpp:106-132 | A report line is never the end-of-stream marker. |
| Telemetry.ParseMessage | src/backend/components/algorithm_manager.py:67-84 | A decode either fails to the all-zero report or yields a non-empty tour. A line without a space always decodes to all zeros. |
| Telemetry.ParseEncode | src/backend/components/algorithm_manager.py:76-80 | Round trip: every report with a non-empty tour is decoded back exactly as sent. |
| Telemetry.EncodeEmptyTour | src/backend/components/algorithm_manager.py:80-84 | A report with an empty tour decodes to the all-zero report. |
| Telemetry.ParseEndOfStream | src/backend/components/algorithm_manager.py:82-84 | "EOF" decodes to the all-zero report. |
| Telemetry.TourTextSplit | src/backend/components/algorithm_manager.py:80 | Splitting a tour's text on commas gives each city's digits. |
| Telemetry.Sender.constructor | src/tsp_algorithms/ts/TabuSearch.cpp:62-65 | The last send time starts at the start time, and nothing has been sent. |
| Telemetry.Sender.SendData | src/tsp_algorithms/ts/TabuSearch.cpp:106-132 | When at least the frequency has passed, the report line for the elapsed time is sent and the send time is reset. Otherwise nothing changes. The copy in `src/tsp_algorithms/sa/SimulatedAnnealing.cpp:102-128` does the same. |
| Telemetry.Sender.Finish | src/tsp_algorithms/ts/TabuSearch.cpp:96-97 | "EOF" is appended after the last report. |
| Telemetry.BestSolutionLines | src/tsp_algorithms/ts/TabuSearch.cpp:139-151 | Read line by line, the best-solution file holds the cities in tour order, then "EOF". |
| Telemetry.SaveBestSolution | src/tsp_algorithms/sa/SimulatedAnnealing.cpp:135-147 | A file is written exactly when it can be opened, and then with the best-solution text. |
| Receiver.MessageQueue.Put | src/backend/processes/base_algorithm_process.py:79-83 | `put` appends at the back. |
| Receiver.MessageQueue.Get | src/backend/components/algorithm_manager.py:49 | `get` takes the front. |
| Receiver.MessageQueue.constructor | src/backend/components/algorithm_manager.py:10-30 | A new queue is empty. |
| Receiver.Relayed | src/backend/processes/base_algorithm_process.py:65-88 | The relay never queues more than it received. |
| Receiver.RelayedPrefix | src/backend/processes/base_algorithm_process.py:77-83 | Ordinary messages are queued one for one, in arrival order. |
| Receiver.StopsAtEndOfStream | src/backend/processes/base_algorithm_process.py:79-81 | "EOF" is queued verbatim and ends the loop. Nothing after it is forwarded. |
| Receiver.StopsAtError | src/backend/processes/base_algorithm_process.py:84-86 | A receive error ends the loop without queueing "EOF". |
| Receiver.EndOfStreamLast | src/backend/processes/base_algorithm_process.py:79-81 | "EOF" can only be the last item queued. |
| Receiver.ReceiveData | src/backend/processes/base_algorithm_process.py:49-88 | A failed socket setup queues nothing. Otherwise exactly the relayed messages are appended. The copy in `src/backend/components/processes/algorithm_process.py:43-79` does the same. |
| AlgorithmManager.Terminated | src/backend/components/algorithm_manager.py:62-65 | No slot is alive after termination, a slot that is not alive is left alone, and no slot appears or disappears. |
| AlgorithmManager.Drain | src/backend/components/algorithm_manager.py:48-54 | The handled messages, the "EOF" taken and the rest make up the queue. "EOF" is never handled, and without "EOF" nothing is left. |
| AlgorithmManager.DrainAll | src/backend/components/algorithm_manager.py:48-54 | Without "EOF", every message is handled, in FIFO order. |
| AlgorithmManager.DrainStopsAtEndOfStream | src/backend/components/algorithm_manager.py:50-53 | Messages queued after "EOF" stay in the queue. |
| AlgorithmManager.Manager.constructor | src/backend/components/algorithm_manager.py:10-30 | A new manager has an empty queue, no processes, and is not receiving. |
| AlgorithmManager.Manager.Start | src/backend/components/algorithm_manager.py:32-39 | Both processes are alive and receiving is on. |
| AlgorithmManager.Manager.RunReceiver | src/backend/processes/base_algorithm_process.py:30-47 | The receiver process relays into the shared queue and then ends. |
| AlgorithmManager.Manager.TerminateProcesses | src/backend/components/algorithm_manager.py:56-65 | Only live processes are terminated, and each is logged once, the receiver first. Empty or ended slots and the receiving flag are kept, so a second call changes and logs nothing. |
| AlgorithmManager.Manager.CheckQueue | src/backend/components/algorithm_manager.py:41-54 | The callback receives exactly the drained messages, and the queue keeps the rest. On "EOF", receiving stops, each live process is terminated and logged once, and dead slots stay as they were. Otherwise the slots, flag and log are unchanged. |
| TaskManager.HandleData | src/backend/task_manager.py:145-171 | A data signal is emitted exactly when the decoded report is not all zeros, and it carries the decoded report. |
| TaskManager.ReportsDelivered | src/backend/task_manager.py:145-171 | Every report with a non-empty tour reaches the GUI as its own data signal, in order. |
| TaskManager.EndToEnd | src/backend/task_manager.py:111-171 | Solver reports relayed, drained and handled become exactly their data signals. "EOF" ends the run, and later messages stay queued. |
| TaskManager.StartOrderKeys | src/backend/task_manager.py:79-105 | The new manager map holds exactly the names that start a manager, each once. |
| TaskManager.StartEvents | src/backend/task_manager.py:79-105 | The start loop logs one event per requested name. |
| TaskManager.InstanceView | src/backend/task_manager.py:187-205 | The view shows the instance's name, dimension and optimal length. Its coordinates are empty exactly when the instance has no coordinates of either kind. |
| TaskManager.FinishedEvents | src/backend/task_manager.py:179-185 | Stopping emits only finished signals, and only for names in the map. |
| TaskManager.Coordinator.constructor | src/backend/task_manager.py:27-37 | A new coordinator has no managers, no barriers and no events. |
| TaskManager.Coordinator.CheckQueue | src/backend/task_manager.py:111-143 | Without an entry, polling re-arms forever. With an entry, the drained messages become data signals. Then either the finished signal fires or polling re-arms. When the drain takes "EOF", the manager's live processes are terminated and logged as `check_queue` does; otherwise its slots and log are unchanged. |
| TaskManager.Coordinator.LoadMatrixFor | src/backend/task_manager.py:72-78 | The first instance with the file name is looked up. Its matrix is loaded only if it has not been loaded yet. Only that instance and its parser change, and a successful load shows the instance's own matrix. |
| TaskManager.Coordinator.LoadUnlessLoaded | src/backend/task_manager.py:74-75 | The `has_loaded` guard around one catalog entry's load: that entry and its parser become the `load_distance_matrix` result, and every other entry is unchanged. |
| TaskManager.Coordinator.StartOne | src/backend/task_manager.py:79-105 | A new running manager replaces any earlier one under the name, and a poll is armed. |
| TaskManager.Coordinator.StartManagers | src/backend/task_manager.py:79-105 | The map is rebuilt: exactly the names that start get running managers on the matrix, in key order. |
| TaskManager.Coordinator.StartNamed | src/backend/task_manager.py:80-105 | "SA" or "TS" start only with their parameters present. Any other name is reported and skipped. |
| TaskManager.Coordinator.StartAlgorithmForFile | src/backend/task_manager.py:62-109 | The barrier has one party per requested name. Nothing starts for an unknown file or an empty matrix. |
| TaskManager.Coordinator.StopAlgorithms | src/backend/task_manager.py:173-185 | Every manager ends exactly as one `terminate_processes` leaves it: live slots ended and logged once, dead or empty slots untouched, the receiving flag kept. One finished signal is emitted per name, and the map is emptied. |
| TaskManager.Coordinator.StopOne | src/backend/task_manager.py:179-184 | One manager's slots become their terminated values, its log grows by the live processes, its receiving flag is kept, and its finished signal is emitted. |
| TaskManager.Coordinator.TerminateAll | src/backend/task_manager.py:179-184 | Every manager in the map ends as one `terminate_processes` leaves it, even when two names share a manager, and one finished signal is logged per name, in map order. The map itself is kept. |
| TaskManager.TerminatedTwice | src/backend/components/algorithm_manager.py:62-65 | Terminating a manager's slots a second time changes nothing and logs nothing, because only live processes are terminated. |
| TaskManager.StopStep | src/backend/task_manager.py:179-180 | One pass of the stop loop extends the set of terminated names by the current one and leaves every other manager as it was or already terminated. |
| TaskManager.Coordinator.GetInstanceData | src/backend/task_manager.py:187-205 | An empty record for an unknown name. Otherwise the view of the first instance with that name. |
| Tabu.Normalize | src/algorithms/cpp/TS/TabuList/TabuList.cpp:42-45 | The pair is ordered smaller city first, with the same two cities. |
| Tabu.NormalizeSymmetric | src/algorithms/cpp/TS/TabuList/TabuList.cpp:56-59 | The order of the two cities does not matter. |
| Tabu.Enforced | src/algorithms/cpp/TS/TabuList/TabuList.cpp:31-35 | The limit check never grows the list. |
| Tabu.Added | src/algorithms/cpp/TS/TabuList/TabuList.cpp:42-50 | Adding keeps the tenure order and adds at most one entry. With a limit of at least 0, a size within the limit stays within it. |
| Tabu.Moves | src/algorithms/cpp/TS/TabuList/TabuList.cpp:61-65 | The pairs the list holds, one per entry, in order. |
| Tabu.Decremented | src/algorithms/cpp/TS/TabuList/TabuList.cpp:74-90 | A decrement never grows the list. |
| Tabu.DecrementedEntries | src/algorithms/cpp/TS/TabuList/TabuList.cpp:74-90 | An entry survives a decrement exactly when it had tenure t+1 with t > 0. It keeps its pair and has tenure t. |
| Tabu.DecrementedMoves | src/algorithms/cpp/TS/TabuList/TabuList.cpp:74-90 | A pair stays tabu after a decrement exactly when some entry for it had tenure above 1. |
| Tabu.SurvivesDecrements | src/algorithms/cpp/TS/TabuList/TabuList.cpp:79-83 | After k decrements, a pair is still on the list exactly when an entry for it had tenure above k. So an entry with tenure t survives exactly t-1 decrements. |
| Tabu.DecrementedSorted | src/algorithms/cpp/TS/TabuList/TabuList.cpp:74-90 | A decrement keeps the list ordered by tenure. |
| Tabu.AddCounts | src/algorithms/cpp/TS/TabuList/TabuList.cpp:42-50 | Adding the same pair twice gives two entries. |
| Tabu.AddThenTabu | src/algorithms/cpp/TS/TabuList/TabuList.cpp:42-67 | Without an eviction, after `add_move(a, b)` the pair `(b, a)` is tabu. |
| Tabu.TabuList.constructor | src/algorithms/cpp/TS/TabuList/TabuList.cpp:10-12 | A new list is empty and holds the configured tenure, range, type and limit. |
| Tabu.TabuList.GetTenure | src/algorithms/cpp/TS/TabuList/TabuList.cpp:18-24 | A constant tenure is the configured one. A random tenure lies in the configured range. |
| Tabu.TabuList.EnforceLimit | src/algorithms/cpp/TS/TabuList/TabuList.cpp:31-35 | The list becomes exactly Enforced. At most the entry with the smallest tenure is evicted. |
| Tabu.TabuList.AddMove | src/algorithms/cpp/TS/TabuList/TabuList.cpp:42-50 | The normalised pair is inserted under a fresh tenure, after the entries with equal tenure, and then the limit is enforced. |
| Tabu.TabuList.IsTabu | src/algorithms/cpp/TS/TabuList/TabuList.cpp:56-67 | True exactly when the normalised pair is on the list. The list is not modified. |
| Tabu.TabuList.DecrementTenure | src/algorithms/cpp/TS/TabuList/TabuList.cpp:74-90 | The list becomes exactly Decremented of the old list, still in tenure order. |
| Tabu.TabuList.EraseAll | src/algorithms/cpp/TS/TabuList/TabuList.cpp:78-84 | The erase loop empties the list and collects exactly the lowered, surviving entries. |
| Tabu.TabuList.Reinsert | src/algorithms/cpp/TS/TabuList/TabuList.cpp:86-89 | Reinserting the collected entries rebuilds exactly that list. |
| Sorting.SortPermutes | src/algorithms/cpp/TS/TabuList/TabuList.cpp:86-89 | Ordering by key only reorders. |
| Sorting.SortStable | src/algorithms/cpp/TS/TabuList/TabuList.cpp:86-89 | Entries with equal keys keep their relative order, as in a multimap. |
| Sorting.InsertStable | src/algorithms/cpp/TS/TabuList/TabuList.cpp:46 | A multimap insert goes after the entries with an equal key. |
| Tours.CalculateCost | src/tsp_algorithms/ts/TabuSearch.cpp:215-223 | The loop over consecutive pairs, plus the closing edge, is the closed-tour cost of a non-empty tour. The copy in `src/algorithms/cpp/TS/TabuSearch.cpp:139-147` and the copy in `src/tsp_algorithms/sa/SimulatedAnnealing.cpp:294-301` do the same. |
| Tours.CostRotate | src/tsp_algorithms/ts/TabuSearch.cpp:215-223 | The cost of a closed tour does not depend on its starting city. |
| Tours.Closest | src/tsp_algorithms/ts/TabuSearch.cpp:195-203 | The scan finds an unvisited city with the minimum distance, the lowest index among ties, or -1 when none is left. |
| Tours.ClosestCity | src/tsp_algorithms/ts/TabuSearch.cpp:195-203 | The inner greedy loop is exactly Closest. |
| Tours.GreedyTour | src/tsp_algorithms/ts/TabuSearch.cpp:179-209 | The greedy tour is a permutation of all cities from the start city. Each step goes to the nearest unvisited city, and ties go to the lowest index. The copy in `src/algorithms/cpp/TS/TabuSearch.cpp:103-133` and the copy in `src/tsp_algorithms/sa/SimulatedAnnealing.cpp:175-205` do the same. |
| Tours.InitialSolution | src/tsp_algorithms/ts/TabuSearch.cpp:157-173 | The initial tour is a tour: either the shuffled one, or the greedy one from the drawn start. The random path accepts any square matrix, including an empty one and distances at `INT_MAX`. Only the greedy path needs a start city in range and distances below `INT_MAX`. |
| Tours.Swapped | src/tsp_algorithms/ts/TabuSearch.cpp:269-270 | Positions i and j are exchanged, and every other position keeps its city. |
| Tours.SwapPermutes | src/tsp_algorithms/ts/TabuSearch.cpp:269-270 | A swap only reorders. |
| Tours.Reversed | src/tsp_algorithms/ts/TabuSearch.cpp:309-314 | The positions lo..hi-1 are mirrored, and the rest are kept. |
| Tours.ReversedPermutes | src/tsp_algorithms/ts/TabuSearch.cpp:309-314 | A reversal only reorders. |
| Tours.ReverseRange | src/tsp_algorithms/ts/TabuSearch.cpp:309-314 | The in-place reverse of the array is exactly Reversed. |
| Tours.SwapCopy | src/tsp_algorithms/ts/TabuSearch.cpp:269-270 | Copying the tour and swapping in the copy gives exactly Swapped. |
| Tours.ReverseCopy | src/tsp_algorithms/ts/TabuSearch.cpp:307-314 | Copying the tour and reversing the copy gives exactly Reversed. |
| Tours.Inserted | src/tsp_algorithms/sa/SimulatedAnnealing.cpp:320-322 | The city from position i lands at position j. |
| Tours.InsertedPositions | src/tsp_algorithms/sa/SimulatedAnnealing.cpp:320-322 | The positions between i and j shift by one towards i, and the others are kept. |
| Tours.InsertedPermutes | src/tsp_algorithms/sa/SimulatedAnnealing.cpp:320-322 | An erase followed by an insert only reorders. |
| Tours.PermutationTour | src/tsp_algorithms/ts/TabuSearch.cpp:269-314 | Reordering a tour gives a tour. |
| TabuSearch.CeilSqrt | src/tsp_algorithms/ts/TabuSearch.cpp:431-446 | The exact integer ceiling of the square root. |
| TabuSearch.TabuListLimit | src/tsp_algorithms/ts/TabuSearch.cpp:431-446 | A built-in limit is zero only for a problem with no cities. SQRT_N is the exact ceiling of the square root. CUSTOM is used as given. |
| TabuSearch.LimitOrder | src/tsp_algorithms/ts/TabuSearch.cpp:431-446 | From three cities on, SQRT_N ≤ N ≤ THREE_N ≤ N_SQUARED. The copy in `src/algorithms/cpp/TS/TabuSearch.cpp:356-371` does the same. |
| TabuSearch.TwoOptRange | src/tsp_algorithms/ts/TabuSearch.cpp:309-314 | A 2-opt move reverses a non-empty range inside the tour. |
| TabuSearch.TwoOptPermutes | src/tsp_algorithms/ts/TabuSearch.cpp:307-314 | A 2-opt move only reorders. |
| TabuSearch.TwoOptCopy | src/tsp_algorithms/ts/TabuSearch.cpp:307-314 | The copy is reversed from i+1 to j, or from 0 to i when j is the last position. |
| TabuSearch.SwapNeighborAt | src/tsp_algorithms/ts/TabuSearch.cpp:269-275 | One swap neighbour: the copy with i and j exchanged, its true cost, and the pair of swapped cities. |
| TabuSearch.TwoOptNeighborAt | src/tsp_algorithms/ts/TabuSearch.cpp:307-321 | One 2-opt neighbour: the reversed copy, its true cost, and the two removed edges. |
| TabuSearch.SwapKeysMatch | src/tsp_algorithms/ts/TabuSearch.cpp:264-278 | On a tour, two swaps name the same city pair exactly when they were drawn as the same (min, max) index pair. So the duplicate check on index pairs is a check on moves. |
| TabuSearch.TwoOptKeysMatch | src/tsp_algorithms/ts/TabuSearch.cpp:302-324 | On a tour, two 2-opt moves remove the same edges exactly when they were drawn as the same (i, i+1, j, (j+1) mod n) quadruple. |
| TabuSearch.InsertApart | src/tsp_algorithms/ts/TabuSearch.cpp:264-278 | Inserting a neighbour whose move is not yet listed keeps every move listed at most once. |
| TabuSearch.SwapNeighborhood | src/tsp_algorithms/ts/TabuSearch.cpp:251-280 | A cost-ordered multimap of correct swap neighbours, each keyed by its cost. It holds exactly `max_neighbors` of them unless the draws run out first. No two come from the same move. Each swaps the cities at two positions read from the draws consumed. The copy in `src/algorithms/cpp/TS/TabuSearch.cpp:175-204` does the same. |
| TabuSearch.TwoOptNeighborhood | src/tsp_algorithms/ts/TabuSearch.cpp:286-326 | A cost-ordered multimap of correct 2-opt neighbours. It holds exactly `max_neighbors` of them unless the draws run out first. No two come from the same move. Each comes from a consecutive pair of draws that passes the index check. The copy in `src/algorithms/cpp/TS/TabuSearch.cpp:210-250` does the same. |
| TabuSearch.GenerateNeighborhood | src/tsp_algorithms/ts/TabuSearch.cpp:229-245 | The neighbours come in non-decreasing cost order and are correctly built by the chosen method. They are pairwise distinct moves drawn from the draws consumed, and there are exactly `max_neighbors` of them unless the draws run out. |
| TabuSearch.TwoOptAdded | src/tsp_algorithms/ts/TabuSearch.cpp:393-398 | Only non-tabu edges are added: the list stays ordered and grows by at most two. |
| TabuSearch.Solver.constructor | src/tsp_algorithms/ts/TabuSearch.cpp:19-47 | The best tour starts as the initial one with equal cost. The tabu list is empty with the computed limit. |
| TabuSearch.Solver.UpdateBestSolution | src/tsp_algorithms/ts/TabuSearch.cpp:411-417 | The best changes only on strict improvement, never increases, and ends up at most the current cost. The copy in `src/algorithms/cpp/TS/TabuSearch.cpp:336-342` does the same. |
| TabuSearch.Solver.Aspiration | src/tsp_algorithms/ts/TabuSearch.cpp:423-425 | A cost passes exactly when every neighbour of that cost is acceptable, whatever the tabu list holds. |
| TabuSearch.Solver.ProcessSwapMove | src/tsp_algorithms/ts/TabuSearch.cpp:359-374 | A swap is applied exactly when its pair is not tabu or its cost beats the best. It then becomes current and its pair is added. The best tour becomes the neighbour exactly when it is strictly cheaper than the old best. Otherwise nothing changes. The copy in `src/algorithms/cpp/TS/TabuSearch.cpp:284-299` does the same. |
| TabuSearch.Solver.Process2OptMove | src/tsp_algorithms/ts/TabuSearch.cpp:381-405 | A 2-opt move is applied exactly when one of its edges is not tabu or its cost beats the best. Only its non-tabu edges are then added. The best tour becomes the neighbour exactly when it is strictly cheaper than the old best. The copy in `src/algorithms/cpp/TS/TabuSearch.cpp:306-330` does the same. |
| TabuSearch.Solver.TryMoves | src/tsp_algorithms/ts/TabuSearch.cpp:76-93 | The first acceptable neighbour is taken, and every neighbour before it is unacceptable. When none is acceptable, nothing changes. After a taken move, the tabu list is the old one with that move's entries added. The best tour and cost are the neighbour's when it is strictly cheaper, and the old ones otherwise. |
| TabuSearch.Solver.Iterate | src/tsp_algorithms/ts/TabuSearch.cpp:68-93 | One run-loop pass decrements the tenures, then takes the first neighbour acceptable under the decremented list. The tabu list is the decremented list, with the taken move's entries added if there is one. The best follows the neighbour only when it is strictly cheaper. The state is sent only after a taken move, and only when the send interval has passed. |
| TabuSearch.Solver.SendState | src/tsp_algorithms/ts/TabuSearch.cpp:79-90 | When the send interval has passed, the line for the current state is sent and the send time becomes `now`. Otherwise nothing is sent and the send time is kept. |
| SimulatedAnnealing.Neighbor | src/tsp_algorithms/sa/SimulatedAnnealing.cpp:307-331 | Every neighbour has the same length and the same cities. |
| SimulatedAnnealing.NeighborCases | src/tsp_algorithms/sa/SimulatedAnnealing.cpp:315-328 | SWAP is Swapped, INSERT is Inserted, and INVERT is Reversed over the closed range between i and j, in either order. |
| SimulatedAnnealing.NeighborIsTour | src/tsp_algorithms/sa/SimulatedAnnealing.cpp:307-331 | Every neighbour of a tour is a tour. |
| SimulatedAnnealing.SwapPositions | src/tsp_algorithms/sa/SimulatedAnnealing.cpp:317 | SWAP exchanges exactly positions i and j. |
| SimulatedAnnealing.InsertPositions | src/tsp_algorithms/sa/SimulatedAnnealing.cpp:320-322 | INSERT moves the city at i to j and shifts the cities in between. |
| SimulatedAnnealing.InvertPositions | src/tsp_algorithms/sa/SimulatedAnnealing.cpp:326-327 | INVERT mirrors the positions min..max, both included, and keeps the rest. |
| SimulatedAnnealing.GenerateNeighbor | src/tsp_algorithms/sa/SimulatedAnnealing.cpp:307-331 | The second position is the first draw that differs from i. The result is the chosen neighbour for it. |
| SimulatedAnnealing.SecondPosition | src/tsp_algorithms/sa/SimulatedAnnealing.cpp:310-313 | The redraw loop returns the first draw that differs from i, or -1 when every draw equals i. |
| SimulatedAnnealing.ApplyMethod | src/tsp_algorithms/sa/SimulatedAnnealing.cpp:315-328 | The edits of the copy are exactly Neighbor. |
| SimulatedAnnealing.InsertCopy | src/tsp_algorithms/sa/SimulatedAnnealing.cpp:320-322 | The erase followed by the insert is exactly Inserted. |
| SimulatedAnnealing.Annealer.constructor | src/tsp_algorithms/sa/SimulatedAnnealing.cpp:17-33 | The best tour starts as the initial one, with equal cost. |
| SimulatedAnnealing.Annealer.UpdateBestSolution | src/tsp_algorithms/sa/SimulatedAnnealing.cpp:283-288 | The best changes only on strict improvement and never increases. |
| SimulatedAnnealing.Annealer.Consider | src/tsp_algorithms/sa/SimulatedAnnealing.cpp:75-84 | The candidate is taken exactly when it is cheaper or the Metropolis test accepts it. The best tour becomes the candidate exactly when it was taken and is strictly cheaper than the old best. Otherwise the best tour is kept. |
| SimulatedAnnealing.Annealer.Step | src/tsp_algorithms/sa/SimulatedAnnealing.cpp:60-96 | One step generates a neighbour and takes it exactly when it is cheaper or accepted. The best tour follows only a strictly cheaper current tour. The state is sent, and the send time reset, exactly when the send interval has passed. |
| Settings.SaveSettings | src/gui/dialogs/settings_dialog.py:71-100 | The dialog accepts only distinct ports in 1024..65535 and a positive frequency, all read as integers. Any non-integer text is reported as such, without raising. |
| Settings.AcceptedIff | src/gui/dialogs/settings_dialog.py:84-97 | `accept()` is reached exactly when every check passes, and with the values typed. |
| Settings.FirstFailureReported | src/gui/dialogs/settings_dialog.py:84-94 | The checks are reported in order: equal ports, then the range, then the frequency. |
| Text.ParseShow | src/backend/components/algorithm_manager.py:77-79 | `int(str(n)) == n` for every integer. |
| Text.ParseAll | src/backend/components/algorithm_manager.py:80 | `list(map(int, tokens))` succeeds exactly when every token is an integer, and then yields their values in order. |
| Text.SplitMax | src/backend/components/algorithm_manager.py:76 | `split(' ', 3)` gives at most four parts, and no part before the last contains a space. |
| Text.SplitJoin | src/backend/components/algorithm_manager.py:80 | Splitting a comma-joined list gives the list back. |
| Text.SplitOn | src/backend/components/algorithm_manager.py:80 | `split(c)` gives at least one part and no part contains c. There is exactly one part when c does not occur. |
| Text.Strip | src/backend/tsp_management/tsplib_parser.py:381 | Neither end of the stripped string is whitespace, with the separators 28 to 31 counted as whitespace as Python has them; the result is no longer than the input. |
| Text.StripMiddle | src/backend/tsp_management/tsplib_parser.py:381 | The stripped string is the slice of the input that starts right after its leading whitespace, and everything after that slice is whitespace. |
| Text.LeadingSpace | src/backend/tsp_management/tsplib_parser.py:381 | The count of characters strip cuts from the front: all of them are whitespace, and the next character, if any, is not. |

## Left out

- Floating point. This covers the EUC_2D, CEIL_2D, ATT and GEO distance formulas and float coordinate parsing. The metric is a function parameter, and a coordinate token is only checked to be readable as a float (`Text.FloatToken`). The conversion of matrix cells to integers is the identity on the integer model.
- Python `int()` leniency (surrounding whitespace, underscores, other Unicode digits). The model reads an optional sign and ASCII digits only. Strings are sequences of characters, with ASCII whitespace and no Unicode case folding.
- I/O. Opening and reading files, JSON parsing, `os.listdir`, and the nng/pynng socket calls are all inputs. Writing the best-solution file returns its text instead.
- Clocks and randomness. `steady_clock`, `shuffle`, `mt19937` draws, random start cities and random tenures are all inputs.
- SimulatedAnnealing.Annealer.Step: the temperature, its cooling, and the Metropolis test with `exp` and a random double are not modelled. The test's verdict is the `accept` input.
- Concurrency: the processes, Queue, Barrier, `time.sleep` and `QTimer`. The barrier is recorded by its party count and the timer re-arms as events. The receiver and the manager's drain are sequential calls on one shared queue object.
- The run loops' termination by elapsed time (`should_terminate`). One pass of each loop is modelled (`TabuSearch.Solver.Iterate`, `SimulatedAnnealing.Annealer.Step`), and not the loop over passes.
- 32-bit overflow in tour costs and in the limit formula. Integers are unbounded. `Tours.GreedyTour` requires every distance to be below `INT_MAX`, because the scan starts from that value.
- SimulatedAnnealing.SecondPosition: the source redraws forever while the draw equals i. The model reads a finite stream of draws and returns -1 when it runs out.
- TabuSearch.SwapNeighborhood: the source loops forever when `max_neighbors` exceeds the number of distinct swaps. The model stops when its finite stream of draws runs out.
- TabuSearch.TwoOptNeighborhood: the source loops forever with three cities or fewer, where no valid pair exists. The model also stops when its stream runs out.
- TaskManager.Coordinator.StartManagers: freshness is stated for the managers, but not that their queues are distinct objects from earlier queues.
- `get_files_data_for_table` and `select_tsp_directory` in `task_manager.py`. They only format table rows and open a directory dialog.
- The older copy of the SA solver under `src/algorithms/cpp/SA`. It uses floating-point distances throughout, and its moves duplicate the live copy's.
- The older TS copy's run loop and constructor. It takes its tabu list and fields by reference and has no socket. Its neighbourhoods, acceptance, cost, greedy and limit logic are the live copy's and are cited in the table.
- GUI panels, plots, report generation, pybind11 bindings, enum headers, parameter records, interface files and the test scripts.
