/** The GUI-side coordinator: it starts one manager per requested
    algorithm on the chosen instance, polls their queues, turns decoded
    reports into data signals, and stops everything on request. Qt signals,
    timer re-arms and diagnostic prints are kept as an event log. */
module TaskManager {
  import opened Wrappers
  import opened Telemetry
  import opened Receiver
  import opened AlgorithmManager
  import opened TsplibHeader
  import opened TsplibSections
  import opened TsplibParser
  import opened TspInstance
  import opened TspCatalog
  import opened Sorting

  datatype Event =
    | Data(algorithm: string, report: Report)
    | Finished(algorithm: string)
    | Rearmed(algorithm: string, delay: int)
    | NotRecognized(algorithm: string)
    | MatrixNotAvailable
    | SelectedFileNotFound

  /** The fields of an algorithm configuration the coordinator reads; the
      parameter records are reduced to whether they are present. */
  datatype Config = Config(fileName: string, algorithms: seq<string>, saPort: int, tsPort: int,
                           dataFrequency: int, saParams: bool, tsParams: bool)

  // ------------------------------------------------------------ data signals

  /** `_handle_data_sa` / `_handle_data_ts`: the decoded report is emitted
      unless it is the all-zero report the decoder gives for bad input. */
  function HandleData(algorithm: string, data: string): (r: seq<Event>)
    ensures |r| <= 1
    ensures r == [] <==> ParseMessage(data) == Zero
    ensures r != [] ==> r[0] == Data(algorithm, ParseMessage(data))
  {
    var rep := ParseMessage(data);
    if rep.elapsed == 0 && rep.current == 0 && rep.best == 0 && rep.tour == [] then []
    else [Data(algorithm, rep)]
  }

  /** The signals for a run of handled messages, in order. */
  function DataEvents(algorithm: string, messages: seq<string>): (r: seq<Event>)
    ensures |r| <= |messages|
    ensures forall k :: 0 <= k < |r| ==> r[k].Data? && r[k].algorithm == algorithm
  {
    if messages == [] then []
    else HandleData(algorithm, messages[0]) + DataEvents(algorithm, messages[1..])
  }

  function Encodings(reports: seq<Report>): (r: seq<string>)
    ensures |r| == |reports|
    ensures forall k :: 0 <= k < |r| ==> r[k] == EncodeMessage(reports[k])
  {
    if reports == [] then [] else [EncodeMessage(reports[0])] + Encodings(reports[1..])
  }

  function Signals(algorithm: string, reports: seq<Report>): (r: seq<Event>)
    ensures |r| == |reports|
    ensures forall k :: 0 <= k < |r| ==> r[k] == Data(algorithm, reports[k])
  {
    if reports == [] then [] else [Data(algorithm, reports[0])] + Signals(algorithm, reports[1..])
  }

  /** Every report a solver sends with a non-empty tour reaches the GUI as
      one data signal, unchanged and in order. */
  lemma {:induction false} ReportsDelivered(algorithm: string, reports: seq<Report>)
    requires forall k :: 0 <= k < |reports| ==> reports[k].tour != []
    ensures DataEvents(algorithm, Encodings(reports)) == Signals(algorithm, reports)
  {
    if reports != [] {
      ParseEncode(reports[0]);
      assert Encodings(reports)[1..] == Encodings(reports[1..]);
      ReportsDelivered(algorithm, reports[1..]);
    }
  }

  /** The messages as the socket delivers them. */
  function Received(messages: seq<string>): (r: seq<Incoming>)
    ensures |r| == |messages|
    ensures forall k :: 0 <= k < |r| ==> r[k] == Message(messages[k])
  {
    if messages == [] then [] else [Message(messages[0])] + Received(messages[1..])
  }

  /** The whole path from solver to GUI: the reports and the closing "EOF"
      are relayed onto the queue; draining it hands every report to the
      callback, ends receiving, and leaves nothing behind, whatever the
      socket would have delivered after "EOF". */
  lemma EndToEnd(algorithm: string, reports: seq<Report>, after: seq<Incoming>)
    requires forall k :: 0 <= k < |reports| ==> reports[k].tour != []
    ensures var d := Drain(Relayed(Received(Encodings(reports)) + [Message(EndOfStream)] + after));
      d.ended && d.rest == [] && DataEvents(algorithm, d.handled) == Signals(algorithm, reports)
  {
    var msgs := Encodings(reports);
    var incoming := Received(msgs) + [Message(EndOfStream)] + after;
    assert Plain(incoming, |msgs|);
    StopsAtEndOfStream(incoming, |msgs|);
    RelayedPrefix(incoming, |msgs|);
    var relayed := Relayed(incoming);
    assert relayed == msgs + [EndOfStream] + [];
    assert EndOfStream !in msgs;
    DrainStopsAtEndOfStream(msgs, []);
    ReportsDelivered(algorithm, reports);
  }

  // ----------------------------------------------------------- starting runs

  /** Whether the loop of `start_algorithm_for_file` starts a manager for
      this name. */
  predicate Starts(config: Config, name: string) {
    (name == "SA" && config.saParams) || (name == "TS" && config.tsParams)
  }

  /** The signals and prints of the start loop for the names in order: a
      started manager is polled at once and, having nothing queued yet,
      re-arms its timer; an unknown name is reported. */
  function StartEvents(config: Config, names: seq<string>): (r: seq<Event>)
    ensures |r| == |names|
  {
    if names == [] then []
    else
      var name := names[|names| - 1];
      StartEvents(config, names[..|names| - 1]) +
      (if Starts(config, name) then [Rearmed(name, config.dataFrequency)] else [NotRecognized(name)])
  }

  /** A dictionary's key order: a key keeps the place of its first insertion. */
  function Inserted(order: seq<string>, name: string): (r: seq<string>)
    ensures name in r && forall n :: n in r <==> n in order || n == name
  {
    if name in order then order else order + [name]
  }

  /** The key order of the new manager dictionary. */
  function StartOrder(config: Config, names: seq<string>): (r: seq<string>)
  {
    if names == [] then []
    else
      var name := names[|names| - 1];
      var before := StartOrder(config, names[..|names| - 1]);
      if Starts(config, name) then Inserted(before, name) else before
  }

  /** The dictionary ends up with exactly the names that start a manager,
      each once. */
  lemma {:induction false} StartOrderKeys(config: Config, names: seq<string>)
    ensures Distinct(StartOrder(config, names))
    ensures forall n :: n in StartOrder(config, names) <==> n in names && Starts(config, n)
  {
    if names != [] {
      var init := names[..|names| - 1];
      StartOrderKeys(config, init);
      assert names == init + [names[|names| - 1]];
      var before := StartOrder(config, init);
      if Starts(config, names[|names| - 1]) && names[|names| - 1] !in before {
        DistinctAppend(before, names[|names| - 1]);
      }
    }
  }

  /** One more name in the start loop. */
  lemma StartStep(config: Config, names: seq<string>, i: int)
    requires 0 <= i < |names|
    ensures StartEvents(config, names[..i + 1]) == StartEvents(config, names[..i]) +
              (if Starts(config, names[i]) then [Rearmed(names[i], config.dataFrequency)] else [NotRecognized(names[i])])
    ensures StartOrder(config, names[..i + 1]) ==
              if Starts(config, names[i]) then Inserted(StartOrder(config, names[..i]), names[i]) else StartOrder(config, names[..i])
  {
    assert names[..i + 1][..i] == names[..i];
  }

  /** `get_instance_data`: the fields shown for an instance; the coordinates
      fall back to the display coordinates when there are none. */
  datatype InstanceData = InstanceData(name: Option<string>, dimension: Option<int>, edgeWeightType: Option<string>,
                                       optimalLength: Option<int>, coordinates: seq<Coord>)

  function InstanceView(info: Info): (r: InstanceData)
    ensures r.name == info.name && r.dimension == info.dimension && r.optimalLength == info.optimalResult
    ensures r.coordinates == [] <==> info.coordinates == [] && info.displayCoordinates == []
  {
    InstanceData(info.name, info.dimension, info.edgeWeightType, info.optimalResult,
                 if info.coordinates != [] then info.coordinates else info.displayCoordinates)
  }

  /** The port of the manager started for a name. */
  function PortOf(config: Config, name: string): int {
    if name == "SA" then config.saPort else config.tsPort
  }

  /** A manager just started on `matrix`: both processes alive, receiving,
      and nothing queued or terminated yet. */
  predicate Running(m: Manager, port: int, frequency: int, matrix: seq<seq<int>>)
    reads m, m.queue
  {
    m.receiverProcess == Some(true) && m.algorithmProcess == Some(true) && m.isReceiving &&
    m.queue.items == [] && m.terminated == [] &&
    m.port == port && m.dataFrequency == frequency && m.distanceMatrix == matrix
  }

  /** Neither process of the manager is alive. */
  predicate Stopped(m: Manager)
    reads m
  {
    m.receiverProcess != Some(true) && m.algorithmProcess != Some(true)
  }

  /** What `terminate_processes` reads and writes of a manager: its two
      process slots, its receiving flag and its log of terminated
      processes. */
  datatype Slots = Slots(receiver: Option<bool>, algorithm: Option<bool>, receiving: bool, log: seq<string>)

  function SlotsOf(m: Manager): Slots
    reads m
  {
    Slots(m.receiverProcess, m.algorithmProcess, m.isReceiving, m.terminated)
  }

  /** The fields `terminate_processes` leaves: live slots ended, each logged
      once, and the flag kept. */
  function TerminateSlots(t: Slots): Slots {
    Slots(Terminated(t.receiver), Terminated(t.algorithm), t.receiving, t.log + TerminateLog(t.receiver, t.algorithm))
  }

  /** `m` is what `terminate_processes` leaves of a manager whose fields were
      `t`. */
  predicate TerminatedFrom(m: Manager, t: Slots)
    reads m
  {
    SlotsOf(m) == TerminateSlots(t)
  }

  /** Terminating a second time changes nothing more and logs nothing, so a
      manager reached under two names ends as if terminated once. */
  lemma TerminatedTwice(t: Slots)
    ensures TerminateSlots(TerminateSlots(t)) == TerminateSlots(t)
  {
    var u := TerminateSlots(t);
    assert TerminateLog(u.receiver, u.algorithm) == [];
    assert u.log + [] == u.log;
  }

  /** The fields of every manager, by name. */
  ghost function SlotsMap(managers: map<string, Manager>): (r: map<string, Slots>)
    reads managers.Values
    ensures r.Keys == managers.Keys
  {
    map n | n in managers :: SlotsOf(managers[n])
  }

  /** Names sharing a manager had the same fields when the snapshot was
      taken. */
  ghost predicate SnapshotOf(managers: map<string, Manager>, before: map<string, Slots>) {
    managers.Keys <= before.Keys &&
    forall n, n' :: n in managers && n' in managers && managers[n] == managers[n'] ==> before[n] == before[n']
  }

  /** The names `order[..i]` are terminated, and every other name is either
      terminated or as the snapshot has it. */
  ghost predicate StoppedUpTo(now: map<string, Slots>, order: seq<string>, before: map<string, Slots>, i: int) {
    now.Keys <= before.Keys && 0 <= i <= |order| &&
    (forall k :: 0 <= k < i ==> order[k] in now && now[order[k]] == TerminateSlots(before[order[k]])) &&
    (forall n :: n in now ==> now[n] == TerminateSlots(before[n]) || now[n] == before[n])
  }

  /** Once the loop has passed every name, every manager is terminated. */
  lemma AllStopped(now: map<string, Slots>, order: seq<string>, before: map<string, Slots>)
    requires StoppedUpTo(now, order, before, |order|)
    requires forall n :: n in now ==> n in order
    ensures forall n :: n in now ==> now[n] == TerminateSlots(before[n])
  {
    forall n | n in now
      ensures now[n] == TerminateSlots(before[n])
    {
      var k :| 0 <= k < |order| && order[k] == n;
    }
  }

  /** One pass of the stop loop: terminating the manager of `order[i]`, and
      nothing else, extends the terminated prefix by one name. */
  lemma StopStep(managers: map<string, Manager>, pre: map<string, Slots>, post: map<string, Slots>,
                 order: seq<string>, before: map<string, Slots>, i: int)
    requires 0 <= i < |order| && order[i] in managers && SnapshotOf(managers, before)
    requires pre.Keys == managers.Keys && post.Keys == managers.Keys
    requires StoppedUpTo(pre, order, before, i)
    requires forall n :: n in managers ==>
               post[n] == (if managers[n] == managers[order[i]] then TerminateSlots(pre[order[i]]) else pre[n])
    ensures StoppedUpTo(post, order, before, i + 1)
  {
    var t := before[order[i]];
    TerminatedTwice(t);
    assert post[order[i]] == TerminateSlots(t);
    forall n | n in post
      ensures post[n] == TerminateSlots(before[n]) || post[n] == before[n]
    {
      if managers[n] == managers[order[i]] {
        assert before[n] == t;
      }
    }
    forall k | 0 <= k < i + 1
      ensures order[k] in post && post[order[k]] == TerminateSlots(before[order[k]])
    {
      if k < i && managers[order[k]] == managers[order[i]] {
        assert before[order[k]] == t;
      }
    }
  }

  /** The finished signals `stop_algorithms` emits, in dictionary order. */
  function FinishedEvents(names: seq<string>): (r: seq<Event>)
    ensures |r| <= |names|
    ensures forall k :: 0 <= k < |r| ==> r[k].Finished? && r[k].algorithm in names
  {
    if names == [] then []
    else
      var name := names[|names| - 1];
      FinishedEvents(names[..|names| - 1]) + (if name == "SA" || name == "TS" then [Finished(name)] else [])
  }

  lemma FinishedStep(names: seq<string>, i: int)
    requires 0 <= i < |names|
    ensures FinishedEvents(names[..i + 1]) == FinishedEvents(names[..i]) +
              (if names[i] == "SA" || names[i] == "TS" then [Finished(names[i])] else [])
  {
    assert names[..i + 1][..i] == names[..i];
  }

  // ---------------------------------------------------------------- the class

  /** A loaded instance shows its own matrix. */
  lemma SnapshotMatrix(f: TspFile)
    ensures f.Snapshot().hasLoaded == f.hasLoaded
    ensures f.hasLoaded ==> MatrixView(f.Snapshot()) == Some(f.distanceMatrix)
  {
  }

  class Coordinator {
    const catalog: Catalog
    var managers: map<string, Manager>
    /** The key order of `managers`. */
    var order: seq<string>
    /** The party counts of the start barriers created. */
    var barriers: seq<int>
    var events: seq<Event>

    predicate Valid()
      reads this
    {
      Distinct(order) && managers.Keys == (set n | n in order)
    }

    constructor (catalog: Catalog)
      ensures Valid() && this.catalog == catalog
      ensures managers == map[] && order == [] && barriers == [] && events == []
    {
      this.catalog := catalog;
      managers := map[];
      order := [];
      barriers := [];
      events := [];
    }

    /** The objects a poll of `name` may change. */
    function Owned(name: string): set<object>
      reads this
    {
      if name in managers then {managers[name], managers[name].queue} else {}
    }

    /** `_check_queue_sa` / `_check_queue_ts`: the manager's queue is
        drained through the data handler; then the run is reported finished
        if receiving has stopped, or the timer is re-armed. */
    method CheckQueue(name: string, frequency: int)
      modifies this, Owned(name)
      ensures managers == old(managers) && order == old(order) && barriers == old(barriers)
      ensures name !in managers ==> events == old(events) + [Rearmed(name, frequency)]
      ensures name in managers ==>
                var d := Drain(old(managers[name].queue.items));
                managers[name].queue.items == d.rest &&
                managers[name].isReceiving == (old(managers[name].isReceiving) && !d.ended) &&
                events == old(events) + DataEvents(name, d.handled) +
                  [if managers[name].isReceiving then Rearmed(name, frequency) else Finished(name)]
      ensures name in managers && !Drain(old(managers[name].queue.items)).ended ==>
                managers[name].receiverProcess == old(managers[name].receiverProcess) &&
                managers[name].algorithmProcess == old(managers[name].algorithmProcess) &&
                managers[name].terminated == old(managers[name].terminated)
      ensures name in managers && Drain(old(managers[name].queue.items)).ended ==>
                managers[name].receiverProcess == Terminated(old(managers[name].receiverProcess)) &&
                managers[name].algorithmProcess == Terminated(old(managers[name].algorithmProcess)) &&
                managers[name].terminated ==
                  old(managers[name].terminated) +
                  TerminateLog(old(managers[name].receiverProcess), old(managers[name].algorithmProcess))
    {
      if name in managers {
        var manager := managers[name];
        var handled := manager.CheckQueue();
        events := events + DataEvents(name, handled);
      }
      if name in managers && !managers[name].isReceiving {
        events := events + [Finished(name)];
      } else {
        events := events + [Rearmed(name, frequency)];
      }
    }

    /** The lookup and lazy load of `start_algorithm_for_file`: the first
        instance with the name, its matrix loaded unless it already was. */
    method LoadMatrixFor(fileName: string, metric: (string, Coord, Coord) -> int)
      returns (f: TspFile?, matrix: Option<seq<seq<int>>>, r: Outcome<ParseError>)
      requires catalog.Valid()
      modifies set f | f in catalog.files, set f | f in catalog.files :: f.parser
      ensures var k := FirstNamed(old(InfosOf(catalog.files)), fileName);
        if k.None? then f == null else f == catalog.files[k.value]
      ensures f == null ==> matrix.None? && r.Pass?
      ensures f != null ==>
        (f.Snapshot(), f.parser.Snapshot(), r) == LoadDistance(old(f.Snapshot()), old(f.parser.Snapshot()), metric)
      ensures f != null && r.Pass? ==> matrix == MatrixView(f.Snapshot()) && matrix == Some(f.distanceMatrix)
      ensures catalog.Valid() && catalog.files == old(catalog.files)
      ensures var k := FirstNamed(old(InfosOf(catalog.files)), fileName);
        if k.None? then InfosOf(catalog.files) == old(InfosOf(catalog.files)) && ParsersOf(catalog.files) == old(ParsersOf(catalog.files))
        else InfosOf(catalog.files) == old(InfosOf(catalog.files))[k.value := f.Snapshot()] &&
             ParsersOf(catalog.files) == old(ParsersOf(catalog.files))[k.value := f.parser.Snapshot()]
    {
      hide *;
      f := catalog.GetFileByName(fileName);
      if f == null {
        return null, None, Pass;
      }
      ghost var k := FirstNamed(InfosOf(catalog.files), fileName).value;
      r := LoadUnlessLoaded(f, k, metric);
      if r.Fail? {
        return f, None, r;
      }
      matrix := f.GetDistanceMatrix();
      SnapshotMatrix(f);
    }

    /** `if not tsp_file.has_loaded: tsp_file.load_distance_matrix()` on the
        catalog's entry `k`: only that entry and its parser change. */
    method LoadUnlessLoaded(f: TspFile, ghost k: nat, metric: (string, Coord, Coord) -> int)
      returns (r: Outcome<ParseError>)
      requires catalog.Valid() && k < |catalog.files| && f == catalog.files[k]
      modifies f, f.parser
      ensures catalog.Valid()
      ensures (f.Snapshot(), f.parser.Snapshot(), r) == LoadDistance(old(f.Snapshot()), old(f.parser.Snapshot()), metric)
      ensures InfosOf(catalog.files) == old(InfosOf(catalog.files))[k := f.Snapshot()]
      ensures ParsersOf(catalog.files) == old(ParsersOf(catalog.files))[k := f.parser.Snapshot()]
    {
      ghost var infos := InfosOf(catalog.files);
      ghost var parsers := ParsersOf(catalog.files);
      r := Pass;
      if !f.hasLoaded {
        r := catalog.LoadAt(k, f, metric);
      } else {
        assert infos[k := f.Snapshot()] == infos;
        assert parsers[k := f.parser.Snapshot()] == parsers;
      }
    }

    /** One arm of the start loop: a new manager replaces any manager of
        that name, is started, and is polled once. */
    method StartOne(name: string, port: int, frequency: int, matrix: seq<seq<int>>)
      requires Valid()
      modifies this
      ensures Valid() && name in managers
      ensures managers == old(managers)[name := managers[name]]
      ensures order == Inserted(old(order), name)
      ensures events == old(events) + [Rearmed(name, frequency)]
      ensures fresh(managers[name]) && fresh(managers[name].queue)
      ensures Running(managers[name], port, frequency, matrix)
      ensures barriers == old(barriers)
    {
      var manager := new Manager(port, frequency, matrix);
      manager.Start();
      assert Drain(manager.queue.items) == Drained([], [], false);
      assert DataEvents(name, []) == [];
      hide Drain, DataEvents, HandleData, ParseMessage;
      if name !in order {
        DistinctAppend(order, name);
      }
      managers := managers[name := manager];
      order := Inserted(order, name);
      CheckQueue(name, frequency);
    }

    /** The loop of `start_algorithm_for_file` once a matrix is available:
        the dictionary is replaced; "SA" and "TS" get a started manager when
        their parameters are present, any other name is reported. */
    method StartManagers(config: Config, matrix: seq<seq<int>>)
      requires Valid()
      modifies this
      ensures Valid() && order == StartOrder(config, config.algorithms)
      ensures events == old(events) + StartEvents(config, config.algorithms)
      ensures forall n :: n in managers ==> fresh(managers[n])
      ensures forall n :: n in managers ==> Running(managers[n], PortOf(config, n), config.dataFrequency, matrix)
      ensures barriers == old(barriers)
    {
      assert StartEvents(config, config.algorithms[..0]) == [] && StartOrder(config, config.algorithms[..0]) == [];
      hide StartEvents, StartOrder;
      managers := map[];
      order := [];
      for i := 0 to |config.algorithms|
        invariant Valid() && order == StartOrder(config, config.algorithms[..i])
        invariant events == old(events) + StartEvents(config, config.algorithms[..i])
        invariant forall n :: n in managers ==> fresh(managers[n])
        invariant forall n :: n in managers ==> Running(managers[n], PortOf(config, n), config.dataFrequency, matrix)
        invariant barriers == old(barriers)
      {
        StartStep(config, config.algorithms, i);
        StartNamed(config, config.algorithms[i], matrix);
      }
      assert config.algorithms[..|config.algorithms|] == config.algorithms;
    }

    /** One name of the start loop: a manager started for "SA" or "TS"
        when its parameters are present, otherwise the name is reported.
        The managers already in the dictionary are left as they were. */
    method StartNamed(config: Config, name: string, matrix: seq<seq<int>>)
      requires Valid()
      requires forall n :: n in managers ==> Running(managers[n], PortOf(config, n), config.dataFrequency, matrix)
      modifies this
      ensures Valid() && barriers == old(barriers)
      ensures order == if Starts(config, name) then Inserted(old(order), name) else old(order)
      ensures events == old(events) +
                (if Starts(config, name) then [Rearmed(name, config.dataFrequency)] else [NotRecognized(name)])
      ensures forall n :: n in managers ==> Running(managers[n], PortOf(config, n), config.dataFrequency, matrix)
      ensures forall n :: n in managers ==>
                (n in old(managers) && managers[n] == old(managers)[n]) || fresh(managers[n])
    {
      if name == "SA" && config.saParams {
        StartOne("SA", config.saPort, config.dataFrequency, matrix);
      } else if name == "TS" && config.tsParams {
        StartOne("TS", config.tsPort, config.dataFrequency, matrix);
      } else {
        events := events + [NotRecognized(name)];
      }
    }

    /** `start_algorithm_for_file`: a barrier with one party per requested
        name; nothing starts when the file is unknown or its matrix is
        empty; a failed load propagates as the error. `file` is the
        instance the name selects. */
    method StartAlgorithmForFile(config: Config, metric: (string, Coord, Coord) -> int)
      returns (r: Outcome<ParseError>, ghost file: TspFile?)
      requires Valid() && catalog.Valid()
      modifies this, set f | f in catalog.files, set f | f in catalog.files :: f.parser
      ensures Valid() && barriers == old(barriers) + [|config.algorithms|]
      ensures var k := FirstNamed(old(InfosOf(catalog.files)), config.fileName);
        if k.None? then file == null else file == catalog.files[k.value]
      ensures file == null ==> r.Pass? && events == old(events) + [SelectedFileNotFound] &&
                               managers == old(managers) && order == old(order)
      ensures file != null ==>
        (file.Snapshot(), file.parser.Snapshot(), r) == LoadDistance(old(file.Snapshot()), old(file.parser.Snapshot()), metric)
      ensures r.Fail? ==> events == old(events) && managers == old(managers) && order == old(order)
      ensures file != null && r.Pass? && file.distanceMatrix == [] ==>
        events == old(events) + [MatrixNotAvailable] && managers == old(managers) && order == old(order)
      ensures file != null && r.Pass? && file.distanceMatrix != [] ==>
        order == StartOrder(config, config.algorithms) &&
        events == old(events) + StartEvents(config, config.algorithms) &&
        forall n :: n in managers ==> Running(managers[n], PortOf(config, n), config.dataFrequency, file.distanceMatrix)
    {
      hide *;
      NoteBarrier(|config.algorithms|);
      var f, matrix;
      f, matrix, r := LoadMatrixFor(config.fileName, metric);
      file := f;
      if r.Fail? {
        return;
      }
      if f == null {
        Note(SelectedFileNotFound);
        return;
      }
      if matrix.None? || matrix.value == [] {
        Note(MatrixNotAvailable);
        return;
      }
      StartManagers(config, matrix.value);
    }

    /** A barrier with `parties` parties is created. */
    method NoteBarrier(parties: int)
      requires Valid()
      modifies this
      ensures Valid() && barriers == old(barriers) + [parties]
      ensures managers == old(managers) && order == old(order) && events == old(events)
    {
      barriers := barriers + [parties];
    }

    /** A signal or print is logged. */
    method Note(e: Event)
      requires Valid()
      modifies this
      ensures Valid() && events == old(events) + [e]
      ensures managers == old(managers) && order == old(order) && barriers == old(barriers)
    {
      events := events + [e];
    }

    /** `stop_algorithms`: every manager's processes are terminated and its
        finished signal emitted, in dictionary order; then the dictionary is
        emptied. */
    method StopAlgorithms()
      requires Valid()
      modifies this, managers.Values
      ensures Valid() && managers == map[] && order == []
      ensures events == old(events) + FinishedEvents(old(order))
      ensures forall n :: n in old(managers) ==> Stopped(old(managers)[n])
      ensures forall n :: n in old(managers) ==> TerminatedFrom(old(managers)[n], old(SlotsOf(managers[n])))
      ensures barriers == old(barriers)
    {
      TerminateAll();
      forall n | n in managers
        ensures Stopped(managers[n])
      {
        var k :| 0 <= k < |order| && order[k] == n;
      }
      managers := map[];
      order := [];
    }

    /** The loop of `stop_algorithms`. Two names may share one manager; the
        second visit then finds its processes ended and changes nothing. */
    method TerminateAll()
      requires Valid()
      modifies this, managers.Values
      ensures Valid() && managers == old(managers) && order == old(order) && barriers == old(barriers)
      ensures events == old(events) + FinishedEvents(order)
      ensures forall k :: 0 <= k < |order| ==> Stopped(managers[order[k]])
      ensures forall n :: n in managers ==> TerminatedFrom(managers[n], old(SlotsOf(managers[n])))
    {
      ghost var before := SlotsMap(managers);
      assert SnapshotOf(managers, before);
      assert StoppedUpTo(SlotsMap(managers), order, before, 0);
      StopEach(before);
      AllStopped(SlotsMap(managers), order, before);
      hide FinishedEvents, StoppedUpTo, SnapshotOf;
      forall n | n in managers
        ensures TerminatedFrom(managers[n], old(SlotsOf(managers[n]))) && Stopped(managers[n])
      {
        assert SlotsMap(managers)[n] == SlotsOf(managers[n]);
      }
    }

    /** The stop loop over the names in dictionary order, against a
        snapshot `before` of every manager's fields. */
    method StopEach(ghost before: map<string, Slots>)
      requires Valid() && SnapshotOf(managers, before)
      requires StoppedUpTo(SlotsMap(managers), order, before, 0)
      modifies this, managers.Values
      ensures managers == old(managers) && order == old(order) && barriers == old(barriers)
      ensures events == old(events) + FinishedEvents(order)
      ensures StoppedUpTo(SlotsMap(managers), order, before, |order|)
    {
      assert FinishedEvents(order[..0]) == [];
      hide FinishedEvents, StoppedUpTo, SnapshotOf, SlotsMap;
      for i := 0 to |order|
        invariant managers == old(managers) && order == old(order) && barriers == old(barriers)
        invariant events == old(events) + FinishedEvents(order[..i])
        invariant StoppedUpTo(SlotsMap(managers), order, before, i)
      {
        StopNext(before, i, old(events));
      }
      assert order[..|order|] == order;
    }

    /** A pass of the stop loop, with the signals and the terminated prefix
        it extends. */
    method StopNext(ghost before: map<string, Slots>, i: int, ghost start: seq<Event>)
      requires Valid() && 0 <= i < |order| && SnapshotOf(managers, before)
      requires StoppedUpTo(SlotsMap(managers), order, before, i)
      requires events == start + FinishedEvents(order[..i])
      modifies this, managers[order[i]]
      ensures managers == old(managers) && order == old(order) && barriers == old(barriers)
      ensures events == start + FinishedEvents(order[..i + 1])
      ensures StoppedUpTo(SlotsMap(managers), order, before, i + 1)
    {
      FinishedStep(order, i);
      hide FinishedEvents, StoppedUpTo, SnapshotOf, TerminatedFrom, Stopped, TerminateSlots;
      ghost var pre := SlotsMap(managers);
      StopOne(order[i]);
      ghost var post := SlotsMap(managers);
      forall n | n in managers
        ensures post[n] == (if managers[n] == managers[order[i]] then TerminateSlots(pre[order[i]]) else pre[n])
      {
      }
      StopStep(managers, pre, post, order, before, i);
      ConcatAssoc(start, FinishedEvents(order[..i]),
                  if order[i] == "SA" || order[i] == "TS" then [Finished(order[i])] else []);
    }

    /** One arm of the stop loop: the manager's processes are terminated
        and, for "SA" and "TS", the finished signal is emitted. */
    method StopOne(name: string)
      requires name in managers
      modifies this, managers[name]
      ensures managers == old(managers) && order == old(order) && barriers == old(barriers)
      ensures events == old(events) + (if name == "SA" || name == "TS" then [Finished(name)] else [])
      ensures Stopped(managers[name])
      ensures managers[name].receiverProcess == Terminated(old(managers[name].receiverProcess))
      ensures managers[name].algorithmProcess == Terminated(old(managers[name].algorithmProcess))
      ensures managers[name].isReceiving == old(managers[name].isReceiving)
      ensures TerminatedFrom(managers[name], old(SlotsOf(managers[name])))
      ensures managers[name].terminated ==
                old(managers[name].terminated) +
                TerminateLog(old(managers[name].receiverProcess), old(managers[name].algorithmProcess))
    {
      managers[name].TerminateProcesses();
      if name == "SA" {
        events := events + [Finished("SA")];
      } else if name == "TS" {
        events := events + [Finished("TS")];
      }
    }

    /** `get_instance_data`: the fields of the first instance with the name,
        or nothing (the empty dictionary) when there is none. */
    method GetInstanceData(fileName: string) returns (r: Option<InstanceData>)
      ensures var k := FirstNamed(InfosOf(catalog.files), fileName);
        k.None? <==> r.None?
      ensures var k := FirstNamed(InfosOf(catalog.files), fileName);
        k.Some? ==> r == Some(InstanceView(InfosOf(catalog.files)[k.value]))
    {
      var f := catalog.GetFileByName(fileName);
      if f == null {
        return None;
      }
      var coordinates := if f.coordinates != [] then f.coordinates else f.displayCoordinates;
      return Some(InstanceData(f.name, f.dimension, f.edgeWeightType, f.optimalResult, coordinates));
    }
  }
}
