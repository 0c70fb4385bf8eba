/** The telemetry line a solver sends while it runs, "elapsed best current
    c1,c2,...", the "EOF" line that ends the stream, the frequency throttle
    in front of the socket, and the best-solution file written at the end. */
module Telemetry {
  import opened Wrappers
  import opened Text

  /** One progress report: elapsed milliseconds, best and current tour cost,
      and the current tour. */
  datatype Report = Report(elapsed: int, best: int, current: int, tour: seq<int>)

  /** What the decoder returns for a line it cannot read. */
  const Zero := Report(0, 0, 0, [])

  /** The marker a solver sends after its last report. */
  const EndOfStream: string := "EOF"

  /** The cities of a tour separated by commas, without spaces. */
  function TourText(tour: seq<int>): string {
    Join(Map(tour), ',')
  }

  lemma JoinSnoc(parts: seq<string>, p: string, c: char)
    requires parts != []
    ensures Join(parts + [p], c) == Join(parts, c) + [c] + p
    decreases |parts|
  {
    if |parts| == 1 {
      assert (parts + [p])[1..] == [p];
    } else {
      assert (parts + [p])[1..] == parts[1..] + [p];
      JoinSnoc(parts[1..], p, c);
    }
  }

  /** The solution_stream loop of send_data: each city, and a comma after
      every city but the last. */
  method WriteTour(tour: seq<int>) returns (s: string)
    ensures s == TourText(tour)
  {
    s := "";
    for i := 0 to |tour|
      invariant s == TourText(tour[..i]) + (if 0 < i < |tour| then "," else "")
    {
      ghost var before := tour[..i];
      assert Map(tour[..i + 1]) == Map(before) + [ShowInt(tour[i])];
      if i > 0 {
        JoinSnoc(Map(before), ShowInt(tour[i]), ',');
      }
      s := s + ShowInt(tour[i]);
      if i != |tour| - 1 {
        s := s + ",";
      }
    }
    assert tour[..|tour|] == tour;
  }

  /** The report line: three integers and the tour, separated by single spaces. */
  function EncodeMessage(r: Report): (m: string)
    ensures EndOfStream != m
  {
    var m := ShowInt(r.elapsed) + " " + ShowInt(r.best) + " " + ShowInt(r.current) + " " + TourText(r.tour);
    assert m[|ShowInt(r.elapsed)|] == ' ';
    assert ' ' in m;
    m
  }

  /** The receiving side: split at most three times on a single space, read
      three integers and a comma-separated list of integers. Fewer than four
      parts or any part that is not an integer gives the all-zero report. */
  function ParseMessage(data: string): (r: Report)
    ensures r == Zero || r.tour != []
    ensures ' ' !in data ==> r == Zero
  {
    var parts := SplitMax(data, ' ', 3);
    if |parts| < 4 then Zero
    else
      var e := ParseInt(parts[0]);
      var b := ParseInt(parts[1]);
      var c := ParseInt(parts[2]);
      var t := ParseAll(SplitOn(parts[3], ','));
      if e.Some? && b.Some? && c.Some? && t.Success? then
        SplitMaxSeparator(data, ' ', 3);
        Report(e.value, b.value, c.value, t.value)
      else Zero
  }

  /** No printed integer holds a space or a comma. */
  lemma ShowIntPlain(n: int)
    ensures ' ' !in ShowInt(n) && ',' !in ShowInt(n)
  {
  }

  lemma TourTextNoSpace(tour: seq<int>)
    ensures ' ' !in TourText(tour)
    decreases |tour|
  {
    var parts := Map(tour);
    if |parts| >= 2 {
      assert Map(tour)[1..] == Map(tour[1..]);
      TourTextNoSpace(tour[1..]);
    }
  }

  /** Splitting a non-empty tour text on commas gives back each city's digits. */
  lemma TourTextSplit(tour: seq<int>)
    requires tour != []
    ensures SplitOn(TourText(tour), ',') == Map(tour)
  {
    SplitJoin(Map(tour), ',');
  }

  /** Round trip: the decoder reads back every report the solvers send, as
      long as the tour is not empty. */
  lemma ParseEncode(r: Report)
    requires r.tour != []
    ensures ParseMessage(EncodeMessage(r)) == r
  {
    var a, b, c, t := ShowInt(r.elapsed), ShowInt(r.best), ShowInt(r.current), TourText(r.tour);
    var m := EncodeMessage(r);
    assert m == a + [' '] + (b + [' '] + (c + [' '] + t));
    hide *;
    ShowIntPlain(r.elapsed);
    ShowIntPlain(r.best);
    ShowIntPlain(r.current);
    TourTextNoSpace(r.tour);
    SplitFour(a, b, c, t);
    ParseShow(r.elapsed);
    ParseShow(r.best);
    ParseShow(r.current);
    TourTextSplit(r.tour);
    ParseAllShow(r.tour);
    ParseFourParts(m, a, b, c, t, r);
  }

  /** Four space-free parts joined by single spaces split back apart. */
  lemma SplitFour(a: string, b: string, c: string, t: string)
    requires ' ' !in a && ' ' !in b && ' ' !in c && ' ' !in t
    ensures SplitMax(a + [' '] + (b + [' '] + (c + [' '] + t)), ' ', 3) == [a, b, c, t]
  {
    SplitMaxCut(a, b + [' '] + (c + [' '] + t), ' ', 3);
    SplitMaxCut(b, c + [' '] + t, ' ', 2);
    SplitMaxCut(c, t, ' ', 1);
    SplitMaxNoSeparator(t, ' ', 0);
  }

  /** The decoder on a line that splits into four readable parts. */
  lemma ParseFourParts(m: string, a: string, b: string, c: string, t: string, r: Report)
    requires SplitMax(m, ' ', 3) == [a, b, c, t]
    requires ParseInt(a) == Some(r.elapsed) && ParseInt(b) == Some(r.best) && ParseInt(c) == Some(r.current)
    requires ParseAll(SplitOn(t, ',')) == Success(r.tour)
    ensures ParseMessage(m) == r
  {
  }

  /** A report with an empty tour ends in an empty fourth part, which does not
      read as an integer, so it decodes to the all-zero report. */
  lemma EncodeEmptyTour(elapsed: int, best: int, current: int)
    ensures ParseMessage(EncodeMessage(Report(elapsed, best, current, []))) == Zero
  {
    var a, b, c := ShowInt(elapsed), ShowInt(best), ShowInt(current);
    var m := EncodeMessage(Report(elapsed, best, current, []));
    assert TourText([]) == "";
    assert m == a + [' '] + (b + [' '] + (c + [' '] + ""));
    SplitMaxCut(a, b + [' '] + (c + [' '] + ""), ' ', 3);
    SplitMaxCut(b, c + [' '] + "", ' ', 2);
    SplitMaxCut(c, "", ' ', 1);
    assert SplitMax(m, ' ', 3)[3] == "";
    assert SplitOn("", ',') == [""];
  }

  /** The end-of-stream marker decodes to the all-zero report. */
  lemma ParseEndOfStream()
    ensures ParseMessage(EndOfStream) == Zero
  {
  }

  /** send_data fires when at least `frequency` milliseconds have passed
      since the last send. */
  predicate Due(now: int, lastSend: int, frequency: int) {
    now - lastSend >= frequency
  }

  /** The sending half of a solver: the clock reading of the last send and
      the lines written to the socket so far. */
  class Sender {
    const start: int
    const frequency: int
    var lastSend: int
    var sent: seq<string>

    constructor (start: int, frequency: int)
      ensures this.start == start && this.frequency == frequency
      ensures lastSend == start && sent == []
    {
      this.start := start;
      this.frequency := frequency;
      lastSend := start;
      sent := [];
    }

    /** Sends the report for the current state when it is due and remembers
        the time; otherwise sends nothing. `now` is the clock reading. */
    method SendData(now: int, best: int, current: int, tour: seq<int>)
      modifies this
      ensures Due(now, old(lastSend), frequency) ==>
                lastSend == now && sent == old(sent) + [EncodeMessage(Report(now - start, best, current, tour))]
      ensures !Due(now, old(lastSend), frequency) ==> lastSend == old(lastSend) && sent == old(sent)
    {
      if now - lastSend >= frequency {
        var elapsed := now - start;
        lastSend := now;
        var text := WriteTour(tour);
        var message := ShowInt(elapsed) + " " + ShowInt(best) + " " + ShowInt(current) + " " + text;
        sent := sent + [message];
      }
    }

    /** The marker sent once the search loop has ended. */
    method Finish()
      modifies this
      ensures sent == old(sent) + [EndOfStream] && lastSend == old(lastSend)
    {
      sent := sent + [EndOfStream];
    }
  }

  /** The best-solution file: one city per line in tour order, then "EOF"
      and the newline std::endl writes. */
  function BestSolutionText(tour: seq<int>): string
    decreases |tour|
  {
    if tour == [] then EndOfStream + "\n"
    else ShowInt(tour[0]) + "\n" + BestSolutionText(tour[1..])
  }

  /** Read back line by line, the file holds the cities, "EOF" and the empty
      rest after the final newline. */
  lemma {:induction false} BestSolutionLines(tour: seq<int>)
    ensures SplitOn(BestSolutionText(tour), '\n') == Map(tour) + [EndOfStream, ""]
    decreases |tour|
  {
    if tour == [] {
      assert BestSolutionText(tour) == EndOfStream + ['\n'] + "";
      SplitOnCut(EndOfStream, "", '\n');
    } else {
      BestSolutionLines(tour[1..]);
      assert '\n' !in ShowInt(tour[0]);
      assert BestSolutionText(tour) == ShowInt(tour[0]) + ['\n'] + BestSolutionText(tour[1..]);
      SplitOnCut(ShowInt(tour[0]), BestSolutionText(tour[1..]), '\n');
      assert Map(tour) == [ShowInt(tour[0])] + Map(tour[1..]);
    }
  }

  /** save_best_solution_to_file: writes nothing when the file cannot be
      opened, otherwise the text built city by city. */
  method SaveBestSolution(tour: seq<int>, isOpen: bool) returns (written: Option<string>)
    ensures isOpen <==> written.Some?
    ensures isOpen ==> written.value == BestSolutionText(tour)
  {
    if !isOpen {
      return None;
    }
    var text := "";
    for i := 0 to |tour|
      invariant text + BestSolutionText(tour[i..]) == BestSolutionText(tour)
    {
      assert tour[i..][1..] == tour[i + 1..];
      text := text + ShowInt(tour[i]) + "\n";
    }
    text := text + EndOfStream + "\n";
    return Some(text);
  }
}
