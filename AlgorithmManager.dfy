/** The manager of one algorithm run on the GUI side: it owns the queue the
    receiver fills, starts the receiver and algorithm processes, drains the
    queue through a callback, and terminates the processes once "EOF"
    arrives. Processes are modelled by a slot: no process yet (None), or
    one that is alive (Some(true)) or has ended (Some(false)). */
module AlgorithmManager {
  import opened Wrappers
  import opened Telemetry
  import opened Receiver

  /** A slot after `terminate` is applied to it when it holds a live
      process; other slots are left alone. */
  function Terminated(p: Option<bool>): (r: Option<bool>)
    ensures r != Some(true)
    ensures p != Some(true) ==> r == p
    ensures p.Some? <==> r.Some?
  {
    if p == Some(true) then Some(false) else p
  }

  /** The names `terminate_processes` logs for a receiver slot and an
      algorithm slot: one per live process, the receiver first. */
  function TerminateLog(receiver: Option<bool>, algorithm: Option<bool>): seq<string>
  {
    (if receiver == Some(true) then ["receiver"] else []) +
    (if algorithm == Some(true) then ["algorithm"] else [])
  }

  /** The result of draining a queue: the messages handed to the callback,
      what stays queued, and whether "EOF" was taken. */
  datatype Drained = Drained(handled: seq<string>, rest: seq<string>, ended: bool)

  /** Draining stops at the first "EOF", which is taken but not handled,
      or when the queue is empty. */
  function Drain(items: seq<string>): (r: Drained)
    ensures r.handled + (if r.ended then [EndOfStream] else []) + r.rest == items
    ensures EndOfStream !in r.handled
    ensures !r.ended ==> r.rest == []
  {
    if items == [] then Drained([], [], false)
    else if items[0] == EndOfStream then Drained([], items[1..], true)
    else
      var t := Drain(items[1..]);
      Drained([items[0]] + t.handled, t.rest, t.ended)
  }

  /** Without "EOF" on the queue every message is handled, in order. */
  lemma DrainAll(items: seq<string>)
    requires EndOfStream !in items
    ensures Drain(items) == Drained(items, [], false)
  {
    var r := Drain(items);
    assert r.ended ==> EndOfStream in r.handled + [EndOfStream] + r.rest;
  }

  /** Messages queued after "EOF" stay on the queue. */
  lemma {:induction false} DrainStopsAtEndOfStream(before: seq<string>, after: seq<string>)
    requires EndOfStream !in before
    ensures Drain(before + [EndOfStream] + after) == Drained(before, after, true)
    decreases |before|
  {
    var items := before + [EndOfStream] + after;
    if before == [] {
      assert items == [EndOfStream] + after;
    } else {
      assert items == [before[0]] + (before[1..] + [EndOfStream] + after);
      DrainStopsAtEndOfStream(before[1..], after);
      assert [before[0]] + before[1..] == before;
    }
  }

  class Manager {
    const queue: MessageQueue
    const port: int
    const dataFrequency: int
    const distanceMatrix: seq<seq<int>>
    var receiverProcess: Option<bool>
    var algorithmProcess: Option<bool>
    var isReceiving: bool
    /** The `terminate` calls made, by process: "receiver" or "algorithm". */
    var terminated: seq<string>

    /** `__init__`: a fresh queue, no processes, not receiving. */
    constructor (port: int, dataFrequency: int, distanceMatrix: seq<seq<int>>)
      ensures fresh(queue) && queue.items == []
      ensures this.port == port && this.dataFrequency == dataFrequency && this.distanceMatrix == distanceMatrix
      ensures receiverProcess == None && algorithmProcess == None
      ensures !isReceiving && terminated == []
    {
      queue := new MessageQueue();
      this.port := port;
      this.dataFrequency := dataFrequency;
      this.distanceMatrix := distanceMatrix;
      receiverProcess := None;
      algorithmProcess := None;
      isReceiving := false;
      terminated := [];
    }

    /** `start`: both processes are started and receiving begins. */
    method Start()
      modifies this
      ensures receiverProcess == Some(true) && algorithmProcess == Some(true)
      ensures isReceiving && terminated == old(terminated)
    {
      receiverProcess := Some(true);
      algorithmProcess := Some(true);
      isReceiving := true;
    }

    /** The receiver process: `receive_data` on the shared queue, after
        which the process ends. */
    method RunReceiver(setupOk: bool, incoming: seq<Incoming>)
      requires receiverProcess == Some(true)
      modifies this, queue
      ensures queue.items == old(queue.items) + (if setupOk then Relayed(incoming) else [])
      ensures receiverProcess == Some(false) && algorithmProcess == old(algorithmProcess)
      ensures isReceiving == old(isReceiving) && terminated == old(terminated)
    {
      ReceiveData(queue, setupOk, incoming);
      receiverProcess := Some(false);
    }

    /** `terminate_processes`: `terminate` only on processes that exist and
        are alive, so a second call does nothing. */
    method TerminateProcesses()
      modifies this
      ensures receiverProcess == Terminated(old(receiverProcess))
      ensures algorithmProcess == Terminated(old(algorithmProcess))
      ensures terminated == old(terminated) + TerminateLog(old(receiverProcess), old(algorithmProcess))
      ensures isReceiving == old(isReceiving)
    {
      if receiverProcess == Some(true) {
        receiverProcess := Some(false);
        terminated := terminated + ["receiver"];
      }
      if algorithmProcess == Some(true) {
        algorithmProcess := Some(false);
        terminated := terminated + ["algorithm"];
      }
    }

    /** `check_queue`: messages are taken from the front and handed to the
        callback (returned here, in order) until the queue is empty or
        "EOF" is taken; "EOF" ends receiving and terminates the processes. */
    method CheckQueue() returns (handled: seq<string>)
      modifies this, queue
      ensures handled == Drain(old(queue.items)).handled
      ensures queue.items == Drain(old(queue.items)).rest
      ensures Drain(old(queue.items)).ended ==> (!isReceiving &&
                receiverProcess == Terminated(old(receiverProcess)) &&
                algorithmProcess == Terminated(old(algorithmProcess)) &&
                terminated == old(terminated) + TerminateLog(old(receiverProcess), old(algorithmProcess)))
      ensures !Drain(old(queue.items)).ended ==> (isReceiving == old(isReceiving) &&
                receiverProcess == old(receiverProcess) && algorithmProcess == old(algorithmProcess) &&
                terminated == old(terminated))
    {
      ghost var items := queue.items;
      handled := [];
      while queue.items != []
        invariant Drain(items).handled == handled + Drain(queue.items).handled
        invariant Drain(items).rest == Drain(queue.items).rest
        invariant Drain(items).ended == Drain(queue.items).ended
        invariant isReceiving == old(isReceiving) && terminated == old(terminated)
        invariant receiverProcess == old(receiverProcess) && algorithmProcess == old(algorithmProcess)
        decreases |queue.items|
      {
        var current := queue.Get();
        if current == EndOfStream {
          isReceiving := false;
          TerminateProcesses();
          return;
        }
        handled := handled + [current];
      }
    }
  }
}
