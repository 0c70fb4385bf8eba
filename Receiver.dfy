/** The receiving half of an algorithm process: it listens on the socket
    and copies every message onto the queue shared with the manager, until
    the "EOF" marker or a receive error. The socket is the sequence of
    what successive receives return. */
module Receiver {
  import opened Telemetry

  /** What one `recv` gives: a decoded message, or an exception. */
  datatype Incoming = Message(text: string) | ReceiveError

  /** The queue between the receiver process and the manager. */
  class MessageQueue {
    var items: seq<string>

    constructor ()
      ensures items == []
    {
      items := [];
    }

    /** `put`: at the back. */
    method Put(m: string)
      modifies this
      ensures items == old(items) + [m]
    {
      items := items + [m];
    }

    /** `get`: from the front. */
    method Get() returns (m: string)
      requires items != []
      modifies this
      ensures old(items) == [m] + items
    {
      m := items[0];
      items := items[1..];
    }
  }

  /** What the relay puts on the queue for a run of receives: each message
      in arrival order, up to and including the first "EOF"; a receive
      error ends the run and is not queued. */
  function Relayed(incoming: seq<Incoming>): (r: seq<string>)
    ensures |r| <= |incoming|
  {
    if incoming == [] then []
    else if incoming[0].ReceiveError? then []
    else if incoming[0].text == EndOfStream then [EndOfStream]
    else [incoming[0].text] + Relayed(incoming[1..])
  }

  /** "EOF" can only be the last thing queued. */
  lemma {:induction false} EndOfStreamLast(incoming: seq<Incoming>)
    ensures forall q :: 0 <= q < |Relayed(incoming)| - 1 ==> Relayed(incoming)[q] != EndOfStream
  {
    if incoming != [] && incoming[0].Message? && incoming[0].text != EndOfStream {
      EndOfStreamLast(incoming[1..]);
    }
  }

  /** The first `k` receives were ordinary messages. */
  predicate Plain(incoming: seq<Incoming>, k: nat) {
    k <= |incoming| &&
    forall q :: 0 <= q < k ==> incoming[q].Message? && incoming[q].text != EndOfStream
  }

  /** Ordinary messages are forwarded one for one, in order, before
      whatever the rest of the run does. */
  lemma {:induction false} RelayedPrefix(incoming: seq<Incoming>, k: nat)
    requires Plain(incoming, k)
    ensures |Relayed(incoming)| == k + |Relayed(incoming[k..])|
    ensures forall q :: 0 <= q < k ==> Relayed(incoming)[q] == incoming[q].text
    ensures Relayed(incoming)[k..] == Relayed(incoming[k..])
  {
    if k > 0 {
      RelayedPrefix(incoming[1..], k - 1);
      assert incoming[1..][k - 1..] == incoming[k..];
    }
  }

  /** "EOF" is queued verbatim and ends the run: nothing after it is
      forwarded. */
  lemma StopsAtEndOfStream(incoming: seq<Incoming>, k: nat)
    requires Plain(incoming, k) && k < |incoming| && incoming[k] == Message(EndOfStream)
    ensures |Relayed(incoming)| == k + 1 && Relayed(incoming)[k] == EndOfStream
  {
    RelayedPrefix(incoming, k);
  }

  /** A receive error ends the run with nothing more queued, and no "EOF". */
  lemma StopsAtError(incoming: seq<Incoming>, k: nat)
    requires Plain(incoming, k) && k < |incoming| && incoming[k] == ReceiveError
    ensures |Relayed(incoming)| == k && EndOfStream !in Relayed(incoming)
  {
    RelayedPrefix(incoming, k);
  }

  /** `receive_data`: when the socket cannot be set up nothing is queued;
      otherwise each message goes to the queue until "EOF" (queued too) or
      a receive error. The run also ends when `incoming` is used up. */
  method ReceiveData(queue: MessageQueue, setupOk: bool, incoming: seq<Incoming>)
    modifies queue
    ensures !setupOk ==> queue.items == old(queue.items)
    ensures setupOk ==> queue.items == old(queue.items) + Relayed(incoming)
  {
    if !setupOk {
      return;
    }
    var k := 0;
    while k < |incoming|
      invariant Plain(incoming, k) && k <= |Relayed(incoming)|
      invariant queue.items == old(queue.items) + Relayed(incoming)[..k]
      decreases |incoming| - k
    {
      RelayedPrefix(incoming, k);
      assert Relayed(incoming)[k..] == Relayed(incoming[k..]);
      if incoming[k].ReceiveError? {
        assert Relayed(incoming) == Relayed(incoming)[..k];
        return;
      }
      var message := incoming[k].text;
      if message == EndOfStream {
        queue.Put(EndOfStream);
        assert Relayed(incoming) == Relayed(incoming)[..k] + [EndOfStream];
        return;
      }
      queue.Put(message);
      RelayedPrefix(incoming, k + 1);
      assert Relayed(incoming)[..k + 1] == Relayed(incoming)[..k] + [message];
      k := k + 1;
    }
    RelayedPrefix(incoming, k);
    assert Relayed(incoming) == Relayed(incoming)[..k];
  }
}
