/** The exporter's batch and channel as objects. Each method of the channel is
    one critical section under its mutex. */
module Exporter {
  import opened Options
  import opened ExporterModel

  class Batch {
    var chunks: seq<Chunk>
    var spanCount: nat
    const maxBuffered: nat

    constructor (maxBuffered: nat)
      ensures this.maxBuffered == maxBuffered && chunks == [] && spanCount == 0
    {
      chunks := [];
      spanCount := 0;
      this.maxBuffered := maxBuffered;
    }

    /** A batch that is over its maximum refuses the whole chunk; one that is not
        takes it whole, so a single chunk may overshoot. */
    method AddTraceChunk(chunk: Chunk) returns (dropped: Option<nat>)
      modifies this
      ensures dropped == if old(spanCount) > maxBuffered then Some(|chunk|) else None
      ensures dropped.Some? ==> chunks == old(chunks) && spanCount == old(spanCount)
      ensures dropped.None? ==>
        chunks == old(chunks) + (if chunk == [] then [] else [chunk]) && spanCount == old(spanCount) + |chunk|
    {
      if spanCount > maxBuffered {
        return Some(|chunk|);
      }
      if chunk == [] {
        return None;
      }
      chunks := chunks + [chunk];
      spanCount := spanCount + |chunk|;
      return None;
    }

    method Export() returns (taken: seq<Chunk>)
      modifies this
      ensures taken == old(chunks) && chunks == [] && spanCount == 0
    {
      taken := chunks;
      chunks := [];
      spanCount := 0;
    }
  }

  /** What happens while the receiver waits with the mutex released: the critical
      sections of senders, and whether the wait ended by its timeout. */
  datatype Wait = Wait(ops: seq<SenderOp>, timedOut: bool)

  function SentAll(limits: Limits, s: Shared, ops: seq<SenderOp>): Shared
    decreases |ops|
  {
    if ops == [] then s else Sent(limits, SentAll(limits, s, ops[..|ops| - 1]), ops[|ops| - 1])
  }

  function AcceptedByAll(limits: Limits, s: Shared, ops: seq<SenderOp>): seq<Chunk>
    decreases |ops|
  {
    if ops == [] then []
    else
      var init := ops[..|ops| - 1];
      AcceptedByAll(limits, s, init) + AcceptedBy(limits, SentAll(limits, s, init), ops[|ops| - 1])
  }

  /** What `receive` returns when the waits go as given and the deadline has
      passed after the last of them. */
  function Received(limits: Limits, s: Shared, waits: seq<Wait>): Receipt
    decreases |waits|
  {
    if HasWork(s) then Look(s)
    else if waits == [] then TakeOnTimeout(s)
    else
      var woken := SentAll(limits, s, waits[0].ops);
      if waits[0].timedOut then TakeOnTimeout(woken) else Received(limits, woken, waits[1..])
  }

  /** The chunks accepted during the waits that `receive` went through. */
  function AcceptedMeanwhile(limits: Limits, s: Shared, waits: seq<Wait>): seq<Chunk>
    decreases |waits|
  {
    if HasWork(s) || waits == [] then []
    else
      var woken := SentAll(limits, s, waits[0].ops);
      AcceptedByAll(limits, s, waits[0].ops) +
      (if waits[0].timedOut then [] else AcceptedMeanwhile(limits, woken, waits[1..]))
  }

  lemma SentAppends(limits: Limits, s: Shared, op: SenderOp)
    ensures Sent(limits, s, op).chunks == s.chunks + AcceptedBy(limits, s, op)
  {
  }

  lemma {:induction false} SentAllAppends(limits: Limits, s: Shared, ops: seq<SenderOp>)
    ensures SentAll(limits, s, ops).chunks == s.chunks + AcceptedByAll(limits, s, ops)
    decreases |ops|
  {
    if ops != [] {
      var init, op := ops[..|ops| - 1], ops[|ops| - 1];
      SentAllAppends(limits, s, init);
      SentAppends(limits, SentAll(limits, s, init), op);
      var soFar, more := AcceptedByAll(limits, s, init), AcceptedBy(limits, SentAll(limits, s, init), op);
      assert (s.chunks + soFar) + more == s.chunks + (soFar + more);
    }
  }

  lemma {:induction false} SentAllConsistent(limits: Limits, s: Shared, ops: seq<SenderOp>)
    requires Consistent(limits, s)
    ensures Consistent(limits, SentAll(limits, s, ops))
    decreases |ops|
  {
    if ops != [] {
      var init := ops[..|ops| - 1];
      SentAllConsistent(limits, s, init);
      SentKeepsConsistent(limits, SentAll(limits, s, init), ops[|ops| - 1]);
    }
  }

  /** `receive` leaves the shared state consistent. */
  lemma {:induction false} ReceiveKeepsConsistent(limits: Limits, s: Shared, waits: seq<Wait>)
    requires Consistent(limits, s)
    ensures Consistent(limits, Received(limits, s, waits).after)
    decreases |waits|
  {
    if !HasWork(s) && waits != [] {
      SentAllConsistent(limits, s, waits[0].ops);
      if !waits[0].timedOut {
        ReceiveKeepsConsistent(limits, SentAll(limits, s, waits[0].ops), waits[1..]);
      }
    }
  }

  /** One receipt hands out nothing or the whole batch. */
  ghost predicate Splits(r: Receipt, available: seq<Chunk>) {
    && r.batch + r.after.chunks == available
    && (if r.message.NewResource? then r.batch == [] else r.after.chunks == [])
  }

  /** However often `receive` is woken, it hands out a prefix of what was
      buffered and accepted meanwhile, in order, and leaves the rest. */
  lemma {:induction false} ReceiveLosesNothing(limits: Limits, s: Shared, waits: seq<Wait>)
    ensures Splits(Received(limits, s, waits), s.chunks + AcceptedMeanwhile(limits, s, waits))
    decreases |waits|
  {
    if HasWork(s) || waits == [] {
      assert s.chunks + [] == s.chunks;
    } else {
      var woken := SentAll(limits, s, waits[0].ops);
      var first := AcceptedByAll(limits, s, waits[0].ops);
      SentAllAppends(limits, s, waits[0].ops);
      if waits[0].timedOut {
        assert first + [] == first;
      } else {
        ReceiveLosesNothing(limits, woken, waits[1..]);
        var rest := AcceptedMeanwhile(limits, woken, waits[1..]);
        assert (s.chunks + first) + rest == s.chunks + (first + rest);
      }
    }
  }

  class Channel {
    var flushNeeded: bool
    var shutdownNeeded: bool
    var hasShutdown: bool
    const batch: Batch
    var resource: Option<int>
    var spansDropped: nat
    var spansQueued: nat
    const limits: Limits

    ghost function View(): Shared
      reads this, batch
    {
      Shared(flushNeeded, shutdownNeeded, hasShutdown, batch.chunks, batch.spanCount,
             resource, spansDropped, spansQueued)
    }

    ghost predicate Valid()
      reads this, batch
    {
      batch.maxBuffered == limits.maxBuffered
    }

    constructor (limits: Limits)
      ensures Valid() && fresh(batch) && View() == INITIAL && this.limits == limits
    {
      flushNeeded, shutdownNeeded, hasShutdown := false, false, false;
      batch := new Batch(limits.maxBuffered);
      resource := None;
      spansDropped, spansQueued := 0, 0;
      this.limits := limits;
    }

    method AddTraceChunk(chunk: Chunk) returns (result: SendResult, notify: bool)
      requires Valid()
      modifies this, batch
      ensures Valid() && View() == Sent(limits, old(View()), AddChunk(chunk))
      ensures result == Answer(limits, old(View()), AddChunk(chunk))
      ensures notify == Notifies(limits, old(View()), AddChunk(chunk))
    {
      if hasShutdown {
        return Err(AlreadyShutdown), false;
      }
      var dropped := batch.AddTraceChunk(chunk);
      if dropped.Some? {
        spansDropped := spansDropped + dropped.value;
        return Err(BatchFull(dropped.value)), false;
      }
      spansQueued := spansQueued + |chunk|;
      notify := false;
      if batch.spanCount > limits.flushTrigger {
        flushNeeded := true;
        notify := true;
      }
      result := Ok;
    }

    method SetResource(newResource: int) returns (result: SendResult, notify: bool)
      requires Valid()
      modifies this
      ensures Valid() && View() == Sent(limits, old(View()), SenderOp.SetResource(newResource))
      ensures result == Answer(limits, old(View()), SenderOp.SetResource(newResource))
      ensures notify == Notifies(limits, old(View()), SenderOp.SetResource(newResource))
    {
      if hasShutdown {
        return Err(AlreadyShutdown), false;
      }
      resource := Some(newResource);
      return Ok, true;
    }

    method TriggerFlush() returns (result: SendResult, notify: bool)
      requires Valid()
      modifies this
      ensures Valid() && View() == Sent(limits, old(View()), SenderOp.TriggerFlush)
      ensures result == Answer(limits, old(View()), SenderOp.TriggerFlush)
      ensures notify == Notifies(limits, old(View()), SenderOp.TriggerFlush)
    {
      if hasShutdown {
        return Err(AlreadyShutdown), false;
      }
      flushNeeded := true;
      return Ok, true;
    }

    method TriggerShutdown() returns (result: SendResult, notify: bool)
      requires Valid()
      modifies this
      ensures Valid() && View() == Sent(limits, old(View()), SenderOp.TriggerShutdown)
      ensures result == Answer(limits, old(View()), SenderOp.TriggerShutdown)
      ensures notify == Notifies(limits, old(View()), SenderOp.TriggerShutdown)
    {
      if hasShutdown {
        return Err(AlreadyShutdown), false;
      }
      shutdownNeeded := true;
      return Ok, true;
    }

    method Send(op: SenderOp)
      requires Valid()
      modifies this, batch
      ensures Valid() && View() == Sent(limits, old(View()), op)
    {
      var result, notify;
      match op
      case AddChunk(chunk) => result, notify := AddTraceChunk(chunk);
      case SetResource(newResource) => result, notify := SetResource(newResource);
      case TriggerFlush => result, notify := TriggerFlush();
      case TriggerShutdown => result, notify := TriggerShutdown();
    }

    /** Releases the mutex, lets senders in, and takes it back. */
    method WaitFor(ops: seq<SenderOp>)
      requires Valid()
      modifies this, batch
      ensures Valid() && View() == SentAll(limits, old(View()), ops)
    {
      var i := 0;
      while i < |ops|
        invariant i <= |ops| && Valid()
        invariant View() == SentAll(limits, old(View()), ops[..i])
      {
        Send(ops[i]);
        assert ops[..i + 1][..i] == ops[..i];
        i := i + 1;
      }
      assert ops[..|ops|] == ops;
    }

    /** The receive loop: look, wait, look again, until something is to be
        returned or the deadline has passed. */
    method Receive(waits: seq<Wait>) returns (message: Message, taken: seq<Chunk>)
      requires Valid()
      modifies this, batch
      ensures Valid()
      ensures Receipt(View(), message, taken) == Received(limits, old(View()), waits)
    {
      ghost var expected := Received(limits, View(), waits);
      var i := 0;
      while true
        invariant i <= |waits| && Valid()
        invariant Received(limits, View(), waits[i..]) == expected
        decreases |waits| - i
      {
        if resource.Some? {
          message := NewResource(resource.value);
          resource := None;
          return message, [];
        }
        if shutdownNeeded {
          taken := batch.Export();
          return Shutdown, taken;
        }
        if flushNeeded {
          flushNeeded := false;
          taken := batch.Export();
          return FlushTraceChunks, taken;
        }
        var timedOut := true;
        if i < |waits| {
          assert waits[i..][1..] == waits[i + 1..];
          WaitFor(waits[i].ops);
          timedOut := waits[i].timedOut;
          i := i + 1;
        }
        if timedOut {
          taken := batch.Export();
          return FlushTraceChunksWithTimeout, taken;
        }
      }
    }

    method ShutdownDone()
      modifies this
      ensures View() == old(View()).(hasShutdown := true)
    {
      hasShutdown := true;
    }

    /** Reading the queue metrics empties them. */
    method GetMetrics() returns (dropped: nat, queued: nat)
      requires Valid()
      modifies this
      ensures Valid() && dropped == old(spansDropped) && queued == old(spansQueued)
      ensures View() == old(View()).(spansDropped := 0, spansQueued := 0)
    {
      dropped, queued := spansDropped, spansQueued;
      spansDropped, spansQueued := 0, 0;
    }
  }
}
