/** What the worker is asked to do and what it does: every request of a sender is
    answered by the message it stands for, and there are no other messages. */
module ExporterRequests {
  import opened Options
  import opened ExporterModel
  import Exporter
  import opened ExporterProtocol

  // ----- One request, one receive -----

  /** A flush request makes the next `receive` hand out everything buffered, as a
      flush, without any wait, and leaves nothing to do. */
  lemma FlushIsAnswered(limits: Limits, s: Shared, waits: seq<Exporter.Wait>)
    requires !s.hasShutdown && s.resource.None? && !s.shutdownNeeded
    ensures Answer(limits, s, TriggerFlush) == Ok && Notifies(limits, s, TriggerFlush)
    ensures var r := Exporter.Received(limits, Sent(limits, s, TriggerFlush), waits);
      && r.message == FlushTraceChunks && r.batch == s.chunks
      && r.after == s.(chunks := [], spanCount := 0, flushNeeded := false)
  {
  }

  /** A shutdown request goes before a pending flush, and is never taken back. */
  lemma ShutdownIsAnswered(limits: Limits, s: Shared, waits: seq<Exporter.Wait>)
    requires !s.hasShutdown && s.resource.None?
    ensures Answer(limits, s, TriggerShutdown) == Ok && Notifies(limits, s, TriggerShutdown)
    ensures var r := Exporter.Received(limits, Sent(limits, s, TriggerShutdown), waits);
      && r.message == Shutdown && r.batch == s.chunks
      && r.after == s.(chunks := [], spanCount := 0, shutdownNeeded := true)
  {
  }

  /** A resource goes first; it replaces one that is still pending, and leaves the
      buffer and the other requests for later. */
  lemma ResourceIsAnswered(limits: Limits, s: Shared, resource: int, waits: seq<Exporter.Wait>)
    requires !s.hasShutdown
    ensures Answer(limits, s, SetResource(resource)) == Ok && Notifies(limits, s, SetResource(resource))
    ensures var r := Exporter.Received(limits, Sent(limits, s, SetResource(resource)), waits);
      r.message == NewResource(resource) && r.batch == [] && r.after == s.(resource := None)
  {
  }

  /** A chunk alone makes `receive` return exactly if it brings the buffer above
      the trigger; below that, the wait goes on until the deadline, and then the
      chunk is handed out too. A buffer above its maximum drops it whole, tells the
      sender how many spans, and counts them. Offered spans are queued or dropped. */
  lemma ChunkIsAnswered(limits: Limits, s: Shared, chunk: Chunk)
    requires !s.hasShutdown && !HasWork(s)
    ensures var after, result := Sent(limits, s, AddChunk(chunk)), Answer(limits, s, AddChunk(chunk));
      var batch := if chunk == [] then s.chunks else s.chunks + [chunk];
      && (result == Ok <==> s.spanCount <= limits.maxBuffered)
      && (result != Ok ==> result == Err(BatchFull(|chunk|)) && after == s.(spansDropped := s.spansDropped + |chunk|))
      && after.spansQueued + after.spansDropped == s.spansQueued + s.spansDropped + |chunk|
      && (result == Ok ==> after.spansDropped == s.spansDropped)
      && (HasWork(after) <==> result == Ok && s.spanCount + |chunk| > limits.flushTrigger)
      && (result == Ok ==>
            Exporter.Received(limits, after, []) ==
              Receipt(s.(spansQueued := s.spansQueued + |chunk|, chunks := [], spanCount := 0),
                      if s.spanCount + |chunk| > limits.flushTrigger then FlushTraceChunks else FlushTraceChunksWithTimeout,
                      batch))
  {
  }

  /** At the deadline everything buffered is handed out, whatever was requested while
      the worker waited; those requests stay for the next `receive`. */
  lemma DeadlineIsKept(limits: Limits, s: Shared, ops: seq<SenderOp>, waits: seq<Exporter.Wait>)
    requires !HasWork(s)
    ensures var late := Exporter.SentAll(limits, s, ops);
      var r := Exporter.Received(limits, s, [Exporter.Wait(ops, true)] + waits);
      && r.message == FlushTraceChunksWithTimeout && r.batch == s.chunks + Exporter.AcceptedByAll(limits, s, ops)
      && r.after == late.(chunks := [], spanCount := 0)
  {
    hide HasWork;
    Exporter.SentAllAppends(limits, s, ops);
    assert ([Exporter.Wait(ops, true)] + waits)[0] == Exporter.Wait(ops, true);
  }

  /** After the end every request is refused and changes nothing. */
  lemma NothingAfterTheEnd(limits: Limits, s: Shared, op: SenderOp)
    requires s.hasShutdown
    ensures Answer(limits, s, op) == Err(AlreadyShutdown) && !Notifies(limits, s, op) && Sent(limits, s, op) == s
  {
  }

  // ----- Whole runs -----

  /** In step `k` of the run a sender makes this request. */
  ghost predicate Requests(limits: Limits, start: State, steps: seq<Step>, k: nat, op: SenderOp)
    requires k < |steps|
  {
    var before := Run(limits, start, steps[..k]);
    && before.Some? && steps[k].SenderWrites? && steps[k].i < |before.value.senders|
    && before.value.senders[steps[k].i] == Entered(op) && Answer(limits, before.value.shared, op) == Ok
  }

  ghost predicate Requested(limits: Limits, start: State, steps: seq<Step>, op: SenderOp) {
    exists k :: 0 <= k < |steps| && Requests(limits, start, steps, k, op)
  }

  /** A sender added a chunk that brought the buffer above the trigger. */
  ghost predicate Overflows(limits: Limits, start: State, steps: seq<Step>, k: nat)
    requires k < |steps|
  {
    exists chunk :: Requests(limits, start, steps, k, AddChunk(chunk)) &&
      Run(limits, start, steps[..k]).value.shared.spanCount + |chunk| > limits.flushTrigger
  }

  ghost predicate Overflowed(limits: Limits, start: State, steps: seq<Step>) {
    exists k :: 0 <= k < |steps| && Overflows(limits, start, steps, k)
  }

  /** Whatever is pending was requested. */
  ghost predicate AllRequested(limits: Limits, start: State, steps: seq<Step>, s: State) {
    && (s.shared.shutdownNeeded ==> Requested(limits, start, steps, TriggerShutdown))
    && (IsEnding(s.worker) && s.left.None? ==> s.shared.shutdownNeeded)
    && (s.shared.resource.Some? ==> Requested(limits, start, steps, SetResource(s.shared.resource.value)))
    && (s.shared.flushNeeded ==> Requested(limits, start, steps, TriggerFlush) || Overflowed(limits, start, steps))
  }

  lemma RequestsExtend(limits: Limits, start: State, init: seq<Step>, step: Step)
    ensures forall op :: Requested(limits, start, init, op) ==> Requested(limits, start, init + [step], op)
    ensures Overflowed(limits, start, init) ==> Overflowed(limits, start, init + [step])
  {
    var steps := init + [step];
    assert forall k :: 0 <= k < |init| ==> steps[..k] == init[..k];
    forall op | Requested(limits, start, init, op) ensures Requested(limits, start, steps, op) {
      var k :| 0 <= k < |init| && Requests(limits, start, init, k, op);
      assert Requests(limits, start, steps, k, op);
    }
    if Overflowed(limits, start, init) {
      var k :| 0 <= k < |init| && Overflows(limits, start, init, k);
      var chunk :| Requests(limits, start, init, k, AddChunk(chunk)) &&
        Run(limits, start, init[..k]).value.shared.spanCount + |chunk| > limits.flushTrigger;
      assert Requests(limits, start, steps, k, AddChunk(chunk));
      assert Overflows(limits, start, steps, k);
    }
  }

  /** What one critical section of a sender adds to what is pending. */
  lemma SentIsRequested(limits: Limits, s: Shared, op: SenderOp)
    ensures var after, isOk := Sent(limits, s, op), Answer(limits, s, op) == Ok;
      && (after.shutdownNeeded ==> s.shutdownNeeded || (isOk && op == TriggerShutdown))
      && (after.resource != s.resource ==> isOk && after.resource.Some? && op == SetResource(after.resource.value))
      && (after.flushNeeded ==>
            || s.flushNeeded || (isOk && op == TriggerFlush)
            || (isOk && op.AddChunk? && s.spanCount + |op.chunk| > limits.flushTrigger))
      && (s.shutdownNeeded ==> after.shutdownNeeded)
  {
  }

  /** What the other steps do to what is pending. */
  lemma OtherStepsRequestNothing(limits: Limits, s: State, step: Step)
    requires Next(limits, s, step).Some? && !step.SenderWrites?
    ensures var t := Next(limits, s, step).value;
      && t.shared.shutdownNeeded == s.shared.shutdownNeeded
      && (t.shared.flushNeeded ==> s.shared.flushNeeded)
      && (t.shared.resource.None? || t.shared.resource == s.shared.resource)
      && (IsEnding(t.worker) && t.left.None? ==> (IsEnding(s.worker) && s.left.None?) || s.shared.shutdownNeeded)
  {
  }

  lemma RequestIsMade(limits: Limits, start: State, init: seq<Step>, step: Step)
    requires Run(limits, start, init).Some? && Next(limits, Run(limits, start, init).value, step).Some?
    requires step.SenderWrites?
    ensures var s := Run(limits, start, init).value;
      && step.i < |s.senders| && s.senders[step.i].Entered?
      && var op := s.senders[step.i].op;
        (Answer(limits, s.shared, op) == Ok ==>
          && Requested(limits, start, init + [step], op)
          && (op.AddChunk? && s.shared.spanCount + |op.chunk| > limits.flushTrigger ==>
                Overflowed(limits, start, init + [step])))
  {
    hide Run, Sent, Notifies, AcceptedBy;
    var s, steps, n := Run(limits, start, init).value, init + [step], |init|;
    assert steps[..n] == init && steps[n] == step;
    var op := s.senders[step.i].op;
    if Answer(limits, s.shared, op) == Ok {
      assert Requests(limits, start, steps, n, op);
      if op.AddChunk? && s.shared.spanCount + |op.chunk| > limits.flushTrigger {
        assert Overflows(limits, start, steps, n);
      }
    }
  }

  lemma StepKeepsRequests(limits: Limits, start: State, init: seq<Step>, step: Step)
    requires Run(limits, start, init).Some? && Next(limits, Run(limits, start, init).value, step).Some?
    requires AllRequested(limits, start, init, Run(limits, start, init).value)
    ensures AllRequested(limits, start, init + [step], Next(limits, Run(limits, start, init).value, step).value)
  {
    hide Run, Sent, Notifies, AcceptedBy, Answer, Requested, Overflowed, HasWork, Look, TakeOnTimeout;
    var s := Run(limits, start, init).value;
    RequestsExtend(limits, start, init, step);
    if step.SenderWrites? {
      RequestIsMade(limits, start, init, step);
      SentIsRequested(limits, s.shared, s.senders[step.i].op);
    } else {
      hide Next;
      OtherStepsRequestNothing(limits, s, step);
    }
  }

  /** In every run, whatever is pending was requested by a sender whose request was
      accepted: a worker that took the Shutdown message was asked to, a pending
      resource is one that was set, and a pending flush was triggered, or a chunk
      brought the buffer above the trigger. */
  lemma {:induction false} NothingUnasked(limits: Limits, senders: nat, impatient: seq<bool>, steps: seq<Step>)
    ensures var start := Start(senders, impatient);
      Run(limits, start, steps).Some? ==> AllRequested(limits, start, steps, Run(limits, start, steps).value)
    decreases |steps|
  {
    hide AllRequested, Next;
    var start := Start(senders, impatient);
    if steps == [] {
      NothingAtFirst(limits, senders, impatient);
    } else {
      var init, step := steps[..|steps| - 1], steps[|steps| - 1];
      NothingUnasked(limits, senders, impatient, init);
      var before := Run(limits, start, init);
      if before.Some? && Next(limits, before.value, step).Some? {
        StepKeepsRequests(limits, start, init, step);
        assert steps == init + [step];
      }
    }
  }

  lemma NothingAtFirst(limits: Limits, senders: nat, impatient: seq<bool>)
    ensures AllRequested(limits, Start(senders, impatient), [], Start(senders, impatient))
  {
  }

  /** In particular the worker ends, unless it dies, only if a sender asked for it. */
  lemma ShutdownWasTriggered(limits: Limits, senders: nat, impatient: seq<bool>, steps: seq<Step>)
    requires var s := Run(limits, Start(senders, impatient), steps);
      s.Some? && IsEnding(s.value.worker) && s.value.left.None?
    ensures Requested(limits, Start(senders, impatient), steps, TriggerShutdown)
  {
    NothingUnasked(limits, senders, impatient, steps);
  }

  /** And no request is forgotten: a shutdown request stays, a flush request goes
      only when the worker takes the whole buffer, and a resource only when the
      worker takes it, as a receipt without chunks, or a sender replaces it. */
  lemma NothingIsForgotten(limits: Limits, s: State, step: Step)
    requires Next(limits, s, step).Some?
    ensures var t := Next(limits, s, step).value;
      && (s.shared.shutdownNeeded ==> t.shared.shutdownNeeded)
      && (s.shared.flushNeeded && !t.shared.flushNeeded ==>
            t.batches == s.batches + [s.shared.chunks] && t.shared.chunks == [])
      && (s.shared.resource.Some? && t.shared.resource.None? ==>
            t.batches == s.batches + [[]] && t.shared.chunks == s.shared.chunks)
  {
  }

  /** Who woke up because time ran out. */
  ghost predicate TimeoutsHappened(steps: seq<Step>, s: State) {
    && (s.worker == Woken(true) ==> WorkerWakes(true) in steps)
    && (forall j :: 0 <= j < |s.waiters| && (s.waiters[j] == Roused(true) || s.waiters[j] == Returned(Err(MutexPoisoned))) ==>
          WaiterWakes(j, true) in steps)
  }

  lemma StepKeepsTimeouts(limits: Limits, init: seq<Step>, s: State, step: Step)
    requires TimeoutsHappened(init, s) && Next(limits, s, step).Some?
    ensures TimeoutsHappened(init + [step], Next(limits, s, step).value)
  {
    hide Sent, Look, TakeOnTimeout, HasWork, Notifies, AcceptedBy, RefusedBy;
  }

  /** In every run a notification is never taken for a timeout: the worker that is
      about to flush for want of time has waited in vain, and a waiter is told of a
      poisoned mutex only if its own wait ran out. */
  lemma {:induction false} TimeoutsAreReal(limits: Limits, senders: nat, impatient: seq<bool>, steps: seq<Step>)
    ensures var s := Run(limits, Start(senders, impatient), steps);
      s.Some? ==> TimeoutsHappened(steps, s.value)
    decreases |steps|
  {
    hide TimeoutsHappened, Next;
    if steps == [] {
      NobodyWaitsAtFirst(senders, impatient);
    } else {
      var init, step := steps[..|steps| - 1], steps[|steps| - 1];
      TimeoutsAreReal(limits, senders, impatient, init);
      var before := Run(limits, Start(senders, impatient), init);
      if before.Some? && Next(limits, before.value, step).Some? {
        StepKeepsTimeouts(limits, init, before.value, step);
        assert steps == init + [step];
      }
    }
  }

  lemma NobodyWaitsAtFirst(senders: nat, impatient: seq<bool>)
    ensures TimeoutsHappened([], Start(senders, impatient))
  {
  }
}
