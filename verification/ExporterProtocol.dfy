/** The exporter channel as a step system: any number of senders, one worker and
    any number of threads waiting for the shutdown, sharing one mutex and one
    condition variable. Taking the mutex, writing the shared state, releasing the
    mutex, notifying, falling asleep and waking up are separate steps. */
module ExporterProtocol {
  import opened Options
  import opened ExporterModel

  datatype SenderPc =
    | Ready                      // outside any operation
    | Entered(op: SenderOp)      // holds the mutex, has not written yet
    | Written(notify: bool)      // holds the mutex, has written
    | Released                   // gave the mutex back, notification due

  datatype WorkerPc =
    | Outside                    // not in `receive`
    | Looking                    // holds the mutex, at the head of the loop
    | Asleep
    | Woken(timedOut: bool)      // awake, needs the mutex back
    | Ending                     // got the Shutdown message, or died
    | EndEntered                 // dropping the receiver, holds the mutex
    | EndWritten                 // has set has_shutdown, holds the mutex
    | EndReleased                // gave the mutex back, notification due
    | Gone

  datatype WaiterPc =
    | Out
    | Watching                   // holds the mutex, tests has_shutdown
    | Dozing
    | Roused(timedOut: bool)
    | Returned(result: SendResult)

  datatype Owner = Free | SenderOwns(i: nat) | WorkerOwns | WaiterOwns(j: nat)

  datatype State = State(
    owner: Owner, shared: Shared,
    senders: seq<SenderPc>, worker: WorkerPc, waiters: seq<WaiterPc>,
    impatient: seq<bool>,        // which waiters pass a timeout of zero
    // History
    accepted: seq<Chunk>,        // chunks added to the batch, in mutex order
    batches: seq<seq<Chunk>>,    // what `receive` returned
    left: Option<seq<Chunk>>,    // the batch that a dying worker left behind
    late: seq<Chunk>,            // chunks accepted since the worker is ending
    drained: nat,                // queued spans already reported by the metrics
    refused: nat,                // spans refused by a full buffer
    reported: nat)               // refused spans already reported by the metrics

  datatype Step =
    | SenderEnters(i: nat, op: SenderOp)
    | SenderWrites(i: nat)
    | SenderReleases(i: nat)
    | SenderNotifies(i: nat)
    | WorkerEnters
    | WorkerLooks(deadlinePassed: bool)
    | WorkerWakes(timedOut: bool)
    | WorkerReenters
    | WorkerEnds
    | WorkerDies
    | WaiterEnters(j: nat)
    | WaiterLooks(j: nat)
    | WaiterWakes(j: nat, timedOut: bool)
    | WaiterReenters(j: nat)
    | MetricsDrained

  function Roll(w: WaiterPc): WaiterPc {
    if w.Dozing? then Roused(false) else w
  }

  function RollAll(ws: seq<WaiterPc>): (r: seq<WaiterPc>)
    ensures |r| == |ws| && forall j :: 0 <= j < |ws| ==> r[j] == Roll(ws[j])
  {
    seq(|ws|, j requires 0 <= j < |ws| => Roll(ws[j]))
  }

  /** `notify_all` wakes whoever sleeps on the condition variable. */
  function Notified(s: State): State {
    s.(worker := if s.worker.Asleep? then Woken(false) else s.worker, waiters := RollAll(s.waiters))
  }

  /** The worker returns from `receive`, giving the mutex back. */
  function Return(s: State, r: Receipt): State {
    s.(owner := Free, shared := r.after, batches := s.batches + [r.batch],
       worker := if r.message.Shutdown? then Ending else Outside)
  }

  predicate IsEnding(w: WorkerPc) {
    w.Ending? || w.EndEntered? || w.EndWritten? || w.EndReleased? || w.Gone?
  }

  // ----- The steps: None when a step is not possible -----

  function SenderStep(limits: Limits, s: State, i: nat, step: Step): Option<State>
    requires i < |s.senders|
  {
    var pc := s.senders[i];
    match step
    case SenderEnters(_, op) =>
      if pc.Ready? && s.owner.Free?
      then Some(s.(owner := SenderOwns(i), senders := s.senders[i := Entered(op)]))
      else None
    case SenderWrites(_) =>
      if pc.Entered? then
        var added := AcceptedBy(limits, s.shared, pc.op);
        Some(s.(shared := Sent(limits, s.shared, pc.op),
                senders := s.senders[i := Written(Notifies(limits, s.shared, pc.op))],
                accepted := s.accepted + added,
                refused := s.refused + RefusedBy(limits, s.shared, pc.op),
                late := if IsEnding(s.worker) then s.late + added else s.late))
      else None
    case SenderReleases(_) =>
      if pc.Written?
      then Some(s.(owner := Free, senders := s.senders[i := if pc.notify then Released else Ready]))
      else None
    case SenderNotifies(_) =>
      if pc.Released? then Some(Notified(s.(senders := s.senders[i := Ready]))) else None
    case _ => None
  }

  function WorkerStep(s: State, step: Step): Option<State> {
    match step
    case WorkerEnters =>
      if !s.owner.Free? then None
      else if s.worker.Outside? then Some(s.(owner := WorkerOwns, worker := Looking))
      else if s.worker.Ending? then Some(s.(owner := WorkerOwns, worker := EndEntered))
      else None
    case WorkerLooks(deadlinePassed) =>
      if !s.worker.Looking? then None
      else if HasWork(s.shared) then Some(Return(s, Look(s.shared)))
      else if deadlinePassed then Some(Return(s, TakeOnTimeout(s.shared)))
      else Some(s.(owner := Free, worker := Asleep))
    case WorkerWakes(timedOut) =>
      if s.worker.Asleep? then Some(s.(worker := Woken(timedOut))) else None
    case WorkerReenters =>
      if !(s.worker.Woken? && s.owner.Free?) then None
      else if s.worker.timedOut then Some(Return(s, TakeOnTimeout(s.shared)))
      else Some(s.(owner := WorkerOwns, worker := Looking))
    case WorkerEnds =>
      if s.worker.EndEntered? then
        Some(s.(shared := s.shared.(hasShutdown := true), worker := EndWritten))
      else if s.worker.EndWritten? then Some(s.(owner := Free, worker := EndReleased))
      else if s.worker.EndReleased? then Some(Notified(s.(worker := Gone)))
      else None
    // The exporter cannot be built, or the worker unwinds outside `receive`: its
    // receiver is dropped all the same.
    case WorkerDies =>
      if s.worker.Outside? then Some(s.(worker := Ending, left := Some(s.shared.chunks))) else None
    case _ => None
  }

  function WaiterStep(s: State, j: nat, step: Step): Option<State>
    requires j < |s.waiters| && j < |s.impatient|
  {
    var pc := s.waiters[j];
    match step
    case WaiterEnters(_) =>
      if !pc.Out? then None
      // A timeout of zero does not even take the mutex.
      else if s.impatient[j] then Some(s.(waiters := s.waiters[j := Returned(Err(TimedOut))]))
      else if s.owner.Free?
      then Some(s.(owner := WaiterOwns(j), waiters := s.waiters[j := Watching]))
      else None
    case WaiterLooks(_) =>
      if !pc.Watching? then None
      else Some(s.(owner := Free,
                   waiters := s.waiters[j := if s.shared.hasShutdown then Returned(Ok) else Dozing]))
    case WaiterWakes(_, timedOut) =>
      if pc.Dozing? then Some(s.(waiters := s.waiters[j := Roused(timedOut)])) else None
    case WaiterReenters(_) =>
      if !(pc.Roused? && s.owner.Free?) then None
      // A wait that ran out is reported as a poisoned mutex.
      else if pc.timedOut then Some(s.(waiters := s.waiters[j := Returned(Err(MutexPoisoned))]))
      else Some(s.(owner := WaiterOwns(j), waiters := s.waiters[j := Watching]))
    case _ => None
  }

  function Next(limits: Limits, s: State, step: Step): Option<State> {
    match step
    case SenderEnters(i, _) => if i < |s.senders| then SenderStep(limits, s, i, step) else None
    case SenderWrites(i) => if i < |s.senders| then SenderStep(limits, s, i, step) else None
    case SenderReleases(i) => if i < |s.senders| then SenderStep(limits, s, i, step) else None
    case SenderNotifies(i) => if i < |s.senders| then SenderStep(limits, s, i, step) else None
    case WaiterEnters(j) => if j < |s.waiters| && j < |s.impatient| then WaiterStep(s, j, step) else None
    case WaiterLooks(j) => if j < |s.waiters| && j < |s.impatient| then WaiterStep(s, j, step) else None
    case WaiterWakes(j, _) => if j < |s.waiters| && j < |s.impatient| then WaiterStep(s, j, step) else None
    case WaiterReenters(j) => if j < |s.waiters| && j < |s.impatient| then WaiterStep(s, j, step) else None
    case MetricsDrained =>
      if s.owner.Free?
      then Some(s.(drained := s.drained + s.shared.spansQueued, reported := s.reported + s.shared.spansDropped,
                   shared := s.shared.(spansQueued := 0, spansDropped := 0)))
      else None
    case _ => WorkerStep(s, step)
  }

  function Start(senders: nat, impatient: seq<bool>): State {
    State(Free, INITIAL, seq(senders, i => Ready), Outside, seq(|impatient|, j => Out), impatient, [], [], None, [], 0, 0, 0)
  }

  /** The state after a run of steps; None if one of them was not possible. */
  function Run(limits: Limits, start: State, steps: seq<Step>): Option<State>
    decreases |steps|
  {
    if steps == [] then Some(start)
    else
      match Run(limits, start, steps[..|steps| - 1])
      case Some(s) => Next(limits, s, steps[|steps| - 1])
      case None => None
  }

  // ----- Mutual exclusion -----

  predicate SenderHolds(pc: SenderPc) {
    pc.Entered? || pc.Written?
  }

  predicate WorkerHolds(pc: WorkerPc) {
    pc.Looking? || pc.EndEntered? || pc.EndWritten?
  }

  ghost predicate Exclusive(s: State) {
    && (forall i :: 0 <= i < |s.senders| ==> (SenderHolds(s.senders[i]) <==> s.owner == SenderOwns(i)))
    && (WorkerHolds(s.worker) <==> s.owner == WorkerOwns)
    && (forall j :: 0 <= j < |s.waiters| ==> (s.waiters[j].Watching? <==> s.owner == WaiterOwns(j)))
  }

  // ----- No lost wakeup -----

  /** A sender that has written, or released the mutex, and will still notify. */
  predicate WillNotify(pc: SenderPc) {
    pc.Released? || (pc.Written? && pc.notify)
  }

  ghost predicate NotificationDue(s: State) {
    exists i :: 0 <= i < |s.senders| && WillNotify(s.senders[i])
  }

  /** A sleeping worker never misses work, and a sleeping waiter never misses the
      end: whoever made the news is still going to notify. */
  ghost predicate NoLostWakeup(s: State) {
    && (s.worker.Asleep? && HasWork(s.shared) ==> NotificationDue(s))
    && (s.shared.hasShutdown <==> s.worker.EndWritten? || s.worker.EndReleased? || s.worker.Gone?)
    && (forall j :: 0 <= j < |s.waiters| && s.waiters[j].Dozing? && s.shared.hasShutdown ==>
          s.worker.EndWritten? || s.worker.EndReleased?)
    && (forall j :: 0 <= j < |s.waiters| && s.waiters[j] == Returned(Ok) ==> s.shared.hasShutdown)
  }

  // ----- Nothing is lost on the way -----

  function Concat(batches: seq<seq<Chunk>>): seq<Chunk>
    decreases |batches|
  {
    if batches == [] then [] else Concat(batches[..|batches| - 1]) + batches[|batches| - 1]
  }

  /** What a dying worker left behind; nothing if it took the Shutdown message. */
  function LeftBehind(s: State): seq<Chunk> {
    if s.left.Some? then s.left.value else []
  }

  ghost predicate Accounted(limits: Limits, s: State) {
    && Consistent(limits, s.shared)
    && s.accepted == Concat(s.batches) + s.shared.chunks
    && (if IsEnding(s.worker) then s.shared.chunks == LeftBehind(s) + s.late else s.late == [] && s.left == None)
    && s.drained + s.shared.spansQueued == Total(s.accepted)
    && s.reported + s.shared.spansDropped == s.refused
  }

  /** A wait for the shutdown times out exactly if its timeout is zero, and else
      ends well or as a poisoned mutex. */
  ghost predicate Answered(s: State) {
    && |s.impatient| == |s.waiters|
    && (forall j :: 0 <= j < |s.waiters| && s.impatient[j] ==>
          s.waiters[j].Out? || s.waiters[j] == Returned(Err(TimedOut)))
    && (forall j :: 0 <= j < |s.waiters| && !s.impatient[j] && s.waiters[j].Returned? ==>
          s.waiters[j].result == Ok || s.waiters[j].result == Err(MutexPoisoned))
  }

  ghost predicate Good(limits: Limits, s: State) {
    Exclusive(s) && NoLostWakeup(s) && Accounted(limits, s) && Answered(s)
  }

  lemma StepKeepsAnswers(limits: Limits, s: State, step: Step)
    requires Answered(s) && Next(limits, s, step).Some?
    ensures Answered(Next(limits, s, step).value)
  {
    hide Sent, Look, TakeOnTimeout, AcceptedBy;
  }

  lemma SenderKeepsExclusive(limits: Limits, s: State, i: nat, step: Step)
    requires i < |s.senders| && Exclusive(s) && SenderStep(limits, s, i, step).Some?
    ensures Exclusive(SenderStep(limits, s, i, step).value)
  {
  }

  lemma WorkerKeepsExclusive(s: State, step: Step)
    requires Exclusive(s) && WorkerStep(s, step).Some?
    ensures Exclusive(WorkerStep(s, step).value)
  {
  }

  lemma WaiterKeepsExclusive(s: State, j: nat, step: Step)
    requires j < |s.waiters| && j < |s.impatient| && Exclusive(s) && WaiterStep(s, j, step).Some?
    ensures Exclusive(WaiterStep(s, j, step).value)
  {
  }

  lemma SenderKeepsWakeups(limits: Limits, s: State, i: nat, step: Step)
    requires i < |s.senders| && NoLostWakeup(s) && Consistent(limits, s.shared)
    requires SenderStep(limits, s, i, step).Some?
    ensures NoLostWakeup(SenderStep(limits, s, i, step).value)
  {
    hide Sent, HasWork, Notifies, AcceptedBy, Consistent;
    var after := SenderStep(limits, s, i, step).value;
    if step.SenderWrites? {
      SentKeepsConsistent(limits, s.shared, s.senders[i].op);
    }
    if !step.SenderNotifies? && after.worker.Asleep? && HasWork(after.shared) {
      if HasWork(s.shared) {
        var k :| 0 <= k < |s.senders| && WillNotify(s.senders[k]);
        assert WillNotify(after.senders[k]);
      } else {
        assert WillNotify(after.senders[i]);
      }
    }
  }

  lemma WorkerKeepsWakeups(s: State, step: Step)
    requires Exclusive(s) && NoLostWakeup(s) && WorkerStep(s, step).Some?
    ensures NoLostWakeup(WorkerStep(s, step).value)
  {
    var after := WorkerStep(s, step).value;
    assert after.senders == s.senders;
  }

  lemma WaiterKeepsWakeups(s: State, j: nat, step: Step)
    requires j < |s.waiters| && j < |s.impatient| && Exclusive(s) && NoLostWakeup(s) && WaiterStep(s, j, step).Some?
    ensures NoLostWakeup(WaiterStep(s, j, step).value)
  {
    var after := WaiterStep(s, j, step).value;
    assert after.senders == s.senders && after.shared == s.shared && after.worker == s.worker;
  }

  lemma Regroup(a: seq<Chunk>, b: seq<Chunk>, c: seq<Chunk>)
    ensures (a + b) + c == a + (b + c)
  {
  }

  lemma SameLeft(s: State, t: State)
    requires s.left == t.left
    ensures LeftBehind(s) == LeftBehind(t)
  {
  }

  lemma WritingIsAccounted(limits: Limits, s: State, i: nat)
    requires i < |s.senders| && Accounted(limits, s) && s.senders[i].Entered?
    ensures Accounted(limits, SenderStep(limits, s, i, SenderWrites(i)).value)
  {
    hide Sent, AcceptedBy, Notifies, Consistent, Concat, Total, LeftBehind;
    var op := s.senders[i].op;
    var added := AcceptedBy(limits, s.shared, op);
    var after := SenderStep(limits, s, i, SenderWrites(i)).value;
    SentKeepsConsistent(limits, s.shared, op);
    Regroup(Concat(s.batches), s.shared.chunks, added);
    Regroup(LeftBehind(s), s.late, added);
    TotalConcat(s.accepted, added);
    SameLeft(s, after);
  }

  lemma ReturningIsAccounted(limits: Limits, s: State, r: Receipt)
    requires Accounted(limits, s) && !IsEnding(s.worker)
    requires (HasWork(s.shared) && r == Look(s.shared)) || r == TakeOnTimeout(s.shared)
    ensures Accounted(limits, Return(s, r))
  {
    hide HasWork, Look, TakeOnTimeout, Consistent, Concat, Total;
    ReceiptKeepsConsistent(limits, s.shared, r);
    ConcatAppend(s.batches, r.batch);
    Regroup(Concat(s.batches), r.batch, r.after.chunks);
    assert r.message.Shutdown? ==> r.after.chunks == [] == [] + [];
  }

  lemma ConcatAppend(batches: seq<seq<Chunk>>, batch: seq<Chunk>)
    ensures Concat(batches + [batch]) == Concat(batches) + batch
  {
    assert (batches + [batch])[..|batches|] == batches;
  }

  /** Steps that touch neither the batch nor the history. */
  ghost predicate Quiet(s: State, after: State) {
    && after.shared.chunks == s.shared.chunks && after.shared.spanCount == s.shared.spanCount
    && after.shared.flushNeeded == s.shared.flushNeeded
    && after.accepted == s.accepted && after.batches == s.batches && after.late == s.late && after.left == s.left
    && after.drained + after.shared.spansQueued == s.drained + s.shared.spansQueued
    && after.reported + after.shared.spansDropped == s.reported + s.shared.spansDropped && after.refused == s.refused
    && IsEnding(after.worker) == IsEnding(s.worker)
  }

  lemma QuietIsAccounted(limits: Limits, s: State, after: State)
    requires Accounted(limits, s) && Quiet(s, after)
    ensures Accounted(limits, after)
  {
  }

  lemma OtherStepsAreQuiet(limits: Limits, s: State, step: Step)
    requires Next(limits, s, step).Some?
    requires !step.SenderWrites? && !step.WorkerDies? && (step.WorkerReenters? ==> s.worker == Woken(false))
    requires step.WorkerLooks? ==> !HasWork(s.shared) && !step.deadlinePassed
    ensures Quiet(s, Next(limits, s, step).value)
  {
  }

  lemma StepKeepsAccounts(limits: Limits, s: State, step: Step)
    requires Accounted(limits, s) && Next(limits, s, step).Some?
    ensures Accounted(limits, Next(limits, s, step).value)
  {
    hide Look, TakeOnTimeout, Sent, Consistent, Concat, Total;
    if step.SenderWrites? {
      WritingIsAccounted(limits, s, step.i);
    } else if step.WorkerDies? {
      assert s.shared.chunks + [] == s.shared.chunks;
    } else if step.WorkerLooks? && HasWork(s.shared) {
      ReturningIsAccounted(limits, s, Look(s.shared));
    } else if (step.WorkerLooks? && step.deadlinePassed) || (step.WorkerReenters? && s.worker.timedOut) {
      ReturningIsAccounted(limits, s, TakeOnTimeout(s.shared));
    } else {
      OtherStepsAreQuiet(limits, s, step);
      QuietIsAccounted(limits, s, Next(limits, s, step).value);
    }
  }

  lemma StepKeepsGood(limits: Limits, s: State, step: Step)
    requires Good(limits, s) && Next(limits, s, step).Some?
    ensures Good(limits, Next(limits, s, step).value)
  {
    StepKeepsAccounts(limits, s, step);
    StepKeepsAnswers(limits, s, step);
    if step.SenderEnters? || step.SenderWrites? || step.SenderReleases? || step.SenderNotifies? {
      SenderKeepsExclusive(limits, s, step.i, step);
      SenderKeepsWakeups(limits, s, step.i, step);
    } else if step.WaiterEnters? || step.WaiterLooks? || step.WaiterWakes? || step.WaiterReenters? {
      WaiterKeepsExclusive(s, step.j, step);
      WaiterKeepsWakeups(s, step.j, step);
    } else if step != MetricsDrained {
      WorkerKeepsExclusive(s, step);
      WorkerKeepsWakeups(s, step);
    }
  }

  ghost predicate Reachable(limits: Limits, s: State) {
    exists senders: nat, impatient: seq<bool>, steps: seq<Step> ::
      Run(limits, Start(senders, impatient), steps) == Some(s)
  }

  lemma {:induction false} RunIsGood(limits: Limits, senders: nat, impatient: seq<bool>, steps: seq<Step>)
    ensures var s := Run(limits, Start(senders, impatient), steps); s.Some? ==> Good(limits, s.value)
    decreases |steps|
  {
    if steps != [] {
      RunIsGood(limits, senders, impatient, steps[..|steps| - 1]);
      var before := Run(limits, Start(senders, impatient), steps[..|steps| - 1]);
      if before.Some? && Next(limits, before.value, steps[|steps| - 1]).Some? {
        StepKeepsGood(limits, before.value, steps[|steps| - 1]);
      }
    }
  }

  // ----- What holds in every reachable state -----

  /** No wakeup is lost, for any number of threads, with timeouts and spurious
      wakeups anywhere: a worker sleeping on work implies a sender about to
      notify, and a waiter sleeping on the end a worker about to notify. */
  lemma NoWakeupIsLost(limits: Limits, s: State)
    requires Reachable(limits, s)
    ensures NoLostWakeup(s)
  {
    var senders: nat, impatient: seq<bool>, steps: seq<Step> :| Run(limits, Start(senders, impatient), steps) == Some(s);
    RunIsGood(limits, senders, impatient, steps);
  }

  /** So when no sender is inside an operation, a sleeping worker has nothing to
      do, and the buffer is not above the flush trigger. */
  lemma SleepingWorkerIsIdle(limits: Limits, s: State)
    requires Reachable(limits, s) && s.worker.Asleep?
    requires forall i :: 0 <= i < |s.senders| ==> s.senders[i].Ready?
    ensures !HasWork(s.shared) && s.shared.spanCount <= limits.flushTrigger
  {
    var senders: nat, impatient: seq<bool>, steps: seq<Step> :| Run(limits, Start(senders, impatient), steps) == Some(s);
    RunIsGood(limits, senders, impatient, steps);
  }

  /** Chunks are exported in the order the mutex admitted them, each once: all
      accepted chunks are the returned batches followed by the buffer. The span
      count is exact, all but the last buffered chunk fit the maximum, a count
      above the trigger has a flush pending, and the queue metrics, drained or
      not, count exactly the accepted and the refused spans. */
  lemma ChunksInOrder(limits: Limits, s: State)
    requires Reachable(limits, s)
    ensures s.accepted == Concat(s.batches) + s.shared.chunks
    ensures Consistent(limits, s.shared)
    ensures s.drained + s.shared.spansQueued == Total(Concat(s.batches)) + s.shared.spanCount
    ensures s.reported + s.shared.spansDropped == s.refused
  {
    var senders: nat, impatient: seq<bool>, steps: seq<Step> :| Run(limits, Start(senders, impatient), steps) == Some(s);
    RunIsGood(limits, senders, impatient, steps);
    TotalConcat(Concat(s.batches), s.shared.chunks);
  }

  /** Once the worker is ending, what was not exported is what it left behind and
      what was accepted since, in this order. So after a Shutdown message
      everything has been exported exactly if nothing was accepted later; after a
      death the batch must have been empty as well. */
  lemma ExportedAtShutdown(limits: Limits, s: State)
    requires Reachable(limits, s) && IsEnding(s.worker)
    ensures s.accepted == Concat(s.batches) + LeftBehind(s) + s.late
    ensures s.accepted == Concat(s.batches) <==> LeftBehind(s) == [] && s.late == []
  {
    var senders: nat, impatient: seq<bool>, steps: seq<Step> :| Run(limits, Start(senders, impatient), steps) == Some(s);
    RunIsGood(limits, senders, impatient, steps);
    hide Exclusive, NoLostWakeup, Answered, Concat, Total, Consistent, LeftBehind, Run;
    Regroup(Concat(s.batches), LeftBehind(s), s.late);
    assert |s.accepted| == |Concat(s.batches)| + |LeftBehind(s)| + |s.late|;
  }

  lemma {:induction false} RunThrough(limits: Limits, states: seq<State>, steps: seq<Step>)
    requires |states| == |steps| + 1
    requires forall k :: 0 <= k < |steps| ==> Next(limits, states[k], steps[k]) == Some(states[k + 1])
    ensures Run(limits, states[0], steps) == Some(states[|steps|])
    decreases |steps|
  {
    if steps != [] {
      var n := |steps| - 1;
      RunThrough(limits, states[..n + 1], steps[..n]);
    }
  }

  lemma {:induction false} RunOn(limits: Limits, start: State, first: seq<Step>, second: seq<Step>)
    requires Run(limits, start, first).Some?
    ensures Run(limits, start, first + second) == Run(limits, Run(limits, start, first).value, second)
    decreases |second|
  {
    if second == [] {
      assert first + second == first;
    } else {
      assert (first + second)[..|first + second| - 1] == first + second[..|second| - 1];
      RunOn(limits, start, first, second[..|second| - 1]);
    }
  }

  function Fresh(waiters: seq<WaiterPc>): State {
    State(Free, INITIAL, [Ready], Outside, waiters, seq(|waiters|, j => false), [], [], None, [], 0, 0, 0)
  }

  /** One sender has triggered the shutdown and the worker has taken the message. */
  function Taken(waiters: seq<WaiterPc>): State {
    State(Free, INITIAL.(shutdownNeeded := true), [Ready], Ending, waiters, seq(|waiters|, j => false),
          [], [[]], None, [], 0, 0, 0)
  }

  lemma ShutdownIsTaken(limits: Limits, waiters: seq<WaiterPc>) returns (steps: seq<Step>)
    requires forall j :: 0 <= j < |waiters| ==> !waiters[j].Dozing?
    ensures Run(limits, Fresh(waiters), steps) == Some(Taken(waiters))
  {
    var s0 := Fresh(waiters);
    var s1 := s0.(owner := SenderOwns(0), senders := [Entered(TriggerShutdown)]);
    var s2 := s1.(shared := INITIAL.(shutdownNeeded := true), senders := [Written(true)]);
    var s3 := s2.(owner := Free, senders := [Released]);
    var s4 := s3.(senders := [Ready]);
    var s5 := s4.(owner := WorkerOwns, worker := Looking);
    var s6 := Taken(waiters);
    steps := [SenderEnters(0, TriggerShutdown), SenderWrites(0), SenderReleases(0), SenderNotifies(0),
              WorkerEnters, WorkerLooks(false)];
    RollNobody(waiters);
    assert s5.batches + [s5.shared.chunks] == s6.batches;
    assert Next(limits, s0, steps[0]) == Some(s1);
    assert s1.senders[0 := Written(true)] == s2.senders && s1.accepted + AcceptedBy(limits, s1.shared, TriggerShutdown) == [];
    assert Next(limits, s1, steps[1]) == Some(s2);
    assert Next(limits, s2, steps[2]) == Some(s3);
    assert Next(limits, s3, steps[3]) == Some(s4);
    assert Next(limits, s4, steps[4]) == Some(s5);
    assert Next(limits, s5, steps[5]) == Some(s6);
    RunThrough(limits, [s0, s1, s2, s3, s4, s5, s6], steps);
  }

  lemma RollNobody(waiters: seq<WaiterPc>)
    requires forall j :: 0 <= j < |waiters| ==> !waiters[j].Dozing?
    ensures RollAll(waiters) == waiters
    ensures forall a: SenderPc, b: SenderPc :: [a][0 := b] == [b]
  {
  }

  /** After a sender has added one span, before it notifies anybody. */
  function WithSpan(limits: Limits, s: State, span: Span): State {
    var op := AddChunk([span]);
    s.(shared := Sent(limits, s.shared, op),
       senders := [if Notifies(limits, s.shared, op) then Released else Ready],
       accepted := s.accepted + [[span]],
       late := if IsEnding(s.worker) then s.late + [[span]] else s.late)
  }

  lemma SpanGetsIn(limits: Limits, s: State, span: Span) returns (steps: seq<Step>)
    requires s.owner.Free? && s.senders == [Ready] && s.shared.spanCount == 0 && !s.shared.hasShutdown
    ensures Run(limits, s, steps) == Some(WithSpan(limits, s, span))
  {
    var op := AddChunk([span]);
    var s1 := s.(owner := SenderOwns(0), senders := [Entered(op)]);
    var s3 := WithSpan(limits, s, span);
    var s2 := s3.(owner := SenderOwns(0), senders := [Written(Notifies(limits, s.shared, op))]);
    steps := [SenderEnters(0, op), SenderWrites(0), SenderReleases(0)];
    RollNobody([]);
    assert AcceptedBy(limits, s.shared, op) == [[span]];
    assert Next(limits, s, steps[0]) == Some(s1);
    assert Next(limits, s1, steps[1]) == Some(s2);
    assert Next(limits, s2, steps[2]) == Some(s3);
    RunThrough(limits, [s, s1, s2, s3], steps);
  }

  lemma WorkerFinishes(limits: Limits, s: State) returns (steps: seq<Step>)
    requires s.owner.Free? && s.worker.Ending?
    requires forall j :: 0 <= j < |s.waiters| ==> !s.waiters[j].Dozing?
    ensures Run(limits, s, steps) == Some(s.(shared := s.shared.(hasShutdown := true), worker := Gone))
  {
    var s1 := s.(owner := WorkerOwns, worker := EndEntered);
    var s2 := s1.(shared := s1.shared.(hasShutdown := true), worker := EndWritten);
    var s3 := s2.(owner := Free, worker := EndReleased);
    var s4 := s3.(worker := Gone);
    steps := [WorkerEnters, WorkerEnds, WorkerEnds, WorkerEnds];
    RollNobody(s.waiters);
    assert Next(limits, s, steps[0]) == Some(s1);
    assert Next(limits, s1, steps[1]) == Some(s2);
    assert Next(limits, s2, steps[2]) == Some(s3);
    assert Next(limits, s3, steps[3]) == Some(s4);
    RunThrough(limits, [s, s1, s2, s3, s4], steps);
  }

  /** A chunk can come after the Shutdown message: it is accepted, the sender is
      told so, and it is never exported. */
  lemma LateChunkIsStranded(limits: Limits, span: Span) returns (steps: seq<Step>)
    ensures var s := Run(limits, Start(1, []), steps);
      && s.Some? && s.value.worker.Gone? && s.value.left == None
      && s.value.accepted == [[span]] && Concat(s.value.batches) == []
  {
    var first := ShutdownIsTaken(limits, []);
    var second := SpanGetsIn(limits, Taken([]), span);
    var third := WorkerFinishes(limits, WithSpan(limits, Taken([]), span));
    assert Start(1, []) == Fresh([]) by {
      assert Start(1, []).senders == [Ready] && Start(1, []).waiters == [];
    }
    RunOn(limits, Start(1, []), first, second);
    RunOn(limits, Start(1, []), first + second, third);
    steps := first + second + third;
    assert Taken([]).batches[..0] == [];
  }

  /** `wait_shutdown_done` succeeds only once the worker has marked the end; all
      that was accepted is then exported, except what a dying worker left behind
      and what came after it, or after the Shutdown message. It reports a timeout
      exactly for a timeout of zero. Any other result is a poisoned mutex, although
      no mutex is poisoned here. */
  lemma WaiterResults(limits: Limits, s: State, j: nat)
    requires Reachable(limits, s) && j < |s.waiters| && s.waiters[j].Returned?
    ensures var result := s.waiters[j].result;
      && |s.impatient| == |s.waiters|
      && (result == Ok || result == Err(TimedOut) || result == Err(MutexPoisoned))
      && (result == Err(TimedOut) <==> s.impatient[j])
      && (result == Ok ==>
            && (s.worker.EndWritten? || s.worker.EndReleased? || s.worker.Gone?)
            && s.accepted == Concat(s.batches) + LeftBehind(s) + s.late)
  {
    var senders: nat, impatient: seq<bool>, steps: seq<Step> :| Run(limits, Start(senders, impatient), steps) == Some(s);
    RunIsGood(limits, senders, impatient, steps);
    if s.waiters[j].result == Ok {
      ExportedAtShutdown(limits, s);
    }
  }

  lemma WorkerDiesNow(limits: Limits, s: State) returns (steps: seq<Step>)
    requires s.worker.Outside?
    ensures Run(limits, s, steps) == Some(s.(worker := Ending, left := Some(s.shared.chunks)))
  {
    steps := [WorkerDies];
    RunThrough(limits, [s, s.(worker := Ending, left := Some(s.shared.chunks))], steps);
  }

  lemma WaiterSeesEnd(limits: Limits, s: State) returns (steps: seq<Step>)
    requires s.owner.Free? && s.shared.hasShutdown && s.waiters == [Out] && s.impatient == [false]
    ensures Run(limits, s, steps) == Some(s.(waiters := [Returned(Ok)]))
  {
    var s1 := s.(owner := WaiterOwns(0), waiters := [Watching]);
    var s2 := s.(waiters := [Returned(Ok)]);
    steps := [WaiterEnters(0), WaiterLooks(0)];
    assert s.waiters[0 := Watching] == [Watching] && s1.waiters[0 := Returned(Ok)] == [Returned(Ok)];
    RunThrough(limits, [s, s1, s2], steps);
  }

  /** A worker that dies before it takes the Shutdown message strands what is
      buffered, and the wait for the shutdown succeeds all the same. */
  lemma DeathLooksLikeSuccess(limits: Limits, span: Span) returns (steps: seq<Step>)
    ensures var s := Run(limits, Start(1, [false]), steps);
      && s.Some? && s.value.waiters == [Returned(Ok)]
      && s.value.accepted == [[span]] && s.value.batches == [] && s.value.late == []
  {
    hide Next, Sent, Notifies;
    var s0 := Start(1, [false]);
    assert s0.senders == [Ready] && s0.waiters == [Out];
    var s1 := WithSpan(limits, s0, span);
    StillRunning(limits, s0, span);
    var s2 := s1.(worker := Ending, left := Some(s1.shared.chunks));
    var s3 := s2.(shared := s2.shared.(hasShutdown := true), worker := Gone);
    var p1 := SpanGetsIn(limits, s0, span);
    var p2 := WorkerDiesNow(limits, s1);
    var p3 := WorkerFinishes(limits, s2);
    var p4 := WaiterSeesEnd(limits, s3);
    RunOn(limits, s0, p1, p2);
    RunOn(limits, s0, p1 + p2, p3);
    RunOn(limits, s0, p1 + p2 + p3, p4);
    steps := p1 + p2 + p3 + p4;
  }

  lemma StillRunning(limits: Limits, s: State, span: Span)
    ensures var after := WithSpan(limits, s, span);
      after.owner == s.owner && after.worker == s.worker && after.waiters == s.waiters && after.impatient == s.impatient
  {
  }

  lemma WaitRunsOut(limits: Limits) returns (steps: seq<Step>)
    ensures Run(limits, Start(1, [false]), steps) == Some(Fresh([Roused(true)]))
  {
    var s0 := Fresh([Out]);
    var s1 := Fresh([Watching]).(owner := WaiterOwns(0));
    var s2, s3 := Fresh([Dozing]), Fresh([Roused(true)]);
    steps := [WaiterEnters(0), WaiterLooks(0), WaiterWakes(0, true)];
    assert Start(1, [false]) == s0 by {
      assert Start(1, [false]).senders == [Ready] && Start(1, [false]).waiters == [Out];
    }
    assert [Out][0 := Watching] == [Watching] && [Watching][0 := Dozing] == [Dozing];
    assert [Dozing][0 := Roused(true)] == [Roused(true)];
    assert Next(limits, s0, steps[0]) == Some(s1);
    assert Next(limits, s1, steps[1]) == Some(s2);
    assert Next(limits, s2, steps[2]) == Some(s3);
    RunThrough(limits, [s0, s1, s2, s3], steps);
  }

  lemma WaitReturns(limits: Limits, s: State) returns (steps: seq<Step>)
    requires s.owner.Free? && s.waiters == [Roused(true)] && s.impatient == [false]
    ensures Run(limits, s, steps) == Some(s.(waiters := [Returned(Err(MutexPoisoned))]))
  {
    var after := s.(waiters := [Returned(Err(MutexPoisoned))]);
    steps := [WaiterReenters(0)];
    assert s.waiters[0 := Returned(Err(MutexPoisoned))] == after.waiters;
    RunThrough(limits, [s, after], steps);
  }

  /** A wait that runs out while the worker finishes reports a poisoned mutex,
      although the shutdown is done by the time it returns. */
  lemma DoneButPoisoned(limits: Limits) returns (steps: seq<Step>)
    ensures var s := Run(limits, Start(1, [false]), steps);
      && s.Some? && s.value.shared.hasShutdown && s.value.worker.Gone?
      && s.value.waiters == [Returned(Err(MutexPoisoned))]
  {
    hide Next;
    var s2 := Taken([Roused(true)]);
    assert s2.impatient == [false];
    var p1 := WaitRunsOut(limits);
    var p2 := ShutdownIsTaken(limits, [Roused(true)]);
    var p3 := WorkerFinishes(limits, s2);
    var p4 := WaitReturns(limits, s2.(shared := s2.shared.(hasShutdown := true), worker := Gone));
    RunOn(limits, Start(1, [false]), p1, p2);
    RunOn(limits, Start(1, [false]), p1 + p2, p3);
    RunOn(limits, Start(1, [false]), p1 + p2 + p3, p4);
    steps := p1 + p2 + p3 + p4;
  }
}
