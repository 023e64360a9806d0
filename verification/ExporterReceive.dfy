/** The worker of the step system goes through `receive` the way the receive loop
    does, whatever other threads do in between. */
module ExporterReceive {
  import opened Options
  import opened ExporterModel
  import opened Exporter
  import P = ExporterProtocol

  predicate IsReceiving(s: P.State) {
    s.worker.Looking? || s.worker.Asleep? || s.worker.Woken?
  }

  /** After these waits the loop goes on from `t`. */
  ghost predicate GoesOn(limits: Limits, start: Shared, waits: seq<Wait>, t: Shared) {
    forall rest :: Received(limits, start, waits + rest) == Received(limits, t, rest)
  }

  function Flags(waits: seq<Wait>): seq<bool> {
    seq(|waits|, k requires 0 <= k < |waits| => waits[k].timedOut)
  }

  /** How the waits of the worker ended, in order. */
  function WakeUps(limits: Limits, s: P.State, steps: seq<P.Step>): seq<bool>
    decreases |steps|
  {
    if steps == [] then []
    else
      var init := steps[..|steps| - 1];
      WakeUps(limits, s, init) + WakeUp(P.Run(limits, s, init), steps[|steps| - 1])
  }

  function WakeUp(before: Option<P.State>, step: P.Step): seq<bool> {
    if before.Some? && step.WorkerReenters? && before.value.worker.Woken? then [before.value.worker.timedOut] else []
  }

  /** Where the worker is: at the head of the loop, or in a wait in which senders
      had these critical sections so far. */
  ghost predicate Follows(limits: Limits, start: Shared, s: P.State, waits: seq<Wait>, t: Shared, ops: seq<SenderOp>) {
    && GoesOn(limits, start, waits, t)
    && (s.worker.Looking? ==> s.shared == t)
    && (s.worker.Asleep? || s.worker.Woken? ==> !HasWork(t) && s.shared == SentAll(limits, t, ops))
  }

  lemma GoesOnFromStart(limits: Limits, start: Shared)
    ensures GoesOn(limits, start, [], start)
  {
    forall rest ensures Received(limits, start, [] + rest) == Received(limits, start, rest) {
      assert [] + rest == rest;
    }
  }

  lemma GoesOnBehindWait(limits: Limits, start: Shared, waits: seq<Wait>, t: Shared, ops: seq<SenderOp>)
    requires GoesOn(limits, start, waits, t) && !HasWork(t)
    ensures GoesOn(limits, start, waits + [Wait(ops, false)], SentAll(limits, t, ops))
  {
    hide HasWork, Look, TakeOnTimeout, SentAll;
    var wait := Wait(ops, false);
    forall rest ensures Received(limits, start, waits + [wait] + rest) == Received(limits, SentAll(limits, t, ops), rest) {
      assert waits + [wait] + rest == waits + ([wait] + rest);
      assert Received(limits, start, waits + ([wait] + rest)) == Received(limits, t, [wait] + rest);
      assert ([wait] + rest)[1..] == rest;
    }
  }

  lemma OneMoreSent(limits: Limits, t: Shared, ops: seq<SenderOp>, op: SenderOp)
    ensures SentAll(limits, t, ops + [op]) == Sent(limits, SentAll(limits, t, ops), op)
  {
    assert (ops + [op])[..|ops|] == ops;
  }

  lemma NothingSent(limits: Limits, t: Shared)
    ensures SentAll(limits, t, []) == t
  {
  }

  lemma OneMoreFlag(waits: seq<Wait>, wait: Wait)
    ensures Flags([]) == [] && Flags(waits + [wait]) == Flags(waits) + [wait.timedOut]
  {
  }

  /** A step in which the worker stays inside `receive`. */
  lemma StepFollows(limits: Limits, start: Shared, s: P.State, step: P.Step,
                    waits: seq<Wait>, t: Shared, ops: seq<SenderOp>)
    returns (waits': seq<Wait>, t': Shared, ops': seq<SenderOp>)
    requires P.Exclusive(s) && P.Next(limits, s, step).Some? && step != P.MetricsDrained
    requires IsReceiving(s) && IsReceiving(P.Next(limits, s, step).value)
    requires Follows(limits, start, s, waits, t, ops)
    ensures Follows(limits, start, P.Next(limits, s, step).value, waits', t', ops')
    ensures Flags(waits') == Flags(waits) + WakeUp(Some(s), step)
  {
    hide GoesOn, HasWork, Sent, SentAll, Look, TakeOnTimeout, Notifies, AcceptedBy, Flags;
    assert Flags(waits) + [] == Flags(waits);
    waits', t', ops' := waits, t, ops;
    if step.SenderWrites? {
      ops' := ops + [s.senders[step.i].op];
      OneMoreSent(limits, t, ops, s.senders[step.i].op);
    } else if step.WorkerLooks? {
      ops' := [];
      NothingSent(limits, t);
    } else if step.WorkerReenters? {
      waits', t' := waits + [Wait(ops, false)], SentAll(limits, t, ops);
      GoesOnBehindWait(limits, start, waits, t, ops);
      OneMoreFlag(waits, Wait(ops, false));
    }
  }

  /** The step in which the worker returns. */
  lemma ReturnFollows(limits: Limits, start: Shared, s: P.State, step: P.Step,
                      waits: seq<Wait>, t: Shared, ops: seq<SenderOp>)
    returns (all: seq<Wait>)
    requires P.Next(limits, s, step).Some? && IsReceiving(s) && !IsReceiving(P.Next(limits, s, step).value)
    requires Follows(limits, start, s, waits, t, ops)
    ensures P.Next(limits, s, step) == Some(P.Return(s, Received(limits, start, all)))
    ensures Flags(all) == Flags(waits) + WakeUp(Some(s), step)
  {
    hide HasWork, Sent, SentAll, Look, TakeOnTimeout, Notifies, AcceptedBy, P.Return, Flags;
    assert Flags(waits) + [] == Flags(waits);
    if step.WorkerLooks? {
      all := waits;
      assert waits + [] == waits;
      assert Received(limits, start, waits + []) == Received(limits, t, []);
    } else {
      var wait := Wait(ops, true);
      all := waits + [wait];
      assert Received(limits, start, waits + [wait]) == Received(limits, t, [wait]);
      assert [wait][0] == wait;
      OneMoreFlag(waits, wait);
    }
  }

  /** The worker is inside `receive` along the whole run. */
  ghost predicate Receiving(limits: Limits, s: P.State, steps: seq<P.Step>)
    decreases |steps|
  {
    && P.Run(limits, s, steps).Some? && IsReceiving(P.Run(limits, s, steps).value)
    && (steps != [] ==>
          && steps[|steps| - 1] != P.MetricsDrained
          && Receiving(limits, s, steps[..|steps| - 1]))
  }

  lemma {:induction false} RunFollows(limits: Limits, s: P.State, steps: seq<P.Step>)
    returns (waits: seq<Wait>, t: Shared, ops: seq<SenderOp>)
    requires P.Good(limits, s) && s.worker.Looking? && Receiving(limits, s, steps)
    ensures P.Good(limits, P.Run(limits, s, steps).value)
    ensures Follows(limits, s.shared, P.Run(limits, s, steps).value, waits, t, ops)
    ensures Flags(waits) == WakeUps(limits, s, steps)
    decreases |steps|
  {
    hide GoesOn, WakeUp, Flags, P.Next, P.Accounted, P.NoLostWakeup, P.Answered, HasWork, SentAll;
    if steps == [] {
      waits, t, ops := [], s.shared, [];
      GoesOnFromStart(limits, s.shared);
      OneMoreFlag([], Wait([], true));
    } else {
      var init, step := steps[..|steps| - 1], steps[|steps| - 1];
      waits, t, ops := RunFollows(limits, s, init);
      var before := P.Run(limits, s, init).value;
      P.StepKeepsGood(limits, before, step);
      waits, t, ops := StepFollows(limits, s.shared, before, step, waits, t, ops);
    }
  }

  /** From the moment the worker has entered `receive` until it returns, with any
      steps of senders and waiters in between, it returns what the receive loop
      returns when its waits end as the worker's did: the same message, batch and
      shared state. */
  lemma WorkerReceives(limits: Limits, s: P.State, steps: seq<P.Step>, last: P.Step) returns (waits: seq<Wait>)
    requires P.Reachable(limits, s) && s.worker.Looking? && Receiving(limits, s, steps)
    requires var next := P.Next(limits, P.Run(limits, s, steps).value, last);
      next.Some? && !IsReceiving(next.value)
    ensures var before, r := P.Run(limits, s, steps).value, Received(limits, s.shared, waits);
      var after := P.Next(limits, before, last).value;
      && after.shared == r.after && after.batches == before.batches + [r.batch]
      && after.worker == (if r.message.Shutdown? then P.Ending else P.Outside)
      && Flags(waits) == WakeUps(limits, s, steps) + WakeUp(Some(before), last)
  {
    hide P.Next, P.Run, Received, Follows, Flags, WakeUp, Receiving, P.Good, IsReceiving;
    var senders: nat, impatient: seq<bool>, earlier: seq<P.Step> :|
      P.Run(limits, P.Start(senders, impatient), earlier) == Some(s);
    P.RunIsGood(limits, senders, impatient, earlier);
    var w, t, ops := RunFollows(limits, s, steps);
    StillReceiving(limits, s, steps);
    waits := ReturnFollows(limits, s.shared, P.Run(limits, s, steps).value, last, w, t, ops);
  }

  lemma StillReceiving(limits: Limits, s: P.State, steps: seq<P.Step>)
    requires Receiving(limits, s, steps)
    ensures P.Run(limits, s, steps).Some? && IsReceiving(P.Run(limits, s, steps).value)
  {
  }
}
