/** What each registry operation does to the entry of one trace, and what holds
    over whole runs of operations. */
module RegistryModel {
  import opened Numbers
  import opened Options
  import opened Sampling

  type TraceId = U128
  type SpanId = U64
  const NO_SPAN: SpanId := 0

  // `data` stands for everything in a finished span but its id.
  datatype Span = Span(id: SpanId, data: int)

  datatype PropagationData = PropagationData(
    decision: SamplingDecision, origin: Option<string>, tags: Option<map<string, string>>)

  const EMPTY_PROPAGATION_DATA := PropagationData(SamplingDecision(None, None), None, None)

  datatype Trace = Trace(root: SpanId, finished: seq<Span>, open: nat, data: PropagationData)

  datatype Config = Config(partialFlush: bool, minSpans: nat)

  datatype Metrics = Metrics(
    spansCreated: nat, spansFinished: nat,
    segmentsCreated: nat, segmentsClosed: nat, partialFlushes: nat)
  {
    function Plus(m: Metrics): Metrics {
      Metrics(spansCreated + m.spansCreated, spansFinished + m.spansFinished,
              segmentsCreated + m.segmentsCreated, segmentsClosed + m.segmentsClosed,
              partialFlushes + m.partialFlushes)
    }
  }

  const NO_METRICS := Metrics(0, 0, 0, 0, 0)

  // The entry of a trace, if it has one.
  type Slot = Option<Trace>

  datatype Op =
    | RegisterData(data: PropagationData)
    | RegisterRoot(rootId: SpanId)
    | RegisterSpan(spanId: SpanId, data: PropagationData)
    | Finish(span: Span)

  // ----- One operation -----

  function DataRegistered(slot: Slot, data: PropagationData): Slot {
    match slot
    case Some(trace) => if trace.data.decision.priority.Some? then slot else Some(trace.(data := data))
    case None => Some(Trace(NO_SPAN, [], 1, data))
  }

  function RootRegistered(slot: Slot, rootId: SpanId): Slot {
    var trace := if slot.Some? then slot.value else Trace(NO_SPAN, [], 1, EMPTY_PROPAGATION_DATA);
    Some(if trace.root == NO_SPAN then trace.(root := rootId) else trace)
  }

  function SpanRegistered(slot: Slot, spanId: SpanId, data: PropagationData): Slot {
    var trace := if slot.Some? then slot.value else Trace(spanId, [], 0, data);
    Some(trace.(open := trace.open + 1))
  }

  /** The finished spans after one more: a finishing local root takes the first
      place and the span it displaces goes last. */
  function Pushed(trace: Trace, span: Span): seq<Span> {
    if trace.finished != [] && span.id == trace.root
    then trace.finished[0 := span] + [trace.finished[0]]
    else trace.finished + [span]
  }

  function Closed(trace: Trace, span: Span): Trace {
    trace.(finished := Pushed(trace, span), open := if trace.open == 0 then 0 else trace.open - 1)
  }

  predicate FlushesEarly(cfg: Config, trace: Trace) {
    cfg.partialFlush && |trace.finished| >= cfg.minSpans
  }

  /** The entry and the returned chunk after a span finishes. */
  function Finished(cfg: Config, slot: Slot, span: Span): (Slot, Option<Trace>) {
    match slot
    case Some(trace) =>
      var closed := Closed(trace, span);
      if FlushesEarly(cfg, closed) then (Some(closed.(finished := [])), Some(closed))
      else if closed.open == 0 then (None, Some(closed))
      else (Some(closed), None)
    case None => (None, Some(Trace(span.id, [span], 0, EMPTY_PROPAGATION_DATA)))
  }

  function Next(cfg: Config, slot: Slot, op: Op): Slot {
    match op
    case RegisterData(data) => DataRegistered(slot, data)
    case RegisterRoot(rootId) => RootRegistered(slot, rootId)
    case RegisterSpan(spanId, data) => SpanRegistered(slot, spanId, data)
    case Finish(span) => Finished(cfg, slot, span).0
  }

  function Returned(cfg: Config, slot: Slot, op: Op): Option<Trace> {
    match op
    case Finish(span) => Finished(cfg, slot, span).1
    case _ => None
  }

  /** What an operation adds to the metrics. */
  function Counted(cfg: Config, slot: Slot, op: Op): Metrics {
    match op
    case RegisterData(_) => if slot.None? then Metrics(1, 0, 1, 0, 0) else NO_METRICS
    case RegisterRoot(_) => NO_METRICS
    case RegisterSpan(_, _) => Metrics(1, 0, if slot.None? then 1 else 0, 0, 0)
    case Finish(span) =>
      match slot
      case None => Metrics(0, 1, 1, 1, 0)
      case Some(trace) =>
        var closed := Closed(trace, span);
        if FlushesEarly(cfg, closed) then Metrics(0, 1, 0, 0, 1)
        else if closed.open == 0 then Metrics(0, 1, 0, 1, 0)
        else Metrics(0, 1, 0, 0, 0)
  }

  // ----- Runs on one trace -----

  function Run(cfg: Config, slot: Slot, ops: seq<Op>): Slot
    decreases |ops|
  {
    if ops == [] then slot
    else Next(cfg, Run(cfg, slot, ops[..|ops| - 1]), ops[|ops| - 1])
  }

  function SpanOf(op: Op): multiset<Span> {
    if op.Finish? then multiset{op.span} else multiset{}
  }

  /** The spans passed to `finish_span`, and those in the chunks it returned. */
  function SpansIn(ops: seq<Op>): multiset<Span>
    decreases |ops|
  {
    if ops == [] then multiset{} else SpansIn(ops[..|ops| - 1]) + SpanOf(ops[|ops| - 1])
  }

  function SpansOut(cfg: Config, slot: Slot, ops: seq<Op>): multiset<Span>
    decreases |ops|
  {
    if ops == [] then multiset{}
    else
      var init, op := ops[..|ops| - 1], ops[|ops| - 1];
      var chunk := Returned(cfg, Run(cfg, slot, init), op);
      SpansOut(cfg, slot, init) + Held(chunk)
  }

  function Held(slot: Slot): multiset<Span> {
    if slot.Some? then multiset(slot.value.finished) else multiset{}
  }

  lemma PushedMultiset(trace: Trace, span: Span)
    ensures multiset(Pushed(trace, span)) == multiset(trace.finished) + multiset{span}
  {
    var f := trace.finished;
    if f != [] && span.id == trace.root {
      assert f == [f[0]] + f[1..];
      assert f[0 := span] == [span] + f[1..];
    }
  }

  lemma StepConserved(cfg: Config, slot: Slot, op: Op)
    ensures Held(slot) + SpanOf(op) == Held(Returned(cfg, slot, op)) + Held(Next(cfg, slot, op))
  {
    hide Pushed;
    if op.Finish? {
      FinishConserved(cfg, slot, op.span);
    } else {
      assert Held(Next(cfg, slot, op)) == Held(slot);
    }
  }

  lemma FinishConserved(cfg: Config, slot: Slot, span: Span)
    ensures Held(slot) + multiset{span} == Held(Finished(cfg, slot, span).1) + Held(Finished(cfg, slot, span).0)
  {
    hide Pushed;
    if slot.Some? {
      PushedMultiset(slot.value, span);
      assert Held(Some(Closed(slot.value, span))) == Held(slot) + multiset{span};
    }
  }

  lemma Chain(start: multiset<Span>, come: multiset<Span>, gone: multiset<Span>, mid: multiset<Span>,
              comes: multiset<Span>, goes: multiset<Span>, end: multiset<Span>)
    requires start + come == gone + mid && mid + comes == goes + end
    ensures start + (come + comes) == (gone + goes) + end
  {
    calc {
      start + (come + comes);
      (start + come) + comes;
      gone + (mid + comes);
      (gone + goes) + end;
    }
  }

  /** Conservation: through root swaps, partial flushes and orphan spans, every
      span that finished has been returned exactly once or is still held. */
  lemma {:induction false} SpansConserved(cfg: Config, slot: Slot, ops: seq<Op>)
    ensures Held(slot) + SpansIn(ops) == SpansOut(cfg, slot, ops) + Held(Run(cfg, slot, ops))
    decreases |ops|
  {
    if ops != [] {
      var init, op := ops[..|ops| - 1], ops[|ops| - 1];
      var before := Run(cfg, slot, init);
      SpansConserved(cfg, slot, init);
      StepConserved(cfg, before, op);
      Chain(Held(slot), SpansIn(init), SpansOut(cfg, slot, init), Held(before),
            SpanOf(op),
            Held(Returned(cfg, before, op)), Held(Next(cfg, before, op)));
    }
  }

  // ----- The local root comes first -----

  ghost predicate RootFirst(trace: Trace) {
    (exists i :: 0 <= i < |trace.finished| && trace.finished[i].id == trace.root) ==>
      trace.finished[0].id == trace.root
  }

  ghost predicate SlotRootFirst(slot: Slot) {
    slot.Some? ==> RootFirst(slot.value)
  }

  /** A root id that is announced only after its span finished behind another one. */
  ghost predicate LateRoot(slot: Slot, op: Op) {
    && op.RegisterRoot? && slot.Some? && slot.value.root == NO_SPAN
    && var finished := slot.value.finished;
    && finished != [] && finished[0].id != op.rootId
    && exists i :: 1 <= i < |finished| && finished[i].id == op.rootId
  }

  ghost predicate NoLateRoot(cfg: Config, slot: Slot, ops: seq<Op>)
    decreases |ops|
  {
    ops != [] ==>
      var init, op := ops[..|ops| - 1], ops[|ops| - 1];
      NoLateRoot(cfg, slot, init) && !LateRoot(Run(cfg, slot, init), op)
  }

  /** Along the whole run, every held list and every returned chunk that
      contains the local root has it first. */
  ghost predicate AlwaysRootFirst(cfg: Config, slot: Slot, ops: seq<Op>)
    decreases |ops|
  {
    && SlotRootFirst(Run(cfg, slot, ops))
    && (ops != [] ==>
      var init, op := ops[..|ops| - 1], ops[|ops| - 1];
      && AlwaysRootFirst(cfg, slot, init)
      && SlotRootFirst(Returned(cfg, Run(cfg, slot, init), op)))
  }

  lemma StepRootFirst(cfg: Config, slot: Slot, op: Op)
    requires SlotRootFirst(slot)
    ensures SlotRootFirst(Returned(cfg, slot, op))
    ensures SlotRootFirst(Next(cfg, slot, op)) <==> !LateRoot(slot, op)
  {
    if op.Finish? && slot.Some? {
      var trace := slot.value;
      var closed := Closed(trace, op.span);
      assert RootFirst(closed) by {
        if i :| 0 <= i < |closed.finished| && closed.finished[i].id == closed.root {
          if trace.finished != [] && op.span.id != trace.root {
            assert i < |trace.finished|;
            assert trace.finished[i].id == trace.root;
          }
        }
      }
    }
  }

  /** In a run that starts without an entry the local root always comes first if
      and only if no root id is announced after its span finished behind another. */
  lemma {:induction false} RootFirstExactly(cfg: Config, ops: seq<Op>)
    ensures AlwaysRootFirst(cfg, None, ops) <==> NoLateRoot(cfg, None, ops)
    decreases |ops|
  {
    if ops != [] {
      var init, op := ops[..|ops| - 1], ops[|ops| - 1];
      RootFirstExactly(cfg, init);
      if NoLateRoot(cfg, None, init) {
        StepRootFirst(cfg, Run(cfg, None, init), op);
      }
    }
  }

  /** In particular when every root id is announced before a span with that id
      finishes. */
  ghost predicate AnnouncedInTime(ops: seq<Op>) {
    forall i, j :: 0 <= i < j < |ops| && ops[i].Finish? && ops[j].RegisterRoot? ==>
      ops[i].span.id != ops[j].rootId
  }

  lemma {:induction false} HeldSpansFinished(cfg: Config, ops: seq<Op>)
    ensures var slot := Run(cfg, None, ops);
      slot.Some? ==> forall s :: s in slot.value.finished ==> Finish(s) in ops
    decreases |ops|
  {
    if ops != [] {
      var init, op := ops[..|ops| - 1], ops[|ops| - 1];
      HeldSpansFinished(cfg, init);
      assert op in ops && forall o :: o in init ==> o in ops;
      var before := Run(cfg, None, init);
      if op.Finish? && before.Some? {
        assert forall s :: s in Pushed(before.value, op.span) ==> s in before.value.finished || s == op.span;
      }
    }
  }

  lemma {:induction false} AnnouncedInTimeIsEnough(cfg: Config, ops: seq<Op>)
    requires AnnouncedInTime(ops)
    ensures AlwaysRootFirst(cfg, None, ops)
    decreases |ops|
  {
    if ops != [] {
      var init, op := ops[..|ops| - 1], ops[|ops| - 1];
      assert AnnouncedInTime(init) by {
        forall i, j | 0 <= i < j < |init| && init[i].Finish? && init[j].RegisterRoot?
          ensures init[i].span.id != init[j].rootId {
          assert ops[i] == init[i] && ops[j] == init[j];
        }
      }
      AnnouncedInTimeIsEnough(cfg, init);
      var before := Run(cfg, None, init);
      HeldSpansFinished(cfg, init);
      if op.RegisterRoot? && before.Some? {
        forall s | s in before.value.finished ensures s.id != op.rootId {
          assert Finish(s) in init;
        }
      }
      StepRootFirst(cfg, before, op);
    }
  }

  /** Announcing the root late does break the order: the chunk below holds the
      local root 2 behind span 1. */
  lemma LateRootExample(cfg: Config, a: Span, b: Span, c: Span)
    requires cfg == Config(false, 0) && a.id == 1 && b.id == 2 && c.id == 3
    ensures var ops := [RegisterData(EMPTY_PROPAGATION_DATA), RegisterSpan(1, EMPTY_PROPAGATION_DATA),
                        RegisterSpan(2, EMPTY_PROPAGATION_DATA), Finish(a), Finish(b), RegisterRoot(2)];
      Returned(cfg, Run(cfg, None, ops), Finish(c)) ==
        Some(Trace(2, [a, b, c], 0, EMPTY_PROPAGATION_DATA))
  {
    var e := EMPTY_PROPAGATION_DATA;
    var o1 := [RegisterData(e)];
    var o2, o3 := o1 + [RegisterSpan(1, e)], o1 + [RegisterSpan(1, e)] + [RegisterSpan(2, e)];
    var o4, o5 := o3 + [Finish(a)], o3 + [Finish(a)] + [Finish(b)];
    RunStep(cfg, None, [], RegisterData(e));
    RunStep(cfg, None, o1, RegisterSpan(1, e));
    RunStep(cfg, None, o2, RegisterSpan(2, e));
    RunStep(cfg, None, o3, Finish(a));
    RunStep(cfg, None, o4, Finish(b));
    RunStep(cfg, None, o5, RegisterRoot(2));
    assert [] + [RegisterData(e)] == o1;
    assert Run(cfg, None, o3) == Some(Trace(0, [], 3, e));
    assert [] + [a] == [a];
    assert Run(cfg, None, o4) == Some(Trace(0, [a], 2, e));
    assert Run(cfg, None, o5) == Some(Trace(0, [a] + [b], 1, e));
    assert [a] + [b] == [a, b] && [a, b] + [c] == [a, b, c];
    assert o5 + [RegisterRoot(2)] == [RegisterData(e), RegisterSpan(1, e),
                        RegisterSpan(2, e), Finish(a), Finish(b), RegisterRoot(2)];
    assert Run(cfg, None, o5 + [RegisterRoot(2)]) == Some(Trace(2, [a, b], 1, e));
  }

  lemma RunStep(cfg: Config, slot: Slot, ops: seq<Op>, op: Op)
    ensures Run(cfg, slot, ops + [op]) == Next(cfg, Run(cfg, slot, ops), op)
  {
    assert (ops + [op])[..|ops|] == ops;
  }
}
