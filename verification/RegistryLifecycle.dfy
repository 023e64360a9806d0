/** How the open-span count relates to the spans that are open, and so when chunks
    are returned and entries removed. */
module RegistryLifecycle {
  import opened Options
  import opened Sampling
  import opened RegistryModel

  /** The spans of one trace as its callers see them: how many local roots have
      registered data but no id yet, the announced spans that are open, and how
      many open spans the registry does not count. */
  datatype Books = Books(unnamed: nat, open: set<SpanId>, uncounted: int)

  function StillOpen(b: Books): nat {
    |b.open| + b.unnamed
  }

  /** One operation; None if it announces an id that is open or finishes one that
      is not. A root that is announced on a live entry which has its root already
      is never counted; when none of the open spans is counted, one of the others
      finishes. */
  function Booked(b: Books, hasEntry: bool, op: Op): Option<Books> {
    match op
    case RegisterData(_) => Some(if hasEntry then b else b.(unnamed := b.unnamed + 1))
    case RegisterRoot(id) =>
      if id in b.open then None
      else
        var named := b.(unnamed := if b.unnamed > 0 then b.unnamed - 1 else 0, open := b.open + {id});
        if hasEntry && b.unnamed == 0 then Some(named.(uncounted := b.uncounted + 1))
        else if !hasEntry && b.unnamed > 0 then Some(named.(uncounted := b.uncounted - 1))
        else Some(named)
    case RegisterSpan(id, _) =>
      if id in b.open then None else Some(b.(open := b.open + {id}))
    case Finish(span) =>
      if span.id !in b.open then None
      else
        Some(b.(open := b.open - {span.id},
                uncounted := if StillOpen(b) == b.uncounted then b.uncounted - 1 else b.uncounted))
  }

  function BooksAfter(cfg: Config, ops: seq<Op>): Option<Books>
    decreases |ops|
  {
    if ops == [] then Some(Books(0, {}, 0))
    else
      var init := ops[..|ops| - 1];
      match BooksAfter(cfg, init)
      case Some(b) => Booked(b, Run(cfg, None, init).Some?, ops[|ops| - 1])
      case None => None
  }

  function OpenCount(slot: Slot): nat {
    if slot.Some? then slot.value.open else 0
  }

  ghost predicate Balanced(cfg: Config, b: Books, slot: Slot) {
    && b.uncounted >= 0 && OpenCount(slot) + b.uncounted == StillOpen(b)
    && (!cfg.partialFlush && slot.Some? ==> slot.value.open > 0)
  }

  lemma AnnounceBalances(cfg: Config, b: Books, slot: Slot, op: Op)
    requires Balanced(cfg, b, slot) && Booked(b, slot.Some?, op).Some?
    requires op.RegisterRoot? || op.RegisterSpan?
    ensures Balanced(cfg, Booked(b, slot.Some?, op).value, Next(cfg, slot, op))
  {
    var id := if op.RegisterRoot? then op.rootId else op.spanId;
    assert |b.open + {id}| == |b.open| + 1;
  }

  lemma FinishBalances(cfg: Config, b: Books, slot: Slot, span: Span)
    requires Balanced(cfg, b, slot) && span.id in b.open
    ensures Balanced(cfg, Booked(b, slot.Some?, Finish(span)).value, Finished(cfg, slot, span).0)
  {
    hide Pushed;
    assert |b.open - {span.id}| == |b.open| - 1;
  }

  lemma StepBalances(cfg: Config, b: Books, slot: Slot, op: Op)
    requires Balanced(cfg, b, slot) && Booked(b, slot.Some?, op).Some?
    ensures Balanced(cfg, Booked(b, slot.Some?, op).value, Next(cfg, slot, op))
  {
    hide Finished;
    if op.Finish? {
      FinishBalances(cfg, b, slot, op.span);
    } else if !op.RegisterData? {
      AnnounceBalances(cfg, b, slot, op);
    }
  }

  /** Over any run that starts each span once and finishes it at most once after
      that, with any number of local roots: the registry's count and the uncounted
      spans are the open spans. Without partial flush there is an entry exactly
      while some open span is counted. */
  lemma {:induction false} CountPlusUncounted(cfg: Config, ops: seq<Op>)
    requires BooksAfter(cfg, ops).Some?
    ensures Balanced(cfg, BooksAfter(cfg, ops).value, Run(cfg, None, ops))
    decreases |ops|
  {
    if ops != [] {
      var init, op := ops[..|ops| - 1], ops[|ops| - 1];
      CountPlusUncounted(cfg, init);
      StepBalances(cfg, BooksAfter(cfg, init).value, Run(cfg, None, init), op);
    }
  }

  /** A root that is announced on a live entry which has its root already. */
  ghost predicate LaterRoot(b: Books, slot: Slot, op: Op) {
    op.RegisterRoot? && slot.Some? && b.unnamed == 0
  }

  ghost predicate NoLaterRoot(cfg: Config, ops: seq<Op>)
    requires BooksAfter(cfg, ops).Some?
    decreases |ops|
  {
    ops != [] ==>
      var init := ops[..|ops| - 1];
      NoLaterRoot(cfg, init) && !LaterRoot(BooksAfter(cfg, init).value, Run(cfg, None, init), ops[|ops| - 1])
  }

  /** Along the whole run, the count is the number of open spans. */
  ghost predicate AlwaysExact(cfg: Config, ops: seq<Op>)
    requires BooksAfter(cfg, ops).Some?
    decreases |ops|
  {
    && OpenCount(Run(cfg, None, ops)) == StillOpen(BooksAfter(cfg, ops).value)
    && (ops != [] ==> AlwaysExact(cfg, ops[..|ops| - 1]))
  }

  /** Started minus finished is what the registry counts all along exactly if no
      root is announced on a live entry that has its root. */
  lemma {:induction false} OpenCountIsExact(cfg: Config, ops: seq<Op>)
    requires BooksAfter(cfg, ops).Some?
    ensures AlwaysExact(cfg, ops) <==> NoLaterRoot(cfg, ops)
    decreases |ops|
  {
    CountPlusUncounted(cfg, ops);
    if ops != [] {
      var init := ops[..|ops| - 1];
      OpenCountIsExact(cfg, init);
      CountPlusUncounted(cfg, init);
    }
  }

  lemma BooksStep(cfg: Config, ops: seq<Op>, op: Op)
    ensures BooksAfter(cfg, ops + [op]) ==
            match BooksAfter(cfg, ops)
            case Some(b) => Booked(b, Run(cfg, None, ops).Some?, op)
            case None => None
  {
    assert (ops + [op])[..|ops|] == ops;
  }

  /** The spans that finished since the entry of the trace was created; none while
      no open span is counted. */
  function FinishedInSegment(cfg: Config, ops: seq<Op>): multiset<Span>
    requires BooksAfter(cfg, ops).Some?
    decreases |ops|
  {
    var b := BooksAfter(cfg, ops).value;
    if ops == [] || StillOpen(b) == b.uncounted then multiset{}
    else FinishedInSegment(cfg, ops[..|ops| - 1]) + SpanOf(ops[|ops| - 1])
  }

  /** With partial flushing off, the registry holds exactly the spans that
      finished in the current segment. */
  lemma {:induction false} HeldIsSegment(cfg: Config, ops: seq<Op>)
    requires !cfg.partialFlush && BooksAfter(cfg, ops).Some?
    ensures Held(Run(cfg, None, ops)) == FinishedInSegment(cfg, ops)
    decreases |ops|
  {
    hide Next, Returned, Held, SpanOf, Booked;
    CountPlusUncounted(cfg, ops);
    if ops == [] {
      NothingHeld();
    } else {
      var init, op := ops[..|ops| - 1], ops[|ops| - 1];
      HeldIsSegment(cfg, init);
      StepConserved(cfg, Run(cfg, None, init), op);
      if Run(cfg, None, ops).None? {
        NothingHeld();
      } else {
        NothingReturnedInside(cfg, Run(cfg, None, init), op);
      }
    }
  }

  lemma NothingHeld()
    ensures Held(None) == multiset{}
  {
  }

  lemma NothingReturnedInside(cfg: Config, slot: Slot, op: Op)
    requires !cfg.partialFlush && Next(cfg, slot, op).Some?
    ensures Held(Returned(cfg, slot, op)) == multiset{}
  {
  }

  /** With partial flushing off, a finishing span makes the registry return a
      chunk and drop the entry exactly if no counted span stays open; the chunk
      then holds every span of the segment, each once, and until then nothing of
      it has left the registry. So it is the last open span that does this exactly
      if no uncounted one stays open. */
  lemma ChunkOnLastSpan(cfg: Config, ops: seq<Op>, span: Span)
    requires !cfg.partialFlush && BooksAfter(cfg, ops + [Finish(span)]).Some?
    ensures BooksAfter(cfg, ops).Some?
    ensures var b, slot := BooksAfter(cfg, ops).value, Run(cfg, None, ops);
      var isFlushed, segment := StillOpen(b) <= b.uncounted + 1, FinishedInSegment(cfg, ops) + multiset{span};
      var (next, chunk) := Finished(cfg, slot, span);
      && (chunk.Some? <==> isFlushed) && (next.None? <==> isFlushed)
      && Held(if isFlushed then chunk else next) == segment
      && (b.uncounted == 0 ==> (chunk.Some? <==> StillOpen(b) == 1))
  {
    hide Finished, Held, FinishedInSegment;
    BooksStep(cfg, ops, Finish(span));
    CountPlusUncounted(cfg, ops);
    HeldIsSegment(cfg, ops);
    AllOrNothing(cfg, Run(cfg, None, ops), span);
  }

  lemma AllOrNothing(cfg: Config, slot: Slot, span: Span)
    requires !cfg.partialFlush
    ensures var (next, chunk) := Finished(cfg, slot, span);
      && (chunk.Some? <==> OpenCount(slot) <= 1) && (next.None? <==> OpenCount(slot) <= 1)
      && Held(if OpenCount(slot) <= 1 then chunk else next) == Held(slot) + multiset{span}
  {
    hide Pushed;
    if slot.Some? {
      PushedMultiset(slot.value, span);
    }
  }

  /** A second request of the same trace while its entry lives: its local root is
      not counted, so the chunk goes out when the first root finishes, although
      the second is open; that one then goes out alone. */
  lemma LaterRootIsCutOff(cfg: Config, data: PropagationData, laterData: PropagationData, root: Span, later: Span)
    requires !cfg.partialFlush && root.id != NO_SPAN && root.id != later.id
    ensures var ops := [RegisterData(data), RegisterRoot(root.id), RegisterData(laterData), RegisterRoot(later.id)];
      && BooksAfter(cfg, ops) == Some(Books(0, {root.id, later.id}, 1))
      && Returned(cfg, Run(cfg, None, ops), Finish(root)).Some?
      && BooksAfter(cfg, ops + [Finish(root)]) == Some(Books(0, {later.id}, 1))
      && Returned(cfg, Run(cfg, None, ops + [Finish(root)]), Finish(later)) ==
           Some(Trace(later.id, [later], 0, EMPTY_PROPAGATION_DATA))
  {
    var o1, o2 := [RegisterData(data)], [RegisterData(data), RegisterRoot(root.id)];
    var o3 := o2 + [RegisterData(laterData)];
    var o4 := o3 + [RegisterRoot(later.id)];
    assert [] + o1 == o1 && o1 + [RegisterRoot(root.id)] == o2;
    assert o4 == [RegisterData(data), RegisterRoot(root.id), RegisterData(laterData), RegisterRoot(later.id)];
    RunStep(cfg, None, [], RegisterData(data));
    RunStep(cfg, None, o1, RegisterRoot(root.id));
    RunStep(cfg, None, o2, RegisterData(laterData));
    RunStep(cfg, None, o3, RegisterRoot(later.id));
    RunStep(cfg, None, o4, Finish(root));
    BooksStep(cfg, [], RegisterData(data));
    BooksStep(cfg, o1, RegisterRoot(root.id));
    BooksStep(cfg, o2, RegisterData(laterData));
    BooksStep(cfg, o3, RegisterRoot(later.id));
    BooksStep(cfg, o4, Finish(root));
    assert {} + {root.id} == {root.id} && {root.id} + {later.id} == {root.id, later.id};
    assert {root.id, later.id} - {root.id} == {later.id};
    assert Run(cfg, None, o2).value.open == 1 && Run(cfg, None, o4).value.open == 1;
    assert |{root.id, later.id}| == 2;
  }

  /** With partial flushing on, no held list ever reaches the configured minimum
      (or a single span, for a minimum of zero). This needs no discipline. */
  lemma {:induction false} HeldStaysShort(cfg: Config, ops: seq<Op>)
    requires cfg.partialFlush
    ensures var slot := Run(cfg, None, ops);
      slot.Some? ==> |slot.value.finished| < (if cfg.minSpans == 0 then 1 else cfg.minSpans)
    decreases |ops|
  {
    if ops != [] {
      HeldStaysShort(cfg, ops[..|ops| - 1]);
    }
  }

  /** With partial flushing on, the entry goes away with the last counted span only
      if that span does not complete a partial chunk. Otherwise an entry without
      open spans stays behind and the segment is not counted as closed. */
  lemma LastSpanMayLeaveEntry(cfg: Config, ops: seq<Op>, span: Span)
    requires cfg.partialFlush && Run(cfg, None, ops).Some?
    requires BooksAfter(cfg, ops).Some? && span.id in BooksAfter(cfg, ops).value.open
    requires StillOpen(BooksAfter(cfg, ops).value) == BooksAfter(cfg, ops).value.uncounted + 1
    ensures var slot := Run(cfg, None, ops);
      var (next, chunk) := Finished(cfg, slot, span);
      && chunk.Some?
      && (next.None? <==> |slot.value.finished| + 1 < cfg.minSpans)
      && (next.Some? ==> next.value.open == 0 && next.value.finished == [])
      && Counted(cfg, slot, Finish(span)).segmentsClosed == (if next.None? then 1 else 0)
  {
    CountPlusUncounted(cfg, ops);
  }

  /** An entry that its last span left behind. */
  predicate IsLeftover(slot: Slot) {
    slot.Some? && slot.value.root != NO_SPAN && slot.value.open == 0 && slot.value.finished == []
  }

  /** The next segment of a trace with such an entry, whatever it brings: its
      local root is not counted as open and does not become the root. */
  lemma LeftoverEntryMiscounts(cfg: Config, leftover: Slot, data: PropagationData, rootId: SpanId)
    requires IsLeftover(leftover)
    ensures var before := Next(cfg, leftover, RegisterData(data));
      var after := Next(cfg, before, RegisterRoot(rootId));
      && after.Some? && after.value.open == 0 && after.value.root == leftover.value.root
      && Counted(cfg, leftover, RegisterData(data)) == NO_METRICS
  {
  }

  /** So its first finished child is flushed at once, although the local root is
      still open; with a fresh entry it is held, unless it makes a chunk alone. */
  lemma LeftoverEntryFlushesEarly(cfg: Config, leftover: Slot, data: PropagationData, rootId: SpanId,
                                  childData: PropagationData, child: Span)
    requires IsLeftover(leftover)
    ensures var ops := [RegisterData(data), RegisterRoot(rootId), RegisterSpan(child.id, childData)];
      && Returned(cfg, Run(cfg, leftover, ops), Finish(child)).Some?
      && (Returned(cfg, Run(cfg, None, ops), Finish(child)).Some? <==> cfg.partialFlush && cfg.minSpans <= 1)
  {
    var o1, o2 := [RegisterData(data)], [RegisterData(data), RegisterRoot(rootId)];
    var o3 := o2 + [RegisterSpan(child.id, childData)];
    assert [] + o1 == o1 && o1 + [RegisterRoot(rootId)] == o2;
    assert o3 == [RegisterData(data), RegisterRoot(rootId), RegisterSpan(child.id, childData)];
    LeftoverEntryMiscounts(cfg, leftover, data, rootId);
    RunStep(cfg, leftover, [], RegisterData(data));
    RunStep(cfg, leftover, o1, RegisterRoot(rootId));
    RunStep(cfg, leftover, o2, RegisterSpan(child.id, childData));
    RunStep(cfg, None, [], RegisterData(data));
    RunStep(cfg, None, o1, RegisterRoot(rootId));
    RunStep(cfg, None, o2, RegisterSpan(child.id, childData));
    assert Run(cfg, leftover, o3).value.open == 1 && Run(cfg, leftover, o3).value.finished == [];
    assert Run(cfg, None, o3).value.open == 2 && Run(cfg, None, o3).value.finished == [];
  }

  /** One span that is a partial chunk by itself leaves such an entry. */
  lemma LeftoverExists(cfg: Config, data: PropagationData, root: Span)
    requires cfg.partialFlush && cfg.minSpans <= 1 && root.id != NO_SPAN
    ensures var ops := [RegisterData(data), RegisterRoot(root.id), Finish(root)];
      BooksAfter(cfg, ops) == Some(Books(0, {}, 0)) && IsLeftover(Run(cfg, None, ops))
  {
    var o1, o2 := [RegisterData(data)], [RegisterData(data), RegisterRoot(root.id)];
    assert [] + o1 == o1 && o1 + [RegisterRoot(root.id)] == o2;
    assert o2 + [Finish(root)] == [RegisterData(data), RegisterRoot(root.id), Finish(root)];
    RunStep(cfg, None, [], RegisterData(data));
    RunStep(cfg, None, o1, RegisterRoot(root.id));
    RunStep(cfg, None, o2, Finish(root));
    BooksStep(cfg, [], RegisterData(data));
    BooksStep(cfg, o1, RegisterRoot(root.id));
    BooksStep(cfg, o2, Finish(root));
    assert {} + {root.id} == {root.id} && {root.id} - {root.id} == {};
  }

  // ----- The sampling decision of a live entry -----

  ghost predicate AliveThroughout(cfg: Config, slot: Slot, ops: seq<Op>)
    decreases |ops|
  {
    Run(cfg, slot, ops).Some? && (ops != [] ==> AliveThroughout(cfg, slot, ops[..|ops| - 1]))
  }

  /** Once an entry carries a priority, no operation changes its sampling
      decision for as long as the entry lives. */
  lemma {:induction false} DecisionNeverChanges(cfg: Config, slot: Slot, ops: seq<Op>)
    requires slot.Some? && slot.value.data.decision.priority.Some?
    requires AliveThroughout(cfg, slot, ops)
    ensures Run(cfg, slot, ops).value.data == slot.value.data
    decreases |ops|
  {
    if ops != [] {
      DecisionNeverChanges(cfg, slot, ops[..|ops| - 1]);
    }
  }
}
