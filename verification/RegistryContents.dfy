/** What an entry remembers and what its chunks carry: the propagation data, the
    local root, and the order of the spans. */
module RegistryContents {
  import opened Options
  import opened Sampling
  import opened RegistryModel
  import opened RegistryLifecycle

  // ----- What an entry remembers -----

  /** The first operation creates the entry, and it lives from then on. */
  ghost predicate Lives(cfg: Config, ops: seq<Op>)
    decreases |ops|
  {
    && Run(cfg, None, ops).Some?
    && (|ops| > 1 ==> Lives(cfg, ops[..|ops| - 1]))
  }

  /** The propagation data that are offered for the trace: those that came with
      the operation that created the entry, then those of further local roots. */
  function Offers(ops: seq<Op>): seq<PropagationData>
    decreases |ops|
  {
    if ops == [] then []
    else
      var last := ops[|ops| - 1];
      if last.RegisterData? then Offers(ops[..|ops| - 1]) + [last.data]
      else if |ops| > 1 then Offers(ops[..|ops| - 1])
      else if last.RegisterSpan? then [last.data]
      else [EMPTY_PROPAGATION_DATA]
  }

  /** The ids announced as local roots; a span that creates the entry is one. */
  function Announced(ops: seq<Op>): seq<SpanId>
    decreases |ops|
  {
    if ops == [] then []
    else
      var last := ops[|ops| - 1];
      if last.RegisterRoot? then Announced(ops[..|ops| - 1]) + [last.rootId]
      else if |ops| > 1 then Announced(ops[..|ops| - 1])
      else if last.RegisterSpan? then [last.spanId]
      else []
  }

  /** The first offer with a priority; without one, the last offer. */
  ghost predicate FirstDecided(offers: seq<PropagationData>, data: PropagationData) {
    exists k :: 0 <= k < |offers| && offers[k] == data &&
      (forall j :: 0 <= j < k ==> offers[j].decision.priority.None?) &&
      (data.decision.priority.Some? || k == |offers| - 1)
  }

  /** The first id that is not zero, if there is one. */
  ghost predicate FirstNamed(ids: seq<SpanId>, root: SpanId) {
    if root == NO_SPAN then forall j :: 0 <= j < |ids| ==> ids[j] == NO_SPAN
    else exists k :: 0 <= k < |ids| && ids[k] == root && forall j :: 0 <= j < k ==> ids[j] == NO_SPAN
  }

  lemma OneMoreOffer(offers: seq<PropagationData>, data: PropagationData, offer: PropagationData)
    requires FirstDecided(offers, data)
    ensures FirstDecided(offers + [offer], if data.decision.priority.Some? then data else offer)
  {
    var more := offers + [offer];
    if data.decision.priority.Some? {
      var k :| 0 <= k < |offers| && offers[k] == data && forall j :: 0 <= j < k ==> offers[j].decision.priority.None?;
      assert more[k] == data;
    } else {
      assert more[|offers|] == offer;
    }
  }

  lemma OneMoreId(ids: seq<SpanId>, root: SpanId, id: SpanId)
    requires FirstNamed(ids, root)
    ensures FirstNamed(ids + [id], if root == NO_SPAN then id else root)
  {
    var more := ids + [id];
    if root == NO_SPAN {
      assert more[|ids|] == id;
    } else {
      var k :| 0 <= k < |ids| && ids[k] == root && forall j :: 0 <= j < k ==> ids[j] == NO_SPAN;
      assert more[k] == root;
    }
  }

  /** In any run of an entry, from its creation on, it holds the propagation data
      that were the first with a priority, and the root that was announced first. */
  lemma {:induction false} EntryRemembers(cfg: Config, ops: seq<Op>)
    requires ops != [] && Lives(cfg, ops)
    ensures FirstDecided(Offers(ops), Run(cfg, None, ops).value.data)
    ensures FirstNamed(Announced(ops), Run(cfg, None, ops).value.root)
    decreases |ops|
  {
    hide FirstDecided, FirstNamed, Pushed;
    var init, op := ops[..|ops| - 1], ops[|ops| - 1];
    if |ops| == 1 {
      assert ops == [op] && init == [] && Run(cfg, None, ops) == Next(cfg, None, op);
      Beginning(cfg, op);
    } else {
      EntryRemembers(cfg, init);
      var before := Run(cfg, None, init).value;
      if op.RegisterData? {
        OneMoreOffer(Offers(init), before.data, op.data);
      } else if op.RegisterRoot? {
        OneMoreId(Announced(init), before.root, op.rootId);
      }
    }
  }

  lemma Beginning(cfg: Config, op: Op)
    requires !op.Finish?
    ensures var trace := Next(cfg, None, op).value;
      FirstDecided(Offers([op]), trace.data) && FirstNamed(Announced([op]), trace.root)
  {
    assert [op][..0] == [] && Offers([]) == [] && Announced([]) == [];
    var e := EMPTY_PROPAGATION_DATA;
    if op.RegisterData? {
      assert Offers([op]) == [op.data] && [op.data][0] == op.data;
    } else if op.RegisterRoot? {
      assert Offers([op]) == [e] && [e][0] == e;
      assert Announced([op]) == [op.rootId] && [op.rootId][0] == op.rootId;
    } else {
      assert Offers([op]) == [op.data] && [op.data][0] == op.data;
      assert Announced([op]) == [op.spanId] && [op.spanId][0] == op.spanId;
    }
  }

  // ----- What a chunk carries -----

  /** A chunk of a live entry, partial or final, carries the propagation data and
      the local root of the entry. A span without an entry goes out alone, as its
      own root and without data. */
  lemma ChunkCarriesEntry(cfg: Config, slot: Slot, op: Op)
    requires Returned(cfg, slot, op).Some?
    ensures var chunk := Returned(cfg, slot, op).value;
      && op.Finish?
      && (slot.Some? ==>
            && chunk.data == slot.value.data && chunk.root == slot.value.root
            && chunk.open == (if slot.value.open == 0 then 0 else slot.value.open - 1))
      && (slot.None? ==> chunk == Trace(op.span.id, [op.span], 0, EMPTY_PROPAGATION_DATA))
  {
  }

  /** So whatever else happens to a trace: every chunk carries the propagation
      data that were the first with a priority, and the root announced first. */
  lemma EveryChunkCarries(cfg: Config, ops: seq<Op>, op: Op)
    requires ops != [] && Lives(cfg, ops) && Returned(cfg, Run(cfg, None, ops), op).Some?
    ensures var chunk := Returned(cfg, Run(cfg, None, ops), op).value;
      FirstDecided(Offers(ops), chunk.data) && FirstNamed(Announced(ops), chunk.root)
  {
    EntryRemembers(cfg, ops);
    ChunkCarriesEntry(cfg, Run(cfg, None, ops), op);
  }

  /** From the moment a priority is registered, every chunk of the segment carries
      exactly the data it came with. */
  lemma DecidedChunks(cfg: Config, slot: Slot, ops: seq<Op>, op: Op)
    requires slot.Some? && slot.value.data.decision.priority.Some? && AliveThroughout(cfg, slot, ops)
    requires Returned(cfg, Run(cfg, slot, ops), op).Some?
    ensures Returned(cfg, Run(cfg, slot, ops), op).value.data == slot.value.data
  {
    DecisionNeverChanges(cfg, slot, ops);
    ChunkCarriesEntry(cfg, Run(cfg, slot, ops), op);
  }

  // ----- The order of the spans -----

  /** The spans that finished, in order. */
  function FinishOrder(ops: seq<Op>): seq<Span>
    decreases |ops|
  {
    if ops == [] then []
    else
      var last := ops[|ops| - 1];
      FinishOrder(ops[..|ops| - 1]) + (if last.Finish? then [last.span] else [])
  }

  function Swapped(spans: seq<Span>, k: nat): seq<Span>
    requires k < |spans|
  {
    spans[0 := spans[k]][k := spans[0]]
  }

  /** The spans as they finished, except that the local root, where it is among
      them, has changed places with the first. */
  ghost predicate RootSwappedIn(held: seq<Span>, order: seq<Span>, root: SpanId) {
    && ((forall i :: 0 <= i < |order| ==> order[i].id != root) ==> held == order)
    && (forall k :: 0 <= k < |order| && OnlyAt(order, root, k) ==> held == Swapped(order, k))
  }

  ghost predicate OnlyAt(order: seq<Span>, root: SpanId, k: nat)
    requires k < |order|
  {
    forall i :: 0 <= i < |order| ==> (order[i].id == root <==> i == k)
  }

  lemma PushedSwapsIn(trace: Trace, order: seq<Span>, span: Span)
    requires RootSwappedIn(trace.finished, order, trace.root)
    requires |trace.finished| == |order|
    ensures RootSwappedIn(Pushed(trace, span), order + [span], trace.root)
    ensures |Pushed(trace, span)| == |order| + 1
  {
    var held, more, root := trace.finished, order + [span], trace.root;
    var after := Pushed(trace, span);
    if forall i :: 0 <= i < |more| ==> more[i].id != root {
      forall i | 0 <= i < |order| ensures order[i].id != root {
        assert more[i] == order[i];
      }
      assert more[|order|] == span;
      assert after == more;
    }
    forall k | 0 <= k < |more| && OnlyAt(more, root, k) ensures after == Swapped(more, k) {
      assert more[|order|] == span && forall i :: 0 <= i < |order| ==> more[i] == order[i];
      if k < |order| {
        assert OnlyAt(order, root, k);
        assert span.id != root;
        assert after == Swapped(order, k) + [span];
      } else {
        assert held == order;
        assert after == Swapped(more, k);
      }
    }
  }

  /** Without partial flush an entry that was created with its root, and the chunk
      it ends as, hold the spans as they finished; only the root has changed places
      with the span that finished first. */
  lemma {:induction false} SpansInOrder(cfg: Config, start: Trace, ops: seq<Op>)
    requires !cfg.partialFlush && start.root != NO_SPAN && start.finished == []
    requires AliveThroughout(cfg, Some(start), ops)
    ensures var trace := Run(cfg, Some(start), ops).value;
      && trace.root == start.root && |trace.finished| == |FinishOrder(ops)|
      && RootSwappedIn(trace.finished, FinishOrder(ops), start.root)
    decreases |ops|
  {
    hide RootSwappedIn, Pushed;
    if ops == [] {
      NothingToSwap(start.root);
    } else {
      var init, op := ops[..|ops| - 1], ops[|ops| - 1];
      SpansInOrder(cfg, start, init);
      if op.Finish? {
        PushedSwapsIn(Run(cfg, Some(start), init).value, FinishOrder(init), op.span);
      } else {
        assert FinishOrder(init) + [] == FinishOrder(init);
      }
    }
  }

  lemma NothingToSwap(root: SpanId)
    ensures RootSwappedIn([], [], root)
  {
  }

  lemma ChunkInOrder(cfg: Config, start: Trace, ops: seq<Op>, span: Span)
    requires !cfg.partialFlush && start.root != NO_SPAN && start.finished == []
    requires AliveThroughout(cfg, Some(start), ops)
    ensures var chunk := Returned(cfg, Run(cfg, Some(start), ops), Finish(span));
      chunk.Some? ==> RootSwappedIn(chunk.value.finished, FinishOrder(ops) + [span], start.root)
  {
    hide RootSwappedIn, Pushed;
    SpansInOrder(cfg, start, ops);
    PushedSwapsIn(Run(cfg, Some(start), ops).value, FinishOrder(ops), span);
  }

  // ----- What is counted -----

  /** All that the operations on one trace add to the metrics. */
  function Ledger(cfg: Config, ops: seq<Op>): Metrics
    decreases |ops|
  {
    if ops == [] then NO_METRICS
    else
      var init := ops[..|ops| - 1];
      Ledger(cfg, init).Plus(Counted(cfg, Run(cfg, None, init), ops[|ops| - 1]))
  }

  function ChunksOut(cfg: Config, ops: seq<Op>): nat
    decreases |ops|
  {
    if ops == [] then 0
    else
      var init := ops[..|ops| - 1];
      ChunksOut(cfg, init) + (if Returned(cfg, Run(cfg, None, init), ops[|ops| - 1]).Some? then 1 else 0)
  }

  /** How often an entry was created by announcing its root, or a span finished
      that the entry, if there is one, did not count as open. */
  function Unpaired(cfg: Config, ops: seq<Op>): nat
    decreases |ops|
  {
    if ops == [] then 0
    else
      var init, op := ops[..|ops| - 1], ops[|ops| - 1];
      var slot := Run(cfg, None, init);
      Unpaired(cfg, init) +
      (if (op.RegisterRoot? && slot.None?) || (op.Finish? && OpenCount(slot) == 0) then 1 else 0)
  }

  /** Every chunk is counted once: as a partial flush if the entry stays, else as
      the end of a segment. */
  lemma ChunkIsCounted(cfg: Config, slot: Slot, op: Op)
    ensures var counted, isChunk := Counted(cfg, slot, op), Returned(cfg, slot, op).Some?;
      && counted.partialFlushes == (if isChunk && Next(cfg, slot, op).Some? then 1 else 0)
      && counted.segmentsClosed == (if isChunk && Next(cfg, slot, op).None? then 1 else 0)
  {
    hide Pushed;
  }

  lemma SpanIsCounted(cfg: Config, slot: Slot, op: Op)
    ensures var counted, after := Counted(cfg, slot, op), Next(cfg, slot, op);
      var isUnpaired := (op.RegisterRoot? && slot.None?) || (op.Finish? && OpenCount(slot) == 0);
      OpenCount(slot) + counted.spansCreated + (if isUnpaired then 1 else 0) == counted.spansFinished + OpenCount(after)
  {
    hide Pushed;
  }

  /** Over any run on a trace, disciplined or not: the chunks are those counted as
      partial flushes and as closed segments, and the spans counted as created are
      those counted as finished or still open, but for the unpaired ones. */
  lemma {:induction false} CountsBalance(cfg: Config, ops: seq<Op>)
    ensures var sum := Ledger(cfg, ops);
      && sum.partialFlushes + sum.segmentsClosed == ChunksOut(cfg, ops)
      && sum.spansCreated + Unpaired(cfg, ops) == sum.spansFinished + OpenCount(Run(cfg, None, ops))
    decreases |ops|
  {
    hide Counted, Next, Returned, OpenCount;
    if ops == [] {
      assert OpenCount(None) == 0 by {
        NothingOpen();
      }
    } else {
      var init, op := ops[..|ops| - 1], ops[|ops| - 1];
      CountsBalance(cfg, init);
      ChunkIsCounted(cfg, Run(cfg, None, init), op);
      SpanIsCounted(cfg, Run(cfg, None, init), op);
    }
  }

  lemma NothingOpen()
    ensures OpenCount(None) == 0
  {
  }
}
