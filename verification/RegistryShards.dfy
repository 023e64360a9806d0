/** The registry as one flat map of traces, and as 64 shards chosen by a hash. */
module RegistryShards {
  import opened Options
  import opened RegistryModel

  const SHARDS: nat := 64

  type Traces = map<TraceId, Trace>
  type Hasher = TraceId -> nat

  function Lookup(traces: Traces, id: TraceId): Slot {
    if id in traces then Some(traces[id]) else None
  }

  function Put(traces: Traces, id: TraceId, slot: Slot): Traces {
    match slot
    case Some(trace) => traces[id := trace]
    case None => traces - {id}
  }

  function ShardOf(hash: Hasher, id: TraceId): (i: nat)
    ensures i < SHARDS
  {
    hash(id) % SHARDS
  }

  /** Every trace lives in the shard its hash selects. */
  ghost predicate Placed(hash: Hasher, shards: seq<Traces>) {
    |shards| == SHARDS && forall i, id :: 0 <= i < SHARDS && id in shards[i] ==> ShardOf(hash, id) == i
  }

  ghost function Flatten(shards: seq<Traces>): Traces
    decreases |shards|
  {
    if shards == [] then map[] else Flatten(shards[..|shards| - 1]) + shards[|shards| - 1]
  }

  lemma {:induction false} FlattenLookup(hash: Hasher, shards: seq<Traces>, id: TraceId)
    requires |shards| <= SHARDS
    requires forall i, t :: 0 <= i < |shards| && t in shards[i] ==> ShardOf(hash, t) == i
    ensures Lookup(Flatten(shards), id) ==
            if ShardOf(hash, id) < |shards| then Lookup(shards[ShardOf(hash, id)], id) else None
    decreases |shards|
  {
    if shards != [] {
      FlattenLookup(hash, shards[..|shards| - 1], id);
    }
  }

  /** An operation on the shard of its trace is that operation on the flat map. */
  lemma PutInShard(hash: Hasher, shards: seq<Traces>, id: TraceId, slot: Slot)
    requires Placed(hash, shards)
    ensures var k := ShardOf(hash, id);
      var after := shards[k := Put(shards[k], id, slot)];
      Placed(hash, after) && Flatten(after) == Put(Flatten(shards), id, slot)
  {
    var k := ShardOf(hash, id);
    var after := shards[k := Put(shards[k], id, slot)];
    forall t: TraceId ensures Lookup(Flatten(after), t) == Lookup(Put(Flatten(shards), id, slot), t) {
      FlattenLookup(hash, shards, t);
      FlattenLookup(hash, after, t);
    }
    SameLookups(Flatten(after), Put(Flatten(shards), id, slot));
  }

  lemma SameLookups(a: Traces, b: Traces)
    requires forall t: TraceId :: Lookup(a, t) == Lookup(b, t)
    ensures a == b
  {
    forall t: TraceId ensures t in a <==> t in b {
      assert Lookup(a, t) == Lookup(b, t);
    }
    forall t: TraceId | t in a ensures a[t] == b[t] {
      assert Lookup(a, t) == Lookup(b, t);
    }
  }

  function Sum(metrics: seq<Metrics>): Metrics
    decreases |metrics|
  {
    if metrics == [] then NO_METRICS
    else Sum(metrics[..|metrics| - 1]).Plus(metrics[|metrics| - 1])
  }

  lemma {:induction false} SumUpdate(metrics: seq<Metrics>, k: nat, extra: Metrics)
    requires k < |metrics|
    ensures Sum(metrics[k := metrics[k].Plus(extra)]) == Sum(metrics).Plus(extra)
    decreases |metrics|
  {
    var n := |metrics| - 1;
    var after := metrics[k := metrics[k].Plus(extra)];
    if k == n {
      assert after[..n] == metrics[..n];
    } else {
      assert after[..n] == metrics[..n][k := metrics[k].Plus(extra)];
      SumUpdate(metrics[..n], k, extra);
    }
  }

  lemma {:induction false} SumDrain(metrics: seq<Metrics>, k: nat)
    requires k < |metrics|
    ensures Sum(metrics) == Sum(metrics[k := NO_METRICS]).Plus(metrics[k])
    decreases |metrics|
  {
    var n := |metrics| - 1;
    var after := metrics[k := NO_METRICS];
    if k == n {
      assert after[..n] == metrics[..n];
    } else {
      assert after[..n] == metrics[..n][k := NO_METRICS];
      SumDrain(metrics[..n], k);
    }
  }

  // ----- Whole runs -----

  // An operation on one trace, or the reader of the metrics emptying one shard.
  datatype Event = On(id: TraceId, op: Op) | Drain(shard: nat)

  /** The abstract registry: one map, and all that was ever counted. */
  datatype Flat = Flat(traces: Traces, ledger: Metrics)

  datatype Sharded = Sharded(shards: seq<Traces>, metrics: seq<Metrics>, drained: Metrics)

  function FlatNext(cfg: Config, s: Flat, e: Event): Flat {
    match e
    case On(id, op) =>
      var slot := Lookup(s.traces, id);
      Flat(Put(s.traces, id, Next(cfg, slot, op)), s.ledger.Plus(Counted(cfg, slot, op)))
    case Drain(_) => s
  }

  function ShardedNext(cfg: Config, hash: Hasher, s: Sharded, e: Event): Sharded
    requires |s.shards| == |s.metrics| == SHARDS
  {
    match e
    case On(id, op) =>
      var k := ShardOf(hash, id);
      var slot := Lookup(s.shards[k], id);
      s.(shards := s.shards[k := Put(s.shards[k], id, Next(cfg, slot, op))],
         metrics := s.metrics[k := s.metrics[k].Plus(Counted(cfg, slot, op))])
    case Drain(shard) =>
      var k := shard % SHARDS;
      s.(metrics := s.metrics[k := NO_METRICS], drained := s.drained.Plus(s.metrics[k]))
  }

  ghost predicate Refines(hash: Hasher, s: Sharded, f: Flat) {
    && Placed(hash, s.shards) && |s.metrics| == SHARDS
    && Flatten(s.shards) == f.traces
    && Sum(s.metrics).Plus(s.drained) == f.ledger
  }

  /** Each step on the shards is the same step on the flat map, returns the same
      chunk, and loses no count, whenever shards are drained. */
  lemma StepRefines(cfg: Config, hash: Hasher, s: Sharded, f: Flat, e: Event)
    requires Refines(hash, s, f)
    ensures Refines(hash, ShardedNext(cfg, hash, s, e), FlatNext(cfg, f, e))
    ensures e.On? ==>
      Returned(cfg, Lookup(s.shards[ShardOf(hash, e.id)], e.id), e.op) == Returned(cfg, Lookup(f.traces, e.id), e.op)
  {
    match e
    case On(id, op) =>
      var k := ShardOf(hash, id);
      FlattenLookup(hash, s.shards, id);
      PutInShard(hash, s.shards, id, Next(cfg, Lookup(f.traces, id), op));
      SumUpdate(s.metrics, k, Counted(cfg, Lookup(f.traces, id), op));
    case Drain(shard) =>
      SumDrain(s.metrics, shard % SHARDS);
  }

  function FlatRun(cfg: Config, events: seq<Event>): Flat
    decreases |events|
  {
    if events == [] then Flat(map[], NO_METRICS)
    else FlatNext(cfg, FlatRun(cfg, events[..|events| - 1]), events[|events| - 1])
  }

  function ShardedRun(cfg: Config, hash: Hasher, events: seq<Event>): (s: Sharded)
    ensures |s.shards| == |s.metrics| == SHARDS
    decreases |events|
  {
    if events == [] then
      Sharded(NoTraces(SHARDS), NoCounts(SHARDS), NO_METRICS)
    else ShardedNext(cfg, hash, ShardedRun(cfg, hash, events[..|events| - 1]), events[|events| - 1])
  }

  function NoTraces(n: nat): (r: seq<Traces>)
    ensures |r| == n && forall i :: 0 <= i < n ==> r[i] == map[]
  {
    seq(n, i => map[])
  }

  function NoCounts(n: nat): (r: seq<Metrics>)
    ensures |r| == n && forall i :: 0 <= i < n ==> r[i] == NO_METRICS
  {
    seq(n, i => NO_METRICS)
  }

  lemma {:induction false} EmptyTraces(shards: seq<Traces>)
    requires forall i :: 0 <= i < |shards| ==> shards[i] == map[]
    ensures Flatten(shards) == map[]
    decreases |shards|
  {
    if shards != [] {
      EmptyTraces(shards[..|shards| - 1]);
    }
  }

  predicate IsZero(m: Metrics) {
    && m.spansCreated == 0 && m.spansFinished == 0
    && m.segmentsCreated == 0 && m.segmentsClosed == 0 && m.partialFlushes == 0
  }

  lemma {:induction false} EmptyCounts(counts: seq<Metrics>)
    requires forall i :: 0 <= i < |counts| ==> IsZero(counts[i])
    ensures IsZero(Sum(counts))
    decreases |counts|
  {
    hide IsZero;
    NoMetricsIsZero(NO_METRICS);
    if counts != [] {
      EmptyCounts(counts[..|counts| - 1]);
      ZeroPlus(Sum(counts[..|counts| - 1]), counts[|counts| - 1]);
    }
  }

  lemma ZeroPlus(a: Metrics, b: Metrics)
    requires IsZero(a)
    ensures a.Plus(b) == b
  {
  }

  lemma NoMetricsIsZero(m: Metrics)
    ensures IsZero(m) <==> m == NO_METRICS
  {
  }

  lemma NothingCounted(counts: seq<Metrics>)
    requires forall i :: 0 <= i < |counts| ==> counts[i] == NO_METRICS
    ensures Sum(counts) == NO_METRICS
  {
    hide IsZero, Sum;
    NoMetricsIsZero(NO_METRICS);
    EmptyCounts(counts);
    NoMetricsIsZero(Sum(counts));
  }

  lemma NothingYet(hash: Hasher)
    ensures Refines(hash, Sharded(NoTraces(SHARDS), NoCounts(SHARDS), NO_METRICS), Flat(map[], NO_METRICS))
  {
    hide Metrics.Plus, IsZero, Sum, Flatten;
    EmptyTraces(NoTraces(SHARDS));
    NothingCounted(NoCounts(SHARDS));
    NoMetricsIsZero(NO_METRICS);
    ZeroPlus(NO_METRICS, Sum(NoCounts(SHARDS)));
  }

  /** For any hash function and any run, the 64 shards together are the flat
      registry, and what was drained plus what the shards still count is all
      that was ever counted. */
  lemma {:induction false} ShardsRefineFlatMap(cfg: Config, hash: Hasher, events: seq<Event>)
    ensures Refines(hash, ShardedRun(cfg, hash, events), FlatRun(cfg, events))
    decreases |events|
  {
    if events == [] {
      NothingYet(hash);
    } else {
      var init, last := events[..|events| - 1], events[|events| - 1];
      ShardsRefineFlatMap(cfg, hash, init);
      StepRefines(cfg, hash, ShardedRun(cfg, hash, init), FlatRun(cfg, init), last);
    }
  }

  /** The operations of a run on one trace, in order. */
  function OpsOn(events: seq<Event>, id: TraceId): seq<Op>
    decreases |events|
  {
    if events == [] then []
    else
      var last := events[|events| - 1];
      OpsOn(events[..|events| - 1], id) + (if last.On? && last.id == id then [last.op] else [])
  }

  /** Traces do not influence each other: the entry of a trace is determined by
      the operations on that trace alone. */
  lemma {:induction false} TracesAreIndependent(cfg: Config, events: seq<Event>, id: TraceId)
    ensures Lookup(FlatRun(cfg, events).traces, id) == Run(cfg, None, OpsOn(events, id))
    decreases |events|
  {
    if events != [] {
      var init, last := events[..|events| - 1], events[|events| - 1];
      TracesAreIndependent(cfg, init, id);
      if last.On? && last.id == id {
        RunStep(cfg, None, OpsOn(init, id), last.op);
      } else {
        assert OpsOn(init, id) + [] == OpsOn(init, id);
      }
    }
  }

  /** So each trace, looked up in its own shard after any run of the sharded
      registry, is in the state its own operations lead to, and every span that
      finished in it has been returned exactly once or is held there. */
  lemma ShardedTraceConserved(cfg: Config, hash: Hasher, events: seq<Event>, id: TraceId)
    ensures var slot := Lookup(ShardedRun(cfg, hash, events).shards[ShardOf(hash, id)], id);
      && slot == Run(cfg, None, OpsOn(events, id))
      && SpansIn(OpsOn(events, id)) == SpansOut(cfg, None, OpsOn(events, id)) + Held(slot)
  {
    ShardsRefineFlatMap(cfg, hash, events);
    FlattenLookup(hash, ShardedRun(cfg, hash, events).shards, id);
    TracesAreIndependent(cfg, events, id);
    SpansConserved(cfg, None, OpsOn(events, id));
    assert Held(None) + SpansIn(OpsOn(events, id)) == SpansIn(OpsOn(events, id));
  }

  /** How often a run made `register_local_root_span` create the entry. */
  function RootInserts(cfg: Config, events: seq<Event>): nat
    decreases |events|
  {
    if events == [] then 0
    else
      var init, last := events[..|events| - 1], events[|events| - 1];
      RootInserts(cfg, init) +
      (if last.On? && last.op.RegisterRoot? && last.id !in FlatRun(cfg, init).traces then 1 else 0)
  }

  lemma PutSize(traces: Traces, id: TraceId, slot: Slot)
    ensures |Put(traces, id, slot)| + (if id in traces then 1 else 0)
         == |traces| + (if slot.Some? then 1 else 0)
  {
    if slot.None? {
      if id in traces {
        assert traces == (traces - {id})[id := traces[id]];
      } else {
        assert traces - {id} == traces;
      }
    } else if id in traces {
      assert traces[id := slot.value].Keys == traces.Keys;
      SizeOfKeys(traces);
      SizeOfKeys(traces[id := slot.value]);
    }
  }

  lemma SizeOfKeys(traces: Traces)
    ensures |traces| == |traces.Keys|
  {
  }

  /** Over any run: segments counted as created, plus entries that
      `register_local_root_span` created uncounted, are the segments counted as
      closed plus the entries that are still there. */
  lemma {:induction false} SegmentsBalance(cfg: Config, events: seq<Event>)
    ensures var s := FlatRun(cfg, events);
      s.ledger.segmentsCreated + RootInserts(cfg, events) == s.ledger.segmentsClosed + |s.traces|
    decreases |events|
  {
    if events != [] {
      var init, last := events[..|events| - 1], events[|events| - 1];
      SegmentsBalance(cfg, init);
      if last.On? {
        var before := FlatRun(cfg, init).traces;
        PutSize(before, last.id, Next(cfg, Lookup(before, last.id), last.op));
      }
    }
  }

  /** Every `finish_span` call is counted once, orphan spans included. */
  function Finishes(events: seq<Event>): nat
    decreases |events|
  {
    if events == [] then 0
    else
      var last := events[|events| - 1];
      Finishes(events[..|events| - 1]) + (if last.On? && last.op.Finish? then 1 else 0)
  }

  lemma {:induction false} FinishesAreCounted(cfg: Config, events: seq<Event>)
    ensures FlatRun(cfg, events).ledger.spansFinished == Finishes(events)
    decreases |events|
  {
    if events != [] {
      FinishesAreCounted(cfg, events[..|events| - 1]);
    }
  }
}
