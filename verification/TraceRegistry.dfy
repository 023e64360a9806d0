/** The registry objects: one map behind one lock, and 64 of them behind a hash. */
module TraceRegistry {
  import opened Options
  import opened Sampling
  import opened RegistryModel
  import opened RegistryShards

  datatype RegisterResult = Existing(decision: SamplingDecision) | New

  /** One operation on the shard of its trace is one operation on the abstract registry. */
  lemma OneShard(config: Config, hash: Hasher, shards: seq<Traces>, counts: seq<Metrics>, id: TraceId, op: Op)
    requires Placed(hash, shards) && |counts| == SHARDS
    ensures Lookup(Flatten(shards), id) == Lookup(shards[ShardOf(hash, id)], id)
    ensures Placed(hash, ShardsAfter(config, hash, shards, id, op))
    ensures Flat(Flatten(ShardsAfter(config, hash, shards, id, op)), Sum(CountsAfter(config, hash, shards, counts, id, op)))
         == FlatNext(config, Flat(Flatten(shards), Sum(counts)), On(id, op))
  {
    var k := ShardOf(hash, id);
    var slot := Lookup(shards[k], id);
    FlattenLookup(hash, shards, id);
    PutInShard(hash, shards, id, Next(config, slot, op));
    SumUpdate(counts, k, Counted(config, slot, op));
  }

  function ShardsAfter(config: Config, hash: Hasher, shards: seq<Traces>, id: TraceId, op: Op): seq<Traces>
    requires |shards| == SHARDS
  {
    var k := ShardOf(hash, id);
    shards[k := Put(shards[k], id, Next(config, Lookup(shards[k], id), op))]
  }

  function CountsAfter(config: Config, hash: Hasher, shards: seq<Traces>, counts: seq<Metrics>, id: TraceId, op: Op): seq<Metrics>
    requires |shards| == |counts| == SHARDS
  {
    var k := ShardOf(hash, id);
    counts[k := counts[k].Plus(Counted(config, Lookup(shards[k], id), op))]
  }

  /** What registering propagation data answers: the decision already taken for
      the trace, if there is one. */
  function Answer(slot: Slot): RegisterResult {
    if slot.Some? && slot.value.data.decision.priority.Some?
    then Existing(slot.value.data.decision)
    else New
  }

  class InnerTraceRegistry {
    const config: Config
    var registry: Traces
    var metrics: Metrics

    constructor (config: Config)
      ensures this.config == config && registry == map[] && metrics == NO_METRICS
    {
      this.config := config;
      registry := map[];
      metrics := NO_METRICS;
    }

    /** The registry after one operation on the trace `id`. */
    twostate predicate Did(id: TraceId, op: Op)
      reads this
    {
      var slot := Lookup(old(registry), id);
      && registry == Put(old(registry), id, Next(config, slot, op))
      && metrics == old(metrics).Plus(Counted(config, slot, op))
    }

    method RegisterLocalRootTracePropagationData(id: TraceId, data: PropagationData)
      returns (result: RegisterResult)
      modifies this
      ensures Did(id, RegisterData(data))
      ensures result == Answer(Lookup(old(registry), id))
    {
      if id in registry {
        var trace := registry[id];
        if trace.data.decision.priority.Some? {
          result := Existing(trace.data.decision);
          assert registry[id := trace] == registry;
        } else {
          registry := registry[id := trace.(data := data)];
          result := New;
        }
      } else {
        registry := registry[id := Trace(NO_SPAN, [], 1, data)];
        metrics := metrics.(segmentsCreated := metrics.segmentsCreated + 1);
        metrics := metrics.(spansCreated := metrics.spansCreated + 1);
        result := New;
      }
    }

    method RegisterLocalRootSpan(id: TraceId, rootId: SpanId)
      modifies this
      ensures Did(id, RegisterRoot(rootId))
    {
      if id !in registry {
        registry := registry[id := Trace(NO_SPAN, [], 1, EMPTY_PROPAGATION_DATA)];
      }
      var trace := registry[id];
      if trace.root == NO_SPAN {
        registry := registry[id := trace.(root := rootId)];
      } else {
        assert registry[id := trace] == registry;
      }
    }

    method RegisterSpan(id: TraceId, spanId: SpanId, data: PropagationData)
      modifies this
      ensures Did(id, Op.RegisterSpan(spanId, data))
    {
      if id !in registry {
        metrics := metrics.(segmentsCreated := metrics.segmentsCreated + 1);
        registry := registry[id := Trace(spanId, [], 0, data)];
      }
      var trace := registry[id];
      registry := registry[id := trace.(open := trace.open + 1)];
      metrics := metrics.(spansCreated := metrics.spansCreated + 1);
    }

    method FinishSpan(id: TraceId, span: Span) returns (chunk: Option<Trace>)
      modifies this
      ensures Did(id, Finish(span))
      ensures chunk == Returned(config, Lookup(old(registry), id), Finish(span))
    {
      metrics := metrics.(spansFinished := metrics.spansFinished + 1);
      if id !in registry {
        metrics := metrics.(segmentsCreated := metrics.segmentsCreated + 1);
        metrics := metrics.(segmentsClosed := metrics.segmentsClosed + 1);
        assert registry - {id} == registry;
        return Some(Trace(span.id, [span], 0, EMPTY_PROPAGATION_DATA));
      }
      var trace := registry[id];
      var last := span;
      if trace.finished != [] && span.id == trace.root {
        last := trace.finished[0];
        trace := trace.(finished := trace.finished[0 := span]);
      }
      trace := trace.(finished := trace.finished + [last]);
      trace := trace.(open := if trace.open == 0 then 0 else trace.open - 1);
      if config.partialFlush && |trace.finished| >= config.minSpans {
        metrics := metrics.(partialFlushes := metrics.partialFlushes + 1);
        registry := registry[id := trace.(finished := [])];
        chunk := Some(trace);
      } else if trace.open == 0 {
        registry := registry - {id};
        metrics := metrics.(segmentsClosed := metrics.segmentsClosed + 1);
        chunk := Some(trace);
      } else {
        registry := registry[id := trace];
        chunk := None;
      }
    }

    function GetTracePropagationData(id: TraceId): (data: PropagationData)
      reads this
    {
      if id in registry then registry[id].data else EMPTY_PROPAGATION_DATA
    }

    /** Reading the metrics empties them. */
    method GetMetrics() returns (m: Metrics)
      modifies this
      ensures m == old(metrics) && metrics == NO_METRICS && registry == old(registry)
    {
      m := metrics;
      metrics := NO_METRICS;
    }
  }

  lemma SumStep(counts: seq<Metrics>, i: nat)
    requires i < |counts|
    ensures Sum(counts[..0]) == NO_METRICS
    ensures Sum(counts[..i + 1]) == Sum(counts[..i]).Plus(counts[i])
  {
    assert counts[..i + 1][..i] == counts[..i];
  }

  class TraceRegistry {
    const inner: seq<InnerTraceRegistry>
    const hash: Hasher
    const config: Config

    ghost predicate Valid()
      reads this, inner
    {
      && |inner| == SHARDS
      && (forall i, j :: 0 <= i < j < SHARDS ==> inner[i] != inner[j])
      && (forall i :: 0 <= i < SHARDS ==> inner[i].config == config)
      && Placed(hash, Shards())
    }

    ghost function Shards(): (r: seq<Traces>)
      reads this, inner
      ensures |r| == |inner| && forall i :: 0 <= i < |inner| ==> r[i] == inner[i].registry
    {
      seq(|inner|, i requires 0 <= i < |inner| reads inner => inner[i].registry)
    }

    ghost function Counters(): (r: seq<Metrics>)
      reads this, inner
      ensures |r| == |inner| && forall i :: 0 <= i < |inner| ==> r[i] == inner[i].metrics
    {
      seq(|inner|, i requires 0 <= i < |inner| reads inner => inner[i].metrics)
    }

    /** The abstract registry this object stands for, counting since the last drain. */
    ghost function Value(): Flat
      reads this, inner
    {
      Flat(Flatten(Shards()), Sum(Counters()))
    }

    constructor (config: Config, hash: Hasher)
      ensures Valid() && fresh(inner) && this.config == config && this.hash == hash
      ensures Value() == Flat(map[], NO_METRICS)
    {
      hide Metrics.Plus, Sum, Flatten;
      this.config := config;
      this.hash := hash;
      var shards: seq<InnerTraceRegistry> := [];
      while |shards| < SHARDS
        invariant |shards| <= SHARDS && fresh(shards)
        invariant forall i, j :: 0 <= i < j < |shards| ==> shards[i] != shards[j]
        invariant forall i :: 0 <= i < |shards| ==>
          shards[i].config == config && shards[i].registry == map[] && shards[i].metrics == NO_METRICS
      {
        var shard := new InnerTraceRegistry(config);
        shards := shards + [shard];
      }
      inner := shards;
      new;
      EmptyTraces(Shards());
      NothingCounted(Counters());
    }

    method GetShard(id: TraceId) returns (shard: InnerTraceRegistry)
      requires Valid()
      ensures shard == inner[ShardOf(hash, id)]
    {
      shard := inner[hash(id) % SHARDS];
    }

    method RegisterLocalRootTracePropagationData(id: TraceId, data: PropagationData)
      returns (result: RegisterResult)
      requires Valid()
      modifies inner
      ensures Valid() && Value() == FlatNext(config, old(Value()), On(id, RegisterData(data)))
      ensures result == Answer(Lookup(old(Value()).traces, id))
    {
      ghost var shards, counts := Shards(), Counters();
      OneShard(config, hash, shards, counts, id, RegisterData(data));
      var shard := GetShard(id);
      result := shard.RegisterLocalRootTracePropagationData(id, data);
      assert Shards() == ShardsAfter(config, hash, shards, id, RegisterData(data));
      assert Counters() == CountsAfter(config, hash, shards, counts, id, RegisterData(data));
    }

    method RegisterLocalRootSpan(id: TraceId, rootId: SpanId)
      requires Valid()
      modifies inner
      ensures Valid() && Value() == FlatNext(config, old(Value()), On(id, RegisterRoot(rootId)))
    {
      ghost var shards, counts := Shards(), Counters();
      OneShard(config, hash, shards, counts, id, RegisterRoot(rootId));
      var shard := GetShard(id);
      shard.RegisterLocalRootSpan(id, rootId);
      assert Shards() == ShardsAfter(config, hash, shards, id, RegisterRoot(rootId));
      assert Counters() == CountsAfter(config, hash, shards, counts, id, RegisterRoot(rootId));
    }

    method RegisterSpan(id: TraceId, spanId: SpanId, data: PropagationData)
      requires Valid()
      modifies inner
      ensures Valid() && Value() == FlatNext(config, old(Value()), On(id, Op.RegisterSpan(spanId, data)))
    {
      ghost var shards, counts := Shards(), Counters();
      OneShard(config, hash, shards, counts, id, Op.RegisterSpan(spanId, data));
      var shard := GetShard(id);
      shard.RegisterSpan(id, spanId, data);
      assert Shards() == ShardsAfter(config, hash, shards, id, Op.RegisterSpan(spanId, data));
      assert Counters() == CountsAfter(config, hash, shards, counts, id, Op.RegisterSpan(spanId, data));
    }

    method FinishSpan(id: TraceId, span: Span) returns (chunk: Option<Trace>)
      requires Valid()
      modifies inner
      ensures Valid() && Value() == FlatNext(config, old(Value()), On(id, Finish(span)))
      ensures chunk == Returned(config, Lookup(old(Value()).traces, id), Finish(span))
    {
      ghost var shards, counts := Shards(), Counters();
      OneShard(config, hash, shards, counts, id, Finish(span));
      var shard := GetShard(id);
      chunk := shard.FinishSpan(id, span);
      assert Shards() == ShardsAfter(config, hash, shards, id, Finish(span));
      assert Counters() == CountsAfter(config, hash, shards, counts, id, Finish(span));
    }

    method GetTracePropagationData(id: TraceId) returns (data: PropagationData)
      requires Valid()
      ensures var slot := Lookup(Value().traces, id);
        data == if slot.Some? then slot.value.data else EMPTY_PROPAGATION_DATA
    {
      var shard := GetShard(id);
      FlattenLookup(hash, Shards(), id);
      data := shard.GetTracePropagationData(id);
    }

    /** The announced local root of a live trace. */
    method GetLocalRootSpanId(id: TraceId) returns (rootId: Option<SpanId>)
      requires Valid()
      ensures var slot := Lookup(Value().traces, id);
        rootId == if slot.Some? && slot.value.root != NO_SPAN then Some(slot.value.root) else None
    {
      var shard := GetShard(id);
      FlattenLookup(hash, Shards(), id);
      if id in shard.registry && shard.registry[id].root != NO_SPAN {
        rootId := Some(shard.registry[id].root);
      } else {
        rootId := None;
      }
    }

    /** Drains shard after shard. */
    method DrainShards() returns (stats: Metrics)
      requires Valid()
      modifies inner
      ensures forall i :: 0 <= i < SHARDS ==>
        inner[i].registry == old(inner[i].registry) && inner[i].metrics == NO_METRICS
      ensures stats == Sum(old(Counters()))
    {
      hide Flatten, Placed, Sum, Metrics.Plus;
      stats := NO_METRICS;
      ghost var counts := Counters();
      SumStep(counts, 0);
      for i := 0 to SHARDS
        invariant forall j :: 0 <= j < SHARDS ==> inner[j].registry == old(inner[j].registry)
        invariant forall j :: i <= j < SHARDS ==> inner[j].metrics == counts[j]
        invariant forall j :: 0 <= j < i ==> inner[j].metrics == NO_METRICS
        invariant stats == Sum(counts[..i])
      {
        var m := inner[i].GetMetrics();
        stats := stats.Plus(m);
        SumStep(counts, i);
      }
      assert counts[..SHARDS] == counts;
    }

    /** Nothing that was counted is lost or counted twice. */
    method GetMetrics() returns (stats: Metrics)
      requires Valid()
      modifies inner
      ensures Valid() && stats == old(Value()).ledger
      ensures Value() == Flat(old(Value()).traces, NO_METRICS)
    {
      hide Flatten, Placed, Sum, Metrics.Plus;
      stats := DrainShards();
      assert Shards() == old(Shards());
      NothingCounted(Counters());
    }
  }
}
