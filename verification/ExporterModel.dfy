/** The state that senders, the worker and shutdown waiters of the exporter share
    under one mutex, and what each critical section does to it. */
module ExporterModel {
  import opened Options
  import RegistryModel

  type Span = RegistryModel.Span
  type Chunk = seq<Span>

  datatype Limits = Limits(flushTrigger: nat, maxBuffered: nat)

  datatype Shared = Shared(
    flushNeeded: bool, shutdownNeeded: bool, hasShutdown: bool,
    chunks: seq<Chunk>, spanCount: nat,
    resource: Option<int>,
    spansDropped: nat, spansQueued: nat)

  const INITIAL := Shared(false, false, false, [], 0, None, 0, 0)

  datatype SenderOp = AddChunk(chunk: Chunk) | SetResource(resource: int) | TriggerFlush | TriggerShutdown

  datatype SenderError = AlreadyShutdown | TimedOut | MutexPoisoned | BatchFull(spansDropped: nat)
  datatype SendResult = Ok | Err(error: SenderError)

  datatype Message = FlushTraceChunks | FlushTraceChunksWithTimeout | NewResource(resource: int) | Shutdown

  function Total(chunks: seq<Chunk>): nat
    decreases |chunks|
  {
    if chunks == [] then 0 else Total(chunks[..|chunks| - 1]) + |chunks[|chunks| - 1]|
  }

  // ----- Senders -----

  /** The shared state after a sender's critical section. */
  function Sent(limits: Limits, s: Shared, op: SenderOp): Shared {
    if s.hasShutdown then s
    else
      match op
      case AddChunk(chunk) =>
        if s.spanCount > limits.maxBuffered then
          s.(spansDropped := s.spansDropped + |chunk|)
        else
          var count := s.spanCount + |chunk|;
          s.(chunks := if chunk == [] then s.chunks else s.chunks + [chunk],
             spanCount := count,
             spansQueued := s.spansQueued + |chunk|,
             flushNeeded := s.flushNeeded || count > limits.flushTrigger)
      case SetResource(resource) => s.(resource := Some(resource))
      case TriggerFlush => s.(flushNeeded := true)
      case TriggerShutdown => s.(shutdownNeeded := true)
  }

  function Answer(limits: Limits, s: Shared, op: SenderOp): SendResult {
    if s.hasShutdown then Err(AlreadyShutdown)
    else if op.AddChunk? && s.spanCount > limits.maxBuffered then Err(BatchFull(|op.chunk|))
    else Ok
  }

  /** Whether the sender wakes the sleepers after leaving the critical section. */
  predicate Notifies(limits: Limits, s: Shared, op: SenderOp) {
    && Answer(limits, s, op) == Ok
    && (op.AddChunk? ==> s.spanCount + |op.chunk| > limits.flushTrigger)
  }

  /** The chunk that a critical section added to the batch, if it did. */
  function AcceptedBy(limits: Limits, s: Shared, op: SenderOp): seq<Chunk> {
    if op.AddChunk? && Answer(limits, s, op) == Ok && op.chunk != [] then [op.chunk] else []
  }

  /** The spans that a critical section refused because the buffer was full. */
  function RefusedBy(limits: Limits, s: Shared, op: SenderOp): nat {
    match Answer(limits, s, op)
    case Err(BatchFull(n)) => n
    case _ => 0
  }

  // ----- The receiver -----

  predicate HasWork(s: Shared) {
    s.resource.Some? || s.shutdownNeeded || s.flushNeeded
  }

  function Exported(s: Shared): Shared {
    s.(chunks := [], spanCount := 0)
  }

  datatype Receipt = Receipt(after: Shared, message: Message, batch: seq<Chunk>)

  /** What one look at the shared state returns: a pending resource first, then a
      shutdown, then a flush. */
  function Look(s: Shared): Receipt
    requires HasWork(s)
  {
    if s.resource.Some? then Receipt(s.(resource := None), NewResource(s.resource.value), [])
    else if s.shutdownNeeded then Receipt(Exported(s), Shutdown, s.chunks)
    else Receipt(Exported(s).(flushNeeded := false), FlushTraceChunks, s.chunks)
  }

  /** On timeout the batch is taken without another look at the flags. */
  function TakeOnTimeout(s: Shared): Receipt {
    Receipt(Exported(s), FlushTraceChunksWithTimeout, s.chunks)
  }

  // ----- What every critical section keeps -----

  ghost predicate Consistent(limits: Limits, s: Shared) {
    && s.spanCount == Total(s.chunks)
    && (s.chunks != [] ==> Total(s.chunks[..|s.chunks| - 1]) <= limits.maxBuffered)
    && (forall c :: c in s.chunks ==> c != [])
    && (s.spanCount > limits.flushTrigger ==> s.flushNeeded)
  }

  lemma SameBatchIsConsistent(limits: Limits, s: Shared, t: Shared)
    requires Consistent(limits, s)
    requires t.chunks == s.chunks && t.spanCount == s.spanCount && (s.flushNeeded ==> t.flushNeeded)
    ensures Consistent(limits, t)
  {
  }

  lemma EmptyIsConsistent(limits: Limits, s: Shared)
    requires s.chunks == [] && s.spanCount == 0
    ensures Consistent(limits, s)
  {
  }

  lemma TotalOfOne(op: SenderOp)
    ensures op.AddChunk? ==> Total([op.chunk]) == |op.chunk|
  {
    if op.AddChunk? {
      assert [op.chunk][..0] == [];
    }
  }

  lemma AppendKeepsConsistent(limits: Limits, s: Shared, chunk: Chunk, t: Shared)
    requires Consistent(limits, s) && s.spanCount <= limits.maxBuffered && chunk != []
    requires t.chunks == s.chunks + [chunk] && t.spanCount == s.spanCount + |chunk|
    requires t.flushNeeded <==> s.flushNeeded || t.spanCount > limits.flushTrigger
    ensures Consistent(limits, t)
  {
    assert t.chunks[..|t.chunks| - 1] == s.chunks;
  }

  /** Every critical section of a sender keeps the invariants, appends what it
      accepts and nothing else, and wakes the sleepers whenever it makes work. */
  lemma SentKeepsConsistent(limits: Limits, s: Shared, op: SenderOp)
    requires Consistent(limits, s)
    ensures var after := Sent(limits, s, op);
      && Consistent(limits, after)
      && after.chunks == s.chunks + AcceptedBy(limits, s, op)
      && after.spansQueued == s.spansQueued + Total(AcceptedBy(limits, s, op))
      && after.spansDropped == s.spansDropped + RefusedBy(limits, s, op)
      && (HasWork(after) ==> HasWork(s) || Notifies(limits, s, op))
      && (HasWork(s) ==> HasWork(after))
      && after.hasShutdown == s.hasShutdown
  {
    var after := Sent(limits, s, op);
    assert Consistent(limits, after) by {
      hide Consistent, Total;
      if AcceptedBy(limits, s, op) != [] {
        AppendKeepsConsistent(limits, s, op.chunk, after);
      } else {
        SameBatchIsConsistent(limits, s, after);
      }
    }
    hide Consistent;
    TotalOfOne(op);
  }

  /** A receipt hands out nothing or the whole batch, and the whole batch with the
      Shutdown message; no chunk is in both places and none is lost. */
  lemma ReceiptKeepsConsistent(limits: Limits, s: Shared, r: Receipt)
    requires Consistent(limits, s)
    requires (HasWork(s) && r == Look(s)) || r == TakeOnTimeout(s)
    ensures Consistent(limits, r.after) && r.batch + r.after.chunks == s.chunks
    ensures r.batch == [] || r.after.chunks == []
    ensures r.message.Shutdown? ==> r.after.chunks == []
    ensures r.after.spansQueued == s.spansQueued && r.after.hasShutdown == s.hasShutdown
    ensures r.after.spansDropped == s.spansDropped
  {
    hide Consistent, HasWork;
    assert s.chunks + [] == s.chunks == [] + s.chunks;
    if r.message.NewResource? {
      SameBatchIsConsistent(limits, s, r.after);
    } else {
      EmptyIsConsistent(limits, r.after);
    }
  }

  lemma {:induction false} TotalConcat(a: seq<Chunk>, b: seq<Chunk>)
    ensures Total(a + b) == Total(a) + Total(b)
    decreases |b|
  {
    if b == [] {
      assert a + b == a;
    } else {
      assert (a + b)[..|a + b| - 1] == a + b[..|b| - 1];
      TotalConcat(a, b[..|b| - 1]);
    }
  }
}
