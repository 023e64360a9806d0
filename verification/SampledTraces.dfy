/** What a sampling decision leaves in the registry, and what is exported with the
    spans of the trace. */
module SampledTraces {
  import opened Options
  import opened Sampling
  import opened Context
  import opened RegistryModel
  import opened RegistryLifecycle
  import opened RegistryContents
  import opened RegistryShards
  import opened Sampler

  /** The propagation data the registry holds for a trace. */
  function RegisteredData(registry: Flat, id: TraceId): Option<PropagationData> {
    if id in registry.traces then Some(registry.traces[id].data) else None
  }

  /** A decision that came with a remote parent is registered for a trace that has
      none yet, and with it all that the parent brought: mechanism, origin and tags.
      The span follows the decision. */
  lemma RemoteDecisionIsRegistered(config: Config, registry: Flat, data: ExtractData, id: TraceId, outcome: SamplingOutcome)
    requires RegisteredPriority(registry, id).None? && data.decision.priority.Some?
    requires PossibleOutcome(Some(RemoteParent(data)), outcome)
    ensures var (after, decision) := Decided(config, registry, Some(RemoteParent(data)), id, outcome);
      var registered := RegisteredData(after, id);
      && registered.Some?
      && registered.value.decision.priority == data.decision.priority
      && registered.value.decision.mechanism == data.decision.mechanism
      && registered.value.origin == data.origin
      && registered.value.tags.Some?
      && (forall k :: Find(registered.value.tags.value, k) == Find(data.internalTags, k))
      && decision == (if IsKeep(data.decision.priority.value) then RecordAndSample else RecordOnly)
  {
  }

  /** The sampler's own decision is registered for a trace that has none yet, for a
      root and for a parent that left the decision open. Only the latter passes on
      its origin, and its tags other than the decision maker, which names the
      mechanism. */
  lemma OwnDecisionIsRegistered(config: Config, registry: Flat, parent: Option<Parent>, id: TraceId, outcome: SamplingOutcome)
    requires RegisteredPriority(registry, id).None? && outcome.root.Some?
    ensures var (after, decision) := Decided(config, registry, parent, id, outcome);
      var registered, inherited := RegisteredData(after, id), if IsDeferred(parent) then parent.value.extracted else None;
      var tags := if inherited.Some? then inherited.value.internalTags else map[];
      && registered.Some?
      && registered.value.decision.priority == Some(outcome.root.value.priority)
      && registered.value.decision.mechanism == Some(outcome.root.value.mechanism)
      && registered.value.origin == (if inherited.Some? then inherited.value.origin else None)
      && registered.value.tags.Some?
      && (forall k :: k != DECISION_MAKER_KEY ==> Find(registered.value.tags.value, k) == Find(tags, k))
      && Find(registered.value.tags.value, DECISION_MAKER_KEY) == Some(MechanismText(outcome.root.value.mechanism))
      && decision == (if outcome.isKeep then RecordAndSample else RecordOnly)
  {
    hide MechanismText;
  }

  /** A decision that is registered stays, with everything that came with it,
      whatever parents and outcomes come later; a span with a local parent does
      not touch the registry at all. */
  lemma RegisteredDataStay(config: Config, registry: Flat, parent: Option<Parent>, id: TraceId, outcome: SamplingOutcome)
    ensures var after := Decided(config, registry, parent, id, outcome).0;
      && (RegisteredPriority(registry, id).Some? ==> after.traces == registry.traces)
      && (HasLocalParent(parent) && PossibleOutcome(parent, outcome) && !IsDeferred(parent) ==> after == registry)
  {
    if RegisteredPriority(registry, id).Some? {
      assert registry.traces[id := registry.traces[id]] == registry.traces;
    }
  }

  /** The entry of the trace is there after every step. */
  ghost predicate EntryLives(config: Config, id: TraceId, start: Flat, steps: seq<Step>)
    decreases |steps|
  {
    && id in Play(config, id, start, steps).registry.traces
    && (steps != [] ==> EntryLives(config, id, start, steps[..|steps| - 1]))
  }

  lemma EventKeepsData(config: Config, registry: Flat, id: TraceId, event: Event)
    requires RegisteredPriority(registry, id).Some? && id in FlatNext(config, registry, event).traces
    ensures RegisteredData(FlatNext(config, registry, event), id) == RegisteredData(registry, id)
  {
    hide Pushed, Counted;
  }

  lemma {:induction false} DataStay(config: Config, id: TraceId, start: Flat, steps: seq<Step>)
    requires RegisteredPriority(start, id).Some? && EntryLives(config, id, start, steps)
    ensures RegisteredData(Play(config, id, start, steps).registry, id) == RegisteredData(start, id)
    decreases |steps|
  {
    hide Decided, FlatNext, PossibleOutcome, HasLocalParent, IsDeferred;
    if steps != [] {
      var init, last := steps[..|steps| - 1], steps[|steps| - 1];
      DataStay(config, id, start, init);
      var before := Play(config, id, start, init).registry;
      match last
      case Sampled(parent, outcome) => RegisteredDataStay(config, before, parent, id, outcome);
      case Used(event) => EventKeepsData(config, before, id, event);
    }
  }

  /** From a trace that was continued from a remote service, every chunk is exported
      with the sampling decision, the origin and the tags of that service: whatever
      spans start and finish, locally or with remote parents of their own, as long
      as the entry lives. */
  lemma RemoteContextIsExported(config: Config, registry: Flat, data: ExtractData, id: TraceId, outcome: SamplingOutcome,
                                steps: seq<Step>, span: Span)
    requires RegisteredPriority(registry, id).None? && data.decision.priority.Some?
    requires PossibleOutcome(Some(RemoteParent(data)), outcome)
    requires EntryLives(config, id, Decided(config, registry, Some(RemoteParent(data)), id, outcome).0, steps)
    ensures var start := Decided(config, registry, Some(RemoteParent(data)), id, outcome).0;
      var chunk := Returned(config, Lookup(Play(config, id, start, steps).registry.traces, id), Finish(span));
      chunk.Some? ==> chunk.value.data == PropagationData(data.decision, data.origin, Some(data.internalTags))
  {
    hide Finished, Decided, PossibleOutcome;
    var start := Decided(config, registry, Some(RemoteParent(data)), id, outcome).0;
    RemoteDecisionIsRegistered(config, registry, data, id, outcome);
    SameByFind(RegisteredData(start, id).value.tags.value, data.internalTags);
    DataStay(config, id, start, steps);
    var slot := Lookup(Play(config, id, start, steps).registry.traces, id);
    if Returned(config, slot, Finish(span)).Some? {
      ChunkCarriesEntry(config, slot, Finish(span));
    }
  }

  /** The mechanism of the sampler's own decision and the priorities it can bring:
      rules are named by their provenance and decide with the user's priorities,
      the agent's rates and the default with the automatic ones. */
  lemma RootDecision(rule: Option<Rule>, hasService: bool, isKeep: bool)
    ensures var mechanism := SamplingMechanism(rule, rule.None? && hasService);
      && ToPriority(mechanism, isKeep) ==
           (if rule.Some? then (if isKeep then 2 else -1) else (if isKeep then 1 else 0))
      && MechanismText(mechanism) ==
           (if rule.None? then (if hasService then "-1" else "-0")
            else if rule.value.provenance == "customer" then "-11"
            else if rule.value.provenance == "dynamic" then "-12" else "-3")
  {
    TwoDigits();
  }
}
