/** How a sampling decision is made, registered for its trace, and reconciled
    with the decision other spans of the trace already took. */
module Sampler {
  import opened Numbers
  import opened Options
  import opened Sampling
  import opened RegistryModel
  import opened RegistryShards
  import opened TraceRegistry
  import RateLimiter
  import RateSampler

  const FLAG_SAMPLED: U8 := 1
  const FLAG_DEFERRED: U8 := 2

  // ----- The Datadog sampler -----

  /** A rule that matched the span: its rate, which may lie outside [0, 1], and
      where it came from. */
  datatype Rule = Rule(sampleRate: real, provenance: string) {
    // The rate sampler that is built with the rule; it clamps the rate.
    predicate Sample(traceId: U128) {
      RateSampler.New(sampleRate).Sample(traceId)
    }
  }

  datatype RootInfo = RootInfo(priority: I8, mechanism: U8, rate: real, limiterRate: Option<int>)
  datatype SamplingOutcome = SamplingOutcome(isKeep: bool, root: Option<RootInfo>)

  function SamplingMechanism(rule: Option<Rule>, usedAgentSampler: bool): U8 {
    match rule
    case Some(r) =>
      if r.provenance == "customer" then REMOTE_USER_TRACE_SAMPLING_RULE
      else if r.provenance == "dynamic" then REMOTE_DYNAMIC_TRACE_SAMPLING_RULE
      else LOCAL_USER_TRACE_SAMPLING_RULE
    case None => if usedAgentSampler then AGENT_RATE_BY_SERVICE else DEFAULT
  }

  class DatadogSampler {
    const limiter: RateLimiter.RateLimiter

    constructor (limiter: RateLimiter.RateLimiter)
      ensures this.limiter == limiter
    {
      this.limiter := limiter;
    }

    /** Samples a span that has no decision to inherit. A matching rule decides,
        then the rate limiter; without a rule the agent's rate for the service
        decides; without either the span is kept. The effective rate that is
        reported for a refusal is truncated to an integer: it is always 0. */
    method SampleRoot(traceId: TraceId, rule: Option<Rule>, service: Option<RateSampler.RateSampler>, now: nat)
      returns (outcome: SamplingOutcome)
      requires limiter.Valid()
      modifies limiter
      ensures limiter.Valid() && outcome.root.Some?
      ensures outcome.root.value.mechanism == SamplingMechanism(rule, rule.None? && service.Some?)
      ensures outcome.root.value.priority == ToPriority(outcome.root.value.mechanism, outcome.isKeep)
      ensures outcome.root.value.rate ==
        if rule.Some? then rule.value.sampleRate
        else if service.Some? then service.value.sampleRate else 1.0
      ensures rule.None? ==> outcome.isKeep == (service.Some? ==> service.value.Sample(traceId))
      ensures rule.Some? && !rule.value.Sample(traceId) ==> !outcome.isKeep
      // A token is asked for exactly if a rule matched and would keep the trace.
      ensures (rule.None? || !rule.value.Sample(traceId)) ==>
        limiter.bucket == old(limiter.bucket) && limiter.counts == old(limiter.counts)
      ensures rule.Some? && rule.value.Sample(traceId) ==>
        && limiter.counts == RateLimiter.Counted(old(limiter.counts), limiter.window, outcome.isKeep, now)
        && (limiter.rateLimit <= 0 ==> outcome.isKeep == (limiter.rateLimit < 0))
        && (limiter.rateLimit > 0 ==>
              (limiter.bucket, outcome.isKeep) == RateLimiter.Request(
                limiter.rateLimit, RateLimiter.Refills(limiter.rateLimit, limiter.window), old(limiter.bucket), now))
      ensures outcome.root.value.limiterRate.Some? <==>
        rule.Some? && rule.value.Sample(traceId) && !outcome.isKeep
      ensures outcome.root.value.limiterRate.Some? ==> outcome.root.value.limiterRate == Some(0)
    {
      var isKeep, usedAgentSampler := true, false;
      var rate;
      var limiterRate := None;
      if rule.Some? {
        rate := rule.value.sampleRate;
        if !rule.value.Sample(traceId) {
          isKeep := false;
        } else {
          var allowed := limiter.IsAllowed(now);
          if !allowed {
            isKeep := false;
            limiterRate := Some(RateLimiter.EffectiveRate(limiter.counts).Floor);
          }
        }
      } else if service.Some? {
        usedAgentSampler := true;
        rate := service.value.sampleRate;
        if !service.value.Sample(traceId) {
          isKeep := false;
        }
      } else {
        rate := 1.0;
      }
      var mechanism := SamplingMechanism(rule, usedAgentSampler);
      outcome := SamplingOutcome(isKeep, Some(RootInfo(ToPriority(mechanism, isKeep), mechanism, rate, limiterRate)));
    }

    method Sample(parentSampled: Option<bool>, traceId: TraceId, rule: Option<Rule>,
                  service: Option<RateSampler.RateSampler>, now: nat)
      returns (outcome: SamplingOutcome)
      requires limiter.Valid()
      modifies limiter
      ensures limiter.Valid()
      ensures parentSampled.Some? ==>
        && outcome == SamplingOutcome(parentSampled.value, None)
        && limiter.bucket == old(limiter.bucket) && limiter.counts == old(limiter.counts)
      ensures parentSampled.None? ==>
        outcome.root.Some? && IsKeep(outcome.root.value.priority) == outcome.isKeep
    {
      if parentSampled.Some? {
        return SamplingOutcome(parentSampled.value, None);
      }
      outcome := SampleRoot(traceId, rule, service, now);
    }
  }

  // ----- What the propagator puts into a context -----

  datatype ExtractData = ExtractData(decision: SamplingDecision, origin: Option<string>, internalTags: Tags)

  /** The part of a parent context that sampling looks at. */
  datatype Parent = Parent(flags: U8, hasActiveSpan: bool, isRemote: bool, extracted: Option<ExtractData>)

  function ExtractTraceFlags(priority: Option<I8>): U8 {
    match priority
    case Some(p) => if IsKeep(p) then FLAG_SAMPLED else 0
    case None => FLAG_DEFERRED
  }

  function RemoteParent(data: ExtractData): Parent {
    Parent(ExtractTraceFlags(data.decision.priority), true, true, Some(data))
  }

  predicate FlagSampled(flags: U8) {
    flags % 2 == 1
  }

  predicate IsDeferred(parent: Option<Parent>) {
    parent.Some? && parent.value.flags == FLAG_DEFERRED
  }

  function ParentSampled(parent: Option<Parent>): Option<bool> {
    if parent.Some? && !IsDeferred(parent) && parent.value.hasActiveSpan
    then Some(FlagSampled(parent.value.flags))
    else None
  }

  /** What is proposed to the registry for the trace. */
  function Proposal(parent: Option<Parent>, root: Option<RootInfo>): Option<PropagationData> {
    if root.Some? then
      var inherited := if IsDeferred(parent) then parent.value.extracted else None;
      var tags := if inherited.Some? then inherited.value.internalTags else map[];
      var origin := if inherited.Some? then inherited.value.origin else None;
      Some(PropagationData(
        SamplingDecision(Some(root.value.priority), Some(root.value.mechanism)),
        origin,
        Some(tags[DECISION_MAKER_KEY := MechanismText(root.value.mechanism)])))
    else if parent.Some? && parent.value.isRemote && parent.value.extracted.Some? then
      var data := parent.value.extracted.value;
      Some(PropagationData(data.decision, data.origin, Some(data.internalTags)))
    else None
  }

  /** What the registry is offered for a root: the decision and, among the tags,
      its mechanism in readable form. A parent whose decision was deferred passes
      on its origin and all its other tags, any other parent none of them. */
  lemma ProposalOfRoot(parent: Option<Parent>, root: RootInfo)
    ensures var data := Proposal(parent, Some(root)).value;
      var inherited := if IsDeferred(parent) then parent.value.extracted else None;
      && data.decision == SamplingDecision(Some(root.priority), Some(root.mechanism))
      && data.tags.Some? && DECISION_MAKER_KEY in data.tags.value
      && ParseMechanism(data.tags.value[DECISION_MAKER_KEY]) == Some(root.mechanism)
      && (forall k :: k != DECISION_MAKER_KEY ==>
            (k in data.tags.value <==> inherited.Some? && k in inherited.value.internalTags))
      && (forall k :: k != DECISION_MAKER_KEY && k in data.tags.value ==>
            data.tags.value[k] == inherited.value.internalTags[k])
      && data.origin == (if inherited.Some? then inherited.value.origin else None)
  {
    hide MechanismText, ParseMechanism;
    SamplingRoundTrip(0, root.mechanism);
  }

  datatype OtelDecision = Drop | RecordOnly | RecordAndSample

  function ToOtel(isKeep: bool): OtelDecision {
    if isKeep then RecordAndSample else RecordOnly
  }

  /** The priority the registry holds for a trace. */
  function RegisteredPriority(registry: Flat, id: TraceId): Option<I8> {
    if id in registry.traces then registry.traces[id].data.decision.priority else None
  }

  /** Parents as the propagator and the SDK build them: a remote parent comes
      from extraction, anything else is a local span or no span at all. */
  ghost predicate WellBuilt(parent: Parent) {
    if parent.isRemote then parent.extracted.Some? && parent == RemoteParent(parent.extracted.value)
    else !parent.hasActiveSpan ==> parent.flags == 0
  }

  ghost predicate HasLocalParent(parent: Option<Parent>) {
    parent.Some? && parent.value.hasActiveSpan && !parent.value.isRemote
  }

  /** The outcomes the Datadog sampler can produce for a parent. */
  ghost predicate PossibleOutcome(parent: Option<Parent>, outcome: SamplingOutcome) {
    match ParentSampled(parent)
    case Some(isSampled) => outcome == SamplingOutcome(isSampled, None)
    case None => outcome.root.Some? && IsKeep(outcome.root.value.priority) == outcome.isKeep
  }

  /** The registry and the decision after a span of the trace `id` was sampled. */
  function Decided(config: Config, registry: Flat, parent: Option<Parent>, id: TraceId, outcome: SamplingOutcome)
    : (Flat, OtelDecision)
  {
    match Proposal(parent, outcome.root)
    case Some(data) =>
      var after := FlatNext(config, registry, On(id, RegisterData(data)));
      (match Answer(Lookup(registry.traces, id))
       case Existing(d) => (after, ToOtel(d.priority.None? || IsKeep(d.priority.value)))
       case New => (after, ToOtel(outcome.isKeep)))
    case None => (registry, ToOtel(outcome.isKeep))
  }

  /** A local parent whose sampled bit agrees with the registered decision. */
  ghost predicate InLine(parent: Parent, registry: Flat, id: TraceId) {
    var priority := RegisteredPriority(registry, id);
    priority.Some? && FlagSampled(parent.flags) == IsKeep(priority.value)
  }

  /** For a root, for a parent built by the propagator, and for a local parent in
      line with the registry, the span is to be sampled exactly when the registry
      holds a keep priority for the trace afterwards. */
  lemma DecisionMatchesRegistry(config: Config, registry: Flat, parent: Option<Parent>, id: TraceId, outcome: SamplingOutcome)
    requires parent.Some? ==> WellBuilt(parent.value)
    requires HasLocalParent(parent) ==> InLine(parent.value, registry, id)
    requires PossibleOutcome(parent, outcome)
    ensures var (after, decision) := Decided(config, registry, parent, id, outcome);
      RegisteredPriority(after, id).Some? &&
      decision == ToOtel(IsKeep(RegisteredPriority(after, id).value))
  {
  }

  // ----- One decision per trace -----

  /** What happens to a trace: one of its spans is sampled, or the registry is
      used in any other way, for this trace or others. */
  datatype Step = Sampled(parent: Option<Parent>, outcome: SamplingOutcome) | Used(event: Event)

  datatype History = History(registry: Flat, decisions: seq<OtelDecision>)

  function Play(config: Config, id: TraceId, start: Flat, steps: seq<Step>): History
    decreases |steps|
  {
    if steps == [] then History(start, [])
    else
      var h := Play(config, id, start, steps[..|steps| - 1]);
      match steps[|steps| - 1]
      case Sampled(parent, outcome) =>
        var (after, decision) := Decided(config, h.registry, parent, id, outcome);
        History(after, h.decisions + [decision])
      case Used(event) => h.(registry := FlatNext(config, h.registry, event))
  }

  /** A parent of a span of this trace: none, one from the propagator, or a local
      span whose sampled bit the SDK set from its decision earlier in the trace. */
  ghost predicate ParentOf(parent: Option<Parent>, h: History) {
    && (parent.Some? ==> WellBuilt(parent.value))
    && (HasLocalParent(parent) ==>
          exists j :: 0 <= j < |h.decisions| &&
            FlagSampled(parent.value.flags) == (h.decisions[j] == RecordAndSample))
  }

  /** The trace starts with a decision, every span has such a parent, and the
      entry of the trace lives from then on. */
  ghost predicate OneSegment(config: Config, id: TraceId, start: Flat, steps: seq<Step>)
    decreases |steps|
  {
    steps != [] ==>
      var init, last := steps[..|steps| - 1], steps[|steps| - 1];
      var h := Play(config, id, start, init);
      && OneSegment(config, id, start, init)
      && (last.Sampled? ==> ParentOf(last.parent, h) && PossibleOutcome(last.parent, last.outcome))
      && (h.decisions != [] ==> id in Play(config, id, start, steps).registry.traces)
  }

  lemma EventKeepsPriority(config: Config, registry: Flat, id: TraceId, event: Event)
    requires RegisteredPriority(registry, id).Some?
    requires id in FlatNext(config, registry, event).traces
    ensures RegisteredPriority(FlatNext(config, registry, event), id) == RegisteredPriority(registry, id)
  {
  }

  ghost predicate Unanimous(h: History, id: TraceId) {
    h.decisions != [] ==>
      var priority := RegisteredPriority(h.registry, id);
      priority.Some? && forall d :: d in h.decisions ==> d == ToOtel(IsKeep(priority.value))
  }

  /** While its entry lives, all spans of a trace get the same decision: roots,
      spans with remote parents and every local descendant alike, whatever the
      rules, rates and limits answered for each of them. */
  lemma {:induction false} OneDecisionPerTrace(config: Config, id: TraceId, start: Flat, steps: seq<Step>)
    requires OneSegment(config, id, start, steps)
    ensures Unanimous(Play(config, id, start, steps), id)
    decreases |steps|
  {
    if steps != [] {
      var init, last := steps[..|steps| - 1], steps[|steps| - 1];
      var h := Play(config, id, start, init);
      OneDecisionPerTrace(config, id, start, init);
      match last
      case Used(event) =>
        if h.decisions != [] {
          EventKeepsPriority(config, h.registry, id, event);
        }
      case Sampled(parent, outcome) =>
        SampledKeepsUnanimity(config, id, h, parent, outcome);
    }
  }

  lemma SampledKeepsUnanimity(config: Config, id: TraceId, h: History, parent: Option<Parent>, outcome: SamplingOutcome)
    requires Unanimous(h, id) && ParentOf(parent, h) && PossibleOutcome(parent, outcome)
    ensures var (after, decision) := Decided(config, h.registry, parent, id, outcome);
      Unanimous(History(after, h.decisions + [decision]), id)
  {
    if HasLocalParent(parent) {
      var j :| 0 <= j < |h.decisions| &&
        FlagSampled(parent.value.flags) == (h.decisions[j] == RecordAndSample);
      assert h.decisions[j] in h.decisions;
    }
    DecisionMatchesRegistry(config, h.registry, parent, id, outcome);
    var (after, decision) := Decided(config, h.registry, parent, id, outcome);
    var all := h.decisions + [decision];
    assert h.decisions != [] ==> RegisteredPriority(after, id) == RegisteredPriority(h.registry, id);
    assert forall d :: d in all ==> d in h.decisions || d == decision;
  }

  // ----- The sampler the SDK calls -----

  class Sampler {
    const enabled: bool
    const sampler: DatadogSampler
    const registry: TraceRegistry

    ghost predicate Valid()
      reads this, sampler, sampler.limiter, registry, registry.inner
    {
      sampler.limiter.Valid() && registry.Valid()
    }

    constructor (enabled: bool, sampler: DatadogSampler, registry: TraceRegistry)
      requires sampler.limiter.Valid() && registry.Valid()
      ensures Valid() && this.enabled == enabled && this.sampler == sampler && this.registry == registry
    {
      this.enabled := enabled;
      this.sampler := sampler;
      this.registry := registry;
    }

    /** A disabled sampler drops every span; otherwise the span takes the step
        that `OneDecisionPerTrace` is about. */
    method ShouldSample(parent: Option<Parent>, id: TraceId, rule: Option<Rule>,
                        service: Option<RateSampler.RateSampler>, now: nat)
      returns (decision: OtelDecision, ghost outcome: SamplingOutcome)
      requires Valid()
      modifies sampler.limiter, registry.inner
      ensures Valid()
      ensures !enabled ==> decision == Drop && registry.Value() == old(registry.Value())
      ensures enabled ==> PossibleOutcome(parent, outcome)
      ensures enabled ==>
        (registry.Value(), decision) == Decided(registry.config, old(registry.Value()), parent, id, outcome)
    {
      hide Flatten, Placed, FlatNext;
      if !enabled {
        return Drop, SamplingOutcome(false, None);
      }
      var result := sampler.Sample(ParentSampled(parent), id, rule, service, now);
      outcome := result;
      var proposal := Proposal(parent, result.root);
      if proposal.Some? {
        var answer := registry.RegisterLocalRootTracePropagationData(id, proposal.value);
        if answer.Existing? {
          var registered := answer.decision.priority;
          return ToOtel(registered.None? || IsKeep(registered.value)), outcome;
        }
      }
      return ToOtel(result.isKeep), outcome;
    }
  }
}
