/** The `x-datadog-*` headers: how they are printed and parsed. */
module DatadogHeaders {
  import opened Numbers
  import opened Options
  import opened Bytes
  import opened Text
  import opened Utf8Text
  import opened Sampling
  import opened Context
  import opened TraceContext

  const TRACE_ID_KEY := "x-datadog-trace-id"
  const PARENT_ID_KEY := "x-datadog-parent-id"
  const ORIGIN_KEY := "x-datadog-origin"
  const PRIORITY_KEY := "x-datadog-sampling-priority"
  const TAGS_KEY := "x-datadog-tags"
  const HIGHER_BITS_KEY := "_dd.p.tid"
  const ERROR_KEY := "_dd.propagation_error"
  const MAX_U64 := 0xFFFF_FFFF_FFFF_FFFF

  type Carrier = map<string, string>

  // ----- 128 bits as two halves -----

  function LowerBits(traceId: U128): U64 {
    traceId % TWO_64
  }

  function HigherBits(traceId: U128): Option<U64> {
    var higher := traceId / TWO_64;
    if higher > 0 then Some(higher) else None
  }

  function CombineTraceId(lower: U64, higherHex: Option<string>): (r: U128)
    ensures LowerBits(r) == lower
  {
    if higherHex.None? then lower
    else
      match ParseUnsigned(higherHex.value, 16, MAX_U64)
      case Some(higher) => higher * TWO_64 + lower
      case None => lower
  }

  // ----- Printing -----

  /** The tag map once the higher half and the mechanism are in it. */
  function WithTid(tags: Tags, traceId: U128): Tags {
    match HigherBits(traceId)
    case Some(higher) => tags[HIGHER_BITS_KEY := Padded(higher, 16, 16)]
    case None => tags - {HIGHER_BITS_KEY}
  }

  function WithMechanism(tags: Tags, mechanism: Option<U8>): Tags {
    match mechanism
    case Some(m) => tags[DECISION_MAKER_KEY := MechanismText(m)]
    case None => tags
  }

  function Prepared(tags: Tags, traceId: U128, mechanism: Option<U8>): Tags {
    WithMechanism(WithTid(tags, traceId), mechanism)
  }

  predicate IsKeyTailByte(b: Byte) {
    '!' as int <= b <= '+' as int || '-' as int <= b <= '~' as int
  }

  predicate IsTagValueByte(b: Byte) {
    ' ' as int <= b <= '+' as int || '-' as int <= b <= '~' as int
  }

  predicate ValidTagKey(key: string) {
    match StripPrefix(key, TAG_PREFIX)
    case Some(tail) => forall b :: b in Utf8(tail) ==> IsKeyTailByte(b)
    case None => false
  }

  predicate ValidTagValue(value: string) {
    forall b :: b in Utf8(value) ==> IsTagValueByte(b)
  }

  function Entry(tags: Tags, key: string): string
    requires key in tags
  {
    key + "=" + tags[key]
  }

  function Entries(tags: Tags, keys: seq<string>): (r: seq<string>)
    requires forall k :: k in keys ==> k in tags
    ensures |r| == |keys| && forall i :: 0 <= i < |r| ==> r[i] == Entry(tags, keys[i])
  {
    seq(|keys|, i requires 0 <= i < |keys| => Entry(tags, keys[i]))
  }

  /** The size as it is computed before anything is printed. */
  function TotalSize(tags: Tags, keys: seq<string>): nat
    requires forall k :: k in keys ==> k in tags
    decreases |keys|
  {
    if keys == [] then 0
    else
      var n := |keys| - 1;
      TotalSize(tags, keys[..n]) + (ByteLen(keys[n]) + ByteLen(tags[keys[n]]) + 1 + if n == 0 then 0 else 1)
  }

  datatype Result<+T> = Ok(value: T) | Err(message: string)

  predicate AllValid(tags: Tags, keys: seq<string>)
    requires forall k :: k in keys ==> k in tags
  {
    forall k :: k in keys ==> ValidTagKey(k) && ValidTagValue(tags[k])
  }

  /** What goes into the tags header: all propagation tags, or an error. */
  function PropagationTags(tags: Tags, order: seq<string>, maxLength: nat): Result<string>
    requires forall k :: k in order ==> k in tags
  {
    var keys := Prefixed(order);
    if maxLength == 0 then Err("disabled")
    else if TotalSize(tags, keys) > maxLength then Err("inject_max_size")
    else if !AllValid(tags, keys) then Err("encoding_error")
    else Ok(Join(Entries(tags, keys), ','))
  }

  function CarrierAfter(carrier: Carrier, ctx: InjectContext, printed: Result<string>): Carrier {
    var ids := carrier[TRACE_ID_KEY := Digits(LowerBits(ctx.traceId), 10)][PARENT_ID_KEY := Digits(ctx.spanId, 10)];
    var origin := if ctx.origin.Some? then ids[ORIGIN_KEY := ctx.origin.value] else ids;
    var sampling := if ctx.sampling.priority.Some?
                    then origin[PRIORITY_KEY := PriorityText(ctx.sampling.priority.value)] else origin;
    if printed.Ok? && printed.value != "" then sampling[TAGS_KEY := printed.value] else sampling
  }

  function TagsAfter(prepared: Tags, printed: Result<string>): Tags {
    if printed.Err? then prepared[ERROR_KEY := printed.message] else prepared
  }

  class HeaderCarrier {
    var headers: Carrier

    constructor ()
      ensures headers == map[]
    {
      headers := map[];
    }

    method Set(key: string, value: string)
      modifies this
      ensures headers == old(headers)[key := value]
    {
      headers := headers[key := value];
    }

    function Get(key: string): Option<string>
      reads this
    {
      Find(headers, key)
    }
  }

  lemma OneMoreKey(tags: Tags, keys: seq<string>, i: nat)
    requires i < |keys| && forall k :: k in keys ==> k in tags
    ensures AllValid(tags, keys[..i + 1]) <==>
      AllValid(tags, keys[..i]) && ValidTagKey(keys[i]) && ValidTagValue(tags[keys[i]])
    ensures AllValid(tags, keys) ==> ValidTagKey(keys[i]) && ValidTagValue(tags[keys[i]])
    ensures var before, after := Entries(tags, keys[..i]), Entries(tags, keys[..i + 1]);
      after == before + [Entry(tags, keys[i])]
    ensures Join(Entries(tags, keys[..i + 1]), ',') ==
      (if i == 0 then "" else Join(Entries(tags, keys[..i]), ',') + ",") + keys[i] + "=" + tags[keys[i]]
    ensures TotalSize(tags, keys[..i + 1]) ==
      TotalSize(tags, keys[..i]) + (ByteLen(keys[i]) + ByteLen(tags[keys[i]]) + 1 + if i == 0 then 0 else 1)
  {
    hide ValidTagKey, ValidTagValue;
    assert keys[..i + 1][..i] == keys[..i];
    var before, after := Entries(tags, keys[..i]), Entries(tags, keys[..i + 1]);
    assert after == before + [Entry(tags, keys[i])];
    if i > 0 {
      JoinAppend(before, ',', Entry(tags, keys[i]));
      assert Join(before, ',') + [','] + (keys[i] + "=" + tags[keys[i]]) ==
        (Join(before, ',') + ",") + keys[i] + "=" + tags[keys[i]];
    } else {
      assert after == [Entry(tags, keys[i])];
      assert "" + keys[i] + "=" + tags[keys[i]] == Entry(tags, keys[i]);
    }
  }

  /** Two passes over the tags: one for the size, one that prints. */
  method GetPropagationTags(tags: Tags, order: seq<string>, maxLength: nat) returns (result: Result<string>)
    requires maxLength > 0 && forall k :: k in order ==> k in tags
    ensures result == PropagationTags(tags, order, maxLength)
  {
    hide AllValid, Join, Entries, TotalSize;
    var keys := Prefixed(order);
    var totalSize := 0;
    OnNoKeys(tags, keys);
    for i := 0 to |keys|
      invariant totalSize == TotalSize(tags, keys[..i])
    {
      OneMoreKey(tags, keys, i);
      totalSize := totalSize + (ByteLen(keys[i]) + ByteLen(tags[keys[i]]) + 1 + if i == 0 then 0 else 1);
    }
    assert keys[..|keys|] == keys;
    if totalSize > maxLength {
      return Err("inject_max_size");
    }
    var text := "";
    for i := 0 to |keys|
      invariant AllValid(tags, keys[..i])
      invariant text == Join(Entries(tags, keys[..i]), ',')
    {
      var key, value := keys[i], tags[keys[i]];
      OneMoreKey(tags, keys, i);
      if !ValidTagKey(key) || !ValidTagValue(value) {
        return Err("encoding_error");
      }
      if i != 0 {
        text := text + ",";
      }
      text := text + key + "=" + value;
    }
    result := Ok(text);
  }

  lemma OnNoKeys(tags: Tags, keys: seq<string>)
    requires forall k :: k in keys ==> k in tags
    ensures keys[..0] == [] && TotalSize(tags, []) == 0 && AllValid(tags, [])
    ensures Join(Entries(tags, []), ',') == ""
  {
  }

  /** The context that is injected; its tag map is updated on the way. */
  class InjectSpanContext {
    const ctx: InjectContext
    var tags: Tags

    constructor (ctx: InjectContext)
      ensures this.ctx == ctx && tags == ctx.tags
    {
      this.ctx := ctx;
      tags := ctx.tags;
    }

    method InjectTraceId(carrier: HeaderCarrier)
      modifies this, carrier
      ensures tags == WithTid(old(tags), ctx.traceId)
      ensures carrier.headers == old(carrier.headers)[TRACE_ID_KEY := Digits(LowerBits(ctx.traceId), 10)]
    {
      carrier.Set(TRACE_ID_KEY, Digits(LowerBits(ctx.traceId), 10));
      var higher := HigherBits(ctx.traceId);
      if higher.Some? {
        tags := tags[HIGHER_BITS_KEY := Padded(higher.value, 16, 16)];
      } else {
        tags := tags - {HIGHER_BITS_KEY};
      }
    }

    method InjectSampling(carrier: HeaderCarrier)
      modifies this, carrier
      ensures tags == WithMechanism(old(tags), ctx.sampling.mechanism)
      ensures carrier.headers ==
        if ctx.sampling.priority.Some?
        then old(carrier.headers)[PRIORITY_KEY := PriorityText(ctx.sampling.priority.value)]
        else old(carrier.headers)
    {
      if ctx.sampling.priority.Some? {
        carrier.Set(PRIORITY_KEY, PriorityText(ctx.sampling.priority.value));
      }
      if ctx.sampling.mechanism.Some? {
        tags := tags[DECISION_MAKER_KEY := MechanismText(ctx.sampling.mechanism.value)];
      }
    }

    method InjectTags(carrier: HeaderCarrier, order: seq<string>, maxLength: nat)
      requires forall k :: k in order ==> k in tags
      modifies this, carrier
      ensures var printed := PropagationTags(old(tags), order, maxLength);
        && tags == TagsAfter(old(tags), printed)
        && carrier.headers == if printed.Ok? && printed.value != ""
                              then old(carrier.headers)[TAGS_KEY := printed.value] else old(carrier.headers)
    {
      if maxLength == 0 {
        tags := tags[ERROR_KEY := "disabled"];
        return;
      }
      var printed := GetPropagationTags(tags, order, maxLength);
      if printed.Ok? {
        if printed.value != "" {
          carrier.Set(TAGS_KEY, printed.value);
        }
      } else {
        tags := tags[ERROR_KEY := printed.message];
      }
    }

    /** `order` is the order in which the prepared tag map is iterated. */
    method Inject(carrier: HeaderCarrier, order: seq<string>, maxLength: nat)
      requires IsOrderOf(order, Prepared(tags, ctx.traceId, ctx.sampling.mechanism))
      modifies this, carrier
      ensures var prepared := Prepared(old(tags), ctx.traceId, ctx.sampling.mechanism);
        var printed := PropagationTags(prepared, order, maxLength);
        && tags == TagsAfter(prepared, printed)
        && carrier.headers == CarrierAfter(old(carrier.headers), ctx, printed)
    {
      InjectTraceId(carrier);
      carrier.Set(PARENT_ID_KEY, Digits(ctx.spanId, 10));
      if ctx.origin.Some? {
        carrier.Set(ORIGIN_KEY, ctx.origin.value);
      }
      InjectSampling(carrier);
      InjectTags(carrier, order, maxLength);
    }
  }

  // ----- Parsing -----

  /** The low half of the trace id; None if it is missing, no number or zero. */
  function ExtractTraceId(carrier: Carrier): Option<U64> {
    match Find(carrier, TRACE_ID_KEY)
    case None => None
    case Some(text) =>
      var id := ParseUnsigned(text, 10, MAX_U64);
      if id.None? || id.value == 0 then None else Some(id.value)
  }

  function ExtractParentId(carrier: Carrier): U64 {
    match Find(carrier, PARENT_ID_KEY)
    case None => 0
    case Some(text) =>
      var id := ParseUnsigned(text, 10, MAX_U64);
      if id.Some? then id.value else 0
  }

  function ExtractPriority(carrier: Carrier): Option<I8> {
    match Find(carrier, PRIORITY_KEY)
    case None => None
    case Some(text) => ParsePriority(text)
  }

  /** A `key=value` pair with the propagation prefix. */
  function ParsePair(pair: string): Option<(string, string)> {
    match SplitOnce(pair, '=')
    case None => None
    case Some(kv) => if TAG_PREFIX <= kv.0 then Some(kv) else None
  }

  function CollectPairs(pairs: seq<string>): Tags
    decreases |pairs|
  {
    if pairs == [] then map[]
    else
      var n := |pairs| - 1;
      var init, last := CollectPairs(pairs[..n]), ParsePair(pairs[n]);
      if last.Some? then init[last.value.0 := last.value.1] else init
  }

  predicate HigherBitsValid(text: string) {
    ByteLen(text) == 16 && ParseUnsigned(text, 16, MAX_U64).Some?
  }

  function CheckTid(tags: Tags): Tags {
    if HIGHER_BITS_KEY in tags && !HigherBitsValid(tags[HIGHER_BITS_KEY])
    then tags[ERROR_KEY := "malformed_tid " + tags[HIGHER_BITS_KEY]] - {HIGHER_BITS_KEY}
    else tags
  }

  predicate DecisionValid(text: string) {
    var m := ParseSigned(text, -128, 127);
    m.Some? && m.value <= 0
  }

  function CheckDecision(tags: Tags): Tags {
    if DECISION_MAKER_KEY in tags && !DecisionValid(tags[DECISION_MAKER_KEY])
    then (tags - {DECISION_MAKER_KEY})[ERROR_KEY := "decoding_error"]
    else tags
  }

  function ExtractedTags(carrier: Carrier, maxLength: nat): Tags {
    var text := if TAGS_KEY in carrier then carrier[TAGS_KEY] else "";
    if ByteLen(text) > maxLength
    then map[ERROR_KEY := if maxLength == 0 then "disabled" else "extract_max_size"]
    else CheckDecision(CheckTid(CollectPairs(Split(text, ','))))
  }

  function ExtractedContext(carrier: Carrier, maxLength: nat): Option<SpanContext> {
    match ExtractTraceId(carrier)
    case None => None
    case Some(lower) =>
      var tags := ExtractedTags(carrier, maxLength);
      var priority := ExtractPriority(carrier);
      var mechanism := if priority.Some? && DECISION_MAKER_KEY in tags
                       then ParseMechanism(tags[DECISION_MAKER_KEY]) else None;
      Some(SpanContext(CombineTraceId(lower, Find(tags, HIGHER_BITS_KEY)), ExtractParentId(carrier),
                       SamplingDecision(priority, mechanism), Find(carrier, ORIGIN_KEY), tags, true, None))
  }

  method ValidateSamplingDecision(tags: Tags) returns (result: Tags)
    ensures result == CheckDecision(tags)
  {
    result := tags;
    var shouldRemove := false;
    if DECISION_MAKER_KEY in tags {
      var m := ParseSigned(tags[DECISION_MAKER_KEY], -128, 127);
      shouldRemove := m.None? || m.value > 0;
    }
    if shouldRemove {
      result := result - {DECISION_MAKER_KEY};
      result := result[ERROR_KEY := "decoding_error"];
    }
  }

  method ExtractTags(carrier: HeaderCarrier, maxLength: nat) returns (tags: Tags)
    ensures tags == ExtractedTags(carrier.headers, maxLength)
  {
    var found := carrier.Get(TAGS_KEY);
    var text := if found.Some? then found.value else "";
    if ByteLen(text) > maxLength {
      return map[ERROR_KEY := if maxLength == 0 then "disabled" else "extract_max_size"];
    }
    tags := map[];
    var pairs := Split(text, ',');
    for i := 0 to |pairs|
      invariant tags == CollectPairs(pairs[..i])
    {
      assert pairs[..i + 1][..i] == pairs[..i];
      var kv := SplitOnce(pairs[i], '=');
      if kv.Some? {
        if TAG_PREFIX <= kv.value.0 {
          tags := tags[kv.value.0 := kv.value.1];
        }
      }
    }
    assert pairs[..|pairs|] == pairs;
    if HIGHER_BITS_KEY in tags {
      var bits := tags[HIGHER_BITS_KEY];
      if !HigherBitsValid(bits) {
        tags := tags[ERROR_KEY := "malformed_tid " + bits];
        tags := tags - {HIGHER_BITS_KEY};
      }
    }
    tags := ValidateSamplingDecision(tags);
  }

  method ExtractContext(carrier: HeaderCarrier, maxLength: nat) returns (context: Option<SpanContext>)
    ensures context == ExtractedContext(carrier.headers, maxLength)
  {
    var lower := ExtractTraceId(carrier.headers);
    if lower.None? {
      return None;
    }
    var tags := ExtractTags(carrier, maxLength);
    var sampling := SamplingDecision(None, None);
    var priority := ExtractPriority(carrier.headers);
    if priority.Some? {
      var mechanism := if DECISION_MAKER_KEY in tags then ParseMechanism(tags[DECISION_MAKER_KEY]) else None;
      sampling := SamplingDecision(priority, mechanism);
    }
    context := Some(SpanContext(CombineTraceId(lower.value, Find(tags, HIGHER_BITS_KEY)),
                                ExtractParentId(carrier.headers), sampling, carrier.Get(ORIGIN_KEY), tags, true, None));
  }
}
