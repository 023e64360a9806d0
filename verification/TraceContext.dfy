/** The traceparent and tracestate headers: how they are printed and parsed. */
module TraceContext {
  import opened Numbers
  import opened Options
  import opened Bytes
  import opened Text
  import opened Utf8Text
  import opened Sampling
  import opened Context

  const DD_MAX_LENGTH: nat := 256
  const MAX_TAGS_LENGTH: nat := DD_MAX_LENGTH / 2
  const MAX_OTHER_MEMBERS: nat := 31
  const TAG_PREFIX := "_dd.p."
  const LAST_PARENT_ID_KEY := "_dd.parent_id"

  /** What is injected. A HashMap is a map here, and the order in which it
      happens to be iterated a parameter. */
  datatype InjectContext = InjectContext(
    traceId: U128, spanId: U64, sampling: SamplingDecision, origin: Option<string>,
    tags: Tags, isRemote: bool, tracestate: Option<string>)

  ghost predicate IsOrderOf(order: seq<string>, tags: Tags) {
    && (forall i, j :: 0 <= i < j < |order| ==> order[i] != order[j])
    && (forall k :: k in order <==> k in tags)
  }

  /** The keys with the propagation prefix, in order. */
  function Prefixed(order: seq<string>): (r: seq<string>)
    ensures forall i :: 0 <= i < |r| ==> TAG_PREFIX <= r[i] && r[i] in order
  {
    if order == [] then []
    else if TAG_PREFIX <= order[0] then [order[0]] + Prefixed(order[1..])
    else Prefixed(order[1..])
  }

  // ----- Printing: traceparent -----

  function Traceparent(ctx: InjectContext): string {
    var flags := if ctx.sampling.priority.Some? && IsKeep(ctx.sampling.priority.value) then "01" else "00";
    "00-" + Padded(ctx.traceId, 16, 32) + "-" + Padded(ctx.spanId, 16, 16) + "-" + flags
  }

  // ----- Printing: the fields of the Datadog member -----

  predicate IsSuffixByte(b: Byte) {
    0x21 <= b <= 0x2B || 0x2D <= b <= 0x3C || 0x3E <= b <= 0x7E
  }

  predicate IsValueByte(b: Byte) {
    0x20 <= b <= 0x2B || 0x2D <= b <= 0x3A || 0x3C <= b <= 0x7D
  }

  function CleanSuffix(s: string): string {
    MapChars(s, (b: Byte) => !IsSuffixByte(b), '_')
  }

  /** Everything a value may not contain becomes an underscore. */
  function CleanValue(s: string): string {
    MapChars(s, (b: Byte) => !IsValueByte(b), '_')
  }

  function CleanOrigin(s: string): string {
    MapChars(CleanValue(s), (b: Byte) => b == 0x3D, '~')
  }

  // A field of the Datadog member: its key and its printed value.
  type Field = (string, string)

  function Item(f: Field): string {
    f.0 + ":" + f.1
  }

  function Render(fields: seq<Field>): string
    decreases |fields|
  {
    if fields == [] then ""
    else
      var init, last := fields[..|fields| - 1], Item(fields[|fields| - 1]);
      if init == [] then last else Render(init) + ";" + last
  }

  function PriorityField(ctx: InjectContext): Field {
    ("s", PriorityText(if ctx.sampling.priority.Some? then ctx.sampling.priority.value else USER_KEEP))
  }

  function WithOrigin(ctx: InjectContext, fields: seq<Field>): seq<Field> {
    if ctx.origin.None? then fields
    else
      var origin := CleanOrigin(ctx.origin.value);
      if ByteLen(Render(fields)) + 1 + 1 + 1 + ByteLen(origin) < DD_MAX_LENGTH
      then fields + [("o", origin)]
      else fields
  }

  function ParentId(ctx: InjectContext): string {
    if ctx.isRemote && LAST_PARENT_ID_KEY in ctx.tags then ctx.tags[LAST_PARENT_ID_KEY]
    else Padded(ctx.spanId, 16, 16)
  }

  function WithParent(ctx: InjectContext, fields: seq<Field>): seq<Field> {
    if ByteLen(Render(fields)) + 1 + 1 + 1 + 16 < DD_MAX_LENGTH
    then fields + [("p", ParentId(ctx))]
    else fields
  }

  function BaseFields(ctx: InjectContext): seq<Field> {
    WithParent(ctx, WithOrigin(ctx, [PriorityField(ctx)]))
  }

  function TagField(suffix: string, value: string): Field {
    ("t." + CleanSuffix(suffix), EncodeTagValue(CleanValue(value)))
  }

  /** The size of a tag entry, counted the way the code counts it. */
  function EntrySize(suffix: string, value: string): nat {
    1 + 2 + ByteLen(CleanSuffix(suffix)) + 1 + ByteLen(EncodeTagValue(CleanValue(value)))
  }

  /** The tags that are written when `used` bytes are taken already: those with
      the propagation prefix, up to the first that does not fit. */
  function TagFields(tags: Tags, order: seq<string>, used: nat): seq<Field>
    requires forall i :: 0 <= i < |order| ==> order[i] in tags
    decreases |order|
  {
    if order == [] then []
    else
      var key := order[0];
      match StripPrefix(key, TAG_PREFIX)
      case None => TagFields(tags, order[1..], used)
      case Some(suffix) =>
        var size := EntrySize(suffix, tags[key]);
        if used + size > MAX_TAGS_LENGTH then []
        else [TagField(suffix, tags[key])] + TagFields(tags, order[1..], used + size)
  }

  /** The fields of the Datadog member; the tags go as a whole if they do not fit. */
  function Written(ctx: InjectContext, order: seq<string>): seq<Field>
    requires forall i :: 0 <= i < |order| ==> order[i] in ctx.tags
  {
    var fields, tags := BaseFields(ctx), TagFields(ctx.tags, order, 0);
    if tags == [] || ByteLen(Render(fields + tags)) >= DD_MAX_LENGTH then fields else fields + tags
  }

  function OtherMembers(ctx: InjectContext): seq<string> {
    match ctx.tracestate
    case None => []
    case Some(header) =>
      var all := AdditionalValues(header);
      if |all| <= MAX_OTHER_MEMBERS then all else all[..MAX_OTHER_MEMBERS]
  }

  function TracestateHeader(ctx: InjectContext, order: seq<string>): string
    requires forall i :: 0 <= i < |order| ==> order[i] in ctx.tags
  {
    Join(["dd=" + Render(Written(ctx, order))] + OtherMembers(ctx), ',')
  }

  // ----- Printing with one buffer -----

  lemma {:induction false} ByteLenConcat(a: string, b: string)
    ensures ByteLen(a + b) == ByteLen(a) + ByteLen(b)
    decreases |b|
  {
    if b == "" {
      assert a + b == a;
    } else {
      assert (a + b)[..|a + b| - 1] == a + b[..|b| - 1];
      ByteLenConcat(a, b[..|b| - 1]);
    }
  }

  lemma RenderAppend(fields: seq<Field>, f: Field)
    requires fields != []
    ensures Render(fields + [f]) == Render(fields) + ";" + Item(f)
  {
    assert (fields + [f])[..|fields|] == fields;
  }

  function TagText(fields: seq<Field>): string
    decreases |fields|
  {
    if fields == [] then "" else TagText(fields[..|fields| - 1]) + (";" + Item(fields[|fields| - 1]))
  }

  lemma Regroup(a: string, b: string, c: string)
    ensures a + b + c == a + (b + c)
  {
  }

  lemma {:induction false} RenderWithTags(fields: seq<Field>, tags: seq<Field>)
    requires fields != []
    ensures Render(fields + tags) == Render(fields) + TagText(tags)
    decreases |tags|
  {
    if tags == [] {
      assert fields + tags == fields;
    } else {
      var init, last := tags[..|tags| - 1], tags[|tags| - 1];
      RenderWithTags(fields, init);
      assert fields + tags == (fields + init) + [last];
      RenderAppend(fields + init, last);
      Regroup(Render(fields + init), ";", Item(last));
      Regroup(Render(fields), TagText(init), ";" + Item(last));
    }
  }

  lemma TagTextStep(done: seq<Field>, suffix: string, value: string)
    ensures TagText(done + [TagField(suffix, value)]) == TagText(done) + (";" + Item(TagField(suffix, value)))
    ensures ByteLen(TagText(done + [TagField(suffix, value)])) == ByteLen(TagText(done)) + EntrySize(suffix, value)
  {
    var f := TagField(suffix, value);
    assert (done + [f])[..|done|] == done;
    ByteLenConcat(TagText(done), ";" + Item(f));
    EntrySizeIsLength(suffix, value);
  }

  /** The size that is compared with the limit is the length that is written. */
  lemma EntrySizeIsLength(suffix: string, value: string)
    ensures ByteLen(";" + Item(TagField(suffix, value))) == EntrySize(suffix, value)
  {
    hide CleanSuffix, CleanValue, EncodeTagValue, ByteLen;
    var k, v := CleanSuffix(suffix), EncodeTagValue(CleanValue(value));
    assert ";" + Item(TagField(suffix, value)) == ";t." + k + ":" + v;
    ByteLenConcat(";t." + k + ":", v);
    ByteLenConcat(";t." + k, ":");
    ByteLenConcat(";t.", k);
    AsciiByteLen(";t.");
    AsciiByteLen(":");
  }

  lemma TagFieldsStep(tags: Tags, order: seq<string>, i: nat, used: nat)
    requires i < |order| && forall j :: 0 <= j < |order| ==> order[j] in tags
    ensures var stripped, value := StripPrefix(order[i], TAG_PREFIX), tags[order[i]];
      var here, next := TagFields(tags, order[i..], used), order[i + 1..];
      && (stripped.None? ==> here == TagFields(tags, next, used))
      && (stripped.Some? && used + EntrySize(stripped.value, value) > MAX_TAGS_LENGTH ==> here == [])
      && (stripped.Some? && used + EntrySize(stripped.value, value) <= MAX_TAGS_LENGTH ==>
            here == [TagField(stripped.value, value)] + TagFields(tags, next, used + EntrySize(stripped.value, value)))
  {
    assert order[i..][1..] == order[i + 1..];
  }

  lemma PushItem(buffer: string, text: string, f: Field)
    ensures buffer + text + ";" + f.0 + ":" + f.1 == buffer + (text + (";" + Item(f)))
  {
  }

  /** Appends one tag entry, if it still fits behind the entries `done`. */
  method AppendTag(suffix: string, value: string, start: nat, text: string, ghost buffer: string, ghost done: seq<Field>)
    returns (fits: bool, result: string)
    requires text == buffer + TagText(done) && start == ByteLen(buffer)
    ensures fits <==> ByteLen(TagText(done)) + EntrySize(suffix, value) <= MAX_TAGS_LENGTH
    ensures fits ==> result == buffer + TagText(done + [TagField(suffix, value)])
    ensures !fits ==> result == text
  {
    ByteLenConcat(buffer, TagText(done));
    if ByteLen(text) - start + EntrySize(suffix, value) > MAX_TAGS_LENGTH {
      return false, text;
    }
    var f := TagField(suffix, value);
    TagTextStep(done, suffix, value);
    PushItem(buffer, TagText(done), f);
    result := text + ";" + f.0 + ":" + f.1;
    fits := true;
  }

  /** Appends the tag entries to a buffer, which already holds other text. */
  method AppendPropagationTags(tags: Tags, order: seq<string>, buffer: string) returns (result: string)
    requires forall i :: 0 <= i < |order| ==> order[i] in tags
    ensures result == buffer + TagText(TagFields(tags, order, 0))
  {
    hide TagField, EntrySize, TagText, TagFields, ByteLen;
    var start := ByteLen(buffer);
    result := buffer;
    NoTagText();
    ghost var done: seq<Field> := [];
    ghost var rest := TagFields(tags, order, 0);
    ghost var used := 0;
    ghost var all := rest;
    assert order[0..] == order && all == done + rest && buffer + "" == buffer;
    var i := 0;
    while i < |order|
      invariant i <= |order| && used == ByteLen(TagText(done))
      invariant result == buffer + TagText(done)
      invariant all == done + rest && rest == TagFields(tags, order[i..], used)
    {
      var key := order[i];
      TagFieldsStep(tags, order, i, used);
      i := i + 1;
      var stripped := StripPrefix(key, TAG_PREFIX);
      if stripped.Some? {
        var fits;
        TagTextStep(done, stripped.value, tags[key]);
        fits, result := AppendTag(stripped.value, tags[key], start, result, buffer, done);
        if !fits {
          assert done + [] == done;
          return;
        }
        var f := TagField(stripped.value, tags[key]);
        assert rest[..1] == [f] && done + rest == (done + [f]) + rest[1..];
        done, rest := done + [f], rest[1..];
        used := ByteLen(TagText(done));
      }
    }
    assert order[i..] == [] && done + [] == done;
  }

  lemma NoTagText()
    ensures TagText([]) == "" && ByteLen("") == 0
    ensures forall tags, used :: TagFields(tags, [], used) == []
  {
  }

  method PushOrigin(ctx: InjectContext, start: nat, buffer: string, ghost before: string, ghost fields: seq<Field>)
    returns (result: string)
    requires fields != [] && buffer == before + Render(fields) && start == ByteLen(before)
    ensures result == before + Render(WithOrigin(ctx, fields))
  {
    result := buffer;
    if ctx.origin.Some? {
      var origin := CleanOrigin(ctx.origin.value);
      ByteLenConcat(before, Render(fields));
      if ByteLen(buffer) - start + 1 + 1 + 1 + ByteLen(origin) < DD_MAX_LENGTH {
        RenderAppend(fields, ("o", origin));
        PushItem(before, Render(fields), ("o", origin));
        Regroup(Render(fields), ";", Item(("o", origin)));
        result := result + ";" + "o" + ":" + origin;
      }
    }
  }

  method PushParent(ctx: InjectContext, start: nat, buffer: string, ghost before: string, ghost fields: seq<Field>)
    returns (result: string)
    requires fields != [] && buffer == before + Render(fields) && start == ByteLen(before)
    ensures result == before + Render(WithParent(ctx, fields))
  {
    result := buffer;
    ByteLenConcat(before, Render(fields));
    if ByteLen(buffer) - start + 1 + 1 + 1 + 16 < DD_MAX_LENGTH {
      var id := ParentId(ctx);
      RenderAppend(fields, ("p", id));
      PushItem(before, Render(fields), ("p", id));
      Regroup(Render(fields), ";", Item(("p", id)));
      result := result + ";" + "p" + ":" + id;
    }
  }

  /** The fields before the tags, pushed one after the other. */
  method PushBaseFields(ctx: InjectContext, buffer: string) returns (result: string)
    ensures result == buffer + Render(BaseFields(ctx))
  {
    var start := ByteLen(buffer);
    var f := PriorityField(ctx);
    RenderOne(f);
    assert buffer + Item(f) == buffer + "s:" + f.1;
    result := buffer + "s:" + f.1;
    result := PushOrigin(ctx, start, result, buffer, [f]);
    result := PushParent(ctx, start, result, buffer, WithOrigin(ctx, [f]));
  }

  lemma RenderOne(f: Field)
    ensures Render([f]) == Item(f)
  {
    assert [f][..0] == [];
  }

  lemma {:induction false} JoinAppend(parts: seq<string>, sep: char, last: string)
    requires parts != []
    ensures Join(parts + [last], sep) == Join(parts, sep) + [sep] + last
  {
    assert (parts + [last])[..|parts|] == parts;
  }

  lemma DdLengths(fields: seq<Field>, tags: seq<Field>)
    requires fields != []
    ensures "dd=" + Render(fields) + TagText(tags) == "dd=" + Render(fields + tags)
    ensures ByteLen("dd=" + Render(fields + tags)) == 3 + ByteLen(Render(fields + tags))
    ensures ByteLen("dd=" + Render(fields + tags)) == ByteLen("dd=" + Render(fields)) <==> tags == []
  {
    RenderWithTags(fields, tags);
    Regroup("dd=", Render(fields), TagText(tags));
    AsciiByteLen("dd=");
    ByteLenConcat("dd=", Render(fields + tags));
    ByteLenConcat("dd=" + Render(fields), TagText(tags));
    TagTextEmpty(tags);
  }

  method BuildDd(ctx: InjectContext, order: seq<string>) returns (buffer: string)
    requires forall i :: 0 <= i < |order| ==> order[i] in ctx.tags
    ensures buffer == "dd=" + Render(Written(ctx, order))
  {
    ghost var tags := TagFields(ctx.tags, order, 0);
    DdLengths(BaseFields(ctx), tags);
    var beforeTags := PushBaseFields(ctx, "dd=");
    buffer := AppendPropagationTags(ctx.tags, order, beforeTags);
    if ByteLen(buffer) - ByteLen(beforeTags) == 0 || ByteLen(buffer) - 3 >= DD_MAX_LENGTH {
      buffer := beforeTags;
    }
  }

  method InjectTracestate(ctx: InjectContext, order: seq<string>) returns (header: string)
    requires IsOrderOf(order, ctx.tags)
    ensures header == TracestateHeader(ctx, order)
  {
    header := BuildDd(ctx, order);
    header := AppendMembers(header, OtherMembers(ctx));
  }

  method AppendMembers(first: string, others: seq<string>) returns (header: string)
    ensures header == Join([first] + others, ',')
  {
    header := first;
    assert [first] + others[..0] == [first];
    for i := 0 to |others|
      invariant header == Join([first] + others[..i], ',')
    {
      JoinAppend([first] + others[..i], ',', others[i]);
      assert [first] + others[..i + 1] == [first] + others[..i] + [others[i]];
      header := header + "," + others[i];
    }
    assert others[..|others|] == others;
  }

  lemma TagTextEmpty(tags: seq<Field>)
    ensures ByteLen(TagText(tags)) == 0 <==> tags == []
  {
    if tags != [] {
      assert |TagText(tags)| > 0;
    }
  }

  datatype Headers = Headers(traceparent: Option<string>, tracestate: Option<string>)

  /** Nothing is injected for an invalid id pair. */
  method Inject(ctx: InjectContext, order: seq<string>) returns (headers: Headers)
    requires IsOrderOf(order, ctx.tags)
    ensures headers ==
      if ctx.traceId != 0 && ctx.spanId != 0
      then Headers(Some(Traceparent(ctx)), Some(TracestateHeader(ctx, order)))
      else Headers(None, None)
  {
    if ctx.traceId != 0 && ctx.spanId != 0 {
      var tracestate := InjectTracestate(ctx, order);
      headers := Headers(Some(Traceparent(ctx)), Some(tracestate));
    } else {
      headers := Headers(None, None);
    }
  }

  // ----- Parsing: traceparent -----

  datatype ParsedParent = ParsedParent(priority: I8, traceId: U128, spanId: U64)

  function TakeChar(s: string, c: char): Option<string> {
    if s == "" || s[0] != c then None else Some(s[1..])
  }

  predicate IsLowerHex(c: char) {
    '0' <= c <= '9' || 'a' <= c <= 'f'
  }

  function TakeHex(s: string, n: nat): Option<(string, string)> {
    if |s| < n || exists i :: 0 <= i < n && !IsLowerHex(s[i]) then None else Some((s[..n], s[n..]))
  }

  /** A hex number and what follows it and a dash. */
  function TakeHexAndDash(s: string, n: nat): Option<(string, string)> {
    match TakeHex(s, n)
    case None => None
    case Some((hex, rest)) =>
      match TakeChar(rest, '-')
      case None => None
      case Some(after) => Some((hex, after))
  }

  datatype Components = Components(version: string, traceId: string, spanId: string, flags: string, tail: string)

  function ParseComponents(s: string): Option<Components> {
    match TakeHexAndDash(s, 2)
    case None => None
    case Some((version, s1)) =>
      match TakeHexAndDash(s1, 32)
      case None => None
      case Some((traceId, s2)) =>
        match TakeHexAndDash(s2, 16)
        case None => None
        case Some((spanId, s3)) =>
          match TakeHex(s3, 2)
          case None => None
          case Some((flags, s4)) =>
            match (if s4 == "" then Some("") else TakeChar(s4, '-'))
            case None => None
            case Some(tail) => Some(Components(version, traceId, spanId, flags, tail))
  }

  predicate VersionOk(version: string, tail: string, flags: nat) {
    if version == "ff" then false
    else if version == "00" then tail == "" && flags <= 2
    else true
  }

  /** The parsed header, None for every kind of error. */
  function ExtractTraceparent(s: string): Option<ParsedParent> {
    match ParseComponents(s)
    case None => None
    case Some(c) =>
      var traceId := ParseUnsigned(c.traceId, 16, 0xFFFF_FFFF_FFFF_FFFF_FFFF_FFFF_FFFF_FFFF);
      var spanId := ParseUnsigned(c.spanId, 16, 0xFFFF_FFFF_FFFF_FFFF);
      var flags := ParseUnsigned(c.flags, 16, 0xFF);
      if traceId.None? || traceId.value == 0 || spanId.None? || spanId.value == 0 || flags.None?
         || !VersionOk(c.version, c.tail, flags.value)
      then None
      else Some(ParsedParent(if flags.value % 2 == 1 then AUTO_KEEP else AUTO_REJECT, traceId.value, spanId.value))
  }

  // ----- Parsing: the whole context -----

  datatype SpanContext = SpanContext(
    traceId: U128, spanId: U64, sampling: SamplingDecision, origin: Option<string>,
    tags: Tags, isRemote: bool, tracestate: Option<Tracestate>)

  /** The context of a service that passes on what it received. */
  function Relayed(back: SpanContext, inherited: Option<string>): InjectContext {
    InjectContext(back.traceId, back.spanId, back.sampling, back.origin, back.tags, back.isRemote, inherited)
  }

  /** Keeps the tracestate priority if the traceparent agrees with it, else falls
      back to the traceparent and fixes the decision maker. */
  function DefineSamplingPriority(parent: I8, state: Option<I8>, tags: Tags): (I8, Tags) {
    if state.Some? && ((parent == AUTO_KEEP && IsKeep(state.value)) || (parent == AUTO_REJECT && !IsKeep(state.value)))
    then (state.value, tags)
    else if parent == AUTO_KEEP then (parent, tags[DECISION_MAKER_KEY := MechanismText(DEFAULT)])
    else if parent == AUTO_REJECT then (parent, tags - {DECISION_MAKER_KEY})
    else (parent, tags)
  }

  function Internal(k: string): (n: string)
    requires "t." <= k
    ensures TAG_PREFIX <= n && Short(n) == k
  {
    assert "t." + (TAG_PREFIX + k[2..])[6..] == k;
    TAG_PREFIX + k[2..]
  }

  function Short(n: string): string
    requires TAG_PREFIX <= n
  {
    "t." + n[6..]
  }

  lemma ShortThenInternal(n: string)
    requires TAG_PREFIX <= n
    ensures Internal(Short(n)) == n
  {
  }

  /** The tags `t.x` under their internal names `_dd.p.x`. */
  function Renamed(tags: Tags): (r: Tags)
    ensures forall n :: n in r <==> TAG_PREFIX <= n && Short(n) in tags
    ensures forall n :: n in r ==> r[n] == tags[Short(n)]
  {
    assert forall n :: TAG_PREFIX <= n && Short(n) in tags ==>
        n in (set k | k in tags && "t." <= k :: Internal(k)) by {
      forall n | TAG_PREFIX <= n && Short(n) in tags
        ensures n in (set k | k in tags && "t." <= k :: Internal(k)) {
        ShortThenInternal(n);
      }
    }
    map n | n in (set k | k in tags && "t." <= k :: Internal(k)) :: tags[Short(n)]
  }

  /** The tags before the sampling decision is settled. */
  function HeaderTags(parent: string, header: string, state: Tracestate): Tags {
    var tags := map["traceparent" := parent, "tracestate" := header];
    var named := if state.propagationTags.Some? then tags + Renamed(state.propagationTags.value) else tags;
    if state.lowerOrderTraceId.Some? then named[LAST_PARENT_ID_KEY := state.lowerOrderTraceId.value] else named
  }

  function Extracted(headers: Headers): Option<SpanContext> {
    if headers.traceparent.None? then None
    else
      var tp := Trim(headers.traceparent.value);
      match ExtractTraceparent(tp)
      case None => None
      case Some(parent) =>
        var state := if headers.tracestate.Some? then Parsed(headers.tracestate.value) else None;
        match state
        case None =>
          Some(SpanContext(parent.traceId, parent.spanId, SamplingDecision(Some(parent.priority), None), None,
                           map["traceparent" := tp], true, None))
        case Some(st) =>
          var statePriority := if st.sampling.Some? then st.sampling.value.priority else None;
          var (priority, tags) :=
            DefineSamplingPriority(parent.priority, statePriority, HeaderTags(tp, headers.tracestate.value, st));
          var mechanism := if DECISION_MAKER_KEY in tags then ParseMechanism(tags[DECISION_MAKER_KEY]) else None;
          Some(SpanContext(parent.traceId, parent.spanId, SamplingDecision(Some(priority), mechanism), st.origin,
                           tags, true, Some(st)))
  }

  lemma ShortNames(n: string, k: string)
    requires TAG_PREFIX <= n
    ensures Short(n) == k <==> "t." <= k && n == Internal(k)
  {
    ShortThenInternal(n);
  }

  lemma RenameOneMore(done: Tags, k: string, v: string)
    requires k !in done
    ensures "t." <= k ==> Renamed(done[k := v]) == Renamed(done)[Internal(k) := v]
    ensures !("t." <= k) ==> Renamed(done[k := v]) == Renamed(done)
  {
    var before, after := Renamed(done), Renamed(done[k := v]);
    forall n | TAG_PREFIX <= n ensures Short(n) == k <==> "t." <= k && n == Internal(k) {
      ShortNames(n, k);
    }
    if "t." <= k {
      var name := Internal(k);
      SameTags(after, before[name := v]);
    } else {
      SameTags(after, before);
    }
  }

  lemma SameTags(a: Tags, b: Tags)
    requires forall n :: n in a <==> n in b
    requires forall n :: n in a ==> a[n] == b[n]
    ensures a == b
  {
  }

  lemma MergeUpdate(a: Tags, b: Tags, k: string, v: string)
    ensures a + b[k := v] == (a + b)[k := v]
  {
  }

  /** The loop that renames the tags, in whatever order the map yields them. */
  method RenameTags(propagationTags: Tags, tags: Tags) returns (result: Tags)
    ensures result == tags + Renamed(propagationTags)
  {
    result := tags;
    var left := propagationTags.Keys;
    ghost var done: Tags := map[];
    NothingToRename(tags);
    while left != {}
      invariant left <= propagationTags.Keys
      invariant done == propagationTags - left
      invariant result == tags + Renamed(done)
      decreases left
    {
      var k :| k in left;
      var v := propagationTags[k];
      RenameOneMore(done, k, v);
      if "t." <= k {
        MergeUpdate(tags, Renamed(done), Internal(k), v);
        result := result[Internal(k) := v];
      }
      TakeOne(propagationTags, left, k);
      left := left - {k};
      done := done[k := v];
    }
    NoneLeft(propagationTags);
  }

  lemma NothingToRename(tags: Tags)
    ensures tags + Renamed(map[]) == tags
  {
  }

  lemma TakeOne(all: Tags, left: set<string>, k: string)
    requires k in left && left <= all.Keys
    ensures (all - left)[k := all[k]] == all - (left - {k})
  {
  }

  lemma NoneLeft(all: Tags)
    ensures all - {} == all
  {
  }

  method Extract(headers: Headers) returns (context: Option<SpanContext>)
    ensures context == Extracted(headers)
  {
    if headers.traceparent.None? {
      return None;
    }
    var tp := Trim(headers.traceparent.value);
    var parent := ExtractTraceparent(tp);
    if parent.None? {
      return None;
    }
    var tags := map["traceparent" := tp];
    var origin, mechanism, tracestate := None, None, None;
    var priority := parent.value.priority;
    if headers.tracestate.Some? {
      tracestate := FromStr(headers.tracestate.value);
      if tracestate.Some? {
        var st := tracestate.value;
        tags := tags["tracestate" := headers.tracestate.value];
        if st.propagationTags.Some? {
          tags := RenameTags(st.propagationTags.value, tags);
        }
        if st.lowerOrderTraceId.Some? {
          tags := tags[LAST_PARENT_ID_KEY := st.lowerOrderTraceId.value];
        }
        origin := st.origin;
        var statePriority := if st.sampling.Some? then st.sampling.value.priority else None;
        assert tags == HeaderTags(tp, headers.tracestate.value, st);
        var (p, t) := DefineSamplingPriority(priority, statePriority, tags);
        priority, tags := p, t;
        mechanism := if DECISION_MAKER_KEY in tags then ParseMechanism(tags[DECISION_MAKER_KEY]) else None;
      }
    }
    context := Some(SpanContext(parent.value.traceId, parent.value.spanId,
                                SamplingDecision(Some(priority), mechanism), origin, tags, true, tracestate));
  }
}
