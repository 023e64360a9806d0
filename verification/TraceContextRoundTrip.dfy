/** Parsing undoes printing: what W3C extraction gives back of an injected context. */
module TraceContextRoundTrip {
  import opened Numbers
  import opened Options
  import opened Bytes
  import opened Text
  import opened Utf8Text
  import opened Sampling
  import opened Context
  import opened TraceContext
  import opened TraceContextLaws

  // ----- traceparent -----

  lemma TakeHexPrefix(hex: string, rest: string)
    requires forall c :: c in hex ==> c in "0123456789abcdef"
    ensures TakeHex(hex + rest, |hex|) == Some((hex, rest))
    ensures TakeHexAndDash(hex + "-" + rest, |hex|) == Some((hex, rest))
  {
    var s, t := hex + rest, hex + ("-" + rest);
    assert hex + "-" + rest == t;
    assert forall i :: 0 <= i < |hex| ==> s[i] == t[i] == hex[i] && hex[i] in hex;
    assert s[..|hex|] == hex && s[|hex|..] == rest;
    assert t[..|hex|] == hex && t[|hex|..] == "-" + rest;
    assert ("-" + rest)[1..] == rest;
  }

  lemma ComponentsOf(traceId: string, spanId: string, flags: string)
    requires |traceId| == 32 && forall c :: c in traceId ==> c in "0123456789abcdef"
    requires |spanId| == 16 && forall c :: c in spanId ==> c in "0123456789abcdef"
    requires |flags| == 2 && forall c :: c in flags ==> c in "0123456789abcdef"
    ensures ParseComponents("00-" + traceId + "-" + spanId + "-" + flags) ==
      Some(Components("00", traceId, spanId, flags, ""))
  {
    hide TakeHex, TakeHexAndDash;
    var s3 := flags + "";
    var s2 := spanId + "-" + flags;
    var s1 := traceId + "-" + s2;
    assert "00-" + traceId + "-" + spanId + "-" + flags == "00" + "-" + s1;
    assert s3 == flags;
    TakeHexPrefix("00", s1);
    TakeHexPrefix(traceId, s2);
    TakeHexPrefix(spanId, flags);
    TakeHexPrefix(flags, "");
  }

  lemma TrimKeeps(s: string)
    requires s != "" && !IsWhitespace(s[0]) && !IsWhitespace(s[|s| - 1])
    ensures Trim(s) == s
  {
  }

  function FlagsText(ctx: InjectContext): string {
    if ctx.sampling.priority.Some? && IsKeep(ctx.sampling.priority.value) then "01" else "00"
  }

  lemma FlagsValue()
    ensures ParseUnsigned("01", 16, 0xFF) == Some(1) && ParseUnsigned("00", 16, 0xFF) == Some(0)
  {
    PowerOf16();
    assert Padded(1, 16, 2) == "01" && Padded(0, 16, 2) == "00" by {
      assert 1 / 16 == 0 && 0 / 16 == 0;
      assert Padded(0, 16, 1) == "0" && Padded(1, 16, 1) == "1";
    }
    ParsePadded(1, 2, 0xFF);
    ParsePadded(0, 2, 0xFF);
  }

  /** Sections 3.2.2.3 and 3.2.2.4 of W3C Trace Context: both ids survive, and the
      sampled flag says whether the context has a priority that keeps. */
  lemma TraceparentRoundTrip(ctx: InjectContext)
    requires ctx.traceId != 0 && ctx.spanId != 0
    ensures Trim(Traceparent(ctx)) == Traceparent(ctx)
    ensures ExtractTraceparent(Traceparent(ctx)) == Some(ParsedParent(
      if ctx.sampling.priority.Some? && IsKeep(ctx.sampling.priority.value) then AUTO_KEEP else AUTO_REJECT,
      ctx.traceId, ctx.spanId))
  {
    hide ParseComponents, ParseUnsigned, Padded;
    var traceId, spanId, flags := Padded(ctx.traceId, 16, 32), Padded(ctx.spanId, 16, 16), FlagsText(ctx);
    PowerOf16();
    PaddedValue(ctx.traceId, 16, 32);
    PaddedValue(ctx.spanId, 16, 16);
    ParsePadded(ctx.traceId, 32, 0xFFFF_FFFF_FFFF_FFFF_FFFF_FFFF_FFFF_FFFF);
    ParsePadded(ctx.spanId, 16, 0xFFFF_FFFF_FFFF_FFFF);
    FlagsValue();
    ComponentsOf(traceId, spanId, flags);
    var s := "00-" + traceId + "-" + spanId + "-" + flags;
    assert s[0] == '0' && s[|s| - 1] == flags[1];
    TrimKeeps(s);
  }

  // ----- The Datadog member -----

  ghost predicate DistinctKeys(fields: seq<Field>) {
    forall i, j :: 0 <= i < j < |fields| ==> fields[i].0 != fields[j].0
  }

  lemma {:induction false} FieldMapLookup(fields: seq<Field>, i: nat)
    requires DistinctKeys(fields) && i < |fields|
    ensures fields[i].0 in FieldMap(fields)
    ensures FieldMap(fields)[fields[i].0] == DecodeTagValue(fields[i].1)
    decreases |fields|
  {
    if i < |fields| - 1 {
      FieldMapLookup(fields[..|fields| - 1], i);
    }
  }

  lemma {:induction false} FieldMapKeys(fields: seq<Field>, k: string)
    ensures k in FieldMap(fields) ==> exists i :: 0 <= i < |fields| && fields[i].0 == k
    decreases |fields|
  {
    if fields != [] {
      FieldMapKeys(fields[..|fields| - 1], k);
    }
  }

  lemma SectionKeys(tags: Tags, keys: seq<string>)
    requires KeysOk(tags, keys)
    requires forall i, j :: 0 <= i < j < |keys| ==> CleanSuffix(Suffix(keys[i])) != CleanSuffix(Suffix(keys[j]))
    ensures DistinctKeys(SectionOf(tags, keys))
    ensures forall i :: 0 <= i < |keys| ==> "t." <= SectionOf(tags, keys)[i].0
  {
    hide CleanSuffix, CleanValue, EncodeTagValue;
    var section := SectionOf(tags, keys);
    forall i | 0 <= i < |section|
      ensures section[i].0 == "t." + CleanSuffix(Suffix(keys[i])) && section[i].0[2..] == CleanSuffix(Suffix(keys[i])) {
    }
  }

  lemma WrittenKeys(ctx: InjectContext, order: seq<string>)
    requires IsOrderOf(order, ctx.tags) && PlainTags(order)
    ensures DistinctKeys(Written(ctx, order)) && Written(ctx, order) != []
  {
    hide EntrySize, BaseFields, Render, TagText, ByteLen, CleanSuffix, CleanValue, TagField, Written, SectionOf,
      DistinctKeys;
    var keys := Prefixed(order)[..TagCount(ctx, order)];
    TagSection(ctx, order);
    BaseKeys(ctx);
    SectionKeys(ctx.tags, keys);
    DistinctConcat(BaseFields(ctx), SectionOf(ctx.tags, keys));
  }

  lemma DistinctConcat(base: seq<Field>, section: seq<Field>)
    requires forall i, j :: 0 <= i < j < |base| ==> base[i].0 != base[j].0
    requires forall i :: 0 <= i < |base| ==> base[i].0 in ["s", "o", "p"]
    requires DistinctKeys(section) && forall i :: 0 <= i < |section| ==> "t." <= section[i].0
    ensures DistinctKeys(base + section)
  {
  }

  lemma SeenKeys(fields: seq<Field>)
    requires DistinctKeys(fields)
    ensures DistinctKeys(Seen(fields))
  {
  }

  ghost predicate EndsPlainly(ctx: InjectContext, order: seq<string>)
    requires IsOrderOf(order, ctx.tags)
  {
    var w := Written(ctx, order);
    TrimEnd(w[|w| - 1].1) == w[|w| - 1].1
  }

  lemma DecodeKeepsLength(s: string)
    ensures |DecodeTagValue(s)| == |s|
  {
  }

  /** Parsing the printed member gives back the map of the written fields exactly
      when the value printed last does not end in a blank, which parsing trims. */
  lemma MemberReadsBackExactly(ctx: InjectContext, order: seq<string>)
    requires PlainParent(ctx) && IsOrderOf(order, ctx.tags) && PlainTags(order)
    ensures ParseDd(Render(Written(ctx, order))) == FieldMap(Written(ctx, order)) <==> EndsPlainly(ctx, order)
  {
    hide Render, ParseDd, Written, FieldMap;
    var w := Written(ctx, order);
    WrittenFieldsParse(ctx, order);
    WrittenKeys(ctx, order);
    SeenKeys(w);
    var n := |w| - 1;
    FieldMapLookup(w, n);
    FieldMapLookup(Seen(w), n);
    DecodeKeepsLength(w[n].1);
    DecodeKeepsLength(TrimEnd(w[n].1));
    if EndsPlainly(ctx, order) {
      assert Seen(w) == w;
    } else {
      TrimEndIsPrefix(w[n].1);
      assert |TrimEnd(w[n].1)| < |w[n].1|;
    }
  }

  // ----- What the fields say -----

  lemma CleanValueComesBack(s: string)
    ensures DecodeTagValue(EncodeTagValue(CleanValue(s))) == CleanValue(s)
    ensures DecodeTagValue(CleanOrigin(s)) == CleanValue(s)
  {
    hide CleanValue, CleanOrigin;
    CleanValueAlphabet(s);
    TagValueRoundTrip(CleanValue(s));
    OriginIsEncoded(s);
  }

  lemma BaseReadsBack(ctx: InjectContext)
    requires PlainParent(ctx)
    ensures var m := FieldMap(BaseFields(ctx));
      && Find(m, "s") == Some(PriorityField(ctx).1)
      && Find(m, "o") == (if OriginFits(ctx) then Some(CleanValue(ctx.origin.value)) else None)
      && Find(m, "p") == (if ParentFits(ctx) then Some(ParentId(ctx)) else None)
      && m.Keys <= {"s", "o", "p"}
  {
    hide CleanOrigin, PriorityField, Render, ParentId, CleanValue, ByteLen, PlainParent;
    var f := PriorityField(ctx);
    PriorityFieldOk(ctx);
    var f1 := WithOrigin(ctx, [f]);
    assert DecodeTagValue(f.1) == f.1 by {
      PriorityHasNoTilde(ctx);
    }
    assert ParentFits(ctx) ==> DecodeTagValue(ParentId(ctx)) == ParentId(ctx) by {
      if ParentFits(ctx) {
        ParentHasNoTilde(ctx);
      }
    }
    hide DecodeTagValue;
    if ctx.origin.Some? {
      CleanValueComesBack(ctx.origin.value);
    }
    assert [f][..0] == [] && FieldMap([f]) == map["s" := f.1];
    if OriginFits(ctx) {
      assert f1[..1] == [f];
    }
    if ParentFits(ctx) {
      assert BaseFields(ctx)[..|f1|] == f1;
    }
  }

  lemma PriorityHasNoTilde(ctx: InjectContext)
    ensures '~' !in PriorityField(ctx).1
  {
    PriorityTextOk(if ctx.sampling.priority.Some? then ctx.sampling.priority.value else USER_KEEP);
  }

  lemma ParentHasNoTilde(ctx: InjectContext)
    requires PlainParent(ctx) && ParentFits(ctx)
    ensures '~' !in ParentId(ctx)
  {
  }

  function PriorityMeant(ctx: InjectContext): I8 {
    if ctx.sampling.priority.Some? then ctx.sampling.priority.value else USER_KEEP
  }

  /** The keys of the tags that are written. */
  ghost function Surviving(ctx: InjectContext, order: seq<string>): (keys: seq<string>)
    requires IsOrderOf(order, ctx.tags)
    ensures KeysOk(ctx.tags, keys)
  {
    Prefixed(order)[..TagCount(ctx, order)]
  }

  /** The tags of these keys, the way they arrive: names and values sanitised. */
  ghost predicate TagsArrive(found: Tags, tags: Tags, keys: seq<string>)
    requires KeysOk(tags, keys)
  {
    && (forall i :: 0 <= i < |keys| ==>
          && "t." + CleanSuffix(Suffix(keys[i])) in found
          && found["t." + CleanSuffix(Suffix(keys[i]))] == CleanValue(tags[keys[i]]))
    && (forall k :: k in found ==> exists i :: 0 <= i < |keys| && k == "t." + CleanSuffix(Suffix(keys[i])))
  }

  lemma {:induction false} FieldMapConcat(a: seq<Field>, b: seq<Field>)
    ensures FieldMap(a + b) == FieldMap(a) + FieldMap(b)
    decreases |b|
  {
    if b == [] {
      assert a + b == a;
    } else {
      assert (a + b)[..|a + b| - 1] == a + b[..|b| - 1];
      FieldMapConcat(a, b[..|b| - 1]);
    }
  }

  lemma {:induction false} SectionArrives(tags: Tags, keys: seq<string>)
    requires KeysOk(tags, keys)
    requires DistinctKeys(SectionOf(tags, keys))
    ensures TagsArrive(FieldMap(SectionOf(tags, keys)), tags, keys)
  {
    hide FieldMap, CleanSuffix, CleanValue, DecodeTagValue, EncodeTagValue;
    var fields := SectionOf(tags, keys);
    var found := FieldMap(fields);
    forall i | 0 <= i < |keys|
      ensures var k := "t." + CleanSuffix(Suffix(keys[i])); k in found && found[k] == CleanValue(tags[keys[i]]) {
      FieldMapLookup(fields, i);
      CleanValueComesBack(tags[keys[i]]);
    }
    forall k | k in found ensures exists i :: 0 <= i < |keys| && k == "t." + CleanSuffix(Suffix(keys[i])) {
      FieldMapKeys(fields, k);
      var i :| 0 <= i < |fields| && fields[i].0 == k;
      assert k == "t." + CleanSuffix(Suffix(keys[i]));
    }
  }

  lemma MapsApart(base: Tags, section: Tags)
    requires base.Keys <= {"s", "o", "p"} && forall k :: k in section ==> "t." <= k
    ensures forall k :: k in ["s", "o", "p"] ==> Find(base + section, k) == Find(base, k)
    ensures (base + section) - {"s", "o", "p"} == section
  {
  }

  /** Parsing the printed member returns the priority, the sanitised origin and
      the parent id if they fitted, and exactly the tags that were written, under
      their sanitised names with their sanitised values. */
  lemma FieldsReadBack(ctx: InjectContext, order: seq<string>)
    requires PlainParent(ctx) && IsOrderOf(order, ctx.tags) && PlainTags(order) && EndsPlainly(ctx, order)
    ensures var state := DdFields(ParseDd(Render(Written(ctx, order))));
      && state.sampling.Some? && state.propagationTags.Some?
      && state.sampling.value.priority == Some(PriorityMeant(ctx))
      && state.origin == (if OriginFits(ctx) then Some(CleanValue(ctx.origin.value)) else None)
      && state.lowerOrderTraceId == (if ParentFits(ctx) then Some(ParentId(ctx)) else None)
      && TagsArrive(state.propagationTags.value, ctx.tags, Surviving(ctx, order))
  {
    hide Render, ParseDd, Written, FieldMap, BaseFields, CleanValue, ParentId, PlainParent, PlainTags, EndsPlainly,
      SectionOf, TagsArrive, Surviving, OriginFits, ParentFits, ParsePriority, ParseMechanism, IsOrderOf;
    var base, section := FieldMap(BaseFields(ctx)), FieldMap(SectionOf(ctx.tags, Surviving(ctx, order)));
    MemberIs(ctx, order);
    BaseReadsBack(ctx);
    TagsOfSection(ctx, order);
    MapsApart(base, section);
    SamplingRoundTrip(PriorityMeant(ctx), DEFAULT);
  }

  lemma MemberIs(ctx: InjectContext, order: seq<string>)
    requires PlainParent(ctx) && IsOrderOf(order, ctx.tags) && PlainTags(order) && EndsPlainly(ctx, order)
    ensures ParseDd(Render(Written(ctx, order))) ==
      FieldMap(BaseFields(ctx)) + FieldMap(SectionOf(ctx.tags, Surviving(ctx, order)))
  {
    hide Render, ParseDd, Written, FieldMap, BaseFields, EntrySize, TagField, ByteLen, TagText, SectionOf, PlainParent,
      PlainTags, EndsPlainly;
    TagSection(ctx, order);
    MemberReadsBackExactly(ctx, order);
    FieldMapConcat(BaseFields(ctx), SectionOf(ctx.tags, Surviving(ctx, order)));
  }

  lemma TagsOfSection(ctx: InjectContext, order: seq<string>)
    requires IsOrderOf(order, ctx.tags) && PlainTags(order)
    ensures var keys := Surviving(ctx, order);
      var found := FieldMap(SectionOf(ctx.tags, keys));
      TagsArrive(found, ctx.tags, keys) && forall k :: k in found ==> "t." <= k
  {
    hide FieldMap, CleanSuffix, CleanValue, EntrySize, BaseFields, Render, Written, SectionOf;
    var keys := Surviving(ctx, order);
    SectionKeys(ctx.tags, keys);
    SectionArrives(ctx.tags, keys);
  }

  // ----- The priority, whatever the tags are called -----

  /** The priority that the headers stand for: the tracestate's if the sampled
      flag agrees with it, else what the flag says. */
  function Reconciled(sampled: bool, state: Option<I8>): I8 {
    if state.Some? && IsKeep(state.value) == sampled then state.value
    else if sampled then AUTO_KEEP else AUTO_REJECT
  }

  predicate IsSampled(ctx: InjectContext) {
    ctx.sampling.priority.Some? && IsKeep(ctx.sampling.priority.value)
  }

  /** A second `s:` in the member, if a field after the first one brings it. */
  ghost function Smuggled(ctx: InjectContext, order: seq<string>): Option<string>
    requires IsOrderOf(order, ctx.tags)
  {
    var seen := Seen(Written(ctx, order));
    Find(Collect(Pieces(seen[1..])), "s")
  }

  /** A key that puts a piece `s:` behind a semicolon. */
  ghost predicate Smuggles(key: string) {
    exists i :: 0 <= i < |Split(key + ":", ';')| && "s:" <= Split(key + ":", ';')[i]
  }

  lemma {:induction false} PiecesFront(fields: seq<Field>)
    requires fields != []
    ensures Pieces(fields) == Split(Item(fields[0]), ';') + Pieces(fields[1..])
    decreases |fields|
  {
    hide Split, Item;
    var init, last := fields[..|fields| - 1], fields[|fields| - 1];
    var first := Split(Item(fields[0]), ';');
    if init != [] {
      PiecesFront(init);
      assert init[1..] == fields[1..][..|fields| - 2];
      assert Pieces(fields[1..]) == Pieces(init[1..]) + Split(Item(last), ';');
      assert (first + Pieces(init[1..])) + Split(Item(last), ';') == first + (Pieces(init[1..]) + Split(Item(last), ';'));
    } else {
      assert Pieces([]) == [] && fields[1..] == [];
      assert [] + first == first + [];
    }
  }

  lemma WrittenHead(ctx: InjectContext, order: seq<string>)
    requires IsOrderOf(order, ctx.tags)
    ensures var w := Written(ctx, order);
      w != [] && w[0] == PriorityField(ctx) && w[0].0 == "s" && Seen(w)[0] == w[0]
  {
    hide EntrySize, TagField, Render, ByteLen, PriorityText, BaseFields;
    BaseKeys(ctx);
    var w := Written(ctx, order);
    PriorityFieldOk(ctx);
    PriorityTextOk(if ctx.sampling.priority.Some? then ctx.sampling.priority.value else USER_KEEP);
    var v := w[0].1;
    if v != "" {
      assert v[|v| - 1] in v;
      assert TrimEnd(v) == v;
    }
  }

  /** The `s` that the parser finds is the smuggled one if there is one. */
  lemma StateText(ctx: InjectContext, order: seq<string>)
    requires PlainParent(ctx) && IsOrderOf(order, ctx.tags)
    ensures Find(ParseDd(Render(Written(ctx, order))), "s") ==
      if Smuggled(ctx, order).Some? then Smuggled(ctx, order) else Some(PriorityField(ctx).1)
  {
    hide Render, ParseDd, Written, Collect, Pieces, PriorityField;
    var w := Written(ctx, order);
    WrittenHead(ctx, order);
    PriorityFieldOk(ctx);
    ParseDdIsCollect(w);
    PiecesFront(Seen(w));
    CollectConcat(Split(Item(w[0]), ';'), Pieces(Seen(w)[1..]));
    NiceField(w[0]);
    PriorityHasNoTilde(ctx);
    assert DecodeTagValue(w[0].1) == w[0].1;
  }

  ghost function InjectedHeaders(ctx: InjectContext, order: seq<string>): Headers
    requires IsOrderOf(order, ctx.tags)
  {
    Headers(Some(Traceparent(ctx)), Some(TracestateHeader(ctx, order)))
  }

  function StatePriority(ctx: InjectContext, smuggled: Option<string>): Option<I8> {
    if smuggled.Some? then ParsePriority(smuggled.value) else Some(PriorityMeant(ctx))
  }

  lemma ParsedState(ctx: InjectContext, order: seq<string>)
    requires PlainParent(ctx) && IsOrderOf(order, ctx.tags)
    ensures var state := DdFields(ParseDd(Render(Written(ctx, order))));
      && state.sampling.Some?
      && state.sampling.value.priority == StatePriority(ctx, Smuggled(ctx, order))
  {
    hide Render, ParseDd, Written, Smuggled, PlainParent, IsOrderOf, ParsePriority, ParseMechanism, PriorityText;
    StateText(ctx, order);
    SamplingRoundTrip(PriorityMeant(ctx), DEFAULT);
  }

  /** For any tags, origin and inherited header: both ids come back, and the
      priority is the printed one, or the smuggled one, reconciled with the
      sampled flag. */
  lemma IdsAndPriorityAcrossHeaders(ctx: InjectContext, order: seq<string>)
    requires ctx.traceId != 0 && ctx.spanId != 0 && PlainParent(ctx) && IsOrderOf(order, ctx.tags)
    ensures var back := Extracted(InjectedHeaders(ctx, order));
      && back.Some?
      && back.value.traceId == ctx.traceId && back.value.spanId == ctx.spanId
      && back.value.sampling.priority ==
           Some(Reconciled(IsSampled(ctx), StatePriority(ctx, Smuggled(ctx, order))))
  {
    hide Render, ParseDd, Written, Smuggled, PlainParent, IsOrderOf, ParsePriority, ParseMechanism, Traceparent,
      TracestateHeader, DdFields, ExtractTraceparent, Parsed, HeaderTags, OtherMembers, KeyValues;
    TraceparentRoundTrip(ctx);
    HeaderIsAccepted(ctx, order);
    ParsedState(ctx, order);
  }

  // ----- When something is smuggled -----

  lemma {:induction false} CollectHas(items: seq<string>)
    requires forall i :: 0 <= i < |items| ==> forall c :: c in items[i] ==> ' ' <= c <= '~'
    ensures "s" in Collect(items) <==> exists i :: 0 <= i < |items| && "s:" <= items[i]
    decreases |items|
  {
    if items != [] {
      var n := |items| - 1;
      CollectHas(items[..n]);
      KeyIsS(items[n]);
    }
  }

  lemma KeyIsS(item: string)
    requires forall c :: c in item ==> ' ' <= c <= '~'
    ensures (ParseItem(item).Some? && ParseItem(item).value.0 == "s") <==> "s:" <= item
  {
    if "s:" <= item {
      assert item == "s" + [':'] + item[2..];
      SplitOnceAt("s", ':', item[2..]);
    }
  }

  lemma OnePieceWithValue(v: string)
    ensures WithValue([":"], [":" + v], v)
  {
  }

  /** The same pieces, the last one with a value behind it. */
  ghost predicate WithValue(short: seq<string>, long: seq<string>, v: string) {
    && short != [] && |long| == |short|
    && (forall i :: 0 <= i < |short| - 1 ==> long[i] == short[i])
    && long[|short| - 1] == short[|short| - 1] + v
    && short[|short| - 1] != "" && short[|short| - 1][|short[|short| - 1]| - 1] == ':'
  }

  lemma AddBeforeValue(c: char, short: seq<string>, long: seq<string>, v: string)
    requires WithValue(short, long, v)
    ensures WithValue(AddInFront(c, short, ';'), AddInFront(c, long, ';'), v)
  {
    if c != ';' && |short| == 1 {
      assert [c] + (short[0] + v) == ([c] + short[0]) + v;
    }
  }

  /** Splitting at semicolons in front of a value that has none. */
  lemma {:induction false} SplitBeforeValue(key: string, v: string)
    requires ';' !in v
    ensures WithValue(Split(key + ":", ';'), Split(key + ":" + v, ';'), v)
    decreases |key|
  {
    hide WithValue, AddInFront;
    var s := key + ":" + v;
    if key == "" {
      SplitWhole(":", ';');
      SplitWhole(":" + v, ';');
      assert "" + ":" == ":" && "" + ":" + v == ":" + v;
      OnePieceWithValue(v);
    } else {
      SplitBeforeValue(key[1..], v);
      assert s[1..] == key[1..] + ":" + v && (key + ":")[1..] == key[1..] + ":";
      AddBeforeValue(key[0], Split(key[1..] + ":", ';'), Split(s[1..], ';'), v);
    }
  }

  lemma ItemSmuggles(f: Field)
    requires FieldOk(f)
    ensures "s" in Collect(Split(Item(f), ';')) <==> Smuggles(f.0)
  {
    hide Split, Collect;
    var short, long := Split(f.0 + ":", ';'), Split(Item(f), ';');
    SplitBeforeValue(f.0, f.1);
    SplitParts(Item(f), ';');
    forall i | 0 <= i < |long| ensures forall c :: c in long[i] ==> ' ' <= c <= '~' {
      assert long[i] in long;
    }
    CollectHas(long);
    var n := |short| - 1;
    assert "s:" <= long[n] <==> "s:" <= short[n] by {
      assert |short[n]| == 1 ==> long[n][0] == ':';
    }
  }

  lemma {:induction false} FieldsSmuggle(fields: seq<Field>)
    requires FieldsOk(fields)
    ensures "s" in Collect(Pieces(fields)) <==> exists i :: 0 <= i < |fields| && Smuggles(fields[i].0)
    decreases |fields|
  {
    hide Smuggles, Split, Item, FieldOk;
    if fields != [] {
      var init, f := fields[..|fields| - 1], fields[|fields| - 1];
      FieldsSmuggle(init);
      ItemSmuggles(f);
      CollectConcat(Pieces(init), Split(Item(f), ';'));
      assert forall i :: 0 <= i < |init| ==> init[i] == fields[i];
    }
  }

  lemma SeenIsOk(fields: seq<Field>)
    requires FieldsOk(fields)
    ensures FieldsOk(Seen(fields))
  {
    if fields != [] {
      var f := fields[|fields| - 1];
      assert FieldOk(f);
      TrimEndOfDd(f.1);
      assert FieldOk((f.0, TrimEnd(f.1)));
    }
  }

  lemma BaseSmugglesNothing(key: string)
    requires key in ["s", "o", "p"]
    ensures Smuggles(key) <==> key == "s"
  {
    SplitWhole(key + ":", ';');
    if key == "s" {
      assert "s:" <= Split("s:", ';')[0];
    }
  }

  ghost predicate SomeSmuggles(fields: seq<Field>) {
    exists i :: 0 <= i < |fields| && Smuggles(fields[i].0)
  }

  lemma SmugglersBehind(base: seq<Field>, section: seq<Field>, rest: seq<Field>)
    requires base != [] && |rest| == |base| + |section| - 1
    requires forall i :: 0 <= i < |rest| ==> rest[i].0 == (base + section)[i + 1].0
    requires forall i :: 1 <= i < |base| ==> !Smuggles(base[i].0)
    ensures SomeSmuggles(rest) <==> SomeSmuggles(section)
  {
    hide Smuggles;
    if i :| 0 <= i < |rest| && Smuggles(rest[i].0) {
      assert i + 1 >= |base|;
      assert section[i + 1 - |base|].0 == rest[i].0;
    }
    if j :| 0 <= j < |section| && Smuggles(section[j].0) {
      assert rest[|base| - 1 + j].0 == (base + section)[|base| + j].0 == section[j].0;
    }
  }

  lemma SectionSmuggles(tags: Tags, keys: seq<string>)
    requires KeysOk(tags, keys)
    ensures SomeSmuggles(SectionOf(tags, keys)) <==>
      exists i :: 0 <= i < |keys| && Smuggles("t." + CleanSuffix(Suffix(keys[i])))
  {
    hide Smuggles, CleanSuffix, CleanValue, EncodeTagValue;
    var section := SectionOf(tags, keys);
    forall i | 0 <= i < |keys| ensures section[i].0 == "t." + CleanSuffix(Suffix(keys[i])) {
    }
  }

  /** Something is smuggled exactly if the sanitised name of a written tag has a
      semicolon that `s:` follows. */
  lemma SmuggledExactly(ctx: InjectContext, order: seq<string>)
    requires PlainParent(ctx) && IsOrderOf(order, ctx.tags)
    ensures var keys := Surviving(ctx, order);
      Smuggled(ctx, order).Some? <==>
      exists i :: 0 <= i < |keys| && Smuggles("t." + CleanSuffix(Suffix(keys[i])))
  {
    hide Smuggles, Written, BaseFields, Collect, Pieces, CleanSuffix, CleanValue, Seen, FieldsOk, PlainParent,
      SectionOf;
    var base, section := BaseFields(ctx), SectionOf(ctx.tags, Surviving(ctx, order));
    SeenTail(ctx, order);
    var rest := Seen(Written(ctx, order))[1..];
    FieldsSmuggle(rest);
    BaseKeys(ctx);
    forall i | 1 <= i < |base| ensures !Smuggles(base[i].0) {
      BaseSmugglesNothing(base[i].0);
    }
    SmugglersBehind(base, section, rest);
    SectionSmuggles(ctx.tags, Surviving(ctx, order));
  }

  lemma SeenTail(ctx: InjectContext, order: seq<string>)
    requires PlainParent(ctx) && IsOrderOf(order, ctx.tags)
    ensures var w, base := Seen(Written(ctx, order)), BaseFields(ctx);
      var section := SectionOf(ctx.tags, Surviving(ctx, order));
      && w != [] && FieldsOk(w[1..]) && |w| == |base| + |section|
      && (forall i :: 0 <= i < |w[1..]| ==> w[1..][i].0 == (base + section)[i + 1].0)
  {
    hide Written, BaseFields, EntrySize, Render, ByteLen, CleanSuffix, CleanValue, EncodeTagValue, PlainParent, FieldOk,
      SectionOf, Seen;
    var w := Written(ctx, order);
    WrittenOk(ctx, order);
    WrittenHead(ctx, order);
    SeenIsOk(w);
    SeenHasKeys(w);
    TagSection(ctx, order);
  }

  lemma SeenHasKeys(fields: seq<Field>)
    ensures |Seen(fields)| == |fields| && forall i :: 0 <= i < |fields| ==> Seen(fields)[i].0 == fields[i].0
  {
  }

  /** No written tag brings its own `s:`. */
  ghost predicate NoSmuggler(ctx: InjectContext, order: seq<string>)
    requires IsOrderOf(order, ctx.tags)
  {
    var keys := Surviving(ctx, order);
    forall i :: 0 <= i < |keys| ==> !Smuggles("t." + CleanSuffix(Suffix(keys[i])))
  }

  // ----- What is smuggled, read off the tags -----

  /** The last piece that starts with `s:`, without that start. */
  function OwnPriority(pieces: seq<string>): Option<string>
    decreases |pieces|
  {
    if pieces == [] then None
    else
      var n := |pieces| - 1;
      if "s:" <= pieces[n] then Some(DecodeTagValue(pieces[n][2..])) else OwnPriority(pieces[..n])
  }

  /** The last field that has one decides. */
  function SmuggledText(fields: seq<Field>): Option<string>
    decreases |fields|
  {
    if fields == [] then None
    else
      var n := |fields| - 1;
      var own := OwnPriority(Split(Item(fields[n]), ';'));
      if own.Some? then own else SmuggledText(fields[..n])
  }

  /** The tags as they are sent: names and values sanitised, the last one without
      blanks at its end. */
  ghost function SentTags(ctx: InjectContext, order: seq<string>): seq<Field>
    requires IsOrderOf(order, ctx.tags)
  {
    Seen(SectionOf(ctx.tags, Surviving(ctx, order)))
  }

  predicate IsPrintable(s: string) {
    forall c :: c in s ==> ' ' <= c <= '~'
  }

  predicate AllPrintable(pieces: seq<string>) {
    forall i :: 0 <= i < |pieces| ==> IsPrintable(pieces[i])
  }

  lemma {:induction false} OwnIsCollected(pieces: seq<string>)
    requires AllPrintable(pieces)
    ensures Find(Collect(pieces), "s") == OwnPriority(pieces)
    decreases |pieces|
  {
    hide DecodeTagValue;
    if pieces != [] {
      var n := |pieces| - 1;
      var item := pieces[n];
      OwnIsCollected(pieces[..n]);
      KeyIsS(item);
      if "s:" <= item {
        assert item == "s" + [':'] + item[2..];
        SplitOnceAt("s", ':', item[2..]);
      }
    }
  }

  lemma {:induction false} FieldsOwn(fields: seq<Field>)
    requires FieldsOk(fields)
    ensures Find(Collect(Pieces(fields)), "s") == SmuggledText(fields)
    decreases |fields|
  {
    hide Split, Item, FieldOk, Collect, OwnPriority, AllPrintable;
    if fields == [] {
      NothingCollected();
    } else {
      var n := |fields| - 1;
      var pieces := Split(Item(fields[n]), ';');
      FieldsOwn(fields[..n]);
      PiecesArePrintable(fields[n]);
      OwnIsCollected(pieces);
      CollectConcat(Pieces(fields[..n]), pieces);
    }
  }

  lemma PiecesArePrintable(f: Field)
    requires FieldOk(f)
    ensures AllPrintable(Split(Item(f), ';'))
  {
    hide Split;
    var pieces := Split(Item(f), ';');
    SplitParts(Item(f), ';');
    forall i | 0 <= i < |pieces| ensures IsPrintable(pieces[i]) {
      assert pieces[i] in pieces;
    }
  }

  lemma {:induction false} SmuggledConcat(a: seq<Field>, b: seq<Field>)
    ensures SmuggledText(a + b) == if SmuggledText(b).Some? then SmuggledText(b) else SmuggledText(a)
    decreases |b|
  {
    hide Split, Item, OwnPriority;
    if b == [] {
      assert a + b == a;
    } else {
      assert (a + b)[..|a + b| - 1] == a + b[..|b| - 1];
      SmuggledConcat(a, b[..|b| - 1]);
    }
  }

  lemma SeenConcat(base: seq<Field>, section: seq<Field>)
    requires base != [] && section != []
    ensures Seen(base + section)[1..] == base[1..] + Seen(section)
  {
  }

  lemma BaseTextIsEmpty(ctx: InjectContext)
    requires PlainParent(ctx)
    ensures SmuggledText(BaseFields(ctx)[1..]) == None
  {
    hide BaseFields, PlainParent, Smuggles, Collect, Pieces, FieldOk, SmuggledText;
    BaseFieldsOk(ctx);
    BaseKeys(ctx);
    var rest := BaseFields(ctx)[1..];
    FieldsOwn(rest);
    FieldsSmuggle(rest);
    forall i | 0 <= i < |rest| ensures !Smuggles(rest[i].0) {
      BaseSmugglesNothing(BaseFields(ctx)[i + 1].0);
    }
  }

  /** What is smuggled can be told from the tags. */
  lemma SmuggledIs(ctx: InjectContext, order: seq<string>)
    requires PlainParent(ctx) && IsOrderOf(order, ctx.tags)
    ensures Smuggled(ctx, order) == SmuggledText(SentTags(ctx, order))
  {
    hide Written, BaseFields, PlainParent, Smuggles, Collect, Pieces, FieldsOk, SectionOf, Seen, CleanSuffix, CleanValue;
    var base, section := BaseFields(ctx), SectionOf(ctx.tags, Surviving(ctx, order));
    SmuggledExactly(ctx, order);
    SeenTail(ctx, order);
    TagSection(ctx, order);
    BaseKeys(ctx);
    if section == [] {
      SeenHasKeys(section);
    } else {
      FieldsOwn(Seen(Written(ctx, order))[1..]);
      SeenConcat(base, section);
      SmuggledConcat(base[1..], Seen(section));
      BaseTextIsEmpty(ctx);
    }
  }

  /** Any of the 256 priorities comes back exactly, not only 0 and 1, unless a tag
      name smuggles in another one: then it comes back only if the smuggled one
      says the same, or says nothing usable while the flag does. */
  lemma PrioritySurvivesExactly(ctx: InjectContext, order: seq<string>)
    requires ctx.traceId != 0 && ctx.spanId != 0 && PlainParent(ctx) && IsOrderOf(order, ctx.tags)
    requires ctx.sampling.priority.Some?
    ensures var back := Extracted(InjectedHeaders(ctx, order));
      var p, smuggled := ctx.sampling.priority.value, StatePriority(ctx, SmuggledText(SentTags(ctx, order)));
      && back.Some?
      && (back.value.sampling.priority == Some(p) <==>
           || NoSmuggler(ctx, order)
           || smuggled == Some(p)
           || (p in [AUTO_REJECT, AUTO_KEEP] && (smuggled.None? || IsKeep(smuggled.value) != IsKeep(p))))
  {
    hide Extracted, InjectedHeaders, Smuggled, SmuggledText, SentTags, Smuggles, PlainParent, IsOrderOf, Surviving,
      CleanSuffix, ParsePriority;
    SmuggledIs(ctx, order);
    IdsAndPriorityAcrossHeaders(ctx, order);
    SmuggledExactly(ctx, order);
  }

  /** A context without a priority is printed as `s:2` but not sampled, so the
      receiver falls back to rejecting. */
  lemma AbsentPriorityBecomesReject(ctx: InjectContext, order: seq<string>)
    requires ctx.traceId != 0 && ctx.spanId != 0 && PlainParent(ctx) && IsOrderOf(order, ctx.tags)
    requires ctx.sampling.priority.None? && NoSmuggler(ctx, order)
    ensures var back := Extracted(InjectedHeaders(ctx, order));
      back.Some? && back.value.sampling.priority == Some(AUTO_REJECT)
  {
    hide Extracted, InjectedHeaders, Smuggled, Smuggles, PlainParent, IsOrderOf, Surviving, CleanSuffix, ParsePriority;
    IdsAndPriorityAcrossHeaders(ctx, order);
    SmuggledExactly(ctx, order);
  }

  lemma PlainNameSmugglesNothing(suffix: string)
    requires ';' !in suffix
    ensures !Smuggles("t." + CleanSuffix(suffix))
  {
    hide CleanSuffix;
    SuffixStaysPlain(suffix, ';');
    SplitWhole("t." + CleanSuffix(suffix) + ":", ';');
  }

  lemma NoSemicolonSmugglesNothing(ctx: InjectContext, order: seq<string>)
    requires IsOrderOf(order, ctx.tags)
    requires forall k :: k in ctx.tags && TAG_PREFIX <= k ==> ';' !in k
    ensures NoSmuggler(ctx, order)
  {
    hide CleanSuffix, Written, Smuggles, TagCount;
    var keys := Surviving(ctx, order);
    forall i | 0 <= i < |keys| ensures !Smuggles("t." + CleanSuffix(Suffix(keys[i]))) {
      assert keys[i] in ctx.tags && ';' !in keys[i];
      PlainNameSmugglesNothing(Suffix(keys[i]));
    }
  }

  /** A caller can tell beforehand: every priority survives if no name of a
      propagation tag has a semicolon. */
  lemma PlainNamesKeepPriority(ctx: InjectContext, order: seq<string>)
    requires ctx.traceId != 0 && ctx.spanId != 0 && PlainParent(ctx) && IsOrderOf(order, ctx.tags)
    requires ctx.sampling.priority.Some?
    requires forall k :: k in ctx.tags && TAG_PREFIX <= k ==> ';' !in k
    ensures var back := Extracted(InjectedHeaders(ctx, order));
      back.Some? && back.value.sampling.priority == ctx.sampling.priority
  {
    hide Extracted, InjectedHeaders, Smuggled, PlainParent, NoSmuggler, ParsePriority;
    NoSemicolonSmugglesNothing(ctx, order);
    PrioritySurvivesExactly(ctx, order);
  }

  // ----- Everything at once -----

  /** The tags of these keys under their own prefix, sanitised, and no others. */
  ghost predicate TagsComeBack(back: Tags, tags: Tags, keys: seq<string>)
    requires KeysOk(tags, keys)
  {
    && (forall i :: 0 <= i < |keys| ==>
          && TAG_PREFIX + CleanSuffix(Suffix(keys[i])) in back
          && back[TAG_PREFIX + CleanSuffix(Suffix(keys[i]))] == CleanValue(tags[keys[i]]))
    && (forall n :: n in back && TAG_PREFIX <= n ==>
          exists i :: 0 <= i < |keys| && n == TAG_PREFIX + CleanSuffix(Suffix(keys[i])))
  }

  lemma RenamedComeBack(found: Tags, tags: Tags, keys: seq<string>)
    requires KeysOk(tags, keys) && TagsArrive(found, tags, keys)
    ensures TagsComeBack(Renamed(found), tags, keys)
  {
    hide CleanSuffix, CleanValue;
    var back := Renamed(found);
    forall i | 0 <= i < |keys|
      ensures var n := TAG_PREFIX + CleanSuffix(Suffix(keys[i])); n in back && back[n] == CleanValue(tags[keys[i]]) {
      NameOfTag(CleanSuffix(Suffix(keys[i])));
    }
    forall n | n in back ensures exists i :: 0 <= i < |keys| && n == TAG_PREFIX + CleanSuffix(Suffix(keys[i])) {
      var i :| 0 <= i < |keys| && Short(n) == "t." + CleanSuffix(Suffix(keys[i]));
      NameOfTag(CleanSuffix(Suffix(keys[i])));
      ShortNames(n, Short(n));
      ShortNames(TAG_PREFIX + CleanSuffix(Suffix(keys[i])), Short(n));
    }
  }

  lemma NameOfTag(suffix: string)
    ensures TAG_PREFIX <= TAG_PREFIX + suffix && Short(TAG_PREFIX + suffix) == "t." + suffix
  {
    assert (TAG_PREFIX + suffix)[..6] == TAG_PREFIX && (TAG_PREFIX + suffix)[6..] == suffix;
  }

  ghost predicate SameUnderPrefix(a: Tags, b: Tags) {
    forall n :: TAG_PREFIX <= n ==> (n in a <==> n in b) && (n in a ==> a[n] == b[n])
  }

  lemma ComeBackFrom(a: Tags, b: Tags, tags: Tags, keys: seq<string>)
    requires KeysOk(tags, keys) && TagsComeBack(a, tags, keys) && SameUnderPrefix(a, b)
    ensures TagsComeBack(b, tags, keys)
  {
    hide CleanSuffix, CleanValue;
    forall i | 0 <= i < |keys|
      ensures var n := TAG_PREFIX + CleanSuffix(Suffix(keys[i])); n in b && b[n] == CleanValue(tags[keys[i]]) {
      var n := TAG_PREFIX + CleanSuffix(Suffix(keys[i]));
      assert n in a && a[n] == CleanValue(tags[keys[i]]);
      NameOfTag(CleanSuffix(Suffix(keys[i])));
    }
    forall n | n in b && TAG_PREFIX <= n
      ensures exists i :: 0 <= i < |keys| && n == TAG_PREFIX + CleanSuffix(Suffix(keys[i])) {
      assert n in a;
    }
  }

  lemma NotPrefixed()
    ensures !(TAG_PREFIX <= "traceparent") && !(TAG_PREFIX <= "tracestate") && !(TAG_PREFIX <= LAST_PARENT_ID_KEY)
  {
    assert TAG_PREFIX[0] != "traceparent"[0] && TAG_PREFIX[0] != "tracestate"[0] && TAG_PREFIX[5] != LAST_PARENT_ID_KEY[5];
  }

  lemma OthersStayApart(renamed: Tags, k1: string, v1: string, k2: string, v2: string, k3: string, v3: string)
    requires forall n :: n in renamed ==> TAG_PREFIX <= n
    requires !(TAG_PREFIX <= k1) && !(TAG_PREFIX <= k2) && !(TAG_PREFIX <= k3)
    ensures SameUnderPrefix(renamed, map[k1 := v1, k2 := v2] + renamed)
    ensures SameUnderPrefix(renamed, (map[k1 := v1, k2 := v2] + renamed)[k3 := v3])
  {
  }

  lemma HeaderTagsUnderPrefix(parent: string, header: string, state: Tracestate)
    requires state.propagationTags.Some?
    ensures SameUnderPrefix(Renamed(state.propagationTags.value), HeaderTags(parent, header, state))
    ensures state.lowerOrderTraceId.Some? ==>
      Find(HeaderTags(parent, header, state), LAST_PARENT_ID_KEY) == state.lowerOrderTraceId
  {
    hide SameUnderPrefix;
    var id := if state.lowerOrderTraceId.Some? then state.lowerOrderTraceId.value else "";
    NotPrefixed();
    OthersStayApart(Renamed(state.propagationTags.value), "traceparent", parent, "tracestate", header,
                    LAST_PARENT_ID_KEY, id);
  }

  lemma HeaderTagsComeBack(parent: string, header: string, state: Tracestate, tags: Tags, keys: seq<string>)
    requires KeysOk(tags, keys) && state.propagationTags.Some? && TagsArrive(state.propagationTags.value, tags, keys)
    ensures TagsComeBack(HeaderTags(parent, header, state), tags, keys)
    ensures state.lowerOrderTraceId.Some? ==>
      Find(HeaderTags(parent, header, state), LAST_PARENT_ID_KEY) == state.lowerOrderTraceId
  {
    hide TagsArrive, TagsComeBack, SameUnderPrefix, HeaderTags;
    RenamedComeBack(state.propagationTags.value, tags, keys);
    HeaderTagsUnderPrefix(parent, header, state);
    ComeBackFrom(Renamed(state.propagationTags.value), HeaderTags(parent, header, state), tags, keys);
  }

  lemma OnlyDmIsDm(key: string)
    requires TAG_PREFIX <= key
    ensures TAG_PREFIX + CleanSuffix(Suffix(key)) == DECISION_MAKER_KEY <==> key == DECISION_MAKER_KEY
  {
    var s, r := Suffix(key), CleanSuffix(Suffix(key));
    assert key == TAG_PREFIX + s && DECISION_MAKER_KEY == TAG_PREFIX + "dm";
    assert (TAG_PREFIX + r)[6..] == r && (TAG_PREFIX + "dm")[6..] == "dm" && (TAG_PREFIX + s)[6..] == s;
    assert r == "dm" <==> |s| == 2 && r[0] == 'd' && r[1] == 'm';
    assert s == "dm" <==> |s| == 2 && s[0] == 'd' && s[1] == 'm';
  }

  /** The decision maker cannot be mistaken for another tag. */
  lemma DecisionMakerComesBack(back: Tags, tags: Tags, keys: seq<string>)
    requires KeysOk(tags, keys) && TagsComeBack(back, tags, keys)
    ensures Find(back, DECISION_MAKER_KEY) ==
      if DECISION_MAKER_KEY in keys then Some(CleanValue(tags[DECISION_MAKER_KEY])) else None
  {
    hide CleanSuffix, CleanValue, Suffix;
    assert DECISION_MAKER_KEY[..6] == TAG_PREFIX;
    forall i | 0 <= i < |keys|
      ensures TAG_PREFIX + CleanSuffix(Suffix(keys[i])) == DECISION_MAKER_KEY <==> keys[i] == DECISION_MAKER_KEY {
      OnlyDmIsDm(keys[i]);
    }
  }

  /** Injecting and extracting: ids and priority come back as they are, the origin
      and the written tags sanitised, the parent id as a tag, and the members of
      the inherited header as they were passed on. */
  lemma EverythingAcrossHeaders(ctx: InjectContext, order: seq<string>)
    requires ctx.traceId != 0 && ctx.spanId != 0 && PlainParent(ctx) && IsOrderOf(order, ctx.tags)
    requires ctx.sampling.priority.Some? && PlainTags(order) && EndsPlainly(ctx, order)
    ensures var back := Extracted(InjectedHeaders(ctx, order));
      && back.Some?
      && back.value.traceId == ctx.traceId && back.value.spanId == ctx.spanId
      && back.value.sampling.priority == ctx.sampling.priority
      && back.value.sampling.mechanism ==
           (if DECISION_MAKER_KEY in Surviving(ctx, order)
            then ParseMechanism(CleanValue(ctx.tags[DECISION_MAKER_KEY])) else None)
      && back.value.origin == (if OriginFits(ctx) then Some(CleanValue(ctx.origin.value)) else None)
      && TagsComeBack(back.value.tags, ctx.tags, Surviving(ctx, order))
      && (ParentFits(ctx) ==> Find(back.value.tags, LAST_PARENT_ID_KEY) == Some(ParentId(ctx)))
      && back.value.tracestate.Some?
      && back.value.tracestate.value.additionalValues ==
           (if OtherMembers(ctx) == [] then None else Some(KeyValues(OtherMembers(ctx))))
  {
    hide Written, Render, ParseDd, DdFields, PlainParent, PlainTags, EndsPlainly, Parsed, ExtractTraceparent,
      Traceparent, TracestateHeader, Trim, HeaderTags, TagsComeBack, TagsArrive, Surviving, CleanValue, OtherMembers,
      KeyValues, OriginFits, ParentFits, ParentId, Smuggled, NoSmuggler, ParsePriority, ParseMechanism;
    TraceparentRoundTrip(ctx);
    HeaderIsAccepted(ctx, order);
    FieldsReadBack(ctx, order);
    var state := Parsed(TracestateHeader(ctx, order)).value;
    HeaderTagsComeBack(Traceparent(ctx), TracestateHeader(ctx, order), state, ctx.tags, Surviving(ctx, order));
    DecisionMakerComesBack(HeaderTags(Traceparent(ctx), TracestateHeader(ctx, order), state),
                           ctx.tags, Surviving(ctx, order));
  }

  // ----- Contexts with one tag -----

  lemma CleanIsIdentity(s: string)
    ensures CleanValue(s) == s <==> forall c :: c in s ==> IsAscii(c) && IsValueByte(c as int)
    ensures CleanSuffix(s) == s <==> forall c :: c in s ==> IsAscii(c) && IsSuffixByte(c as int)
  {
    var v, k := CleanValue(s), CleanSuffix(s);
    assert forall c :: c in s ==> exists i :: 0 <= i < |s| && s[i] == c;
    assert v == s ==> forall i :: 0 <= i < |s| ==> v[i] == s[i];
    assert k == s ==> forall i :: 0 <= i < |s| ==> k[i] == s[i];
  }

  /** A short tag that is sent as it is. */
  ghost predicate SmallTag(suffix: string, value: string) {
    && |suffix| <= 8 && CleanSuffix(suffix) == suffix
    && |value| <= 8 && CleanValue(value) == value && '=' !in value
  }

  function OneTagContext(traceId: U128, spanId: U64, printed: I8, suffix: string, value: string): InjectContext {
    InjectContext(traceId, spanId, SamplingDecision(Some(printed), None), None,
                  map[TAG_PREFIX + suffix := value], false, None)
  }

  lemma SmallTagField(suffix: string, value: string)
    requires SmallTag(suffix, value)
    ensures TagField(suffix, value) == ("t." + suffix, value) && EntrySize(suffix, value) <= 20
    ensures AllAscii(suffix) && AllAscii(value)
  {
    hide CleanSuffix, CleanValue;
    CleanIsIdentity(suffix);
    CleanIsIdentity(value);
    AsciiByteLen(suffix);
    AsciiByteLen(value);
  }

  lemma OneTagWritten(traceId: U128, spanId: U64, printed: I8, suffix: string, value: string)
    requires SmallTag(suffix, value)
    ensures var ctx, order := OneTagContext(traceId, spanId, printed, suffix, value), [TAG_PREFIX + suffix];
      && IsOrderOf(order, ctx.tags)
      && Written(ctx, order) == [PriorityField(ctx), ("p", ParentId(ctx)), ("t." + suffix, value)]
  {
    hide TagField, EntrySize, ParentId, PriorityField, Render, ByteLen, SmallTag;
    var ctx, order := OneTagContext(traceId, spanId, printed, suffix, value), [TAG_PREFIX + suffix];
    var base, tag := BaseFields(ctx), TagField(suffix, value);
    WhatFits(ctx);
    SmallTagField(suffix, value);
    assert (TAG_PREFIX + suffix)[6..] == suffix && (TAG_PREFIX + suffix)[..6] == TAG_PREFIX;
    PriorityFieldOk(ctx);
    assert base == [PriorityField(ctx), ("p", ParentId(ctx))];
    assert order[1..] == [];
    assert TagFields(ctx.tags, order, 0) == [tag];
    LocalParentIsPlain(ctx);
    assert |value| <= 8 && |suffix| <= 8 by {
      SmallTagIsShort(suffix, value);
    }
    SmallRender(ctx, base, tag);
    assert base + [tag] == [PriorityField(ctx), ("p", ParentId(ctx)), tag];
  }

  lemma SmallTagIsShort(suffix: string, value: string)
    requires SmallTag(suffix, value)
    ensures |suffix| <= 8 && |value| <= 8
  {
  }

  lemma SmallRender(ctx: InjectContext, base: seq<Field>, tag: Field)
    requires ByteLen(ParentId(ctx)) == 16 && base == [PriorityField(ctx), ("p", ParentId(ctx))]
    requires AllAscii(tag.0) && |tag.0| <= 10 && AllAscii(tag.1) && |tag.1| <= 8
    ensures ByteLen(Render(base + [tag])) < DD_MAX_LENGTH
  {
    hide ParentId, PriorityField, Render, ByteLen;
    var f := PriorityField(ctx);
    PriorityFieldOk(ctx);
    PriorityBefore(ctx);
    RenderedSize([f], ("p", ParentId(ctx)));
    assert [f] + [("p", ParentId(ctx))] == base;
    RenderAppend(base, tag);
    Regroup(Render(base), ";", Item(tag));
    ByteLenConcat(Render(base), ";" + Item(tag));
    AsciiByteLen(";" + Item(tag));
  }

  // ----- A blank is lost -----

  lemma {:induction false} TrimEndOfBlank(v: string)
    requires v != "" && !IsWhitespace(v[|v| - 1])
    ensures TrimEnd(v + " ") == v
  {
    assert (v + " ")[..|v|] == v;
  }

  /** A tag that is sent last and ends in a blank arrives without it. */
  lemma TrailingBlankIsLost(traceId: U128, spanId: U64, printed: I8, suffix: string, v: string)
    requires SmallTag(suffix, v + " ") && ':' !in suffix && ';' !in suffix
    requires v != "" && !IsWhitespace(v[|v| - 1]) && '~' !in v
    ensures var ctx, order := OneTagContext(traceId, spanId, printed, suffix, v + " "), [TAG_PREFIX + suffix];
      && IsOrderOf(order, ctx.tags)
      && Find(ParseDd(Render(Written(ctx, order))), "t." + suffix) == Some(v)
      && !EndsPlainly(ctx, order)
  {
    hide Written, ParentId, PriorityField, Render, ParseDd, CleanSuffix, SmallTag;
    var ctx, order := OneTagContext(traceId, spanId, printed, suffix, v + " "), [TAG_PREFIX + suffix];
    OneTagWritten(traceId, spanId, printed, suffix, v + " ");
    LocalParentIsPlain(ctx);
    assert PlainTags(order) by {
      assert (TAG_PREFIX + suffix)[6..] == suffix && (TAG_PREFIX + suffix)[..6] == TAG_PREFIX;
      assert order[1..] == [] && Prefixed(order) == order;
    }
    var w := Written(ctx, order);
    WrittenFieldsParse(ctx, order);
    WrittenKeys(ctx, order);
    SeenKeys(w);
    FieldMapLookup(Seen(w), 2);
    TrimEndOfBlank(v);
  }

  // ----- A priority is smuggled -----

  lemma PriorityIsClean(q: I8)
    ensures CleanValue(PriorityText(q)) == PriorityText(q) && '=' !in PriorityText(q)
    ensures DecodeTagValue(PriorityText(q)) == PriorityText(q) && TrimEnd(PriorityText(q)) == PriorityText(q)
    ensures 1 <= |PriorityText(q)| <= 4
    ensures forall c :: c in PriorityText(q) ==> c != ';' && ' ' <= c <= '~'
  {
    hide SignedText, CleanValue;
    PriorityTextOk(q);
    var t := PriorityText(q);
    CleanIsIdentity(t);
    PriorityIsNotEmpty(q);
    assert t[|t| - 1] in t;
  }

  lemma PriorityIsNotEmpty(q: I8)
    ensures PriorityText(q) != ""
  {
  }

  lemma SmugglerIsSmall(q: I8)
    ensures SmallTag("x;s", PriorityText(q))
  {
    hide PriorityText, CleanSuffix, CleanValue;
    PriorityIsClean(q);
    CleanIsIdentity("x;s");
    assert forall c :: c in "x;s" ==> c == 'x' || c == ';' || c == 's';
  }

  lemma SmugglerPieces(v: string)
    requires ';' !in v
    ensures Split(Item(("t.x;s", v)), ';') == ["t.x", "s:" + v]
  {
    assert Item(("t.x;s", v)) == "t.x" + [';'] + ("s:" + v);
    SplitConcat("t.x", ';', "s:" + v);
    SplitWhole("t.x", ';');
    SplitWhole("s:" + v, ';');
  }

  lemma LastPieceWins(items: seq<string>, v: string)
    requires forall c :: c in v ==> ' ' <= c <= '~'
    ensures Find(Collect(items + ["t.x", "s:" + v]), "s") == Some(DecodeTagValue(v))
  {
    hide DecodeTagValue;
    var all, last := items + ["t.x", "s:" + v], "s:" + v;
    SplitOnceAt("s", ':', v);
    assert "s" + [':'] + v == last && all[|all| - 1] == last;
    assert forall c :: c in last ==> ' ' <= c <= '~';
    assert ParseItem(last) == Some(("s", DecodeTagValue(v)));
  }

  lemma SmugglerIsRead(traceId: U128, spanId: U64, p: I8, q: I8)
    ensures var ctx, order := OneTagContext(traceId, spanId, p, "x;s", PriorityText(q)), [TAG_PREFIX + "x;s"];
      IsOrderOf(order, ctx.tags) && Smuggled(ctx, order) == Some(PriorityText(q))
  {
    hide Written, ParentId, PriorityField, PriorityText, Collect, Split, DecodeTagValue, SmallTag;
    var ctx, order := OneTagContext(traceId, spanId, p, "x;s", PriorityText(q)), [TAG_PREFIX + "x;s"];
    SmugglerIsSmall(q);
    OneTagWritten(traceId, spanId, p, "x;s", PriorityText(q));
    assert "t." + "x;s" == "t.x;s";
    var w, last := Written(ctx, order), ("t.x;s", PriorityText(q));
    PriorityIsClean(q);
    assert Seen(w) == w;
    SmugglerPieces(PriorityText(q));
    var rest := w[1..];
    assert rest == [("p", ParentId(ctx)), last] && rest[..1] == [("p", ParentId(ctx))];
    LastPieceWins(Pieces(rest[..1]), PriorityText(q));
  }

  /** One tag with a semicolon in its name overrides the priority that was sent:
      the receiver takes the smuggled one as long as it is on the same side. */
  lemma SemicolonSmugglesPriority(traceId: U128, spanId: U64, p: I8, q: I8)
    requires traceId != 0 && spanId != 0 && IsKeep(p) == IsKeep(q)
    ensures var ctx, order := OneTagContext(traceId, spanId, p, "x;s", PriorityText(q)), ["_dd.p.x;s"];
      && IsOrderOf(order, ctx.tags)
      && var back := Extracted(InjectedHeaders(ctx, order));
      back.Some? && back.value.sampling.priority == Some(q)
  {
    hide Extracted, InjectedHeaders, Smuggled, PriorityText, ParsePriority;
    var ctx, order := OneTagContext(traceId, spanId, p, "x;s", PriorityText(q)), [TAG_PREFIX + "x;s"];
    assert TAG_PREFIX + "x;s" == "_dd.p.x;s";
    SmugglerIsRead(traceId, spanId, p, q);
    LocalParentIsPlain(ctx);
    IdsAndPriorityAcrossHeaders(ctx, order);
    SamplingRoundTrip(q, DEFAULT);
  }
}
