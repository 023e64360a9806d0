/** Passing a received W3C context on: what can arrive, and what is sent again. */
module TraceContextRelay {
  import opened Numbers
  import opened Options
  import opened Bytes
  import opened Text
  import opened Utf8Text
  import opened Sampling
  import opened Context
  import opened TraceContext
  import opened TraceContextLaws
  import opened TraceContextRoundTrip

  // ----- Which values can arrive -----

  /** Printable text without a comma, a semicolon or a tilde; an equals sign may
      arrive, as a tilde. */
  predicate IsReceivedText(s: string) {
    forall c :: c in s ==> ' ' <= c <= '~' && c != ',' && c != ';' && c != '~'
  }

  predicate AllReceived(tags: Tags) {
    forall k :: k in tags ==> IsReceivedText(tags[k])
  }

  lemma DecodedIsReceived(v: string)
    requires forall c :: c in v ==> ' ' <= c <= '~' && c != ',' && c != ';'
    ensures IsReceivedText(DecodeTagValue(v))
  {
    var d := DecodeTagValue(v);
    forall i | 0 <= i < |d| ensures ' ' <= d[i] <= '~' && d[i] != ',' && d[i] != ';' && d[i] != '~' {
      assert v[i] in v;
    }
  }

  lemma {:induction false} CollectedIsReceived(items: seq<string>)
    requires forall i :: 0 <= i < |items| ==> ',' !in items[i] && ';' !in items[i]
    ensures AllReceived(Collect(items))
    decreases |items|
  {
    hide IsReceivedText, DecodeTagValue;
    if items != [] {
      var n := |items| - 1;
      CollectedIsReceived(items[..n]);
      var kv := SplitOnce(items[n], ':');
      if ParseItem(items[n]).Some? {
        assert forall c :: c in kv.value.1 ==> c in items[n];
        DecodedIsReceived(kv.value.1);
      }
    }
  }

  lemma {:induction false} TrimStartIsPart(s: string)
    ensures forall c :: c in TrimStart(s) ==> c in s
  {
    if s != "" && IsWhitespace(s[0]) {
      TrimStartIsPart(s[1..]);
    }
  }

  lemma ParsedIsReceived(value: string)
    requires ',' !in value
    ensures AllReceived(ParseDd(value))
  {
    hide Split, Collect, AllReceived;
    TrimStartIsPart(value);
    TrimEndIsPrefix(TrimStart(value));
    var items := Split(Trim(value), ';');
    SplitParts(Trim(value), ';');
    forall i | 0 <= i < |items| ensures ',' !in items[i] && ';' !in items[i] {
      assert items[i] in items;
    }
    CollectedIsReceived(items);
  }

  lemma {:induction false} LastDdIsReceived(members: seq<string>)
    requires forall i :: 0 <= i < |members| ==> ',' !in members[i]
    ensures LastDd(members).Some? ==> AllReceived(LastDd(members).value)
    decreases |members|
  {
    hide ParseDd, AllReceived;
    if members != [] {
      var n := |members| - 1;
      LastDdIsReceived(members[..n]);
      assert forall c :: c in KeyValue(members[n]).1 ==> c in members[n];
      ParsedIsReceived(KeyValue(members[n]).1);
    }
  }

  lemma HeaderBringsReceivedText(header: string)
    requires Parsed(header).Some? && Parsed(header).value.lowerOrderTraceId.Some?
    ensures IsReceivedText(Parsed(header).value.lowerOrderTraceId.value)
  {
    hide Split, IsReceivedText, LastDd;
    var members := Split(header, ',');
    SplitParts(header, ',');
    forall i | 0 <= i < |members| ensures ',' !in members[i] {
      assert members[i] in members;
    }
    LastDdIsReceived(members);
  }

  lemma ParentIsNoOtherTag()
    ensures LAST_PARENT_ID_KEY != "traceparent" && LAST_PARENT_ID_KEY != "tracestate"
    ensures LAST_PARENT_ID_KEY != DECISION_MAKER_KEY && !(TAG_PREFIX <= LAST_PARENT_ID_KEY)
  {
    NotPrefixed();
    assert LAST_PARENT_ID_KEY[0] == '_' && DECISION_MAKER_KEY[5] == '.' && LAST_PARENT_ID_KEY[5] == 'a';
  }

  /** Whatever headers arrive: the parent id they bring is such text. */
  lemma ReceivedParent(headers: Headers)
    requires Extracted(headers).Some? && LAST_PARENT_ID_KEY in Extracted(headers).value.tags
    ensures IsReceivedText(Extracted(headers).value.tags[LAST_PARENT_ID_KEY])
  {
    hide IsReceivedText, ExtractTraceparent, Trim, Parsed, Short, ParseMechanism;
    ParentIsNoOtherTag();
    if headers.tracestate.Some? && Parsed(headers.tracestate.value).Some? {
      var st := Parsed(headers.tracestate.value).value;
      if st.lowerOrderTraceId.Some? {
        HeaderBringsReceivedText(headers.tracestate.value);
      }
    }
  }

  /** So the header that passes a received context on is accepted exactly if its
      parent id is not written, or has no equals sign and leaves enough room; and
      then all that is proved of plain parent ids holds of it. */
  lemma RelayIsAcceptedExactly(headers: Headers, inherited: Option<string>, order: seq<string>)
    requires Extracted(headers).Some? && IsOrderOf(order, Extracted(headers).value.tags)
    ensures var again := Relayed(Extracted(headers).value, inherited);
      && (PlainParent(again) <==> !ParentFits(again) || ('=' !in ParentId(again) && LengthWithParent(again) <= 256))
      && (Parsed(TracestateHeader(again, order)).Some? <==> PlainParent(again))
  {
    hide Extracted, Parsed, TracestateHeader, IsOrderOf, BaseFields, PriorityField, LengthWithParent, ParentFits, ByteLen;
    var again := Relayed(Extracted(headers).value, inherited);
    if LAST_PARENT_ID_KEY in again.tags && again.isRemote {
      ReceivedParent(headers);
    } else {
      LocalParentIsPlain(again);
      OwnIdIsReceived(again);
    }
    AcceptedExactly(again, order);
  }

  lemma OwnIdIsReceived(ctx: InjectContext)
    requires !ctx.isRemote || LAST_PARENT_ID_KEY !in ctx.tags
    ensures IsReceivedText(ParentId(ctx))
  {
    hide Padded, Power;
    PowerOf16();
    PaddedValue(ctx.spanId, 16, 16);
  }

  // ----- The same member again -----

  lemma CleanTwice(s: string)
    ensures CleanSuffix(CleanSuffix(s)) == CleanSuffix(s)
    ensures CleanValue(CleanValue(s)) == CleanValue(s) && CleanOrigin(CleanValue(s)) == CleanOrigin(s)
  {
    var k, v := CleanSuffix(s), CleanValue(s);
    assert forall i :: 0 <= i < |k| ==> CleanSuffix(k)[i] == k[i];
    assert forall i :: 0 <= i < |v| ==> CleanValue(v)[i] == v[i];
    assert CleanValue(v) == v;
  }

  lemma SameBase(ctx: InjectContext, again: InjectContext)
    requires ctx.sampling.priority.Some? && again.sampling.priority == ctx.sampling.priority
    requires again.origin == if OriginFits(ctx) then Some(CleanValue(ctx.origin.value)) else None
    requires ParentFits(ctx) ==> ParentId(again) == ParentId(ctx)
    ensures BaseFields(again) == BaseFields(ctx)
  {
    hide CleanOrigin, CleanValue, ParentId, Render, ByteLen;
    if ctx.origin.Some? {
      CleanTwice(ctx.origin.value);
    }
    var f := PriorityField(ctx);
    assert PriorityField(again) == f;
    assert WithOrigin(again, [f]) == WithOrigin(ctx, [f]);
  }

  /** The names under which tags arrive. */
  ghost function Names(keys: seq<string>): (r: seq<string>)
    requires forall i :: 0 <= i < |keys| ==> TAG_PREFIX <= keys[i]
    ensures |r| == |keys| && forall i :: 0 <= i < |r| ==> r[i] == TAG_PREFIX + CleanSuffix(Suffix(keys[i]))
  {
    seq(|keys|, i requires 0 <= i < |keys| => TAG_PREFIX + CleanSuffix(Suffix(keys[i])))
  }

  lemma SameSection(tags: Tags, back: Tags, keys: seq<string>)
    requires KeysOk(tags, keys) && TagsComeBack(back, tags, keys)
    ensures KeysOk(back, Names(keys)) && SectionOf(back, Names(keys)) == SectionOf(tags, keys)
    ensures SizesOf(back, Names(keys)) == SizesOf(tags, keys)
  {
    hide CleanSuffix, CleanValue, EncodeTagValue, ByteLen;
    var names := Names(keys);
    forall i | 0 <= i < |keys|
      ensures TAG_PREFIX <= names[i] && names[i] in back
        && FieldOf(back, names[i]) == FieldOf(tags, keys[i]) && SizeOf(back, names[i]) == SizeOf(tags, keys[i]) {
      var suffix := CleanSuffix(Suffix(keys[i]));
      assert (TAG_PREFIX + suffix)[..6] == TAG_PREFIX && (TAG_PREFIX + suffix)[6..] == suffix;
      CleanTwice(Suffix(keys[i]));
      CleanTwice(tags[keys[i]]);
    }
  }

  lemma {:induction false} FittingAll(sizes: seq<nat>, used: nat)
    requires used + Sum(sizes) <= MAX_TAGS_LENGTH
    ensures Fitting(sizes, used) == |sizes|
    decreases |sizes|
  {
    if sizes != [] {
      SumFront(sizes);
      FittingAll(sizes[1..], used + sizes[0]);
    }
  }

  /** Printing the surviving tags again, in the same order, prints all of them. */
  lemma SameTagFields(ctx: InjectContext, order: seq<string>, back: Tags, again: seq<string>)
    requires IsOrderOf(order, ctx.tags) && IsOrderOf(again, back)
    requires TagsComeBack(back, ctx.tags, Surviving(ctx, order)) && Prefixed(again) == Names(Surviving(ctx, order))
    ensures TagFields(back, again, 0) == SectionOf(ctx.tags, Surviving(ctx, order))
  {
    hide TagFields, SectionOf, SizesOf, Fitting, TagText, ByteLen, Written, BaseFields, Render, Names, TagsComeBack,
      Surviving, CleanSuffix;
    var keys := Surviving(ctx, order);
    SameSection(ctx.tags, back, keys);
    LoopWritesFitting(back, again, 0);
    SectionSize(ctx.tags, keys);
    TagSection(ctx, order);
    SurvivingIs(ctx, order);
    FittingAll(SizesOf(ctx.tags, keys), 0);
    var section := SectionOf(ctx.tags, keys);
    assert section[..|section|] == section;
  }

  lemma SurvivingIs(ctx: InjectContext, order: seq<string>)
    requires IsOrderOf(order, ctx.tags)
    ensures Surviving(ctx, order) == Prefixed(order)[..TagCount(ctx, order)]
  {
  }

  lemma SameWritten(ctx: InjectContext, order: seq<string>, again: InjectContext, nextOrder: seq<string>)
    requires IsOrderOf(order, ctx.tags) && IsOrderOf(nextOrder, again.tags)
    requires BaseFields(again) == BaseFields(ctx)
    requires TagFields(again.tags, nextOrder, 0) == SectionOf(ctx.tags, Surviving(ctx, order))
    ensures Written(again, nextOrder) == Written(ctx, order)
  {
    hide BaseFields, TagFields, SectionOf, Render, ByteLen, TagText, TagCount;
    var base, section := BaseFields(ctx), SectionOf(ctx.tags, Surviving(ctx, order));
    TagSection(ctx, order);
    assert Written(ctx, order) == base + section;
    assert base + [] == base;
    if section != [] {
      assert |base + section| > |base|;
    }
  }

  lemma ExtractedIsRemote(headers: Headers)
    requires Extracted(headers).Some?
    ensures Extracted(headers).value.isRemote
  {
  }

  ghost function ArrivingNames(ctx: InjectContext, order: seq<string>): seq<string>
    requires IsOrderOf(order, ctx.tags)
  {
    Names(Surviving(ctx, order))
  }

  /** A service that passes a received context on, with its tags in the same order,
      prints the same traceparent and the same Datadog member again. */
  lemma RelayRepeatsMember(ctx: InjectContext, order: seq<string>, back: SpanContext, inherited: Option<string>,
                           nextOrder: seq<string>)
    requires ctx.traceId != 0 && ctx.spanId != 0 && PlainParent(ctx) && IsOrderOf(order, ctx.tags)
    requires ctx.sampling.priority.Some? && PlainTags(order) && EndsPlainly(ctx, order)
    requires Extracted(InjectedHeaders(ctx, order)) == Some(back)
    requires IsOrderOf(nextOrder, back.tags) && Prefixed(nextOrder) == ArrivingNames(ctx, order)
    ensures var again := Relayed(back, inherited);
      && Traceparent(again) == Traceparent(ctx)
      && Written(again, nextOrder) == Written(ctx, order)
  {
    hide Extracted, InjectedHeaders, PlainParent, PlainTags, EndsPlainly, Written, BaseFields, TagFields, SectionOf,
      Surviving, Names, TagsComeBack, OriginFits, ParentFits, CleanValue, IsOrderOf, Prefixed, ParseMechanism, KeyValues;
    EverythingAcrossHeaders(ctx, order);
    var again := Relayed(back, inherited);
    ExtractedIsRemote(InjectedHeaders(ctx, order));
    assert ParentFits(ctx) ==> ParentId(again) == ParentId(ctx);
    SameBase(ctx, again);
    SameTagFields(ctx, order, back.tags, nextOrder);
    SameWritten(ctx, order, again, nextOrder);
  }

  // ----- Headers of other senders -----

  /** A kept trace with one more field in its Datadog member. */
  function ForeignHeaders(traceId: U128, spanId: U64, key: string, value: string): Headers {
    var sampled := SamplingDecision(Some(AUTO_KEEP), None);
    Headers(Some(Traceparent(InjectContext(traceId, spanId, sampled, None, map[], false, None))),
            Some("dd=s:1;" + key + ":" + value))
  }

  ghost predicate PlainField(key: string, value: string) {
    && key in ["p", "t.dm"] && 0 < |value| <= 100
    && forall c :: c in value ==> IsDdChar(c) && c != ' ' && c != ';'
  }

  lemma ItemOf(key: string, value: string)
    requires ':' !in key && forall c :: c in key + ":" + value ==> ' ' <= c <= '~'
    ensures ParseItem(key + ":" + value) == Some((key, DecodeTagValue(value)))
  {
    SplitOnceAt(key, ':', value);
    assert key + [':'] + value == key + ":" + value;
  }

  lemma CollectTwo(a: string, b: string)
    requires ParseItem(a).Some? && ParseItem(b).Some?
    ensures var x, y := ParseItem(a).value, ParseItem(b).value;
      Collect([a, b]) == map[x.0 := x.1][y.0 := y.1]
  {
    hide ParseItem;
    assert [a, b][..1] == [a] && [a][..0] == [];
    assert Collect([]) == map[];
  }

  lemma ForeignMember(key: string, value: string)
    requires PlainField(key, value)
    ensures ParseDd("s:1;" + key + ":" + value) == map["s" := "1"][key := DecodeTagValue(value)]
  {
    hide Split, Collect, DecodeTagValue;
    var dd, item := "s:1;" + key + ":" + value, key + ":" + value;
    assert value[|value| - 1] in value;
    TrimKeeps(dd);
    assert dd == "s:1" + [';'] + item;
    SplitConcat("s:1", ';', item);
    SplitWhole("s:1", ';');
    SplitWhole(item, ';');
    assert "s" + ":" + "1" == "s:1";
    ItemOf("s", "1");
    ItemOf(key, value);
    assert DecodeTagValue("1") == "1" by {
      OneStaysOne();
    }
    assert ["s:1"] + [item] == ["s:1", item];
    CollectTwo("s:1", item);
  }

  lemma OneStaysOne()
    ensures DecodeTagValue("1") == "1" && ParsePriority("1") == Some(AUTO_KEEP)
  {
    assert "1"[..0] == "";
    assert Value("1", 10) == Some(1);
  }

  lemma OneMember(dd: string)
    requires dd != "" && AllDd(dd) && |dd| <= 256
    ensures Parsed("dd=" + dd) == Some(DdFields(ParseDd(dd)))
  {
    hide ParseDd, MemberOk, DdFields;
    AsciiByteLen(dd);
    DdMemberOk(dd);
    SplitWhole("dd=" + dd, ',');
    assert ["dd=" + dd][..0] == [];
    OnlyDd("dd=" + dd, dd);
    NoAdditionalValues(ParseDd(dd));
  }

  lemma OnlyDd(member: string, dd: string)
    requires KeyValue(member) == ("dd", dd)
    ensures LastDd([member]) == Some(ParseDd(dd)) && Others([member]) == []
  {
    hide ParseDd, KeyValue;
    assert [member][..0] == [];
  }

  lemma NoAdditionalValues(dd: Tags)
    ensures DdFields(dd).(additionalValues := None) == DdFields(dd)
  {
  }

  /** What the receiver makes of such headers. */
  lemma ForeignHeadersAreRead(traceId: U128, spanId: U64, key: string, value: string)
    requires traceId != 0 && spanId != 0 && PlainField(key, value)
    ensures var back := Extracted(ForeignHeaders(traceId, spanId, key, value));
      && back.Some?
      && back.value.traceId == traceId && back.value.spanId == spanId && back.value.isRemote
      && back.value.sampling.priority == Some(AUTO_KEEP) && back.value.origin == None
      && (key == "p" ==> Find(back.value.tags, LAST_PARENT_ID_KEY) == Some(DecodeTagValue(value)))
      && (key == "t.dm" ==> back.value.sampling.mechanism == ParseMechanism(DecodeTagValue(value)))
  {
    hide Traceparent, Trim, ExtractTraceparent, Parsed, ParseDd, Split, DecodeTagValue, ParseMechanism, Renamed;
    var ctx := InjectContext(traceId, spanId, SamplingDecision(Some(AUTO_KEEP), None), None, map[], false, None);
    var dd := "s:1;" + key + ":" + value;
    TraceparentRoundTrip(ctx);
    assert AllDd(dd) && "dd=s:1;" + key + ":" + value == "dd=" + dd;
    OneMember(dd);
    ForeignMember(key, value);
    OneStaysOne();
    var tags := map["s" := "1"][key := DecodeTagValue(value)];
    assert DdFields(tags).sampling.value.priority == Some(AUTO_KEEP);
    RenamedDm(tags);
  }

  lemma RenamedDm(tags: Tags)
    ensures Find(Renamed(tags - {"s", "o", "p"}), DECISION_MAKER_KEY) == Find(tags, "t.dm")
  {
    hide Renamed;
    assert DECISION_MAKER_KEY[..6] == TAG_PREFIX && DECISION_MAKER_KEY[6..] == "dm";
    assert "t." + "dm" == "t.dm" && Short(DECISION_MAKER_KEY) == "t.dm";
    assert |"t.dm"| == 4;
  }

  /** The one number out of range that is not refused gets through: it reaches the
      context as the default mechanism. */
  lemma SmallestMechanismArrives(traceId: U128, spanId: U64)
    requires traceId != 0 && spanId != 0
    ensures var back := Extracted(ForeignHeaders(traceId, spanId, "t.dm", "-32768"));
      back.Some? && back.value.sampling.mechanism == Some(DEFAULT)
  {
    hide Extracted, ForeignHeaders, ParseMechanism, ParseSigned;
    SmallestText();
    OutOfRangeExactly("-32768", SMALLEST);
    assert DecodeTagValue("-32768") == "-32768";
    ForeignHeadersAreRead(traceId, spanId, "t.dm", "-32768");
  }

  /** A parent id that arrives as `~` is read as `=`, and the header that passes
      it on is refused, whatever members of other vendors it passes on as well. */
  lemma TildeParentIsRefused(traceId: U128, spanId: U64, inherited: Option<string>, order: seq<string>)
    requires traceId != 0 && spanId != 0
    requires var back := Extracted(ForeignHeaders(traceId, spanId, "p", "~"));
      back.Some? && IsOrderOf(order, back.value.tags)
    ensures var again := Relayed(Extracted(ForeignHeaders(traceId, spanId, "p", "~")).value, inherited);
      ParentId(again) == "=" && Parsed(TracestateHeader(again, order)).None?
  {
    hide Extracted, ForeignHeaders, Parsed, TracestateHeader, IsOrderOf, BaseFields;
    ForeignHeadersAreRead(traceId, spanId, "p", "~");
    assert DecodeTagValue("~") == "=" by {
      assert |Exchange("~", '~', '=')| == 1 && Exchange("~", '~', '=')[0] == '=';
    }
    var again := Relayed(Extracted(ForeignHeaders(traceId, spanId, "p", "~")).value, inherited);
    WhatFits(again);
    AcceptedExactly(again, order);
  }
}
