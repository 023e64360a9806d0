/** What the injected headers guarantee to whoever parses them. */
module TraceContextLaws {
  import opened Numbers
  import opened Options
  import opened Bytes
  import opened Text
  import opened Utf8Text
  import opened Sampling
  import opened Context
  import opened TraceContext

  // ----- The alphabet of the Datadog member -----

  predicate IsDdChar(c: char) {
    ' ' <= c <= '~' && c != ',' && c != '='
  }

  predicate AllDd(s: string) {
    forall c :: c in s ==> IsDdChar(c)
  }

  lemma CleanSuffixAlphabet(s: string)
    ensures AllDd(CleanSuffix(s)) && ' ' !in CleanSuffix(s)
  {
  }

  lemma CleanValueAlphabet(s: string)
    ensures forall c :: c in CleanValue(s) ==> ' ' <= c <= '}' && c != ',' && c != ';'
  {
  }

  lemma EncodedAlphabet(s: string)
    requires forall c :: c in s ==> ' ' <= c <= '}' && c != ',' && c != ';'
    ensures AllDd(EncodeTagValue(s)) && ';' !in EncodeTagValue(s)
  {
    var e := EncodeTagValue(s);
    forall i | 0 <= i < |e| ensures IsDdChar(e[i]) && e[i] != ';' {
      assert s[i] in s;
    }
  }

  lemma OriginIsEncoded(s: string)
    ensures CleanOrigin(s) == EncodeTagValue(CleanValue(s))
  {
    var v := CleanValue(s);
    CleanValueAlphabet(s);
    assert forall i :: 0 <= i < |v| ==> v[i] in v;
    assert CleanOrigin(s) == Exchange(v, '=', '~');
    if '=' !in v {
      assert Exchange(v, '=', '~') == v;
    }
  }

  // Values are clean; only keys of tags may still contain ':' and ';'.
  ghost predicate FieldOk(f: Field) {
    AllDd(f.0) && AllDd(f.1) && ';' !in f.1
  }

  ghost predicate FieldsOk(fields: seq<Field>) {
    forall i :: 0 <= i < |fields| ==> FieldOk(fields[i])
  }

  lemma TagFieldOk(suffix: string, value: string)
    ensures FieldOk(TagField(suffix, value))
  {
    CleanSuffixAlphabet(suffix);
    CleanValueAlphabet(value);
    EncodedAlphabet(CleanValue(value));
  }

  lemma {:induction false} TagFieldsOk(tags: Tags, order: seq<string>, used: nat)
    requires forall i :: 0 <= i < |order| ==> order[i] in tags
    ensures FieldsOk(TagFields(tags, order, used))
    decreases |order|
  {
    hide FieldOk, TagField, EntrySize;
    if order != [] {
      var stripped := StripPrefix(order[0], TAG_PREFIX);
      if stripped.None? {
        TagFieldsOk(tags, order[1..], used);
      } else {
        TagFieldOk(stripped.value, tags[order[0]]);
        TagFieldsOk(tags, order[1..], used + EntrySize(stripped.value, tags[order[0]]));
      }
    }
  }

  lemma PowerOf16()
    ensures Power(16, 2) == 0x100
    ensures Power(16, 16) == 0x1_0000_0000_0000_0000
    ensures Power(16, 32) == 0x1_0000_0000_0000_0000_0000_0000_0000_0000
  {
    assert Power(16, 4) == 0x1_0000;
    PowerAdds(4, 4);
    PowerAdds(8, 8);
    PowerAdds(16, 16);
  }

  lemma {:induction false} PowerAdds(a: nat, b: nat)
    ensures Power(16, a + b) == Power(16, a) * Power(16, b)
    decreases a
  {
    if a > 0 {
      PowerAdds(a - 1, b);
    }
  }

  lemma PriorityTextOk(p: I8)
    ensures |PriorityText(p)| <= 4
    ensures forall c :: c in PriorityText(p) ==> c == '-' || c in "0123456789abcdef"
  {
    var n: int := p;
    var magnitude := if n < 0 then -n else n;
    DigitsAlphabet(magnitude, 10);
    ShortNumber(magnitude);
  }

  lemma PriorityFieldOk(ctx: InjectContext)
    ensures FieldOk(PriorityField(ctx)) && PriorityField(ctx).0 == "s"
    ensures |PriorityField(ctx).1| <= 4 && AllAscii(PriorityField(ctx).1)
  {
    PriorityTextOk(if ctx.sampling.priority.Some? then ctx.sampling.priority.value else USER_KEEP);
  }

  lemma ShortNumber(n: nat)
    requires n < 1000
    ensures |Digits(n, 10)| <= 3
  {
    if n >= 100 {
      assert |Digits(n / 10 / 10, 10)| == 1;
      assert |Digits(n / 10, 10)| == 2;
    } else if n >= 10 {
      assert |Digits(n / 10, 10)| == 1;
    }
  }

  // ----- The size of the Datadog member -----

  lemma RenderedSize(fields: seq<Field>, f: Field)
    requires fields != [] && |f.0| == 1 && AllAscii(f.0)
    ensures ByteLen(Render(fields + [f])) == ByteLen(Render(fields)) + 3 + ByteLen(f.1)
  {
    hide ByteLen, Render;
    RenderAppend(fields, f);
    Regroup(Render(fields), ";", Item(f));
    ByteLenConcat(Render(fields), ";" + Item(f));
    assert ";" + Item(f) == (";" + f.0 + ":") + f.1;
    ByteLenConcat(";" + f.0 + ":", f.1);
    AsciiByteLen(";" + f.0 + ":");
  }

  /** Whether there was room for the origin and for the parent id. */
  predicate OriginFits(ctx: InjectContext) {
    ctx.origin.Some? && |WithOrigin(ctx, [PriorityField(ctx)])| == 2
  }

  predicate ParentFits(ctx: InjectContext) {
    |BaseFields(ctx)| == |WithOrigin(ctx, [PriorityField(ctx)])| + 1
  }

  lemma PriorityBefore(ctx: InjectContext)
    ensures ByteLen(Render([PriorityField(ctx)])) == 2 + |PriorityField(ctx).1|
  {
    PriorityFieldOk(ctx);
    RenderOne(PriorityField(ctx));
    AsciiByteLen(Item(PriorityField(ctx)));
  }

  lemma CleanOriginLength(s: string)
    ensures |CleanOrigin(s)| == |s| && ByteLen(CleanOrigin(s)) == |s|
  {
    CleanValueAlphabet(s);
    EncodedAlphabet(CleanValue(s));
    OriginIsEncoded(s);
    AsciiByteLen(CleanOrigin(s));
  }

  /** The origin fits exactly if it has few enough characters; the parent id always
      fits next to an origin that is not too long. */
  lemma WhatFits(ctx: InjectContext)
    ensures var p := |PriorityField(ctx).1|;
      && (OriginFits(ctx) <==> ctx.origin.Some? && 5 + p + |ctx.origin.value| < 256)
      && (ParentFits(ctx) <==> !OriginFits(ctx) || 24 + p + |ctx.origin.value| < 256)
  {
    hide CleanOrigin, PriorityField, Render, ParentId, ByteLen;
    var f := PriorityField(ctx);
    PriorityFieldOk(ctx);
    PriorityBefore(ctx);
    if ctx.origin.Some? {
      CleanOriginLength(ctx.origin.value);
      RenderedSize([f], ("o", CleanOrigin(ctx.origin.value)));
    }
  }

  /** The length of priority, origin and parent id in the member. */
  function LengthWithParent(ctx: InjectContext): nat {
    2 + |PriorityField(ctx).1| + (if OriginFits(ctx) then 3 + |ctx.origin.value| else 0) + 3 + ByteLen(ParentId(ctx))
  }

  lemma BaseLength(ctx: InjectContext)
    requires ParentFits(ctx)
    ensures ByteLen(Render(BaseFields(ctx))) == LengthWithParent(ctx)
  {
    hide CleanOrigin, PriorityField, Render, ParentId, ByteLen;
    var f := PriorityField(ctx);
    PriorityFieldOk(ctx);
    PriorityBefore(ctx);
    if OriginFits(ctx) {
      CleanOriginLength(ctx.origin.value);
      RenderedSize([f], ("o", CleanOrigin(ctx.origin.value)));
    }
    RenderedSize(WithOrigin(ctx, [f]), ("p", ParentId(ctx)));
  }

  /** The tags do not matter for the limit: they are left out near it. */
  lemma WrittenLength(ctx: InjectContext, order: seq<string>)
    requires IsOrderOf(order, ctx.tags)
    ensures ByteLen(Render(Written(ctx, order))) <= 256 <==> ByteLen(Render(BaseFields(ctx))) <= 256
  {
    hide Render, ByteLen, BaseFields, TagFields;
    var base, tags := BaseFields(ctx), TagFields(ctx.tags, order, 0);
    BaseKeys(ctx);
    RenderWithTags(base, tags);
    ByteLenConcat(Render(base), TagText(tags));
  }

  lemma WithoutParentFits(ctx: InjectContext)
    requires !ParentFits(ctx)
    ensures ByteLen(Render(BaseFields(ctx))) < DD_MAX_LENGTH
  {
    hide Render, PriorityField, CleanOrigin, ByteLen;
    var f := PriorityField(ctx);
    PriorityFieldOk(ctx);
    PriorityBefore(ctx);
    if ctx.origin.Some? {
      RenderedSize([f], ("o", CleanOrigin(ctx.origin.value)));
    }
  }

  // ----- The parent id -----

  /** A parent id that the code does not have to trust: printable, without a
      separator, and short enough next to the origin, if it is written at all. */
  ghost predicate PlainParent(ctx: InjectContext) {
    ParentFits(ctx) ==>
      && (forall c :: c in ParentId(ctx) ==> IsDdChar(c) && c != ';' && c != '~')
      && LengthWithParent(ctx) <= DD_MAX_LENGTH
  }

  predicate IsHex(c: char) {
    IsLowerHex(c) || 'A' <= c <= 'F'
  }

  /** Such are all ids of 16 hexadecimal digits. */
  lemma HexParentIsPlain(ctx: InjectContext)
    requires |ParentId(ctx)| == 16 && forall c :: c in ParentId(ctx) ==> IsHex(c)
    ensures PlainParent(ctx) && ByteLen(ParentId(ctx)) == 16
  {
    hide ParentId, PriorityField;
    PriorityFieldOk(ctx);
    WhatFits(ctx);
    AsciiByteLen(ParentId(ctx));
  }

  lemma LocalParentIsPlain(ctx: InjectContext)
    requires !ctx.isRemote || LAST_PARENT_ID_KEY !in ctx.tags
    ensures PlainParent(ctx) && ByteLen(ParentId(ctx)) == 16
  {
    hide Power, Padded;
    PowerOf16();
    PaddedValue(ctx.spanId, 16, 16);
    HexParentIsPlain(ctx);
  }

  lemma BaseFits(ctx: InjectContext)
    requires PlainParent(ctx)
    ensures ByteLen(Render(BaseFields(ctx))) <= DD_MAX_LENGTH
    ensures ByteLen(ParentId(ctx)) <= 16 ==> ByteLen(Render(BaseFields(ctx))) < DD_MAX_LENGTH
  {
    hide ParentId, PriorityField, Render, ByteLen, BaseFields;
    PriorityFieldOk(ctx);
    if ParentFits(ctx) {
      BaseLength(ctx);
      WhatFits(ctx);
    } else {
      WithoutParentFits(ctx);
    }
  }

  lemma WrittenFits(ctx: InjectContext, order: seq<string>)
    requires PlainParent(ctx) && IsOrderOf(order, ctx.tags)
    ensures ByteLen(Render(Written(ctx, order))) <= DD_MAX_LENGTH
    ensures ByteLen(ParentId(ctx)) <= 16 ==> ByteLen(Render(Written(ctx, order))) < DD_MAX_LENGTH
  {
    hide BaseFields, Render, ByteLen, ParentId;
    BaseFits(ctx);
  }

  lemma BaseFieldsOk(ctx: InjectContext)
    requires PlainParent(ctx)
    ensures FieldsOk(BaseFields(ctx))
  {
    PriorityFieldOk(ctx);
    if ctx.origin.Some? {
      CleanValueAlphabet(ctx.origin.value);
      EncodedAlphabet(CleanValue(ctx.origin.value));
      OriginIsEncoded(ctx.origin.value);
    }
  }

  lemma WrittenOk(ctx: InjectContext, order: seq<string>)
    requires PlainParent(ctx) && IsOrderOf(order, ctx.tags)
    ensures FieldsOk(Written(ctx, order))
  {
    BaseFieldsOk(ctx);
    TagFieldsOk(ctx.tags, order, 0);
  }

  // ----- The header as a whole -----

  function KeyValues(members: seq<string>): (r: seq<(string, string)>)
    ensures |r| == |members| && forall i :: 0 <= i < |r| ==> r[i] == KeyValue(members[i])
  {
    seq(|members|, i requires 0 <= i < |members| => KeyValue(members[i]))
  }

  lemma {:induction false} AlphabetOfRender(fields: seq<Field>)
    requires FieldsOk(fields)
    ensures AllDd(Render(fields))
    decreases |fields|
  {
    if fields != [] {
      var init, last := fields[..|fields| - 1], fields[|fields| - 1];
      assert FieldOk(last);
      AlphabetOfRender(init);
    }
  }

  lemma DdIsValidKey()
    ensures ValidKey("dd")
  {
    assert Utf8("dd") == Utf8Char('d') + Utf8("d");
    assert Utf8("dd") == ['d' as int, 'd' as int];
  }

  lemma DdMemberOk(dd: string)
    requires dd != "" && ',' !in dd
    ensures KeyValue("dd=" + dd) == ("dd", dd) && ',' !in "dd=" + dd
    ensures MemberOk("dd=" + dd) <==> '=' !in dd && ByteLen(dd) <= 256
  {
    hide ValidKey, ByteLen, SplitOnce;
    SplitOnceAt("dd", '=', dd);
    assert "dd" + ['='] + dd == "dd=" + dd;
    DdIsValidKey();
  }

  /** The members that are passed on are those that are valid for the parser, other
      than `dd`. */
  lemma AdditionalIsOk(part: string)
    ensures IsAdditional(part) <==> MemberOk(part) && KeyValue(part).0 != "dd"
  {
  }

  lemma {:induction false} OthersOf(members: seq<string>, dd: string)
    requires members != [] && KeyValue(members[0]) == ("dd", dd)
    requires forall i :: 0 < i < |members| ==> KeyValue(members[i]).0 != "dd"
    ensures LastDd(members) == Some(ParseDd(dd))
    ensures Others(members) == KeyValues(members[1..])
    decreases |members|
  {
    hide ParseDd, KeyValue;
    var n := |members| - 1;
    if n > 0 {
      OthersOf(members[..n], dd);
      assert members[..n][1..] == members[1..][..n - 1] && members[1..][n - 1] == members[n];
      assert KeyValues(members[1..]) == KeyValues(members[..n][1..]) + [KeyValue(members[n])];
    } else {
      assert members[..0] == [] && members[1..] == [];
    }
  }

  /** For any origin, tags, iteration order and inherited header: the injected
      header is accepted as a whole by the parser. It has at most 32 members, the
      Datadog one first and no longer than 256 bytes, shorter with an id of 16; then come, in their order,
      the first 31 valid members of the inherited header that are not `dd`. */
  lemma HeaderIsAccepted(ctx: InjectContext, order: seq<string>)
    requires PlainParent(ctx) && IsOrderOf(order, ctx.tags)
    ensures var members := Split(TracestateHeader(ctx, order), ',');
      var dd := Render(Written(ctx, order));
      && members == ["dd=" + dd] + OtherMembers(ctx)
      && |members| <= 32 && ByteLen(dd) <= 256 && (ByteLen(ParentId(ctx)) <= 16 ==> ByteLen(dd) < 256)
    ensures Parsed(TracestateHeader(ctx, order)) == Some(
      DdFields(ParseDd(Render(Written(ctx, order)))).(
        additionalValues := if OtherMembers(ctx) == [] then None else Some(KeyValues(OtherMembers(ctx)))))
  {
    hide Render, ByteLen, Written, OtherMembers, MemberOk, IsAdditional, Split, Join, ParentId, PlainParent, FieldsOk,
      ParseDd, LastDd, Others;
    var dd, others := Render(Written(ctx, order)), OtherMembers(ctx);
    var members := ["dd=" + dd] + others;
    WrittenOk(ctx, order);
    WrittenFits(ctx, order);
    AlphabetOfRender(Written(ctx, order));
    RenderNotEmpty(ctx, order);
    DdMemberOk(dd);
    OthersAreMembers(ctx);
    SplitJoin(members, ',');
    assert AllMembersOk(members) by {
      forall m | m in members ensures MemberOk(m) {
        if m in others {
          AdditionalIsOk(m);
        }
      }
    }
    forall i | 0 < i < |members| ensures KeyValue(members[i]).0 != "dd" {
      assert members[i] in others;
      AdditionalIsOk(members[i]);
    }
    OthersOf(members, dd);
    assert members[1..] == others;
  }

  lemma OthersAreMembers(ctx: InjectContext)
    ensures |OtherMembers(ctx)| <= MAX_OTHER_MEMBERS
    ensures forall m :: m in OtherMembers(ctx) ==> IsAdditional(m) && ',' !in m
  {
    if ctx.tracestate.Some? {
      SplitParts(ctx.tracestate.value, ',');
    }
  }

  // ----- The members that are passed on -----

  /** The positions of the members that may be passed on, from one position on. */
  function ValidFrom(members: seq<string>, from: nat): (idx: seq<nat>)
    decreases |members| - from
  {
    if from >= |members| then []
    else (if IsAdditional(members[from]) then [from] else []) + ValidFrom(members, from + 1)
  }

  ghost function ValidPositions(members: seq<string>, from: nat): set<int> {
    set i | from <= i < |members| && IsAdditional(members[i])
  }

  predicate IsIncreasing(idx: seq<nat>) {
    forall j, k :: 0 <= j < k < |idx| ==> idx[j] < idx[k]
  }

  lemma {:induction false} ValidFromExactly(members: seq<string>, from: nat)
    requires from <= |members|
    ensures var idx := ValidFrom(members, from);
      && IsIncreasing(idx) && |idx| == |ValidPositions(members, from)|
      && (forall i :: i in idx <==> i in ValidPositions(members, from))
    decreases |members| - from
  {
    hide IsAdditional, ValidPositions, IsIncreasing;
    PositionsStep(members, from);
    if from == |members| {
      OneInFront([], from);
    } else {
      var rest := ValidFrom(members, from + 1);
      ValidFromExactly(members, from + 1);
      OneInFront(rest, from);
      assert [] + rest == rest;
    }
  }

  lemma PositionsStep(members: seq<string>, from: nat)
    requires from <= |members|
    ensures var rest := ValidPositions(members, from + 1);
      && (forall i :: i in rest ==> from < i)
      && ValidPositions(members, from) ==
           if from < |members| && IsAdditional(members[from]) then {from} + rest
           else if from < |members| then rest else {}
  {
    hide IsAdditional;
  }

  lemma OneInFront(idx: seq<nat>, first: nat)
    ensures IsIncreasing([])
    ensures IsIncreasing(idx) && (forall i :: i in idx ==> first < i) ==> IsIncreasing([first] + idx)
  {
    if IsIncreasing(idx) && forall i :: i in idx ==> first < i {
      forall k | 0 <= k < |idx| ensures first < idx[k] {
        assert idx[k] in idx;
      }
    }
  }

  lemma {:induction false} FilteredIs(members: seq<string>, from: nat)
    requires from <= |members|
    ensures var kept, idx := Filtered(members[from..]), ValidFrom(members, from);
      && |kept| == |idx| && (forall k :: 0 <= k < |idx| ==> idx[k] < |members|)
      && (forall k :: 0 <= k < |idx| ==> kept[k] == members[idx[k]])
    decreases |members| - from
  {
    hide IsAdditional;
    if from < |members| {
      FilteredIs(members, from + 1);
      assert members[from..][1..] == members[from + 1..];
    }
  }

  /** The members of the inherited header. */
  function Inherited(ctx: InjectContext): seq<string> {
    if ctx.tracestate.Some? then Split(ctx.tracestate.value, ',') else []
  }

  /** Behind the Datadog member of the printed header come members of the inherited
      header, in their order: the valid ones but no `dd`, each once, the first 31 if
      there are more, and none of them is left out before that. */
  lemma MembersPassedOn(ctx: InjectContext, order: seq<string>) returns (idx: seq<nat>)
    requires PlainParent(ctx) && IsOrderOf(order, ctx.tags)
    ensures var members, sent := Inherited(ctx), Split(TracestateHeader(ctx, order), ',');
      var valid := ValidPositions(members, 0);
      && IsIncreasing(idx) && |idx| == (if |valid| <= 31 then |valid| else 31)
      && (forall k :: 0 <= k < |idx| ==> idx[k] in valid)
      && (forall i :: i in valid ==> i in idx || (|idx| == 31 && idx[30] < i))
      && |sent| == |idx| + 1
      && (forall k :: 0 <= k < |idx| ==> sent[k + 1] == members[idx[k]])
  {
    hide Split, TracestateHeader, IsAdditional, Written, Render, ByteLen, Parsed, ParentId, ParseDd, DdFields, KeyValues,
      PlainParent, IsOrderOf, OtherMembers, Inherited, ValidFrom, ValidPositions, IsIncreasing;
    HeaderIsAccepted(ctx, order);
    idx := FirstValid(Inherited(ctx));
    OthersAreAt(ctx, idx);
  }

  /** The positions of the first 31 valid members, or of all of them. */
  lemma FirstValid(members: seq<string>) returns (idx: seq<nat>)
    ensures var valid := ValidPositions(members, 0);
      && IsIncreasing(idx) && |idx| == (if |valid| <= 31 then |valid| else 31)
      && (forall k :: 0 <= k < |idx| ==> idx[k] in valid)
      && (forall i :: i in valid ==> i in idx || (|idx| == 31 && idx[30] < i))
    ensures idx <= ValidFrom(members, 0) && (|idx| == |ValidFrom(members, 0)| || |idx| == 31 < |ValidFrom(members, 0)|)
    ensures forall k :: 0 <= k < |idx| ==> idx[k] < |members|
  {
    hide IsAdditional, ValidFrom;
    ValidFromExactly(members, 0);
    var all := ValidFrom(members, 0);
    idx := if |all| <= 31 then all else all[..31];
    forall i | i in ValidPositions(members, 0) ensures i in idx || (|idx| == 31 && idx[30] < i) {
      var k :| 0 <= k < |all| && all[k] == i;
      assert k < |idx| ==> idx[k] == i;
    }
  }

  lemma OthersAreAt(ctx: InjectContext, idx: seq<nat>)
    requires var all := ValidFrom(Inherited(ctx), 0);
      idx <= all && (|idx| == |all| <= 31 || |idx| == 31 < |all|)
    requires forall k :: 0 <= k < |idx| ==> idx[k] < |Inherited(ctx)|
    ensures |OtherMembers(ctx)| == |idx| && forall k :: 0 <= k < |idx| ==> OtherMembers(ctx)[k] == Inherited(ctx)[idx[k]]
  {
    hide IsAdditional, Split, Filtered, ValidFrom;
    var members := Inherited(ctx);
    FilteredIs(members, 0);
    assert members[0..] == members;
    if ctx.tracestate.None? {
      NoneValid(members);
    }
  }

  lemma NoneValid(members: seq<string>)
    ensures members == [] ==> ValidFrom(members, 0) == []
  {
  }

  lemma RenderNotEmpty(ctx: InjectContext, order: seq<string>)
    requires IsOrderOf(order, ctx.tags)
    ensures Render(Written(ctx, order)) != ""
  {
    var w := Written(ctx, order);
    assert Item(w[|w| - 1]) != "";
  }

  // ----- A parent id that is passed on raw -----

  lemma {:induction false} RenderContains(fields: seq<Field>, c: char)
    requires c != ':' && c != ';'
    ensures c in Render(fields) <==> exists i :: 0 <= i < |fields| && (c in fields[i].0 || c in fields[i].1)
    decreases |fields|
  {
    if fields != [] {
      var init, last := fields[..|fields| - 1], fields[|fields| - 1];
      RenderContains(init, c);
      assert c in Item(last) <==> c in last.0 || c in last.1;
      assert forall i :: 0 <= i < |init| ==> init[i] == fields[i];
    }
  }

  /** The only field that may hold a comma or an equals sign is the parent id. */
  lemma SeparatorsComeFromParent(ctx: InjectContext, order: seq<string>, c: char)
    requires IsOrderOf(order, ctx.tags) && c in [',', '=']
    ensures c in Render(Written(ctx, order)) <==> ParentFits(ctx) && c in ParentId(ctx)
  {
    hide Render, ByteLen, ParentId, PriorityField, CleanOrigin, TagFields;
    var w, base := Written(ctx, order), BaseFields(ctx);
    RenderContains(w, c);
    PriorityFieldOk(ctx);
    TagFieldsOk(ctx.tags, order, 0);
    if ctx.origin.Some? {
      CleanValueAlphabet(ctx.origin.value);
      EncodedAlphabet(CleanValue(ctx.origin.value));
      OriginIsEncoded(ctx.origin.value);
    }
    if ParentFits(ctx) {
      assert base[|base| - 1] == ("p", ParentId(ctx)) && w[|base| - 1] == base[|base| - 1];
    }
    forall i | 0 <= i < |w| && !(ParentFits(ctx) && i == |base| - 1) ensures FieldOk(w[i]) {
      if i >= |base| {
        assert w[i] == TagFields(ctx.tags, order, 0)[i - |base|];
      }
    }
  }

  /** A remote parent id is passed on as it is and without a limit. If it has no
      comma, the header is accepted exactly if the id is not written, or has no
      equals sign and leaves priority, origin and id within 256 bytes; otherwise
      the receiver refuses the members of all vendors together. */
  lemma AcceptedExactly(ctx: InjectContext, order: seq<string>)
    requires IsOrderOf(order, ctx.tags) && ',' !in ParentId(ctx)
    ensures Parsed(TracestateHeader(ctx, order)).Some? <==>
      !ParentFits(ctx) || ('=' !in ParentId(ctx) && LengthWithParent(ctx) <= 256)
  {
    hide Render, ByteLen, Written, OtherMembers, ParentId, MemberOk, Split, Join, LengthWithParent, BaseFields;
    var dd, others := Render(Written(ctx, order)), OtherMembers(ctx);
    var members := ["dd=" + dd] + others;
    SeparatorsComeFromParent(ctx, order, ',');
    SeparatorsComeFromParent(ctx, order, '=');
    RenderNotEmpty(ctx, order);
    DdMemberOk(dd);
    OthersAreMembers(ctx);
    SplitJoin(members, ',');
    forall m | m in others ensures MemberOk(m) {
      AdditionalIsOk(m);
    }
    assert AllMembersOk(members) <==> MemberOk("dd=" + dd) by {
      assert members[0] in members;
    }
    if ParentFits(ctx) {
      BaseLength(ctx);
    } else {
      WithoutParentFits(ctx);
    }
    WrittenLength(ctx, order);
  }

  // ----- Reading the fields back -----

  lemma {:induction false} TrimEndBehind(front: string, v: string)
    requires front != "" && !IsWhitespace(front[|front| - 1])
    ensures TrimEnd(front + v) == front + TrimEnd(v)
    decreases |v|
  {
    if v == "" {
      assert front + v == front;
    } else if IsWhitespace(v[|v| - 1]) {
      assert (front + v)[..|front + v| - 1] == front + v[..|v| - 1];
      TrimEndBehind(front, v[..|v| - 1]);
    }
  }

  /** What the parser sees of the fields: the end of the last value is trimmed. */
  function Seen(fields: seq<Field>): (r: seq<Field>)
    ensures |r| == |fields|
  {
    if fields == [] then []
    else
      var n := |fields| - 1;
      fields[..n] + [(fields[n].0, TrimEnd(fields[n].1))]
  }

  lemma {:induction false} RenderHead(fields: seq<Field>)
    requires fields != []
    ensures Render(fields) != "" && Item(fields[0]) <= Render(fields)
    decreases |fields|
  {
    if |fields| > 1 {
      RenderHead(fields[..|fields| - 1]);
    } else {
      RenderOne(fields[0]);
      assert fields == [fields[0]];
    }
  }

  /** Everything in front of the last value. */
  function Front(fields: seq<Field>): string
    requires fields != []
  {
    var n := |fields| - 1;
    (if n == 0 then "" else Render(fields[..n]) + ";") + fields[n].0 + ":"
  }

  lemma RenderIsFront(init: seq<Field>, f: Field)
    ensures Render(init + [f]) == Front(init + [f]) + f.1
  {
    assert (init + [f])[..|init|] == init;
    if init != [] {
      assert Render(init) + ";" + Item(f) == Render(init) + ";" + f.0 + ":" + f.1;
    } else {
      assert "" + f.0 + ":" + f.1 == Item(f);
    }
  }

  lemma TrimEndOfRender(init: seq<Field>, f: Field)
    ensures TrimEnd(Render(init + [f])) == Render(init + [(f.0, TrimEnd(f.1))])
  {
    var trimmed := (f.0, TrimEnd(f.1));
    RenderIsFront(init, f);
    RenderIsFront(init, trimmed);
    assert (init + [f])[..|init|] == init == (init + [trimmed])[..|init|];
    TrimEndBehind(Front(init + [f]), f.1);
  }

  lemma TrimRender(fields: seq<Field>)
    requires fields != [] && fields[0].0 == "s"
    ensures Trim(Render(fields)) == Render(Seen(fields))
  {
    hide Render, TrimEnd;
    var n := |fields| - 1;
    RenderHead(fields);
    assert Render(fields)[0] == Item(fields[0])[0] == 's';
    assert fields == fields[..n] + [fields[n]];
    TrimEndOfRender(fields[..n], fields[n]);
  }

  /** The pieces between semicolons; a key with semicolons makes several. */
  function Pieces(fields: seq<Field>): seq<string>
    decreases |fields|
  {
    if fields == [] then []
    else Pieces(fields[..|fields| - 1]) + Split(Item(fields[|fields| - 1]), ';')
  }

  lemma {:induction false} SplitRender(fields: seq<Field>)
    requires fields != []
    ensures Split(Render(fields), ';') == Pieces(fields)
    decreases |fields|
  {
    var init, last := fields[..|fields| - 1], fields[|fields| - 1];
    if init != [] {
      SplitRender(init);
      SplitConcat(Render(init), ';', Item(last));
      assert Render(fields) == Render(init) + [';'] + Item(last);
    } else {
      assert fields == [last];
      RenderOne(last);
    }
  }

  lemma ParseDdIsCollect(fields: seq<Field>)
    requires fields != [] && fields[0].0 == "s"
    ensures ParseDd(Render(fields)) == Collect(Pieces(Seen(fields)))
  {
    TrimRender(fields);
    SplitRender(Seen(fields));
  }

  lemma {:induction false} CollectConcat(a: seq<string>, b: seq<string>)
    ensures Collect(a + b) == Collect(a) + Collect(b)
    decreases |b|
  {
    if b == [] {
      assert a + b == a;
      assert Collect(a) + map[] == Collect(a);
    } else {
      var n := |b| - 1;
      assert (a + b)[..|a + b| - 1] == a + b[..n];
      CollectConcat(a, b[..n]);
    }
  }

  /** A field whose key has neither separator: it is one piece and parses as
      itself, with `~` in the value read as `=`. */
  ghost predicate Nice(f: Field) {
    FieldOk(f) && ':' !in f.0 && ';' !in f.0
  }

  lemma NiceField(f: Field)
    requires Nice(f)
    ensures Collect(Split(Item(f), ';')) == map[f.0 := DecodeTagValue(f.1)]
  {
    SplitWhole(Item(f), ';');
    SplitOnceAt(f.0, ':', f.1);
    assert f.0 + [':'] + f.1 == Item(f);
    assert ParseItem(Item(f)) == Some((f.0, DecodeTagValue(f.1)));
    assert [Item(f)][..0] == [];
    assert Collect([Item(f)]) == map[][f.0 := DecodeTagValue(f.1)];
  }

  lemma {:induction false} ParsedKeysArePlain(items: seq<string>)
    requires forall i :: 0 <= i < |items| ==> ';' !in items[i]
    ensures forall k :: k in Collect(items) ==> ':' !in k && ';' !in k
    decreases |items|
  {
    if items != [] {
      var item := items[|items| - 1];
      ParsedKeysArePlain(items[..|items| - 1]);
      var kv := SplitOnce(item, ':');
      assert kv.Some? ==> forall c :: c in kv.value.0 ==> c in item;
    }
  }

  /** A printed field is read back as it is exactly if its key has neither colon
      nor semicolon. */
  lemma FieldReadsBackExactly(f: Field)
    requires FieldOk(f)
    ensures Collect(Split(Item(f), ';')) == map[f.0 := DecodeTagValue(f.1)] <==> ':' !in f.0 && ';' !in f.0
  {
    hide Collect, DecodeTagValue;
    if Nice(f) {
      NiceField(f);
    } else {
      var pieces := Split(Item(f), ';');
      SplitParts(Item(f), ';');
      assert forall i :: 0 <= i < |pieces| ==> pieces[i] in pieces;
      ParsedKeysArePlain(pieces);
    }
  }

  /** The fields as a map, later fields winning. */
  function FieldMap(fields: seq<Field>): Tags
    decreases |fields|
  {
    if fields == [] then map[]
    else
      var f := fields[|fields| - 1];
      FieldMap(fields[..|fields| - 1])[f.0 := DecodeTagValue(f.1)]
  }

  lemma NothingCollected()
    ensures Collect([]) == map[]
  {
  }

  lemma {:induction false} NiceFields(fields: seq<Field>)
    requires AllNice(fields)
    ensures Collect(Pieces(fields)) == FieldMap(fields)
    decreases |fields|
  {
    hide Split, Collect, Nice;
    if fields == [] {
      assert Collect(Pieces(fields)) == map[] by {
        NothingCollected();
      }
    } else {
      var init, f := fields[..|fields| - 1], fields[|fields| - 1];
      NiceFields(init);
      NiceField(f);
      CollectConcat(Pieces(init), Split(Item(f), ';'));
      assert FieldMap(init) + map[f.0 := DecodeTagValue(f.1)] == FieldMap(init)[f.0 := DecodeTagValue(f.1)];
    }
  }

  // ----- Which tags are written -----

  function Suffix(key: string): string
    requires TAG_PREFIX <= key
  {
    key[|TAG_PREFIX|..]
  }

  ghost predicate KeysOk(tags: Tags, keys: seq<string>) {
    forall i :: 0 <= i < |keys| ==> TAG_PREFIX <= keys[i] && keys[i] in tags
  }

  function SizeOf(tags: Tags, key: string): nat
    requires TAG_PREFIX <= key && key in tags
  {
    EntrySize(Suffix(key), tags[key])
  }

  function FieldOf(tags: Tags, key: string): Field
    requires TAG_PREFIX <= key && key in tags
  {
    TagField(Suffix(key), tags[key])
  }

  /** The entries of these keys, and their sizes. */
  ghost function SectionOf(tags: Tags, keys: seq<string>): (r: seq<Field>)
    requires KeysOk(tags, keys)
    ensures |r| == |keys| && forall i :: 0 <= i < |keys| ==> r[i] == FieldOf(tags, keys[i])
  {
    seq(|keys|, i requires 0 <= i < |keys| => FieldOf(tags, keys[i]))
  }

  ghost function SizesOf(tags: Tags, keys: seq<string>): (r: seq<nat>)
    requires KeysOk(tags, keys)
    ensures |r| == |keys| && forall i :: 0 <= i < |keys| ==> r[i] == SizeOf(tags, keys[i])
  {
    seq(|keys|, i requires 0 <= i < |keys| => SizeOf(tags, keys[i]))
  }

  ghost function Sum(sizes: seq<nat>): nat
    decreases |sizes|
  {
    if sizes == [] then 0 else Sum(sizes[..|sizes| - 1]) + sizes[|sizes| - 1]
  }

  lemma {:induction false} SumFront(sizes: seq<nat>)
    requires sizes != []
    ensures Sum(sizes) == sizes[0] + Sum(sizes[1..])
    decreases |sizes|
  {
    if |sizes| > 1 {
      SumFront(sizes[..|sizes| - 1]);
      assert sizes[..|sizes| - 1][1..] == sizes[1..][..|sizes| - 2];
    }
  }

  /** How many of the first entries fit into the tag budget. */
  ghost function Fitting(sizes: seq<nat>, used: nat): (n: nat)
    ensures n <= |sizes|
    decreases |sizes|
  {
    if sizes == [] || used + sizes[0] > MAX_TAGS_LENGTH then 0
    else 1 + Fitting(sizes[1..], used + sizes[0])
  }

  lemma {:induction false} FittingFits(sizes: seq<nat>, used: nat)
    requires used <= MAX_TAGS_LENGTH
    ensures var n := Fitting(sizes, used);
      && used + Sum(sizes[..n]) <= MAX_TAGS_LENGTH
      && (n < |sizes| ==> used + Sum(sizes[..n]) + sizes[n] > MAX_TAGS_LENGTH)
    decreases |sizes|
  {
    var n := Fitting(sizes, used);
    if n > 0 {
      FittingFits(sizes[1..], used + sizes[0]);
      SumFront(sizes[..n]);
      assert sizes[..n][1..] == sizes[1..][..n - 1];
    }
  }

  lemma {:induction false} SectionSize(tags: Tags, keys: seq<string>)
    requires KeysOk(tags, keys)
    ensures ByteLen(TagText(SectionOf(tags, keys))) == Sum(SizesOf(tags, keys))
    decreases |keys|
  {
    hide EntrySize, TagField, ByteLen;
    if keys == [] {
      NothingWritten(tags, keys);
    } else {
      var init, key := keys[..|keys| - 1], keys[|keys| - 1];
      SectionSize(tags, init);
      TagTextStep(SectionOf(tags, init), Suffix(key), tags[key]);
      assert SectionOf(tags, keys) == SectionOf(tags, init) + [FieldOf(tags, key)];
      assert SizesOf(tags, keys)[..|keys| - 1] == SizesOf(tags, init);
    }
  }

  lemma {:induction false} PrefixedOk(tags: Tags, order: seq<string>)
    requires forall i :: 0 <= i < |order| ==> order[i] in tags
    ensures KeysOk(tags, Prefixed(order))
  {
    if order != [] {
      PrefixedOk(tags, order[1..]);
    }
  }

  lemma FittingFront(tags: Tags, keys: seq<string>, used: nat)
    requires keys != [] && KeysOk(tags, keys)
    ensures
      SectionOf(tags, keys)[..Fitting(SizesOf(tags, keys), used)] ==
        if used + SizeOf(tags, keys[0]) > MAX_TAGS_LENGTH then []
        else
          var rest, after := keys[1..], used + SizeOf(tags, keys[0]);
          [FieldOf(tags, keys[0])] + SectionOf(tags, rest)[..Fitting(SizesOf(tags, rest), after)]
  {
    hide SizeOf, FieldOf;
    assert SizesOf(tags, keys)[1..] == SizesOf(tags, keys[1..]);
    assert SectionOf(tags, keys) == [FieldOf(tags, keys[0])] + SectionOf(tags, keys[1..]);
  }

  /** The loop writes exactly the entries that fit, in iteration order. */
  lemma {:induction false} LoopWritesFitting(tags: Tags, order: seq<string>, used: nat)
    requires forall i :: 0 <= i < |order| ==> order[i] in tags
    requires KeysOk(tags, Prefixed(order))
    ensures var keys := Prefixed(order);
      TagFields(tags, order, used) == SectionOf(tags, keys)[..Fitting(SizesOf(tags, keys), used)]
    decreases |order|
  {
    hide SizeOf, FieldOf, TagFields, Fitting, SectionOf, SizesOf;
    WriteOne(tags, order, used);
    if order == [] {
      NothingWritten(tags, []);
      assert SectionOf(tags, []) == SectionOf(tags, Prefixed(order));
    } else {
      var key, rest := order[0], order[1..];
      PrefixedOk(tags, rest);
      if !(TAG_PREFIX <= key) {
        LoopWritesFitting(tags, rest, used);
      } else {
        var keys := Prefixed(order);
        assert keys[0] == key && keys[1..] == Prefixed(rest);
        LoopWritesFitting(tags, rest, used + SizeOf(tags, key));
        FittingFront(tags, keys, used);
      }
    }
  }

  lemma WriteOne(tags: Tags, order: seq<string>, used: nat)
    requires forall i :: 0 <= i < |order| ==> order[i] in tags
    ensures order == [] ==> TagFields(tags, order, used) == []
    ensures order != [] ==>
      TagFields(tags, order, used) ==
        if !(TAG_PREFIX <= order[0]) then TagFields(tags, order[1..], used)
        else if used + SizeOf(tags, order[0]) > MAX_TAGS_LENGTH then []
        else [FieldOf(tags, order[0])] + TagFields(tags, order[1..], used + SizeOf(tags, order[0]))
  {
    hide EntrySize, TagField;
  }

  /** How many tags are written. */
  ghost function TagCount(ctx: InjectContext, order: seq<string>): (n: nat)
    requires IsOrderOf(order, ctx.tags)
    ensures KeysOk(ctx.tags, Prefixed(order)) && n <= |Prefixed(order)|
  {
    PrefixedOk(ctx.tags, order);
    if Written(ctx, order) == BaseFields(ctx) then 0 else Fitting(SizesOf(ctx.tags, Prefixed(order)), 0)
  }

  /** The tag section as a whole: whole entries of the first prefixed tags, no
      more than 128 bytes of them, stopping only before one that does not fit;
      or nothing at all, if the member would reach 256 bytes with them. */
  lemma TagSection(ctx: InjectContext, order: seq<string>)
    requires IsOrderOf(order, ctx.tags)
    ensures var keys, n := Prefixed(order), TagCount(ctx, order);
      var section := SectionOf(ctx.tags, keys[..n]);
      && Written(ctx, order) == BaseFields(ctx) + section
      && ByteLen(TagText(section)) <= 128
      && (0 < n < |keys| ==> ByteLen(TagText(section)) + SizeOf(ctx.tags, keys[n]) > 128)
      && (n == 0 < |keys| ==>
            || SizeOf(ctx.tags, keys[0]) > 128
            || ByteLen(Render(BaseFields(ctx) + TagFields(ctx.tags, order, 0))) >= 256)
  {
    hide EntrySize, TagField, BaseFields, Render, TagText, ByteLen;
    var keys, n := Prefixed(order), TagCount(ctx, order);
    LoopWritesFitting(ctx.tags, order, 0);
    SectionBudget(ctx.tags, keys);
    NothingWritten(ctx.tags, keys);
    assert SectionOf(ctx.tags, keys[..n]) == SectionOf(ctx.tags, keys)[..n];
    assert BaseFields(ctx) + [] == BaseFields(ctx);
  }

  /** The entries that fit stay below the budget and the next one would not. */
  lemma SectionBudget(tags: Tags, keys: seq<string>)
    requires KeysOk(tags, keys)
    ensures var n := Fitting(SizesOf(tags, keys), 0);
      && ByteLen(TagText(SectionOf(tags, keys[..n]))) <= MAX_TAGS_LENGTH
      && (n < |keys| ==>
            ByteLen(TagText(SectionOf(tags, keys[..n]))) + SizeOf(tags, keys[n]) > MAX_TAGS_LENGTH)
  {
    hide EntrySize, TagField, TagText, ByteLen, Fitting;
    var sizes := SizesOf(tags, keys);
    var n := Fitting(sizes, 0);
    FittingFits(sizes, 0);
    SectionSize(tags, keys[..n]);
    assert SizesOf(tags, keys[..n]) == sizes[..n];
  }

  lemma NothingWritten(tags: Tags, keys: seq<string>)
    requires KeysOk(tags, keys)
    ensures keys[..0] == [] && SectionOf(tags, keys[..0]) == [] && ByteLen(TagText([])) == 0
    ensures Fitting(SizesOf(tags, keys), 0) == 0 < |keys| ==> SizeOf(tags, keys[0]) > MAX_TAGS_LENGTH
  {
    hide EntrySize, TagField;
  }

  // ----- Everything reads back -----

  /** Tags whose names the parser cannot take apart or mix up. */
  ghost predicate PlainTags(order: seq<string>) {
    var keys := Prefixed(order);
    && (forall i :: 0 <= i < |keys| ==> ':' !in Suffix(keys[i]) && ';' !in Suffix(keys[i]))
    && (forall i, j :: 0 <= i < j < |keys| ==> CleanSuffix(Suffix(keys[i])) != CleanSuffix(Suffix(keys[j])))
  }

  lemma SuffixStaysPlain(s: string, c: char)
    requires c !in s && c != '_'
    ensures c !in CleanSuffix(s)
  {
    var r := CleanSuffix(s);
    assert forall i :: 0 <= i < |r| ==> r[i] == '_' || r[i] == s[i];
  }

  lemma BaseIsNice(ctx: InjectContext)
    requires PlainParent(ctx)
    ensures AllNice(BaseFields(ctx))
  {
    BaseFieldsOk(ctx);
    BaseKeys(ctx);
  }

  lemma TagIsNice(suffix: string, value: string)
    requires ':' !in suffix && ';' !in suffix
    ensures Nice(TagField(suffix, value))
  {
    TagFieldOk(suffix, value);
    SuffixStaysPlain(suffix, ':');
    SuffixStaysPlain(suffix, ';');
    assert forall c :: c in "t." ==> c != ':' && c != ';';
  }

  ghost predicate AllNice(fields: seq<Field>) {
    forall i :: 0 <= i < |fields| ==> Nice(fields[i])
  }

  lemma WrittenIsNice(ctx: InjectContext, order: seq<string>)
    requires PlainParent(ctx) && IsOrderOf(order, ctx.tags) && PlainTags(order)
    ensures AllNice(Written(ctx, order))
  {
    hide Written, BaseFields, Nice, TagField, EntrySize, Render, ByteLen, TagText, PlainParent;
    var keys := Prefixed(order)[..TagCount(ctx, order)];
    TagSection(ctx, order);
    BaseIsNice(ctx);
    var section := SectionOf(ctx.tags, keys);
    forall i | 0 <= i < |section| ensures Nice(section[i]) {
      TagIsNice(Suffix(keys[i]), ctx.tags[keys[i]]);
    }
  }

  lemma BaseKeys(ctx: InjectContext)
    ensures var base := BaseFields(ctx);
      && 1 <= |base| <= 3 && base[0] == PriorityField(ctx)
      && (forall i :: 0 <= i < |base| ==> base[i].0 in ["s", "o", "p"])
      && (forall i, j :: 0 <= i < j < |base| ==> base[i].0 != base[j].0)
  {
  }

  lemma TrimEndOfDd(s: string)
    requires AllDd(s) && ';' !in s
    ensures AllDd(TrimEnd(s)) && ';' !in TrimEnd(s)
  {
    TrimEndIsPrefix(s);
  }

  lemma {:induction false} TrimEndIsPrefix(s: string)
    ensures TrimEnd(s) <= s
    decreases |s|
  {
    if s != "" && IsWhitespace(s[|s| - 1]) {
      TrimEndIsPrefix(s[..|s| - 1]);
    }
  }

  lemma SeenIsNice(fields: seq<Field>)
    requires AllNice(fields)
    ensures AllNice(Seen(fields))
  {
    if fields != [] {
      var f := fields[|fields| - 1];
      assert Nice(f);
      TrimEndOfDd(f.1);
      assert Nice((f.0, TrimEnd(f.1)));
    }
  }

  /** The parsed Datadog member is the map of the written fields, decoded, with
      trailing blanks of the very last value lost. */
  lemma WrittenFieldsParse(ctx: InjectContext, order: seq<string>)
    requires PlainParent(ctx) && IsOrderOf(order, ctx.tags) && PlainTags(order)
    ensures ParseDd(Render(Written(ctx, order))) == FieldMap(Seen(Written(ctx, order)))
  {
    var w := Written(ctx, order);
    WrittenIsNice(ctx, order);
    BaseKeys(ctx);
    ParseDdIsCollect(w);
    SeenIsNice(w);
    NiceFields(Seen(w));
  }
}
