/** What is read from any pair of W3C headers, and how text is made safe for them,
    told character by character. */
module TraceContextHeaders {
  import opened Numbers
  import opened Options
  import opened Bytes
  import opened Text
  import opened Utf8Text
  import opened Sampling
  import opened Context
  import opened TraceContext
  import opened TraceContextLaws
  import opened TraceContextRoundTrip

  // ----- traceparent -----

  predicate HexAt(s: string, from: nat, n: nat) {
    from + n <= |s| && forall i :: from <= i < from + n ==> IsLowerHex(s[i])
  }

  predicate HasShape(s: string) {
    && HexAt(s, 0, 2) && HexAt(s, 3, 32) && HexAt(s, 36, 16) && HexAt(s, 53, 2)
    && s[2] == '-' && s[35] == '-' && s[52] == '-'
    && (|s| > 55 ==> s[55] == '-')
  }

  lemma TakenHex(s: string, n: nat)
    ensures TakeHexAndDash(s, n) ==
      if HexAt(s, 0, n) && |s| > n && s[n] == '-' then Some((s[..n], s[n + 1..])) else None
  {
    assert |s| > n ==> s[n..][1..] == s[n + 1..];
  }

  lemma ComponentsExactly(s: string)
    ensures ParseComponents(s) ==
      if HasShape(s)
      then Some(Components(s[..2], s[3..35], s[36..52], s[53..55], if |s| == 55 then "" else s[56..]))
      else None
  {
    hide TakeHexAndDash;
    TakenHex(s, 2);
    if HexAt(s, 0, 2) && |s| > 2 && s[2] == '-' {
      var s1 := s[3..];
      TakenHex(s1, 32);
      assert HexAt(s1, 0, 32) <==> HexAt(s, 3, 32) by { Shifted(s, 3, 0, 32); }
      if HexAt(s1, 0, 32) && |s1| > 32 && s1[32] == '-' {
        var s2 := s[36..];
        assert s1[33..] == s2 && s1[..32] == s[3..35];
        TakenHex(s2, 16);
        assert HexAt(s2, 0, 16) <==> HexAt(s, 36, 16) by { Shifted(s, 36, 0, 16); }
        if HexAt(s2, 0, 16) && |s2| > 16 && s2[16] == '-' {
          var s3 := s[53..];
          assert s2[17..] == s3 && s2[..16] == s[36..52];
          assert HexAt(s3, 0, 2) <==> HexAt(s, 53, 2) by { Shifted(s, 53, 0, 2); }
          LastPart(s);
        }
      }
    }
  }

  lemma Shifted(s: string, from: nat, at: nat, n: nat)
    requires from <= |s|
    ensures HexAt(s[from..], at, n) <==> HexAt(s, from + at, n)
  {
    var t := s[from..];
    assert forall i :: 0 <= i < |t| ==> t[i] == s[from + i];
    if HexAt(t, at, n) {
      forall i | from + at <= i < from + at + n ensures IsLowerHex(s[i]) {
        assert IsLowerHex(t[i - from]);
      }
    }
  }

  lemma LastPart(s: string)
    requires |s| >= 53
    ensures TakeHex(s[53..], 2) == if HexAt(s[53..], 0, 2) then Some((s[53..55], s[55..])) else None
    ensures |s| > 55 ==> TakeChar(s[55..], '-') == if s[55] == '-' then Some(s[56..]) else None
  {
    if |s| >= 55 {
      assert s[53..][..2] == s[53..55] && s[53..][2..] == s[55..];
    }
  }

  /** The traceparent headers that are accepted: lower-case hexadecimal fields of
      2, 32, 16 and 2 digits with dashes between them, anything only behind one more
      dash, no id of zeros, not version `ff`; for version `00` nothing behind that
      dash, and flags of at most 2. */
  predicate IsTraceparent(s: string) {
    && HasShape(s)
    && !AllZeros(s[3..35]) && !AllZeros(s[36..52])
    && s[..2] != "ff"
    && (s[..2] == "00" ==> |s| <= 56 && s[53] == '0' && s[54] in "012")
  }

  lemma HexNumber(s: string, from: nat, n: nat, max: nat)
    requires HexAt(s, from, n) && n > 0 && Power(16, n) == max + 1
    ensures var number := ParseUnsigned(s[from..from + n], 16, max);
      && number.Some? && number == Value(s[from..from + n], 16)
      && (number.value == 0 <==> AllZeros(s[from..from + n]))
  {
    hide Power, Value;
    var hex := s[from..from + n];
    forall c | c in hex ensures IsLowerHex(c) {
      var i :| 0 <= i < n && hex[i] == c;
      assert hex[i] == s[from + i];
    }
    assert hex[0] in hex && Unsigned(hex) == hex;
    UnsignedExactly(hex, 16, max);
    ValueExactly(hex, 16);
  }

  lemma FlagsNumber(s: string)
    requires HexAt(s, 53, 2)
    ensures var flags := Value(s[53..55], 16);
      && flags.Some?
      && (flags.value <= 2 <==> s[53] == '0' && s[54] in "012")
      && (flags.value % 2 == 1 <==> s[54] in "13579bdf")
  {
    hide Value;
    assert s[53..55] == [s[53], s[54]];
    TwoHexDigits(s[53], s[54]);
  }

  lemma TwoHexDigits(a: char, b: char)
    requires IsLowerHex(a) && IsLowerHex(b)
    ensures var high, low := DigitValue(a, 16), DigitValue(b, 16);
      high.Some? && low.Some? && Value([a, b], 16) == Some(high.value * 16 + low.value)
  {
    assert [a, b][..1] == [a] && [a][..0] == "";
    assert Value("", 16) == Some(0);
    assert Value([a], 16) == DigitValue(a, 16);
  }

  /** A traceparent header is accepted exactly if it has this form; the ids are the
      numbers in it, and the trace is kept exactly if the last flag is odd. */
  lemma TraceparentAcceptedExactly(s: string)
    ensures ExtractTraceparent(s).Some? <==> IsTraceparent(s)
    ensures IsTraceparent(s) ==>
      var parent := ExtractTraceparent(s).value;
      && Value(s[3..35], 16) == Some(parent.traceId) && Value(s[36..52], 16) == Some(parent.spanId)
      && parent.priority == (if s[54] in "13579bdf" then 1 else 0)
  {
    hide Value, ParseUnsigned, ParseComponents, Power;
    ComponentsExactly(s);
    if HasShape(s) {
      PowerOf16();
      HexNumber(s, 3, 32, 0xFFFF_FFFF_FFFF_FFFF_FFFF_FFFF_FFFF_FFFF);
      HexNumber(s, 36, 16, 0xFFFF_FFFF_FFFF_FFFF);
      HexNumber(s, 53, 2, 0xFF);
      FlagsNumber(s);
    }
  }

  /** A context whose ids are not both different from zero, for which nothing is
      injected, could not be printed as a header that is accepted. */
  lemma OnlyValidIdsAreAccepted(ctx: InjectContext)
    ensures ExtractTraceparent(Traceparent(ctx)).Some? <==> ctx.traceId != 0 && ctx.spanId != 0
  {
    hide Value, Power, ExtractTraceparent, HasShape, HexAt, Padded;
    var s, hexTrace, hexSpan := Traceparent(ctx), Padded(ctx.traceId, 16, 32), Padded(ctx.spanId, 16, 16);
    if ctx.traceId != 0 && ctx.spanId != 0 {
      hide Traceparent, IsTraceparent;
      TraceparentRoundTrip(ctx);
    } else {
      TraceparentAcceptedExactly(s);
      PowerOf16();
      PaddedValue(ctx.traceId, 16, 32);
      PaddedValue(ctx.spanId, 16, 16);
      ValueExactly(hexTrace, 16);
      ValueExactly(hexSpan, 16);
      assert s[3..35] == hexTrace && s[36..52] == hexSpan;
    }
  }

  // ----- Any pair of headers -----

  /** What the tracestate header says about the sampling priority. */
  function SaidPriority(headers: Headers): Option<I8> {
    if headers.tracestate.None? then None
    else
      match Parsed(headers.tracestate.value)
      case Some(state) => if state.sampling.Some? then state.sampling.value.priority else None
      case None => None
  }

  predicate HasState(headers: Headers) {
    headers.tracestate.Some? && Parsed(headers.tracestate.value).Some?
  }

  /** A context comes from any headers exactly if the traceparent is accepted, which
      has the last word on keeping the trace: a priority from the tracestate that
      says otherwise, or none, is replaced. Then a kept trace gets the default
      decision maker, and a rejected one has none; with the priority the decision
      maker stays. A tracestate that is refused leaves no trace at all. */
  lemma AnyHeadersAreRead(headers: Headers)
    ensures var back := Extracted(headers);
      && (back.Some? <==> headers.traceparent.Some? && IsTraceparent(Trim(headers.traceparent.value)))
      && (back.Some? ==>
        var text, said := Trim(headers.traceparent.value), SaidPriority(headers);
        var isKept := text[54] in "13579bdf";
        var isBelieved := said.Some? && IsKeep(said.value) == isKept;
        && Value(text[3..35], 16) == Some(back.value.traceId) && Value(text[36..52], 16) == Some(back.value.spanId)
        && back.value.isRemote
        && Find(back.value.tags, "traceparent") == Some(text)
        && Find(back.value.tags, "tracestate") == (if HasState(headers) then headers.tracestate else None)
        && back.value.sampling.priority ==
             Some(if isBelieved then said.value else if isKept then AUTO_KEEP else AUTO_REJECT)
        && (!HasState(headers) ==>
              && back.value.tags == map["traceparent" := text] && back.value.sampling.mechanism == None
              && back.value.origin == None && back.value.tracestate == None)
        && (HasState(headers) ==>
              && back.value.tracestate == Parsed(headers.tracestate.value)
              && back.value.origin == back.value.tracestate.value.origin
              && Find(back.value.tags, DECISION_MAKER_KEY) ==
                   (if isBelieved then SaidDecisionMaker(back.value.tracestate.value)
                    else if isKept then Some("-0") else None)
              && back.value.sampling.mechanism ==
                   (match Find(back.value.tags, DECISION_MAKER_KEY)
                    case Some(m) => ParseMechanism(m) case None => None)))
  {
    hide Value, Trim, ExtractTraceparent, IsTraceparent, Parsed, ParseMechanism, MechanismText, HeaderTags;
    if headers.traceparent.Some? {
      var text := Trim(headers.traceparent.value);
      TraceparentAcceptedExactly(text);
      ShapeHasFlags(text);
      if HasState(headers) {
        NamedTags(text, headers.tracestate.value, Parsed(headers.tracestate.value).value);
      }
    }
  }

  lemma ShapeHasFlags(s: string)
    ensures IsTraceparent(s) ==> |s| > 54
  {
  }

  lemma NamedTags(parent: string, header: string, state: Tracestate)
    ensures var tags := HeaderTags(parent, header, state);
      && Find(tags, "traceparent") == Some(parent) && Find(tags, "tracestate") == Some(header)
      && Find(tags, DECISION_MAKER_KEY) == SaidDecisionMaker(state)
    ensures DECISION_MAKER_KEY != "traceparent" && DECISION_MAKER_KEY != "tracestate" && MechanismText(DEFAULT) == "-0"
  {
    hide Renamed;
    NotPrefixed();
    assert DECISION_MAKER_KEY[..6] == TAG_PREFIX && DECISION_MAKER_KEY[6..] == "dm" && LAST_PARENT_ID_KEY[5] == 'a';
    assert Short(DECISION_MAKER_KEY) == "t." + "dm" == "t.dm";
  }

  function SaidDecisionMaker(state: Tracestate): Option<string> {
    match state.propagationTags
    case Some(tags) => Find(tags, "t.dm")
    case None => None
  }

  /** The other tags: the parent id of the Datadog member, and its tags `t.x` as
      `_dd.p.x`, each of them and nothing else. */
  lemma AnyTagsAreNamed(headers: Headers, key: string)
    requires Extracted(headers).Some? && HasState(headers) && key !in ["traceparent", "tracestate", DECISION_MAKER_KEY]
    ensures var tags, state := Extracted(headers).value.tags, Parsed(headers.tracestate.value).value;
      Find(tags, key) ==
        if TAG_PREFIX <= key && state.propagationTags.Some? then Find(state.propagationTags.value, "t." + key[6..])
        else if key == "_dd.parent_id" then state.lowerOrderTraceId
        else None
  {
    hide Trim, ExtractTraceparent, Parsed, ParseMechanism, MechanismText, HeaderTags;
    HeaderTagsAreNamed(Trim(headers.traceparent.value), headers.tracestate.value, Parsed(headers.tracestate.value).value, key);
  }

  lemma HeaderTagsAreNamed(parent: string, header: string, state: Tracestate, key: string)
    requires key != "traceparent" && key != "tracestate"
    ensures Find(HeaderTags(parent, header, state), key) ==
      if TAG_PREFIX <= key && state.propagationTags.Some? then Find(state.propagationTags.value, "t." + key[6..])
      else if key == "_dd.parent_id" then state.lowerOrderTraceId
      else None
  {
    hide Renamed;
    NotPrefixed();
  }

  // ----- The members of the tracestate -----

  predicate IsPlainKeyChar(c: char) {
    'a' <= c <= 'z' || '0' <= c <= '9'
  }

  /** Key characters, the first of them a letter or a digit. */
  predicate IsSimpleKey(s: string) {
    && (forall c :: c in s ==> IsPlainKeyChar(c) || c in "_-*/")
    && (s != "" ==> IsPlainKeyChar(s[0]))
  }

  /** A key of at most 256 characters that is simple, or a tenant, an at sign and a
      system of at most 13 characters that are. Only the tenant may not be empty. */
  predicate IsKeyText(s: string) {
    && |s| <= 256
    && match SplitOnce(s, '@')
       case None => IsSimpleKey(s)
       case Some((tenant, system)) => tenant != "" && IsSimpleKey(tenant) && IsSimpleKey(system) && |system| <= 13
  }

  predicate IsKeyChar(c: char) {
    IsPlainKeyChar(c) || c in "_-*/" || c == '@'
  }

  /** What the loop over the bytes checks, on characters. */
  predicate PassesLoop(s: string) {
    && |s| <= 256
    && (forall i :: 0 <= i < |s| ==> IsKeyChar(s[i]))
    && (s != "" ==> IsPlainKeyChar(s[0]))
    && (forall i :: 0 <= i < |s| && s[i] == '@' ==> |s| <= i + 14 && (i + 1 < |s| ==> IsPlainKeyChar(s[i + 1])))
    && (forall i, j :: 0 <= i < j < |s| ==> s[i] != '@' || s[j] != '@')
  }

  lemma KeyBytes(key: string)
    requires AllAscii(key)
    ensures ValidKey(key) <==> PassesLoop(key)
  {
    hide Utf8;
    BytesAreChars(key);
    var bytes := Utf8(key);
    forall i | 0 <= i < |key|
      ensures (IsKeyByte(bytes[i]) <==> IsKeyChar(key[i])) && (IsLowerOrDigit(bytes[i]) <==> IsPlainKeyChar(key[i]))
      ensures bytes[i] == '@' as int <==> key[i] == '@'
    {
    }
  }

  lemma SimpleByIndex(s: string)
    ensures IsSimpleKey(s) <==>
      && (forall i :: 0 <= i < |s| ==> IsKeyChar(s[i]) && s[i] != '@')
      && (s != "" ==> IsPlainKeyChar(s[0]))
  {
    forall i | 0 <= i < |s| ensures s[i] in s {
    }
  }

  lemma LoopWithoutAt(s: string)
    requires '@' !in s
    ensures PassesLoop(s) <==> IsKeyText(s)
  {
    hide IsKeyChar, IsSimpleKey, IsPlainKeyChar;
    SimpleByIndex(s);
    forall i | 0 <= i < |s| ensures s[i] != '@' {
      assert s[i] in s;
    }
  }

  lemma LoopWithAt(s: string, tenant: string, system: string)
    requires s == tenant + ['@'] + system && '@' !in tenant
    ensures PassesLoop(s) <==>
      |s| <= 256 && tenant != "" && IsSimpleKey(tenant) && IsSimpleKey(system) && |system| <= 13
  {
    hide IsKeyChar, IsSimpleKey, IsPlainKeyChar;
    SimpleByIndex(tenant);
    SimpleByIndex(system);
    AtIsNoPlainChar();
    var n := |tenant|;
    assert s[n] == '@' && forall i :: 0 <= i < n ==> s[i] == tenant[i] && tenant[i] in tenant;
    assert forall i :: n < i < |s| ==> s[i] == system[i - n - 1];
    assert n > 0 ==> s[0] == tenant[0];
    if PassesLoop(s) {
      forall i | 0 <= i < |system| ensures IsKeyChar(system[i]) && system[i] != '@' {
        assert s[n + 1 + i] == system[i];
      }
      assert system != "" ==> system[0] == s[n + 1];
      forall i | 0 <= i < n ensures IsKeyChar(tenant[i]) && tenant[i] != '@' {
        assert s[i] == tenant[i];
      }
    }
  }

  lemma AtIsNoPlainChar()
    ensures !IsPlainKeyChar('@') && IsKeyChar('@')
  {
  }

  lemma LoopExactly(s: string)
    ensures PassesLoop(s) <==> IsKeyText(s)
  {
    hide PassesLoop, IsSimpleKey;
    match SplitOnce(s, '@')
    case None => LoopWithoutAt(s);
    case Some((tenant, system)) => LoopWithAt(s, tenant, system);
  }

  /** The keys of members that are accepted, told on characters. */
  lemma KeyAcceptedExactly(key: string)
    ensures ValidKey(key) <==> IsKeyText(key)
  {
    if AllAscii(key) {
      KeyBytes(key);
      LoopExactly(key);
    } else {
      var c :| c in key && !IsAscii(c);
      BytesOfChars(key, c);
    }
  }

  /** The Datadog member at this position is the last one, and is read as `dd`. */
  ghost predicate LastAt(members: seq<string>, i: nat, dd: Tags) {
    && i < |members| && KeyValue(members[i]).0 == "dd" && dd == ParseDd(KeyValue(members[i]).1)
    && forall j :: i < j < |members| ==> KeyValue(members[j]).0 != "dd"
  }

  /** Of several Datadog members the last one is read, whatever the others hold. */
  lemma {:induction false} LastDdExactly(members: seq<string>) returns (i: nat)
    ensures LastDd(members).None? ==> forall j :: 0 <= j < |members| ==> KeyValue(members[j]).0 != "dd"
    ensures LastDd(members).Some? ==> LastAt(members, i, LastDd(members).value)
    decreases |members|
  {
    hide ParseDd, KeyValue;
    i := 0;
    if members != [] {
      var n := |members| - 1;
      i := LastDdExactly(members[..n]);
      assert forall j :: 0 <= j < n ==> members[..n][j] == members[j];
      if KeyValue(members[n]).0 == "dd" {
        i := n;
      }
    }
  }

  predicate IsPrintableItem(item: string) {
    forall c :: c in item ==> ' ' <= c <= '~'
  }

  /** The last printable item with this key, if there is one, holds this value. */
  ghost predicate LastItem(items: seq<string>, key: string, found: Option<string>) {
    match found
    case None => forall i :: 0 <= i < |items| ==> !Holds(items[i], key)
    case Some(value) =>
      exists i :: 0 <= i < |items| && Holds(items[i], key) && value == Exchange(Behind(items[i], key), '~', '=')
        && forall j :: i < j < |items| ==> !Holds(items[j], key)
  }

  predicate Holds(item: string, key: string) {
    IsPrintableItem(item) && key + ":" <= item
  }

  /** What follows the key and the colon. */
  function Behind(item: string, key: string): string {
    if |key| < |item| then item[|key| + 1..] else ""
  }

  lemma DecodedIs(s: string)
    ensures DecodeTagValue(s) == Exchange(s, '~', '=')
  {
  }

  lemma ItemOfKey(item: string, key: string)
    requires ':' !in key
    ensures var kv := ParseItem(item);
      && (kv.Some? && kv.value.0 == key <==> Holds(item, key))
      && (Holds(item, key) ==> kv == Some((key, Exchange(Behind(item, key), '~', '='))))
  {
    hide SplitOnce, Exchange;
    SplitOnceExactly(item, key, ':');
    DecodedIs(Behind(item, key));
  }

  lemma OneMoreItem(items: seq<string>, item: string, key: string, found: Option<string>)
    requires LastItem(items, key, found)
    ensures LastItem(items + [item], key,
                     if Holds(item, key) then Some(Exchange(Behind(item, key), '~', '=')) else found)
  {
    hide Holds, Exchange, Behind;
    var more, n := items + [item], |items|;
    assert more[n] == item && forall i :: 0 <= i < n ==> more[i] == items[i];
    if !Holds(item, key) && found.Some? {
      var i :| 0 <= i < n && Holds(items[i], key) && found.value == Exchange(Behind(items[i], key), '~', '=')
        && forall j :: i < j < n ==> !Holds(items[j], key);
      assert Holds(more[i], key);
    }
  }

  lemma NoItems(key: string)
    ensures Collect([]) == map[] && LastItem([], key, None)
  {
  }

  /** An item is read if it is printable and starts with a key and a colon; the value
      is all that follows, with tildes read as equals signs; of several items with
      one key the last one counts. */
  lemma {:induction false} LastItemWins(items: seq<string>, key: string)
    requires ':' !in key
    ensures LastItem(items, key, Find(Collect(items), key))
    decreases |items|
  {
    hide ParseItem, Holds, LastItem, Exchange, Behind;
    if items == [] {
      NoItems(key);
    } else {
      var n := |items| - 1;
      LastItemWins(items[..n], key);
      ItemOfKey(items[n], key);
      OneMoreItem(items[..n], items[n], key, Find(Collect(items[..n]), key));
      assert items == items[..n] + [items[n]];
    }
  }

  // ----- Sanitising -----

  /** In the name of a tag only blanks, commas and equals signs are replaced among
      the printable characters; in a value or an origin commas, semicolons and tildes,
      and an equals sign is written as a tilde. All other characters are replaced. */
  lemma SanitisedExactly(s: string, i: nat)
    requires i < |s|
    ensures |CleanSuffix(s)| == |CleanValue(s)| == |CleanOrigin(s)| == |EncodeTagValue(CleanValue(s))| == |s|
    ensures var c := s[i];
      && CleanSuffix(s)[i] == (if ' ' < c <= '~' && c !in ",=" then c else '_')
      && CleanValue(s)[i] == (if ' ' <= c < '~' && c !in ",;" then c else '_')
      && CleanOrigin(s)[i] == (if c == '=' then '~' else CleanValue(s)[i])
      && EncodeTagValue(CleanValue(s)) == CleanOrigin(s)
  {
    OriginIsEncoded(s);
  }

  // ----- The fields before the tags -----

  /** The Datadog member starts with the priority, or `2` for want of one; the origin
      is next where it fits, then the parent id: for a context that came from another
      service with a parent id that very text, else the 16 digits of the span id. */
  lemma MemberStarts(ctx: InjectContext, order: seq<string>)
    requires IsOrderOf(order, ctx.tags)
    ensures var w := Written(ctx, order);
      var o := if OriginFits(ctx) then 1 else 0;
      && |w| >= 1 + o + (if ParentFits(ctx) then 1 else 0)
      && w[0].0 == "s"
      && ParsePriority(w[0].1) == Some(if ctx.sampling.priority.Some? then ctx.sampling.priority.value else 2)
      && (OriginFits(ctx) ==> ctx.origin.Some? && w[1] == ("o", CleanOrigin(ctx.origin.value)))
      && (ParentFits(ctx) ==>
            && w[1 + o].0 == "p"
            && (ctx.isRemote && "_dd.parent_id" in ctx.tags ==> w[1 + o].1 == ctx.tags["_dd.parent_id"])
            && (!ctx.isRemote || "_dd.parent_id" !in ctx.tags ==>
                  |w[1 + o].1| == 16 && HexAt(w[1 + o].1, 0, 16) && Value(w[1 + o].1, 16) == Some(ctx.spanId)))
  {
    hide Render, ByteLen, CleanOrigin, TagFields, PriorityText, Padded, ParsePriority, Value, Power;
    SamplingRoundTrip(if ctx.sampling.priority.Some? then ctx.sampling.priority.value else 2, 0);
    PowerOf16();
    PaddedValue(ctx.spanId, 16, 16);
    assert forall i :: 0 <= i < 16 ==> Padded(ctx.spanId, 16, 16)[i] in Padded(ctx.spanId, 16, 16);
  }
}
