/** Parsing undoes printing: what Datadog extraction gives back of an injected context. */
module DatadogRoundTrip {
  import opened Numbers
  import opened Options
  import opened Bytes
  import opened Text
  import opened Utf8Text
  import opened Sampling
  import opened Context
  import opened TraceContext
  import opened TraceContextLaws
  import opened DatadogHeaders

  // ----- The trace id -----

  lemma TidText(higher: U64)
    ensures var hex := Padded(higher, 16, 16);
      HigherBitsValid(hex) && ParseUnsigned(hex, 16, MAX_U64) == Some(higher)
  {
    hide Padded, ParseUnsigned, Power, Value, ByteLen;
    PowerOf16();
    PaddedValue(higher, 16, 16);
    ParsePadded(higher, 16, MAX_U64);
    AsciiByteLen(Padded(higher, 16, 16));
  }

  /** Splitting, printing the higher half, parsing and combining is the identity. */
  lemma SplitThenCombine(traceId: U128)
    ensures CombineTraceId(LowerBits(traceId),
                           if HigherBits(traceId).Some? then Some(Padded(HigherBits(traceId).value, 16, 16)) else None)
      == traceId
  {
    hide Padded, ParseUnsigned;
    DivMod(traceId, TWO_64);
    if HigherBits(traceId).Some? {
      TidText(HigherBits(traceId).value);
    }
  }

  /** Without the higher half only the low half is left. */
  lemma LowerAlone(traceId: U128)
    ensures CombineTraceId(LowerBits(traceId), None) == traceId <==> HigherBits(traceId).None?
  {
    DivMod(traceId, TWO_64);
  }

  // ----- The size -----

  lemma EntryLength(tags: Tags, key: string)
    requires key in tags
    ensures ByteLen(Entry(tags, key)) == ByteLen(key) + 1 + ByteLen(tags[key])
  {
    ByteLenConcat(key + "=", tags[key]);
    ByteLenConcat(key, "=");
    AsciiByteLen("=");
  }

  /** The size computed in advance is the length of what is printed. */
  lemma {:induction false} SizeIsPrecomputed(tags: Tags, keys: seq<string>)
    requires forall k :: k in keys ==> k in tags
    ensures ByteLen(Join(Entries(tags, keys), ',')) == TotalSize(tags, keys)
    decreases |keys|
  {
    hide Entry, ByteLen;
    if keys == [] {
      AsciiByteLen("");
    } else {
      var n := |keys| - 1;
      var init, last := Entries(tags, keys[..n]), Entry(tags, keys[n]);
      SizeIsPrecomputed(tags, keys[..n]);
      EntryLength(tags, keys[n]);
      assert Entries(tags, keys) == init + [last];
      if n > 0 {
        JoinAppend(init, ',', last);
        ByteLenConcat(Join(init, ',') + [','], last);
        ByteLenConcat(Join(init, ','), [',']);
        AsciiByteLen([',']);
      } else {
        assert init + [last] == [last];
      }
    }
  }

  /** So the same limit never makes the receiver refuse what the sender printed. */
  lemma PrintedIsAccepted(tags: Tags, order: seq<string>, maxLength: nat)
    requires forall k :: k in order ==> k in tags
    requires PropagationTags(tags, order, maxLength).Ok?
    ensures ByteLen(PropagationTags(tags, order, maxLength).value) <= maxLength
  {
    SizeIsPrecomputed(tags, Prefixed(order));
  }

  // ----- The tags -----

  lemma ValidValueChars(value: string, c: char)
    requires ValidTagValue(value) && c in value
    ensures ' ' <= c <= '~' && c != ','
  {
    BytesOfChars(value, c);
  }

  lemma ValidKeyChars(key: string, c: char)
    requires ValidTagKey(key) && c in key
    ensures ' ' <= c <= '~' && c != ','
  {
    var tail := StripPrefix(key, TAG_PREFIX).value;
    assert key == TAG_PREFIX + tail;
    if c in tail {
      BytesOfChars(tail, c);
    } else {
      assert c in TAG_PREFIX;
    }
  }

  lemma EntryHasNoComma(tags: Tags, key: string)
    requires key in tags && ValidTagKey(key) && ValidTagValue(tags[key])
    ensures ',' !in Entry(tags, key)
  {
    if ',' in Entry(tags, key) {
      if ',' in key {
        ValidKeyChars(key, ',');
      } else {
        assert ',' in tags[key];
        ValidValueChars(tags[key], ',');
      }
    }
  }

  lemma SplitEntries(tags: Tags, keys: seq<string>)
    requires keys != [] && (forall k :: k in keys ==> k in tags) && AllValid(tags, keys)
    ensures Split(Join(Entries(tags, keys), ','), ',') == Entries(tags, keys)
  {
    var entries := Entries(tags, keys);
    forall p | p in entries ensures ',' !in p {
      var i :| 0 <= i < |entries| && entries[i] == p;
      EntryHasNoComma(tags, keys[i]);
    }
    SplitJoin(entries, ',');
  }

  /** The propagation tags of a map. */
  function Propagated(tags: Tags): Tags {
    map k | k in tags && TAG_PREFIX <= k :: tags[k]
  }

  function Restricted(tags: Tags, keys: seq<string>): Tags
    requires forall k :: k in keys ==> k in tags
  {
    map k | k in keys :: tags[k]
  }

  lemma PairOfEntry(tags: Tags, key: string)
    requires key in tags && TAG_PREFIX <= key && '=' !in key
    ensures ParsePair(Entry(tags, key)) == Some((key, tags[key]))
  {
    SplitOnceAt(key, '=', tags[key]);
    assert key + ['='] + tags[key] == Entry(tags, key);
  }

  lemma {:induction false} PairsOfEntries(tags: Tags, keys: seq<string>)
    requires forall i :: 0 <= i < |keys| ==> keys[i] in tags && TAG_PREFIX <= keys[i] && '=' !in keys[i]
    ensures CollectPairs(Entries(tags, keys)) == Restricted(tags, keys)
    decreases |keys|
  {
    hide Entry, ParsePair;
    if keys != [] {
      var n := |keys| - 1;
      var entries := Entries(tags, keys);
      PairsOfEntries(tags, keys[..n]);
      PairOfEntry(tags, keys[n]);
      assert entries[..n] == Entries(tags, keys[..n]);
      assert forall k :: k in keys <==> k in keys[..n] || k == keys[n];
    }
  }

  lemma {:induction false} PrefixedHasAll(order: seq<string>, k: string)
    requires k in order && TAG_PREFIX <= k
    ensures k in Prefixed(order)
  {
    if k != order[0] {
      PrefixedHasAll(order[1..], k);
    }
  }

  lemma {:induction false} PrefixedDistinct(order: seq<string>)
    requires forall i, j :: 0 <= i < j < |order| ==> order[i] != order[j]
    ensures forall i, j :: 0 <= i < j < |Prefixed(order)| ==> Prefixed(order)[i] != Prefixed(order)[j]
  {
    if order != [] {
      PrefixedDistinct(order[1..]);
      var rest := Prefixed(order[1..]);
      forall j | 0 <= j < |rest| ensures rest[j] != order[0] {
        assert rest[j] in order[1..];
      }
    }
  }

  lemma RestrictedIsPropagated(tags: Tags, order: seq<string>)
    requires IsOrderOf(order, tags)
    ensures Restricted(tags, Prefixed(order)) == Propagated(tags)
  {
    forall k | k in Propagated(tags) ensures k in Prefixed(order) {
      PrefixedHasAll(order, k);
    }
  }

  lemma {:induction false} NoEqualsInKeys(pairs: seq<string>)
    ensures forall k :: k in CollectPairs(pairs) ==> '=' !in k
    decreases |pairs|
  {
    if pairs != [] {
      NoEqualsInKeys(pairs[..|pairs| - 1]);
    }
  }

  ghost predicate PlainKeys(tags: Tags) {
    forall k :: k in tags && TAG_PREFIX <= k ==> '=' !in k
  }

  /** All propagation tags come back unchanged exactly if no key contains `=`. */
  lemma TagsReadBackExactly(tags: Tags, order: seq<string>, maxLength: nat)
    requires IsOrderOf(order, tags) && PropagationTags(tags, order, maxLength).Ok?
    ensures CollectPairs(Split(PropagationTags(tags, order, maxLength).value, ',')) == Propagated(tags) <==>
      PlainKeys(tags)
  {
    hide AllValid, Entry, ParsePair, TotalSize;
    var keys := Prefixed(order);
    var text := Join(Entries(tags, keys), ',');
    RestrictedIsPropagated(tags, order);
    NoEqualsInKeys(Split(text, ','));
    if PlainKeys(tags) {
      if keys == [] {
        NoPairs();
      } else {
        SplitEntries(tags, keys);
        PairsOfEntries(tags, keys);
      }
    } else {
      var k :| k in tags && TAG_PREFIX <= k && '=' in k;
      assert k in Propagated(tags);
    }
  }

  lemma NoPairs()
    ensures Split("", ',') == [""] && CollectPairs([""]) == map[] && CollectPairs([]) == map[]
  {
    assert [""][..0] == [];
  }

  // ----- Keys that contain the separator -----

  /** Behind `key`, a key is printed that the receiver takes for `key` again. */
  ghost predicate Shadowed(order: seq<string>, key: string) {
    exists i, j :: 0 <= i < j < |order| && order[i] == key && key + "=" <= order[j]
  }

  lemma {:induction false} SplitOnceExtends(s: string, more: string)
    requires '=' in s
    ensures SplitOnce(s + more, '=') == Some((SplitOnce(s, '=').value.0, SplitOnce(s, '=').value.1 + more))
  {
    var (a, b) := SplitOnce(s, '=').value;
    assert s + more == a + ['='] + (b + more);
    SplitOnceAt(a, '=', b + more);
  }

  lemma ShadowHasEquals(k: string, key: string)
    ensures key + "=" <= k ==> '=' in k
  {
    assert (key + "=")[|key|] == '=';
  }

  /** An entry is taken for `key` if it is the entry of `key`, or of a key that
      continues it with an equals sign; then the value has an equals sign too. */
  lemma EntryIsTakenFor(tags: Tags, k: string, key: string)
    requires k in tags && TAG_PREFIX <= key && '=' !in key
    ensures var pair := ParsePair(Entry(tags, k));
      && (pair.Some? && pair.value.0 == key <==> k == key || key + "=" <= k)
      && (k == key ==> pair == Some((key, tags[k])))
      && (key + "=" <= k && pair.Some? ==> '=' in pair.value.1)
  {
    hide SplitOnce;
    var v := tags[k];
    ShadowHasEquals(k, key);
    SplitOnceExactly(k, key, '=');
    if '=' in k {
      assert Entry(tags, k) == k + ("=" + v);
      SplitOnceExtends(k, "=" + v);
    } else {
      SplitOnceAt(k, '=', v);
      assert k + ['='] + v == Entry(tags, k);
    }
  }

  /** What the receiver finds under `key`: the sender's value, unless a shadowing
      key is printed later; then a value with an equals sign, which it may also
      find without the key. */
  lemma {:induction false} FoundExactly(tags: Tags, keys: seq<string>, key: string)
    requires TAG_PREFIX <= key && '=' !in key
    requires forall i :: 0 <= i < |keys| ==> keys[i] in tags
    requires forall i, j :: 0 <= i < j < |keys| ==> keys[i] != keys[j]
    ensures var found := Find(CollectPairs(Entries(tags, keys)), key);
      if key in keys && !Shadowed(keys, key) then found == Some(tags[key])
      else (key in keys ==> found.Some?) && (found.Some? ==> '=' in found.value)
    decreases |keys|
  {
    hide Entry, ParsePair, Shadowed;
    if keys != [] {
      var n := |keys| - 1;
      var init, k := keys[..n], keys[n];
      var entries := Entries(tags, keys);
      FoundExactly(tags, init, key);
      EntryIsTakenFor(tags, k, key);
      assert entries[..n] == Entries(tags, init);
      ShadowStep(keys, key);
    }
  }

  lemma ShadowStep(keys: seq<string>, key: string)
    requires keys != [] && forall i, j :: 0 <= i < j < |keys| ==> keys[i] != keys[j]
    ensures var n := |keys| - 1;
      && (Shadowed(keys, key) <==> Shadowed(keys[..n], key) || (key in keys[..n] && key + "=" <= keys[n]))
      && (key in keys <==> key in keys[..n] || key == keys[n])
      && (keys[n] == key ==> key !in keys[..n] && !Shadowed(keys, key))
  {
    var n := |keys| - 1;
    if key in keys[..n] && key + "=" <= keys[n] {
      var i :| 0 <= i < n && keys[..n][i] == key;
      assert keys[i] == key;
    }
    if Shadowed(keys[..n], key) {
      var i, j :| 0 <= i < j < n && keys[..n][i] == key && key + "=" <= keys[..n][j];
      assert keys[i] == key && key + "=" <= keys[j];
    }
    if Shadowed(keys, key) {
      var i, j :| 0 <= i < j < |keys| && keys[i] == key && key + "=" <= keys[j];
      assert keys[..n][i] == key;
      assert j < n ==> keys[..n][j] == keys[j];
    }
  }

  // ----- When the tags can be printed -----

  /** Printable text without a comma. */
  predicate IsTagText(s: string) {
    forall c :: c in s ==> ' ' <= c <= '~' && c != ','
  }

  /** Every propagation tag is such text, its key without a blank. */
  ghost predicate PrintableTags(tags: Tags) {
    forall k :: k in tags && TAG_PREFIX <= k ==> IsTagText(k) && ' ' !in k && IsTagText(tags[k])
  }

  ghost function PrintedLength(tags: Tags, order: seq<string>): nat
    requires IsOrderOf(order, tags)
  {
    ByteLen(Join(Entries(tags, Prefixed(order)), ','))
  }

  ghost predicate CanPrint(tags: Tags, order: seq<string>, maxLength: nat)
    requires IsOrderOf(order, tags)
  {
    0 < maxLength && PrintedLength(tags, order) <= maxLength && PrintableTags(tags)
  }

  lemma ValidValueExactly(value: string)
    ensures ValidTagValue(value) <==> IsTagText(value)
  {
    if ValidTagValue(value) {
      forall c | c in value ensures ' ' <= c <= '~' && c != ',' {
        ValidValueChars(value, c);
      }
    }
    if IsTagText(value) {
      BytesAreChars(value);
      forall b | b in Utf8(value) ensures IsTagValueByte(b) {
        var i :| 0 <= i < |value| && Utf8(value)[i] == b;
        assert value[i] in value;
      }
    }
  }

  lemma ValidKeyExactly(key: string)
    requires TAG_PREFIX <= key
    ensures ValidTagKey(key) <==> IsTagText(key) && ' ' !in key
  {
    var tail := StripPrefix(key, TAG_PREFIX).value;
    assert key == TAG_PREFIX + tail;
    if ValidTagKey(key) {
      forall c | c in key ensures ' ' <= c <= '~' && c != ',' {
        ValidKeyChars(key, c);
      }
      if ' ' in tail {
        BytesOfChars(tail, ' ');
      }
    }
    if IsTagText(key) && ' ' !in key {
      assert forall c :: c in tail ==> c in key;
      BytesAreChars(tail);
      forall b | b in Utf8(tail) ensures IsKeyTailByte(b) {
        var i :| 0 <= i < |tail| && Utf8(tail)[i] == b;
        assert tail[i] in tail;
      }
    }
  }

  lemma AllValidExactly(tags: Tags, order: seq<string>)
    requires IsOrderOf(order, tags)
    ensures AllValid(tags, Prefixed(order)) <==> PrintableTags(tags)
  {
    hide ValidTagKey, ValidTagValue, IsTagText;
    forall k | k in tags && TAG_PREFIX <= k
      ensures k in Prefixed(order)
      ensures ValidTagKey(k) && ValidTagValue(tags[k]) <==> IsTagText(k) && ' ' !in k && IsTagText(tags[k])
    {
      PrefixedHasAll(order, k);
      ValidKeyExactly(k);
      ValidValueExactly(tags[k]);
    }
  }

  /** The propagation tags are printed exactly if the header is not switched off,
      they fit it, and they are printable text without commas. Otherwise the first
      of these conditions that fails is recorded among the sender's tags. */
  lemma PrintableExactly(tags: Tags, order: seq<string>, maxLength: nat)
    requires IsOrderOf(order, tags)
    ensures var printed := PropagationTags(tags, order, maxLength);
      && (printed.Ok? <==> CanPrint(tags, order, maxLength))
      && (printed.Ok? ==> printed.value == Join(Entries(tags, Prefixed(order)), ','))
      && Find(TagsAfter(tags, printed), "_dd.propagation_error") ==
           (if CanPrint(tags, order, maxLength) then Find(tags, "_dd.propagation_error")
            else if maxLength == 0 then Some("disabled")
            else if PrintedLength(tags, order) > maxLength then Some("inject_max_size")
            else Some("encoding_error"))
  {
    hide AllValid, PrintableTags, ByteLen, Join, TotalSize;
    AllValidExactly(tags, order);
    SizeIsPrecomputed(tags, Prefixed(order));
  }

  // ----- The whole context -----

  /** What the code makes of the tags of a context, and the headers it sends with
      a carrier that holds none of them before. */
  function PreparedTags(ctx: InjectContext): Tags {
    Prepared(ctx.tags, ctx.traceId, ctx.sampling.mechanism)
  }

  ghost function PrintedTags(ctx: InjectContext, order: seq<string>, maxLength: nat): Result<string>
    requires IsOrderOf(order, PreparedTags(ctx))
  {
    PropagationTags(PreparedTags(ctx), order, maxLength)
  }

  ghost function Received(ctx: InjectContext, order: seq<string>, maxLength: nat): Option<SpanContext>
    requires IsOrderOf(order, PreparedTags(ctx))
  {
    ExtractedContext(CarrierAfter(map[], ctx, PrintedTags(ctx, order, maxLength)), maxLength)
  }

  lemma HeadersAreSet(ctx: InjectContext, printed: Result<string>)
    ensures var c := CarrierAfter(map[], ctx, printed);
      && Find(c, TRACE_ID_KEY) == Some(Digits(LowerBits(ctx.traceId), 10))
      && Find(c, PARENT_ID_KEY) == Some(Digits(ctx.spanId, 10))
      && Find(c, ORIGIN_KEY) == ctx.origin
      && Find(c, PRIORITY_KEY) ==
           (if ctx.sampling.priority.Some? then Some(PriorityText(ctx.sampling.priority.value)) else None)
      && Find(c, TAGS_KEY) == (if printed.Ok? && printed.value != "" then Some(printed.value) else None)
  {
    hide Digits, LowerBits, PriorityText;
    assert TRACE_ID_KEY[10] == 't' && PARENT_ID_KEY[10] == 'p' && ORIGIN_KEY[10] == 'o' && PRIORITY_KEY[10] == 's';
    assert |TAGS_KEY| == 14;
  }

  lemma IdsReadBack(ctx: InjectContext, printed: Result<string>)
    ensures var c := CarrierAfter(map[], ctx, printed);
      && ExtractTraceId(c) == (if LowerBits(ctx.traceId) != 0 then Some(LowerBits(ctx.traceId)) else None)
      && ExtractParentId(c) == ctx.spanId
      && ExtractPriority(c) == ctx.sampling.priority
  {
    hide CarrierAfter, Digits, LowerBits, PriorityText, ParseUnsigned, ParsePriority;
    HeadersAreSet(ctx, printed);
    ParseDigits(LowerBits(ctx.traceId), MAX_U64);
    ParseDigits(ctx.spanId, MAX_U64);
    if ctx.sampling.priority.Some? {
      SamplingRoundTrip(ctx.sampling.priority.value, DEFAULT);
    }
  }

  /** A decision maker above 128 does not fit the signed byte it is checked with. */
  lemma MechanismIsValid(m: U8)
    ensures DecisionValid(MechanismText(m)) <==> m <= 128
  {
    hide Digits, Value;
    DigitsValue(m, 10);
    assert ("-" + Digits(m, 10))[1..] == Digits(m, 10);
  }

  lemma PreparedParts(ctx: InjectContext)
    ensures var p := PreparedTags(ctx);
      && Find(p, HIGHER_BITS_KEY) ==
           (if HigherBits(ctx.traceId).Some? then Some(Padded(HigherBits(ctx.traceId).value, 16, 16)) else None)
      && Find(p, DECISION_MAKER_KEY) ==
           (if ctx.sampling.mechanism.Some? then Some(MechanismText(ctx.sampling.mechanism.value))
            else Find(ctx.tags, DECISION_MAKER_KEY))
      && (forall k :: k != HIGHER_BITS_KEY && k != DECISION_MAKER_KEY ==> Find(p, k) == Find(ctx.tags, k))
  {
    hide Padded, HigherBits, MechanismText;
    assert HIGHER_BITS_KEY[6] != DECISION_MAKER_KEY[6];
  }

  lemma TidIsValid(ctx: InjectContext)
    ensures CheckTid(Propagated(PreparedTags(ctx))) == Propagated(PreparedTags(ctx))
    ensures Find(Propagated(PreparedTags(ctx)), HIGHER_BITS_KEY) == Find(PreparedTags(ctx), HIGHER_BITS_KEY)
    ensures Find(Propagated(PreparedTags(ctx)), DECISION_MAKER_KEY) == Find(PreparedTags(ctx), DECISION_MAKER_KEY)
  {
    hide Padded, HigherBits, HigherBitsValid, PreparedTags;
    KeysArePrefixed();
    PreparedParts(ctx);
    if HigherBits(ctx.traceId).Some? {
      TidText(HigherBits(ctx.traceId).value);
    }
  }

  lemma KeysArePrefixed()
    ensures TAG_PREFIX <= HIGHER_BITS_KEY && TAG_PREFIX <= DECISION_MAKER_KEY
    ensures HIGHER_BITS_KEY != DECISION_MAKER_KEY && HIGHER_BITS_KEY != ERROR_KEY && !(TAG_PREFIX <= ERROR_KEY)
  {
    assert HIGHER_BITS_KEY[..6] == TAG_PREFIX && DECISION_MAKER_KEY[..6] == TAG_PREFIX;
    assert HIGHER_BITS_KEY[6] != DECISION_MAKER_KEY[6] && ERROR_KEY[5] == 'r' && TAG_PREFIX[5] == '.';
    assert HIGHER_BITS_KEY[5] == '.';
  }

  /** The pairs the receiver reads, before any check; none if the sender could not
      print its tags. */
  ghost function ReadPairs(ctx: InjectContext, order: seq<string>, maxLength: nat): Tags
    requires IsOrderOf(order, PreparedTags(ctx))
  {
    var printed := PrintedTags(ctx, order, maxLength);
    if printed.Ok? then CollectPairs(Split(printed.value, ',')) else map[]
  }

  lemma TagsArrive(ctx: InjectContext, order: seq<string>, maxLength: nat)
    requires IsOrderOf(order, PreparedTags(ctx))
    ensures ExtractedTags(CarrierAfter(map[], ctx, PrintedTags(ctx, order, maxLength)), maxLength) ==
      CheckDecision(CheckTid(ReadPairs(ctx, order, maxLength)))
  {
    hide CarrierAfter, PropagationTags, PreparedTags, CheckDecision, CheckTid, CollectPairs, Split;
    var printed := PrintedTags(ctx, order, maxLength);
    HeadersAreSet(ctx, printed);
    NoPairs();
    NothingToCheck();
    if printed.Ok? {
      PrintedIsAccepted(PreparedTags(ctx), order, maxLength);
    }
  }

  /** What is read under a key that the sender printed, or did not. */
  lemma ReadExactly(ctx: InjectContext, order: seq<string>, maxLength: nat, key: string)
    requires IsOrderOf(order, PreparedTags(ctx)) && TAG_PREFIX <= key && '=' !in key
    ensures var found := Find(ReadPairs(ctx, order, maxLength), key);
      var isSent := PrintedTags(ctx, order, maxLength).Ok? && key in PreparedTags(ctx);
      if isSent && !Shadowed(Prefixed(order), key) then found == Some(PreparedTags(ctx)[key])
      else (isSent ==> found.Some?) && (found.Some? ==> '=' in found.value)
  {
    hide PreparedTags, Entry, ParsePair, AllValid, TotalSize, Split, CollectPairs;
    var tags, keys := PreparedTags(ctx), Prefixed(order);
    if PrintedTags(ctx, order, maxLength).Ok? {
      PrefixedDistinct(order);
      FoundExactly(tags, keys, key);
      if key in tags {
        PrefixedHasAll(order, key);
      }
      if keys == [] {
        NoPairs();
      } else {
        SplitEntries(tags, keys);
      }
    }
  }

  lemma {:induction false} EqualsIsNoDigit(s: string, base: Base)
    requires '=' in s
    ensures Value(s, base).None?
    decreases |s|
  {
    if s[|s| - 1] != '=' {
      EqualsIsNoDigit(s[..|s| - 1], base);
    }
  }

  lemma EqualsIsNoNumber(s: string)
    requires '=' in s
    ensures !HigherBitsValid(s) && !DecisionValid(s)
  {
    hide Value, ByteLen;
    EqualsIsNoDigit(s, 16);
    EqualsIsNoDigit(s, 10);
    var rest := s[1..];
    if s[0] != '=' {
      assert '=' in rest;
      EqualsIsNoDigit(rest, 16);
      EqualsIsNoDigit(rest, 10);
    }
  }

  /** The receiver's tags: the sender's propagation tags, after the check of the
      decision maker; none if the sender could not print them. */
  lemma TagsArriveChecked(ctx: InjectContext, order: seq<string>, maxLength: nat)
    requires IsOrderOf(order, PreparedTags(ctx)) && PlainKeys(PreparedTags(ctx))
    ensures var printed := PrintedTags(ctx, order, maxLength);
      ExtractedTags(CarrierAfter(map[], ctx, printed), maxLength) ==
      if printed.Ok? then CheckDecision(Propagated(PreparedTags(ctx))) else map[]
  {
    hide CarrierAfter, PropagationTags, PreparedTags, Propagated, CheckDecision, CheckTid, CollectPairs, Split,
      ExtractedTags;
    TagsArrive(ctx, order, maxLength);
    NothingToCheck();
    if PrintedTags(ctx, order, maxLength).Ok? {
      TagsReadBackExactly(PreparedTags(ctx), order, maxLength);
      TidIsValid(ctx);
    }
  }

  lemma NothingToCheck()
    ensures CheckDecision(CheckTid(map[])) == map[] && ByteLen("") == 0
  {
  }

  ghost predicate DecisionOk(ctx: InjectContext) {
    match ctx.sampling.mechanism
    case Some(m) => m <= 128
    case None => DECISION_MAKER_KEY in ctx.tags ==> DecisionValid(ctx.tags[DECISION_MAKER_KEY])
  }

  lemma DecisionArrives(ctx: InjectContext)
    ensures var tags, checked := Propagated(PreparedTags(ctx)), CheckDecision(Propagated(PreparedTags(ctx)));
      && (DecisionOk(ctx) <==> checked == tags)
      && (!DecisionOk(ctx) ==> DECISION_MAKER_KEY !in checked && Find(checked, ERROR_KEY) == Some("decoding_error"))
      && Find(checked, HIGHER_BITS_KEY) == Find(tags, HIGHER_BITS_KEY)
  {
    hide Propagated, PreparedTags, DecisionValid, MechanismText;
    KeysArePrefixed();
    TidIsValid(ctx);
    PreparedParts(ctx);
    if ctx.sampling.mechanism.Some? {
      MechanismIsValid(ctx.sampling.mechanism.value);
    }
    if !DecisionOk(ctx) {
      assert ERROR_KEY != DECISION_MAKER_KEY;
    }
  }

  /** A context is received exactly if the low half of its trace id is not zero. */
  lemma ReceivedExactly(ctx: InjectContext, order: seq<string>, maxLength: nat)
    requires IsOrderOf(order, PreparedTags(ctx))
    ensures Received(ctx, order, maxLength).Some? <==> LowerBits(ctx.traceId) != 0
  {
    hide PreparedTags, CarrierAfter, PropagationTags, ExtractTraceId, ExtractedTags;
    IdsReadBack(ctx, PrintedTags(ctx, order, maxLength));
  }

  /** The mechanism as the receiver sees it. */
  function MechanismMeant(ctx: InjectContext): Option<U8> {
    if ctx.sampling.priority.None? then None
    else if ctx.sampling.mechanism.Some? then ctx.sampling.mechanism
    else if DECISION_MAKER_KEY in ctx.tags then ParseMechanism(ctx.tags[DECISION_MAKER_KEY])
    else None
  }

  /** Everything survives: the 128-bit trace id, the span id, priority, mechanism,
      origin and every propagation tag, and the receiver adds no error tag. */
  lemma EverythingSurvives(ctx: InjectContext, order: seq<string>, maxLength: nat)
    requires LowerBits(ctx.traceId) != 0 && IsOrderOf(order, PreparedTags(ctx))
    requires CanPrint(PreparedTags(ctx), order, maxLength) && PlainKeys(PreparedTags(ctx)) && DecisionOk(ctx)
    ensures Received(ctx, order, maxLength) == Some(SpanContext(
      ctx.traceId, ctx.spanId, SamplingDecision(ctx.sampling.priority, MechanismMeant(ctx)), ctx.origin,
      Propagated(PreparedTags(ctx)), true, None))
  {
    hide CanPrint, TagsAfter, PreparedTags, CarrierAfter, PropagationTags, ExtractTraceId, ExtractedTags,
      ExtractParentId, ExtractPriority, CheckDecision, Propagated, ParseMechanism, MechanismText, CombineTraceId,
      HigherBits, LowerBits, PlainKeys;
    PrintableExactly(PreparedTags(ctx), order, maxLength);
    IdsReadBack(ctx, PrintedTags(ctx, order, maxLength));
    HeadersAreSet(ctx, PrintedTags(ctx, order, maxLength));
    TagsArriveChecked(ctx, order, maxLength);
    DecisionArrives(ctx);
    TidIsValid(ctx);
    PreparedParts(ctx);
    SplitThenCombine(ctx.traceId);
    if ctx.sampling.mechanism.Some? {
      SamplingRoundTrip(0, ctx.sampling.mechanism.value);
    }
  }

  lemma CheckedLookups(read: Tags)
    ensures var checked := CheckDecision(CheckTid(read));
      && Find(checked, HIGHER_BITS_KEY) ==
           (if HIGHER_BITS_KEY in read && HigherBitsValid(read[HIGHER_BITS_KEY])
            then Some(read[HIGHER_BITS_KEY]) else None)
      && Find(checked, DECISION_MAKER_KEY) ==
           (if DECISION_MAKER_KEY in read && DecisionValid(read[DECISION_MAKER_KEY])
            then Some(read[DECISION_MAKER_KEY]) else None)
      && (DECISION_MAKER_KEY in read && !DecisionValid(read[DECISION_MAKER_KEY]) ==>
            Find(checked, ERROR_KEY) == Some("decoding_error"))
  {
    hide HigherBitsValid, DecisionValid;
    KeysArePrefixed();
    assert ERROR_KEY != DECISION_MAKER_KEY && ERROR_KEY != HIGHER_BITS_KEY;
  }

  lemma KeysHaveNoEquals()
    ensures '=' !in HIGHER_BITS_KEY && '=' !in DECISION_MAKER_KEY
  {
  }

  /** The upper half travels among the tags only: the trace id survives exactly if
      it has none, or if the tags could be printed and no key behind `_dd.p.tid`
      continues it with an equals sign. */
  lemma TraceIdSurvivesExactly(ctx: InjectContext, order: seq<string>, maxLength: nat)
    requires LowerBits(ctx.traceId) != 0 && IsOrderOf(order, PreparedTags(ctx))
    ensures var back := Received(ctx, order, maxLength);
      && back.Some?
      && (back.value.traceId == ctx.traceId <==>
           || HigherBits(ctx.traceId).None?
           || (CanPrint(PreparedTags(ctx), order, maxLength) && !Shadowed(Prefixed(order), HIGHER_BITS_KEY)))
  {
    hide CanPrint, TagsAfter, PreparedTags, CarrierAfter, PropagationTags, ExtractTraceId, ExtractedTags,
      ExtractParentId, ExtractPriority, CheckDecision, CheckTid, ParseMechanism, CombineTraceId, HigherBits,
      LowerBits, Shadowed, ReadPairs,
      HigherBitsValid, DecisionValid, Padded;
    var read := ReadPairs(ctx, order, maxLength);
    PrintableExactly(PreparedTags(ctx), order, maxLength);
    IdsReadBack(ctx, PrintedTags(ctx, order, maxLength));
    TagsArrive(ctx, order, maxLength);
    CheckedLookups(read);
    KeysArePrefixed();
    KeysHaveNoEquals();
    ReadExactly(ctx, order, maxLength, HIGHER_BITS_KEY);
    if HIGHER_BITS_KEY in read && '=' in read[HIGHER_BITS_KEY] {
      EqualsIsNoNumber(read[HIGHER_BITS_KEY]);
    }
    PreparedParts(ctx);
    if HigherBits(ctx.traceId).Some? {
      TidText(HigherBits(ctx.traceId).value);
      PaddedHasNoEquals(HigherBits(ctx.traceId).value);
    }
    SplitThenCombine(ctx.traceId);
    LowerAlone(ctx.traceId);
  }

  lemma PaddedHasNoEquals(higher: U64)
    ensures '=' !in Padded(higher, 16, 16)
  {
    hide Padded, Power, Value;
    PowerOf16();
    PaddedValue(higher, 16, 16);
  }

  /** A mechanism survives exactly if a priority goes with it, the tags could be
      printed, it is at most 128, although it is an unsigned byte, and no key
      behind `_dd.p.dm` continues it with an equals sign. Otherwise there is none
      at the receiver, which records an error for the last two reasons. */
  lemma MechanismSurvivesExactly(ctx: InjectContext, order: seq<string>, maxLength: nat)
    requires LowerBits(ctx.traceId) != 0 && IsOrderOf(order, PreparedTags(ctx))
    requires ctx.sampling.mechanism.Some?
    ensures var back, m := Received(ctx, order, maxLength), ctx.sampling.mechanism.value;
      var isPrinted := CanPrint(PreparedTags(ctx), order, maxLength);
      var isRead := m <= 128 && !Shadowed(Prefixed(order), DECISION_MAKER_KEY);
      && back.Some?
      && back.value.sampling.mechanism ==
           (if ctx.sampling.priority.Some? && isPrinted && isRead then Some(m) else None)
      && (isPrinted && !isRead ==> Find(back.value.tags, ERROR_KEY) == Some("decoding_error"))
  {
    hide CanPrint, TagsAfter, PreparedTags, CarrierAfter, PropagationTags, ExtractTraceId, ExtractedTags,
      ExtractParentId, ExtractPriority, CheckDecision, CheckTid, ParseMechanism, MechanismText, CombineTraceId,
      HigherBits, LowerBits, Shadowed, ReadPairs,
      HigherBitsValid, DecisionValid;
    var read, m := ReadPairs(ctx, order, maxLength), ctx.sampling.mechanism.value;
    PrintableExactly(PreparedTags(ctx), order, maxLength);
    IdsReadBack(ctx, PrintedTags(ctx, order, maxLength));
    TagsArrive(ctx, order, maxLength);
    CheckedLookups(read);
    KeysArePrefixed();
    KeysHaveNoEquals();
    ReadExactly(ctx, order, maxLength, DECISION_MAKER_KEY);
    if DECISION_MAKER_KEY in read && '=' in read[DECISION_MAKER_KEY] {
      EqualsIsNoNumber(read[DECISION_MAKER_KEY]);
    }
    PreparedParts(ctx);
    MechanismIsValid(m);
    SamplingRoundTrip(0, m);
  }

  // ----- Passing a context on -----

  /** The decision maker is written the way the code writes it, not `-03`, say. */
  ghost predicate CanonicalDecision(ctx: InjectContext) {
    MechanismMeant(ctx).Some? ==>
      Find(PreparedTags(ctx), DECISION_MAKER_KEY) == Some(MechanismText(MechanismMeant(ctx).value))
  }

  lemma {:induction false} PrefixedTwice(order: seq<string>)
    ensures Prefixed(Prefixed(order)) == Prefixed(order)
  {
    if order != [] {
      PrefixedTwice(order[1..]);
      assert TAG_PREFIX <= order[0] ==> Prefixed(order)[1..] == Prefixed(order[1..]);
    }
  }

  lemma PrefixedIsOrder(order: seq<string>, tags: Tags)
    requires IsOrderOf(order, tags)
    ensures IsOrderOf(Prefixed(order), Propagated(tags))
  {
    PrefixedDistinct(order);
    forall k | k in Propagated(tags) ensures k in Prefixed(order) {
      PrefixedHasAll(order, k);
    }
  }

  lemma {:induction false} SameTotal(tags: Tags, keys: seq<string>)
    requires forall i :: 0 <= i < |keys| ==> keys[i] in tags && TAG_PREFIX <= keys[i]
    ensures TotalSize(Propagated(tags), keys) == TotalSize(tags, keys)
    decreases |keys|
  {
    hide ByteLen;
    if keys != [] {
      SameTotal(tags, keys[..|keys| - 1]);
    }
  }

  /** Printing the propagation tags alone, in the same order, gives the same. */
  lemma SamePrint(tags: Tags, order: seq<string>, maxLength: nat)
    requires IsOrderOf(order, tags)
    ensures IsOrderOf(Prefixed(order), Propagated(tags))
    ensures PropagationTags(Propagated(tags), Prefixed(order), maxLength) == PropagationTags(tags, order, maxLength)
  {
    hide ValidTagKey, ValidTagValue, TotalSize, Join, Propagated, AllValid, Entries, Prefixed;
    var keys := Prefixed(order);
    PrefixedIsOrder(order, tags);
    PrefixedTwice(order);
    SameTotal(tags, keys);
    SameEntries(tags, keys);
  }

  lemma SameEntries(tags: Tags, keys: seq<string>)
    requires forall i :: 0 <= i < |keys| ==> keys[i] in tags && TAG_PREFIX <= keys[i]
    ensures Entries(Propagated(tags), keys) == Entries(tags, keys)
    ensures AllValid(Propagated(tags), keys) <==> AllValid(tags, keys)
  {
    hide ValidTagKey, ValidTagValue;
  }

  /** What a relay adds to the tags it received: nothing, exactly if the decision
      maker came in the usual form. */
  lemma RelayKeepsTagsExactly(ctx: InjectContext, back: SpanContext)
    requires back.traceId == ctx.traceId && back.tags == Propagated(PreparedTags(ctx))
    requires back.sampling == SamplingDecision(ctx.sampling.priority, MechanismMeant(ctx))
    ensures PreparedTags(Relayed(back, None)) == back.tags <==> CanonicalDecision(ctx)
  {
    hide Padded, HigherBits, MechanismText, PreparedTags, Propagated, MechanismMeant;
    var again := Relayed(back, None);
    TidIsValid(ctx);
    PreparedParts(ctx);
    PreparedParts(again);
    KeysArePrefixed();
    forall k ensures k != DECISION_MAKER_KEY ==> Find(PreparedTags(again), k) == Find(back.tags, k) {
    }
    if CanonicalDecision(ctx) {
      SameByFind(PreparedTags(again), back.tags);
    }
  }

  /** A service that passes a context on unchanged sends the very same headers. */
  lemma RelayRepeatsHeaders(ctx: InjectContext, order: seq<string>, maxLength: nat)
    requires LowerBits(ctx.traceId) != 0 && IsOrderOf(order, PreparedTags(ctx))
    requires CanPrint(PreparedTags(ctx), order, maxLength) && PlainKeys(PreparedTags(ctx)) && DecisionOk(ctx)
    requires CanonicalDecision(ctx)
    ensures Received(ctx, order, maxLength).Some?
    ensures var again := Relayed(Received(ctx, order, maxLength).value, None);
      && IsOrderOf(Prefixed(order), PreparedTags(again))
      && CarrierAfter(map[], again, PrintedTags(again, Prefixed(order), maxLength)) ==
           CarrierAfter(map[], ctx, PrintedTags(ctx, order, maxLength))
  {
    hide PreparedTags, Propagated, MechanismMeant, PropagationTags, LowerBits, Digits, PriorityText, CanonicalDecision,
      PlainKeys, DecisionOk;
    EverythingSurvives(ctx, order, maxLength);
    var back := Received(ctx, order, maxLength).value;
    RelayKeepsTagsExactly(ctx, back);
    SamePrint(PreparedTags(ctx), order, maxLength);
  }

  // ----- Any carrier -----

  /** What the check of the decision maker lets through is in range. */
  lemma CheckedIsInRange(text: string)
    requires DecisionValid(text)
    ensures ParseMechanism(text) == Some(-ParseSigned(text, -128, 127).value)
  {
  }

  /** Whatever a carrier holds, an extracted mechanism is the negation of the
      number the tag carries: here no number out of range gets through. */
  lemma ExtractedMechanismIsInRange(carrier: Carrier, maxLength: nat)
    requires ExtractedContext(carrier, maxLength).Some?
    ensures var back := ExtractedContext(carrier, maxLength).value;
      var m := back.sampling.mechanism;
      m.Some? ==>
        var number: int := m.value;
        && DECISION_MAKER_KEY in back.tags
        && ParseSigned(back.tags[DECISION_MAKER_KEY], -128, 127) == Some(-number)
  {
    hide ParseSigned, ParseMechanism, CombineTraceId, CollectPairs, CheckTid, Split;
    var tags := ExtractedTags(carrier, maxLength);
    if DECISION_MAKER_KEY in tags {
      assert DecisionValid(tags[DECISION_MAKER_KEY]) by {
        assert ERROR_KEY != DECISION_MAKER_KEY;
      }
      CheckedIsInRange(tags[DECISION_MAKER_KEY]);
    }
  }
}
