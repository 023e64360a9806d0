/** What is read from the `x-datadog-*` headers of any carrier, well-formed or not. */
module DatadogCarriers {
  import opened Numbers
  import opened Options
  import opened Text
  import opened Sampling
  import opened Context
  import opened TraceContext
  import opened TraceContextLaws
  import opened DatadogHeaders
  import opened DatadogRoundTrip

  // ----- The pairs of the tags header -----

  /** The last pair with this key, if there is one, has this value. */
  ghost predicate LastPair(pairs: seq<string>, key: string, found: Option<string>) {
    match found
    case None => forall i :: 0 <= i < |pairs| ==> !(key + "=" <= pairs[i])
    case Some(value) =>
      exists i :: 0 <= i < |pairs| && pairs[i] == key + "=" + value &&
        forall j :: i < j < |pairs| ==> !(key + "=" <= pairs[j])
  }

  lemma PairOfKey(pair: string, key: string)
    requires TAG_PREFIX <= key && '=' !in key
    ensures var kv := ParsePair(pair);
      && (kv.Some? && kv.value.0 == key <==> key + "=" <= pair)
      && (key + "=" <= pair ==> kv.Some? && pair == key + "=" + kv.value.1)
  {
    hide SplitOnce;
    SplitOnceExactly(pair, key, '=');
    if key + "=" <= pair {
      assert pair == key + "=" + pair[|key| + 1..];
    }
  }

  /** A pair is read if it starts with a prefixed key and an equals sign; the value
      is all that follows; of several pairs with one key the last one counts. */
  lemma {:induction false} LastPairWins(pairs: seq<string>, key: string)
    requires TAG_PREFIX <= key && '=' !in key
    ensures LastPair(pairs, key, Find(CollectPairs(pairs), key))
    decreases |pairs|
  {
    hide ParsePair;
    if pairs != [] {
      var n := |pairs| - 1;
      var found := Find(CollectPairs(pairs), key);
      LastPairWins(pairs[..n], key);
      PairOfKey(pairs[n], key);
      if !(key + "=" <= pairs[n]) && found.Some? {
        var i :| 0 <= i < n && pairs[..n][i] == key + "=" + found.value &&
          forall j :: i < j < n ==> !(key + "=" <= pairs[..n][j]);
        assert pairs[i] == key + "=" + found.value;
        forall j | i < j < |pairs| ensures !(key + "=" <= pairs[j]) {
          assert j < n ==> pairs[..n][j] == pairs[j];
        }
      } else if found.None? {
        forall i | 0 <= i < |pairs| ensures !(key + "=" <= pairs[i]) {
          assert i < n ==> pairs[..n][i] == pairs[i];
        }
      }
    }
  }

  lemma {:induction false} KeysOfPairs(pairs: seq<string>)
    ensures forall k :: k in CollectPairs(pairs) ==> TAG_PREFIX <= k && '=' !in k
    decreases |pairs|
  {
    if pairs != [] {
      KeysOfPairs(pairs[..|pairs| - 1]);
    }
  }

  // ----- The checks on two of them -----

  /** The upper half of a trace id is 16 hexadecimal digits, lower or upper case;
      a plus sign may stand for the first of them. */
  lemma TidAcceptedExactly(text: string)
    ensures HigherBitsValid(text) <==> |text| == 16 && AllDigits(Unsigned(text), 16)
  {
    hide Value, ByteLen, Power;
    UnsignedExactly(text, 16, MAX_U64);
    ValueExactly(Unsigned(text), 16);
    FitsU64();
    if AllDigits(Unsigned(text), 16) {
      forall c | c in text ensures IsAscii(c) {
        if c !in Unsigned(text) {
          assert c == text[0];
        }
      }
      AsciiByteLen(text);
    }
  }

  lemma FitsU64()
    ensures Power(16, 16) == MAX_U64 + 1 && Power(16, 15) <= MAX_U64
  {
    PowerOf16();
    PowerStep(15);
  }

  lemma PowerStep(n: nat)
    ensures Power(16, n + 1) == 16 * Power(16, n)
  {
  }

  /** A decision maker is the decimal number of a mechanism up to 128 behind a minus
      sign, or a zero with or without a sign. */
  lemma DecisionAcceptedExactly(text: string)
    ensures DecisionValid(text) <==>
      && Signless(text) != "" && AllDigits(Signless(text), 10)
      && (AllZeros(Signless(text)) ||
          (text[0] == '-' && Value(Signless(text), 10).Some? && Value(Signless(text), 10).value <= 128))
  {
    hide Value;
    ValueExactly(Signless(text), 10);
  }

  function Signless(s: string): string {
    if s != "" && s[0] in "+-" then s[1..] else s
  }

  // ----- Any carrier -----

  /** The number that a header holds, if it is there and holds one. */
  function HeaderNumber(carrier: Carrier, key: string): Option<nat> {
    if key in carrier then ParseUnsigned(carrier[key], 10, MAX_U64) else None
  }

  function NumberOrZero(n: Option<nat>): nat {
    if n.Some? then n.value else 0
  }

  /** The tags header, empty if it is not there. */
  function TagsText(carrier: Carrier): string {
    if TAGS_KEY in carrier then carrier[TAGS_KEY] else ""
  }

  /** A carrier brings a context exactly if its trace id is a number other than
      zero. A parent id that is missing or no number is read as zero, a priority
      that is missing or none as none; the origin is taken as it is. The trace id
      has the upper half that the tags bring. */
  lemma AnyCarrierIsRead(carrier: Carrier, maxLength: nat)
    ensures var back, id := ExtractedContext(carrier, maxLength), HeaderNumber(carrier, TRACE_ID_KEY);
      && (back.Some? <==> id.Some? && !AllZeros(Unsigned(carrier[TRACE_ID_KEY])))
      && (back.Some? ==>
            && LowerBits(back.value.traceId) == id.value
            && HigherBits(back.value.traceId) == UpperHalf(back.value.tags)
            && back.value.spanId == NumberOrZero(HeaderNumber(carrier, PARENT_ID_KEY))
            && back.value.origin == Find(carrier, ORIGIN_KEY)
            && back.value.sampling.priority ==
                 (if PRIORITY_KEY in carrier then ParsePriority(carrier[PRIORITY_KEY]) else None)
            && (back.value.sampling.mechanism.Some? ==> back.value.sampling.priority.Some?)
            && back.value.isRemote && back.value.tracestate == None)
  {
    hide ExtractedTags, ParsePriority, Value, LowerBits;
    if TRACE_ID_KEY in carrier {
      UnsignedExactly(carrier[TRACE_ID_KEY], 10, MAX_U64);
    }
    if ExtractTraceId(carrier).Some? {
      var lower := ExtractTraceId(carrier).value;
      Halves(lower, Find(ExtractedTags(carrier, maxLength), HIGHER_BITS_KEY));
    }
  }

  /** The upper half of the trace id according to the tags; none if it is zero. */
  function UpperHalf(tags: Tags): Option<nat> {
    if HIGHER_BITS_KEY in tags then
      match ParseUnsigned(tags[HIGHER_BITS_KEY], 16, MAX_U64)
      case Some(n) => if n > 0 then Some(n) else None
      case None => None
    else None
  }

  lemma Halves(lower: U64, hex: Option<string>)
    ensures LowerBits(CombineTraceId(lower, hex)) == lower
    ensures HigherBits(CombineTraceId(lower, hex)) ==
      (if hex.None? then None
       else match ParseUnsigned(hex.value, 16, MAX_U64)
            case Some(n) => if n > 0 then Some(n) else None
            case None => None)
  {
    hide ParseUnsigned;
  }

  /** A tags header above the limit is not read at all; that is recorded, and as
      `disabled` if the limit is zero. Otherwise the receiver has the last pair of
      every prefixed key, but for an upper half or a decision maker that is not
      accepted; these are recorded, the second one over the first. */
  lemma AnyTagsAreRead(carrier: Carrier, maxLength: nat, key: string)
    ensures var tags, text := ExtractedTags(carrier, maxLength), TagsText(carrier);
      if ByteLen(text) > maxLength
      then tags == map["_dd.propagation_error" := if maxLength == 0 then "disabled" else "extract_max_size"]
      else
        var pairs := CollectPairs(Split(text, ','));
        var badTid := HIGHER_BITS_KEY in pairs && !HigherBitsValid(pairs[HIGHER_BITS_KEY]);
        var badDecision := DECISION_MAKER_KEY in pairs && !DecisionValid(pairs[DECISION_MAKER_KEY]);
        && Find(tags, ERROR_KEY) ==
             (if badDecision then Some("decoding_error")
              else if badTid then Some("malformed_tid " + pairs[HIGHER_BITS_KEY]) else None)
        && (key != ERROR_KEY && !(TAG_PREFIX <= key && '=' !in key) ==> key !in tags)
        && (TAG_PREFIX <= key && '=' !in key ==>
              if (badTid && key == HIGHER_BITS_KEY) || (badDecision && key == DECISION_MAKER_KEY) then key !in tags
              else LastPair(Split(text, ','), key, Find(tags, key)))
  {
    hide CollectPairs, Split, HigherBitsValid, DecisionValid, ByteLen, LastPair;
    var text := TagsText(carrier);
    KeysArePrefixed();
    EmptyHasNoLength();
    KeysOfPairs(Split(text, ','));
    if TAG_PREFIX <= key && '=' !in key {
      LastPairWins(Split(text, ','), key);
    }
  }

  lemma EmptyHasNoLength()
    ensures ByteLen("") == 0
  {
  }

  // ----- The names of the headers -----

  /** A context with all its parts. */
  const SMALL := InjectContext(
    0x1_0000_0000_0000_0007, 5, SamplingDecision(Some(USER_KEEP), None), Some("rum"), map[], false, None)

  lemma {:induction false} ZeroPadded(n: nat)
    ensures AllZeros(Padded(0, 16, n))
  {
    if n > 0 {
      ZeroPadded(n - 1);
    }
  }

  lemma SmallTags()
    ensures PreparedTags(SMALL) == map["_dd.p.tid" := "0000000000000001"]
  {
    ZeroPadded(15);
    assert Padded(1, 16, 16) == Padded(0, 16, 15) + "1";
    assert forall i :: 0 <= i < 15 ==> Padded(0, 16, 15)[i] in Padded(0, 16, 15);
    assert Padded(1, 16, 16) == "0000000000000001";
  }

  lemma OneTagPrinted(tags: Tags, key: string, maxLength: nat)
    requires tags.Keys == {key} && TAG_PREFIX <= key && PrintableTags(tags)
    requires 0 < maxLength && ByteLen(key + "=" + tags[key]) <= maxLength
    ensures IsOrderOf([key], tags) && PropagationTags(tags, [key], maxLength) == Ok(key + "=" + tags[key])
  {
    hide TagsAfter, PropagationTags, PrintableTags, ByteLen, Entries, Entry, Join, Prefixed;
    OneEntry(tags, key);
    PrintableExactly(tags, [key], maxLength);
  }

  lemma SmallPrinted(maxLength: nat)
    requires maxLength >= 26
    ensures IsOrderOf(["_dd.p.tid"], PreparedTags(SMALL))
    ensures PrintedTags(SMALL, ["_dd.p.tid"], maxLength) == Ok("_dd.p.tid=0000000000000001")
  {
    hide PropagationTags, PreparedTags, PrintableTags, ByteLen, IsOrderOf;
    SmallTags();
    SmallIsText(PreparedTags(SMALL));
    AsciiByteLen("_dd.p.tid=0000000000000001");
    OneTagPrinted(PreparedTags(SMALL), "_dd.p.tid", maxLength);
  }

  lemma OneEntry(tags: Tags, key: string)
    requires key in tags && TAG_PREFIX <= key
    ensures Prefixed([key]) == [key] && Join(Entries(tags, [key]), ',') == key + "=" + tags[key]
  {
    assert [key][1..] == [];
    assert Entries(tags, [key]) == [Entry(tags, key)];
  }

  lemma SmallIsText(tags: Tags)
    requires tags == map["_dd.p.tid" := "0000000000000001"]
    ensures PrintableTags(tags) && TAG_PREFIX <= "_dd.p.tid"
    ensures "_dd.p.tid" + "=" + "0000000000000001" == "_dd.p.tid=0000000000000001"
  {
    assert "_dd.p.tid"[..6] == TAG_PREFIX;
  }

  /** The headers of that context, under the names and in the format that other
      implementations read. */
  lemma HeadersByName(maxLength: nat)
    requires maxLength >= 26
    ensures var order := ["_dd.p.tid"];
      && IsOrderOf(order, PreparedTags(SMALL))
      && CarrierAfter(map[], SMALL, PrintedTags(SMALL, order, maxLength)) ==
           map["x-datadog-trace-id" := "7", "x-datadog-parent-id" := "5", "x-datadog-origin" := "rum",
               "x-datadog-sampling-priority" := "2", "x-datadog-tags" := "_dd.p.tid=0000000000000001"]
  {
    hide PreparedTags, PropagationTags;
    SmallPrinted(maxLength);
    assert PriorityText(USER_KEEP) == "2" && LowerBits(SMALL.traceId) == 7;
    assert Digits(7, 10) == "7" && Digits(5, 10) == "5";
  }
}
