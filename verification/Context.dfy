/** The tracestate header: its members, the checks on them and the Datadog member. */
module Context {
  import opened Options
  import opened Bytes
  import opened Text
  import opened Utf8Text
  import opened Sampling

  // ----- Keys and values of members -----

  predicate IsLowerOrDigit(b: int) {
    'a' as int <= b <= 'z' as int || '0' as int <= b <= '9' as int
  }

  predicate IsKeyByte(b: int) {
    IsLowerOrDigit(b) || b == '_' as int || b == '-' as int || b == '*' as int || b == '/' as int || b == '@' as int
  }

  /** Section 3.3.1.3.1 of W3C Trace Context as the code checks it: at most 256
      bytes of the key alphabet, starting with a letter or digit, with at most
      one `@`, which at most 13 bytes follow, the first of them a letter or digit.
      The empty key passes. */
  predicate IsKey(bytes: seq<int>) {
    && |bytes| <= 256
    && (forall i :: 0 <= i < |bytes| ==> IsKeyByte(bytes[i]))
    && (bytes != [] ==> IsLowerOrDigit(bytes[0]))
    && (forall i :: 0 <= i < |bytes| && bytes[i] == '@' as int ==>
          && |bytes| <= i + 14
          && (i + 1 < |bytes| ==> IsLowerOrDigit(bytes[i + 1])))
    && (forall i, j :: 0 <= i < j < |bytes| ==> bytes[i] != '@' as int || bytes[j] != '@' as int)
  }

  predicate ValidKey(key: string) {
    IsKey(Utf8(key))
  }

  method CheckKey(key: string) returns (valid: bool)
    ensures valid == ValidKey(key)
  {
    var bytes := Utf8(key);
    if |bytes| > 256 {
      return false;
    }
    var vendorStart: Option<nat> := None;
    for i := 0 to |bytes|
      invariant forall k :: 0 <= k < i ==> IsKeyByte(bytes[k])
      invariant i > 0 ==> IsLowerOrDigit(bytes[0])
      invariant vendorStart.None? ==> forall k :: 0 <= k < i ==> bytes[k] != '@' as int
      invariant vendorStart.Some? ==>
        && vendorStart.value < i && bytes[vendorStart.value] == '@' as int
        && (forall k :: 0 <= k < i && k != vendorStart.value ==> bytes[k] != '@' as int)
        && |bytes| <= vendorStart.value + 14
        && (vendorStart.value + 1 < i ==> IsLowerOrDigit(bytes[vendorStart.value + 1]))
    {
      var b := bytes[i];
      if !IsKeyByte(b) {
        return false;
      }
      if i == 0 && !IsLowerOrDigit(b) {
        return false;
      } else if b == '@' as int {
        if vendorStart.Some? || i + 14 < |bytes| {
          return false;
        }
        vendorStart := Some(i);
      } else if vendorStart.Some? {
        if i == vendorStart.value + 1 && !IsLowerOrDigit(b) {
          return false;
        }
      }
    }
    return true;
  }

  predicate ValidValue(value: string) {
    ByteLen(value) <= 256 && ',' !in value && '=' !in value
  }

  // ----- Encoding of tag values -----

  function Exchange(s: string, a: char, b: char): (r: string)
    ensures |r| == |s| && forall i :: 0 <= i < |s| ==> r[i] == if s[i] == a then b else s[i]
  {
    seq(|s|, i requires 0 <= i < |s| => if s[i] == a then b else s[i])
  }

  function EncodeTagValue(s: string): string {
    if '=' in s then Exchange(s, '=', '~') else s
  }

  function DecodeTagValue(s: string): string {
    if '~' in s then Exchange(s, '~', '=') else s
  }

  /** `=` and `~` undo each other on text without `~`, which sanitised text is;
      for text with `~` they do not. */
  lemma TagValueRoundTrip(s: string)
    ensures DecodeTagValue(EncodeTagValue(s)) == s <==> '~' !in s
  {
    var e := EncodeTagValue(s);
    assert |e| == |s| && forall i :: 0 <= i < |s| ==> e[i] == if s[i] == '=' then '~' else s[i];
    var d := DecodeTagValue(e);
    assert |d| == |s| && forall i :: 0 <= i < |s| ==> d[i] == if e[i] == '~' then '=' else e[i];
    if '~' in s {
      var i :| 0 <= i < |s| && s[i] == '~';
      assert d[i] == '=';
    }
  }

  // ----- Members of the header -----

  /** The part before and after the first `=`; both empty without one. */
  function KeyValue(member: string): (string, string) {
    match SplitOnce(member, '=')
    case Some(kv) => kv
    case None => ("", "")
  }

  predicate MemberOk(member: string) {
    var (key, value) := KeyValue(member);
    ValidKey(key) && value != "" && ValidValue(value)
  }

  predicate AllMembersOk(members: seq<string>) {
    forall m :: m in members ==> MemberOk(m)
  }

  /** One `key:value` item of the Datadog member. Items with other than printable
      ASCII, or without a colon, are ignored. */
  function ParseItem(item: string): Option<(string, string)> {
    if forall c :: c in item ==> ' ' <= c <= '~' then
      match SplitOnce(item, ':')
      case Some((k, v)) => Some((k, DecodeTagValue(v)))
      case None => None
    else None
  }

  /** Collecting items into a map: a later item wins over an earlier one. */
  function Collect(items: seq<string>): Tags
    decreases |items|
  {
    if items == [] then map[]
    else
      var init, last := Collect(items[..|items| - 1]), ParseItem(items[|items| - 1]);
      if last.Some? then init[last.value.0 := last.value.1] else init
  }

  function ParseDd(value: string): Tags {
    Collect(Split(Trim(value), ';'))
  }

  datatype Tracestate = Tracestate(
    sampling: Option<SamplingDecision>,
    origin: Option<string>,
    lowerOrderTraceId: Option<string>,
    propagationTags: Option<Tags>,
    additionalValues: Option<seq<(string, string)>>)

  function Find(tags: Tags, key: string): Option<string> {
    if key in tags then Some(tags[key]) else None
  }

  lemma SameByFind(a: Tags, b: Tags)
    requires forall k :: Find(a, k) == Find(b, k)
    ensures a == b
  {
    forall k ensures k in a <==> k in b {
      assert Find(a, k) == Find(b, k);
    }
    forall k | k in a ensures a[k] == b[k] {
      assert Find(a, k) == Find(b, k);
    }
  }

  function DdFields(dd: Tags): Tracestate {
    var s, dm := Find(dd, "s"), Find(dd, "t.dm");
    Tracestate(
      Some(SamplingDecision(if s.Some? then ParsePriority(s.value) else None,
                            if dm.Some? then ParseMechanism(dm.value) else None)),
      Find(dd, "o"), Find(dd, "p"),
      Some(dd - {"s", "o", "p"}),
      None)
  }

  const NO_DD := Tracestate(None, None, None, None, None)

  /** The last `dd` member decides; the others are kept in order. */
  function LastDd(members: seq<string>): Option<Tags>
    decreases |members|
  {
    if members == [] then None
    else
      var (key, value) := KeyValue(members[|members| - 1]);
      if key == "dd" then Some(ParseDd(value)) else LastDd(members[..|members| - 1])
  }

  function Others(members: seq<string>): seq<(string, string)>
    decreases |members|
  {
    if members == [] then []
    else
      var (key, value) := KeyValue(members[|members| - 1]);
      Others(members[..|members| - 1]) + (if key == "dd" then [] else [(key, value)])
  }

  /** Parsing fails as a whole if one member is not valid. */
  function Parsed(header: string): Option<Tracestate> {
    var members := Split(header, ',');
    if AllMembersOk(members) then
      var dd, others := LastDd(members), Others(members);
      var fields := if dd.Some? then DdFields(dd.value) else NO_DD;
      Some(fields.(additionalValues := if others == [] then None else Some(others)))
    else None
  }

  method CheckMember(member: string) returns (ok: bool)
    ensures ok == MemberOk(member)
  {
    var (key, value) := KeyValue(member);
    var keyIsValid := CheckKey(key);
    ok := keyIsValid && value != "" && ValidValue(value);
  }

  lemma OneMoreMember(members: seq<string>, i: nat)
    requires i < |members|
    ensures AllMembersOk(members[..i + 1]) <==> AllMembersOk(members[..i]) && MemberOk(members[i])
    ensures AllMembersOk(members) ==> MemberOk(members[i])
    ensures var (key, value) := KeyValue(members[i]);
      && LastDd(members[..i + 1]) == (if key == "dd" then Some(ParseDd(value)) else LastDd(members[..i]))
      && Others(members[..i + 1]) == (if key == "dd" then Others(members[..i]) else Others(members[..i]) + [(key, value)])
  {
    assert members[..i + 1][..i] == members[..i];
  }

  method ReadMembers(members: seq<string>) returns (ok: bool, dd: Option<Tags>, additional: seq<(string, string)>)
    ensures ok <==> AllMembersOk(members)
    ensures ok ==> dd == LastDd(members) && additional == Others(members)
  {
    dd, additional := None, [];
    for i := 0 to |members|
      invariant AllMembersOk(members[..i])
      invariant dd == LastDd(members[..i]) && additional == Others(members[..i])
    {
      OneMoreMember(members, i);
      var isOk := CheckMember(members[i]);
      if !isOk {
        return false, None, [];
      }
      var (key, value) := KeyValue(members[i]);
      if key == "dd" {
        dd := Some(ParseDd(value));
      } else {
        additional := additional + [(key, value)];
      }
    }
    assert members[..|members|] == members;
    ok := true;
  }

  method FromStr(header: string) returns (result: Option<Tracestate>)
    ensures result == Parsed(header)
  {
    var ok, dd, additional := ReadMembers(Split(header, ','));
    if !ok {
      return None;
    }
    var others := if additional == [] then None else Some(additional);
    if dd.Some? {
      var parsed := ReadFields(dd.value, others);
      return Some(parsed);
    }
    return Some(NO_DD.(additionalValues := others));
  }

  /** The loop over the map of fields, in whatever order the map yields them. */
  method ReadFields(dd: Tags, additional: Option<seq<(string, string)>>) returns (parsed: Tracestate)
    ensures parsed == DdFields(dd).(additionalValues := additional)
  {
    var origin, lower, priority, mechanism := None, None, None, None;
    var tags: Tags := map[];
    var left := dd.Keys;
    while left != {}
      invariant left <= dd.Keys
      invariant origin == if "o" in dd && "o" !in left then Some(dd["o"]) else None
      invariant lower == if "p" in dd && "p" !in left then Some(dd["p"]) else None
      invariant priority == if "s" in dd && "s" !in left then ParsePriority(dd["s"]) else None
      invariant mechanism == if "t.dm" in dd && "t.dm" !in left then ParseMechanism(dd["t.dm"]) else None
      invariant tags == dd - {"s", "o", "p"} - left
      decreases left
    {
      var k :| k in left;
      left := left - {k};
      var v := dd[k];
      if k == "s" {
        priority := ParsePriority(v);
      } else if k == "o" {
        origin := Some(v);
      } else if k == "p" {
        lower := Some(v);
      } else {
        if k == "t.dm" {
          mechanism := ParseMechanism(v);
        }
        tags := tags[k := v];
      }
    }
    assert tags == dd - {"s", "o", "p"};
    parsed := Tracestate(Some(SamplingDecision(priority, mechanism)), origin, lower, Some(tags), additional);
  }

  // ----- The members of another vendor's header that are passed on -----

  predicate IsAdditional(part: string) {
    var (key, value) := match SplitOnce(part, '=') case Some(kv) => kv case None => (part, "");
    key != "dd" && value != "" && ValidKey(key) && ValidValue(value)
  }

  function Filtered(parts: seq<string>): (r: seq<string>)
    ensures forall p :: p in r <==> p in parts && IsAdditional(p)
    decreases |parts|
  {
    if parts == [] then []
    else if IsAdditional(parts[0]) then [parts[0]] + Filtered(parts[1..])
    else Filtered(parts[1..])
  }

  /** The valid members other than `dd`, in order. */
  function AdditionalValues(header: string): seq<string> {
    Filtered(Split(header, ','))
  }
}
