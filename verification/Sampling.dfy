/** Sampling priorities and mechanisms. */
module Sampling {
  import opened Options
  import opened Text

  // The tags of a trace, and the one that carries the sampling mechanism.
  type Tags = map<string, string>
  const DECISION_MAKER_KEY := "_dd.p.dm"

  type I8 = x: int | -128 <= x < 128
  type U8 = x: int | 0 <= x < 256

  // Priorities
  const USER_REJECT: I8 := -1
  const AUTO_REJECT: I8 := 0
  const AUTO_KEEP: I8 := 1
  const USER_KEEP: I8 := 2

  // Mechanisms
  const DEFAULT: U8 := 0
  const AGENT_RATE_BY_SERVICE: U8 := 1
  const LOCAL_USER_TRACE_SAMPLING_RULE: U8 := 3
  const MANUAL: U8 := 4
  const APPSEC: U8 := 5
  const SPAN_SAMPLING_RULE: U8 := 8
  const DATA_JOBS_MONITORING: U8 := 10
  const REMOTE_USER_TRACE_SAMPLING_RULE: U8 := 11
  const REMOTE_DYNAMIC_TRACE_SAMPLING_RULE: U8 := 12

  datatype SamplingDecision = SamplingDecision(priority: Option<I8>, mechanism: Option<U8>)

  predicate IsKeep(priority: I8) {
    priority > 0
  }

  /** The priority a mechanism reports for a decision; the kept and the rejected
      priority of every mechanism differ in sign, so the decision can be read back. */
  function ToPriority(mechanism: U8, isKeep: bool): (p: I8)
    ensures IsKeep(p) == isKeep
  {
    var isUser :=
      || mechanism == MANUAL
      || mechanism == LOCAL_USER_TRACE_SAMPLING_RULE
      || mechanism == REMOTE_USER_TRACE_SAMPLING_RULE
      || mechanism == REMOTE_DYNAMIC_TRACE_SAMPLING_RULE
      || mechanism == APPSEC
      || mechanism == SPAN_SAMPLING_RULE
      || mechanism == DATA_JOBS_MONITORING;
    if isUser then (if isKeep then USER_KEEP else USER_REJECT)
    else (if isKeep then AUTO_KEEP else AUTO_REJECT)
  }

  /** Manual decisions, the rules of users, application security, span rules and
      data jobs decide with the priorities of users, 2 and -1; every other mechanism
      with the automatic ones, 1 and 0. */
  lemma PriorityOfMechanism(mechanism: U8, isKeep: bool)
    ensures var isUser := mechanism in [3, 4, 5, 8, 10, 11, 12];
      ToPriority(mechanism, isKeep) == (if isKeep then (if isUser then 2 else 1) else (if isUser then -1 else 0))
  {
  }

  // ----- Printing and parsing -----

  function PriorityText(priority: I8): string {
    SignedText(priority)
  }

  function ParsePriority(s: string): Option<I8> {
    match ParseSigned(s, -128, 127)
    case Some(v) => Some(v)
    case None => None
  }

  /** The table of preallocated strings agrees with the general format. */
  function MechanismText(mechanism: U8): (s: string)
    ensures s == "-" + Digits(mechanism, 10)
  {
    TwoDigits();
    match mechanism
    case 0 => "-0"
    case 1 => "-1"
    case 2 => "-2"
    case 3 => "-3"
    case 4 => "-4"
    case 5 => "-5"
    case 6 => "-6"
    case 7 => "-7"
    case 8 => "-8"
    case 9 => "-9"
    case 10 => "-10"
    case 11 => "-11"
    case 12 => "-12"
    case _ => "-" + Digits(mechanism, 10)
  }

  lemma TwoDigits()
    ensures Digits(10, 10) == "10" && Digits(11, 10) == "11" && Digits(12, 10) == "12"
  {
    assert Digits(1, 10) == "1";
    assert 10 / 10 == 11 / 10 == 12 / 10 == 1;
  }

  const SMALLEST: int := -0x8000

  /** Negation of a 16-bit number; the smallest one is its own negation, the way
      arithmetic wraps in a release build. */
  function Negated(v: int): int {
    if v == SMALLEST then v else -v
  }

  function ParseMechanism(s: string): Option<U8> {
    match ParseSigned(s, -0x8000, 0x7FFF)
    case Some(v) => if v > 0 || Negated(v) > 255 then None else Some(Negated(v) % 256)
    case None => None
  }

  /** The texts that name a mechanism: exactly those of a number from -255 to 0,
      which name its negation, and those of the smallest 16-bit number. */
  lemma MechanismParsedExactly(s: string)
    ensures var v := ParseSigned(s, -0x8000, 0x7FFF);
      && (ParseMechanism(s).Some? <==> v.Some? && (-255 <= v.value <= 0 || v.value == SMALLEST))
      && (ParseMechanism(s).Some? ==> ParseMechanism(s).value == if v.value == SMALLEST then DEFAULT else -v.value)
  {
  }

  /** So a mechanism is read from a number out of range exactly if that is the
      smallest one, and then it is the default mechanism. */
  lemma OutOfRangeExactly(s: string, v: int)
    requires ParseSigned(s, -0x8000, 0x7FFF) == Some(v) && !(-255 <= v <= 0)
    ensures ParseMechanism(s) == (if v == SMALLEST then Some(DEFAULT) else None)
  {
  }

  lemma SmallestText()
    ensures ParseSigned("-32768", -0x8000, 0x7FFF) == Some(SMALLEST)
  {
    assert Value("32768", 10) == Some(32768) by {
      assert "32768"[..4] == "3276" && "3276"[..3] == "327" && "327"[..2] == "32" && "32"[..1] == "3" && "3"[..0] == "";
    }
    assert "-32768"[1..] == "32768";
  }

  /** Every priority and every mechanism survives printing and parsing. */
  lemma SamplingRoundTrip(priority: I8, mechanism: U8)
    ensures ParsePriority(PriorityText(priority)) == Some(priority)
    ensures ParseMechanism(MechanismText(mechanism)) == Some(mechanism)
  {
    ParseSignedText(priority, -128, 127);
    ParseMinus(mechanism, -0x8000, 0x7FFF);
    var v: int := mechanism;
    assert Negated(-v) == v && v % 256 == v;
  }

  /** A mechanism parsed as a signed number is its negation, "-0" included. */
  lemma ParseMinus(mechanism: int, min: int, max: int)
    requires 0 <= mechanism < 256 && min <= -mechanism <= max
    ensures ParseSigned("-" + Digits(mechanism, 10), min, max) == Some(-mechanism)
  {
    DigitsValue(mechanism, 10);
    assert ("-" + Digits(mechanism, 10))[1..] == Digits(mechanism, 10);
  }
}
