/** String operations of the Rust standard library that the codecs use. A string
    is a sequence of Unicode scalar values. */
module Text {
  import opened Numbers
  import opened Options

  // ----- Numbers -----

  type Base = b: int | 2 <= b <= 16 witness 10

  function DigitChar(d: nat): char
    requires d < 16
  {
    "0123456789abcdef"[d]
  }

  function DigitValue(c: char, base: Base): (r: Option<nat>)
    ensures r.Some? ==> r.value < base
  {
    var d := if '0' <= c <= '9' then c as int - '0' as int
             else if 'a' <= c <= 'f' then c as int - 'a' as int + 10
             else if 'A' <= c <= 'F' then c as int - 'A' as int + 10
             else 16;
    if d < base then Some(d) else None
  }

  function Digits(n: nat, base: Base): (r: string)
    ensures r != ""
    decreases n
  {
    if n < base then [DigitChar(n)] else Digits(n / base, base) + [DigitChar(n % base)]
  }

  /** The last `width` digits, with leading zeros. */
  function Padded(n: nat, base: Base, width: nat): (r: string)
    ensures |r| == width
  {
    if width == 0 then "" else Padded(n / base, base, width - 1) + [DigitChar(n % base)]
  }

  function Power(base: Base, n: nat): (r: nat)
    ensures r > 0
  {
    if n == 0 then 1 else base * Power(base, n - 1)
  }

  /** The value of a string of digits, None if it contains anything else. */
  function Value(s: string, base: Base): Option<nat>
    decreases |s|
  {
    if s == "" then Some(0)
    else
      var high, low := Value(s[..|s| - 1], base), DigitValue(s[|s| - 1], base);
      if high.Some? && low.Some? then Some(high.value * base + low.value) else None
  }

  /** `from_str_radix` of an unsigned type: an optional plus sign, then digits. */
  function ParseUnsigned(s: string, base: Base, max: nat): (r: Option<nat>)
    ensures r.Some? ==> r.value <= max
  {
    var digits := if s != "" && s[0] == '+' then s[1..] else s;
    var value := Value(digits, base);
    if digits != "" && value.Some? && value.value <= max then value else None
  }

  /** `from_str` of a signed type. */
  function ParseSigned(s: string, min: int, max: int): (r: Option<int>)
    ensures r.Some? ==> min <= r.value <= max
  {
    var isNegative := s != "" && s[0] == '-';
    var digits := if isNegative || (s != "" && s[0] == '+') then s[1..] else s;
    var value := Value(digits, 10);
    if digits == "" || value.None? then None
    else
      var n: int := value.value;
      var v := if isNegative then -n else n;
      if min <= v <= max then Some(v) else None
  }

  function SignedText(v: int): string {
    if v < 0 then "-" + Digits(-v, 10) else Digits(v, 10)
  }

  lemma DigitRoundTrip(d: nat, base: Base)
    requires d < base
    ensures DigitValue(DigitChar(d), base) == Some(d)
    ensures DigitChar(d) in "0123456789abcdef"
  {
  }

  lemma {:induction false} DigitsAlphabet(n: nat, base: Base)
    ensures forall c :: c in Digits(n, base) ==> c in "0123456789abcdef"
    decreases n
  {
    if n >= base {
      DigitsAlphabet(n / base, base);
    }
  }

  /** One more digit at the end. */
  lemma ValueAppend(s: string, d: nat, base: Base)
    requires d < base && Value(s, base).Some?
    ensures Value(s + [DigitChar(d)], base) == Some(Value(s, base).value * base + d)
  {
    DigitRoundTrip(d, base);
    assert (s + [DigitChar(d)])[..|s|] == s;
  }

  lemma {:induction false} DigitsValue(n: nat, base: Base)
    ensures Value(Digits(n, base), base) == Some(n)
    decreases n
  {
    if n < base {
      ValueAppend("", n, base);
    } else {
      DigitsValue(n / base, base);
      ValueAppend(Digits(n / base, base), n % base, base);
      DivMod(n, base);
    }
  }

  lemma {:induction false} PaddedValue(n: nat, base: Base, width: nat)
    requires n < Power(base, width)
    ensures Value(Padded(n, base, width), base) == Some(n)
    ensures forall c :: c in Padded(n, base, width) ==> c in "0123456789abcdef"
    decreases width
  {
    if width > 0 {
      QuotientBelow(Power(base, width - 1), n, base);
      PaddedValue(n / base, base, width - 1);
      ValueAppend(Padded(n / base, base, width - 1), n % base, base);
      DivMod(n, base);
    }
  }

  lemma ParseDigits(n: nat, max: nat)
    requires n <= max
    ensures ParseUnsigned(Digits(n, 10), 10, max) == Some(n)
  {
    hide Digits, Value;
    DigitsValue(n, 10);
    DigitsAlphabet(n, 10);
    assert Digits(n, 10)[0] in "0123456789abcdef";
  }

  lemma ParsePadded(n: nat, width: nat, max: nat)
    requires width > 0 && n < Power(16, width) && n <= max
    ensures ParseUnsigned(Padded(n, 16, width), 16, max) == Some(n)
  {
    PaddedValue(n, 16, width);
    assert Padded(n, 16, width)[0] in "0123456789abcdef";
  }

  lemma ParseSignedText(v: int, min: int, max: int)
    requires min <= v <= max
    ensures ParseSigned(SignedText(v), min, max) == Some(v)
  {
    hide Digits, Value;
    DigitsValue(if v < 0 then -v else v, 10);
    DigitsAlphabet(if v < 0 then -v else v, 10);
    if v < 0 {
      assert SignedText(v)[1..] == Digits(-v, 10);
    } else {
      assert SignedText(v)[0] in "0123456789abcdef";
    }
  }

  // ----- Which texts are numbers -----

  predicate IsDecimal(c: char) {
    '0' <= c <= '9'
  }

  predicate IsHexDigit(c: char) {
    '0' <= c <= '9' || 'a' <= c <= 'f' || 'A' <= c <= 'F'
  }

  predicate IsDigit(c: char, base: Base) {
    if base == 10 then IsDecimal(c) else if base == 16 then IsHexDigit(c) else DigitValue(c, base).Some?
  }

  predicate AllDigits(s: string, base: Base) {
    forall c :: c in s ==> IsDigit(c, base)
  }

  predicate AllZeros(s: string) {
    forall c :: c in s ==> c == '0'
  }

  /** A text has a value exactly if it consists of digits, upper case included;
      the value has room in as many digits, and is zero only for zeros. */
  lemma {:induction false} ValueExactly(s: string, base: Base)
    ensures Value(s, base).Some? <==> AllDigits(s, base)
    ensures Value(s, base).Some? ==>
      Value(s, base).value < Power(base, |s|) && (Value(s, base).value == 0 <==> AllZeros(s))
    decreases |s|
  {
    hide IsDigit, DigitValue, AllDigits, AllZeros;
    if s == "" {
      NoDigits(base);
    } else {
      var init, last := s[..|s| - 1], s[|s| - 1];
      ValueExactly(init, base);
      DigitOfChar(last, base);
      OneMoreChar(s, base);
      if Value(s, base).Some? {
        OneMoreDigit(Value(init, base).value, DigitValue(last, base).value, base, Power(base, |init|));
      }
    }
  }

  lemma NoDigits(base: Base)
    ensures AllDigits("", base) && AllZeros("")
  {
  }

  lemma OneMoreChar(s: string, base: Base)
    requires s != ""
    ensures var init, last := s[..|s| - 1], s[|s| - 1];
      && (AllDigits(s, base) <==> AllDigits(init, base) && IsDigit(last, base))
      && (AllZeros(s) <==> AllZeros(init) && last == '0')
  {
    hide IsDigit;
    var init, last := s[..|s| - 1], s[|s| - 1];
    assert s == init + [last] && last in s;
    forall c: char ensures c in s <==> c in init || c == last {
    }
  }

  lemma DigitOfChar(c: char, base: Base)
    ensures DigitValue(c, base).Some? <==> IsDigit(c, base)
    ensures DigitValue(c, base) == Some(0) <==> c == '0'
  {
  }

  lemma OneMoreDigit(high: nat, low: nat, base: Base, bound: nat)
    requires high < bound && low < base
    ensures high * base + low < base * bound
    ensures high * base + low == 0 <==> high == 0 && low == 0
  {
    Multiples(high + 1, bound, base);
    assert (high + 1) * base == high * base + base;
    if high > 0 {
      Multiples(1, high, base);
    }
  }

  /** The digits of an unsigned number; a plus sign may come before them. */
  function Unsigned(s: string): string {
    if s != "" && s[0] == '+' then s[1..] else s
  }

  lemma UnsignedExactly(s: string, base: Base, max: nat)
    ensures var n := ParseUnsigned(s, base, max);
      && (Value(Unsigned(s), base).Some? <==> AllDigits(Unsigned(s), base))
      && (n.Some? <==>
            && Unsigned(s) != "" && AllDigits(Unsigned(s), base)
            && Value(Unsigned(s), base).Some? && Value(Unsigned(s), base).value <= max)
      && (n.Some? ==> n == Value(Unsigned(s), base) && (n.value == 0 <==> AllZeros(Unsigned(s))))
  {
    ValueExactly(Unsigned(s), base);
  }

  // ----- Splitting and joining -----

  /** What one more character in front makes of the pieces. */
  function AddInFront(c: char, pieces: seq<string>, sep: char): (r: seq<string>)
    requires pieces != []
    ensures r != []
  {
    if c == sep then [""] + pieces else [[c] + pieces[0]] + pieces[1..]
  }

  function Split(s: string, sep: char): (r: seq<string>)
    ensures r != []
  {
    if s == "" then [""] else AddInFront(s[0], Split(s[1..], sep), sep)
  }

  lemma {:induction false} SplitWhole(s: string, sep: char)
    requires sep !in s
    ensures Split(s, sep) == [s]
  {
    if s != "" {
      SplitWhole(s[1..], sep);
      assert s == [s[0]] + s[1..];
    }
  }

  lemma {:induction false} SplitParts(s: string, sep: char)
    ensures forall p :: p in Split(s, sep) ==> sep !in p && forall c :: c in p ==> c in s
  {
    if s != "" {
      SplitParts(s[1..], sep);
      var rest := Split(s[1..], sep);
      assert rest[0] in rest && forall p :: p in rest[1..] ==> p in rest;
    }
  }

  lemma SplitAtOnce(sep: char, b: string)
    ensures Split([sep] + b, sep) == [""] + Split(b, sep)
  {
    assert ([sep] + b)[1..] == b;
  }

  lemma {:induction false} SplitConcat(a: string, sep: char, b: string)
    ensures Split(a + [sep] + b, sep) == Split(a, sep) + Split(b, sep)
  {
    hide AddInFront;
    var s := a + [sep] + b;
    if a == "" {
      SplitAtOnce(sep, b);
      assert s == [sep] + b;
    } else {
      assert s[0] == a[0] && s[1..] == a[1..] + [sep] + b;
      SplitConcat(a[1..], sep, b);
      AddInFrontConcat(a[0], Split(a[1..], sep), Split(b, sep), sep);
    }
  }

  lemma AddInFrontConcat(c: char, a: seq<string>, b: seq<string>, sep: char)
    requires a != []
    ensures AddInFront(c, a + b, sep) == AddInFront(c, a, sep) + b
  {
    assert (a + b)[1..] == a[1..] + b;
  }

  function Join(parts: seq<string>, sep: char): string
    decreases |parts|
  {
    if parts == [] then ""
    else if |parts| == 1 then parts[0]
    else Join(parts[..|parts| - 1], sep) + [sep] + parts[|parts| - 1]
  }

  lemma {:induction false} SplitJoin(parts: seq<string>, sep: char)
    requires parts != [] && forall p :: p in parts ==> sep !in p
    ensures Split(Join(parts, sep), sep) == parts
    decreases |parts|
  {
    var n := |parts| - 1;
    SplitWhole(parts[n], sep);
    if n > 0 {
      SplitJoin(parts[..n], sep);
      SplitConcat(Join(parts[..n], sep), sep, parts[n]);
      assert parts == parts[..n] + [parts[n]];
    }
  }

  function SplitOnce(s: string, sep: char): (r: Option<(string, string)>)
    ensures r.None? <==> sep !in s
    ensures r.Some? ==> s == r.value.0 + [sep] + r.value.1 && sep !in r.value.0
  {
    if s == "" then None
    else if s[0] == sep then Some(("", s[1..]))
    else
      match SplitOnce(s[1..], sep)
      case Some((a, b)) => Some(([s[0]] + a, b))
      case None => None
  }

  lemma {:induction false} SplitOnceAt(a: string, sep: char, b: string)
    requires sep !in a
    ensures SplitOnce(a + [sep] + b, sep) == Some((a, b))
  {
    if a != "" {
      assert (a + [sep] + b)[1..] == a[1..] + [sep] + b;
      SplitOnceAt(a[1..], sep, b);
      assert a == [a[0]] + a[1..];
    } else {
      assert ("" + [sep] + b)[1..] == b;
    }
  }

  /** The part before the first separator is `a` exactly if the text starts with
      `a` and a separator; the rest follows it. */
  lemma SplitOnceExactly(s: string, a: string, sep: char)
    requires sep !in a
    ensures SplitOnce(s, sep).Some? && SplitOnce(s, sep).value.0 == a <==> a + [sep] <= s
    ensures a + [sep] <= s ==> SplitOnce(s, sep) == Some((a, s[|a| + 1..]))
  {
    hide SplitOnce;
    if a + [sep] <= s {
      assert s == a + [sep] + s[|a| + 1..];
      SplitOnceAt(a, sep, s[|a| + 1..]);
    } else if SplitOnce(s, sep).Some? {
      var (front, back) := SplitOnce(s, sep).value;
      assert front + [sep] <= front + [sep] + back;
    }
  }

  function StripPrefix(s: string, prefix: string): Option<string> {
    if prefix <= s then Some(s[|prefix|..]) else None
  }

  // ----- White space -----

  /** The White_Space property of Unicode, which `trim` uses. */
  predicate IsWhitespace(c: char) {
    var n := c as int;
    || 9 <= n <= 13 || n == 0x20 || n == 0x85 || n == 0xA0 || n == 0x1680
    || 0x2000 <= n <= 0x200A || n == 0x2028 || n == 0x2029 || n == 0x202F
    || n == 0x205F || n == 0x3000
  }

  function TrimStart(s: string): string {
    if s != "" && IsWhitespace(s[0]) then TrimStart(s[1..]) else s
  }

  function TrimEnd(s: string): string {
    if s != "" && IsWhitespace(s[|s| - 1]) then TrimEnd(s[..|s| - 1]) else s
  }

  function Trim(s: string): string {
    TrimEnd(TrimStart(s))
  }

  ghost predicate AllWhitespace(s: string) {
    forall c :: c in s ==> IsWhitespace(c)
  }

  lemma {:induction false} TrimStartExactly(s: string) returns (front: string)
    ensures s == front + TrimStart(s) && AllWhitespace(front)
    ensures TrimStart(s) != "" ==> !IsWhitespace(TrimStart(s)[0])
  {
    if s != "" && IsWhitespace(s[0]) {
      var more := TrimStartExactly(s[1..]);
      front := [s[0]] + more;
    } else {
      front := "";
    }
  }

  lemma {:induction false} TrimEndExactly(s: string) returns (back: string)
    ensures s == TrimEnd(s) + back && AllWhitespace(back)
    ensures TrimEnd(s) != "" ==> !IsWhitespace(TrimEnd(s)[|TrimEnd(s)| - 1])
    decreases |s|
  {
    if s != "" && IsWhitespace(s[|s| - 1]) {
      var more := TrimEndExactly(s[..|s| - 1]);
      back := more + [s[|s| - 1]];
    } else {
      back := "";
    }
  }

  /** Trimming takes away white space at both ends, and all of it. */
  lemma TrimExactly(s: string) returns (front: string, back: string)
    ensures s == front + Trim(s) + back && AllWhitespace(front) && AllWhitespace(back)
    ensures Trim(s) != "" ==> !IsWhitespace(Trim(s)[0]) && !IsWhitespace(Trim(s)[|Trim(s)| - 1])
  {
    front := TrimStartExactly(s);
    back := TrimEndExactly(TrimStart(s));
  }

  // ----- Bytes -----

  predicate IsAscii(c: char) {
    c as int < 128
  }

  predicate AllAscii(s: string) {
    forall c :: c in s ==> IsAscii(c)
  }

  function CharWidth(c: char): nat {
    if c as int < 0x80 then 1 else if c as int < 0x800 then 2 else if c as int < 0x1_0000 then 3 else 4
  }

  /** The length of a string in bytes, which is what Rust's `len` counts. */
  function ByteLen(s: string): (n: nat)
    ensures n >= |s|
    decreases |s|
  {
    if s == "" then 0 else ByteLen(s[..|s| - 1]) + CharWidth(s[|s| - 1])
  }

  lemma {:induction false} AsciiByteLen(s: string)
    requires AllAscii(s)
    ensures ByteLen(s) == |s|
    decreases |s|
  {
    if s != "" {
      assert s[|s| - 1] in s;
      AsciiByteLen(s[..|s| - 1]);
    }
  }
}
