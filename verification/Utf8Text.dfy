/** Strings as UTF-8 bytes, and the byte-level loop that replaces characters. */
module Utf8Text {
  import opened Bytes
  import opened Options
  import opened Text

  function Utf8Char(c: char): (r: seq<Byte>)
    ensures |r| == CharWidth(c)
  {
    var n := c as int;
    if n < 0x80 then [n]
    else if n < 0x800 then [0xC0 + n / 0x40, 0x80 + n % 0x40]
    else if n < 0x1_0000 then [0xE0 + n / 0x1000, 0x80 + n / 0x40 % 0x40, 0x80 + n % 0x40]
    else [0xF0 + n / 0x4_0000, 0x80 + n / 0x1000 % 0x40, 0x80 + n / 0x40 % 0x40, 0x80 + n % 0x40]
  }

  function Utf8(s: string): seq<Byte> {
    if s == "" then [] else Utf8Char(s[0]) + Utf8(s[1..])
  }

  /** How many bytes the character that starts with this byte takes. */
  function LeadWidth(b: Byte): nat {
    if b < 0x80 then 1 else if b < 0xE0 then 2 else if b < 0xF0 then 3 else 4
  }

  /** Where the second character of a non-empty string starts. */
  function SecondChar(bytes: seq<Byte>): Option<nat>
    requires bytes != []
  {
    var width := LeadWidth(bytes[0]);
    if width < |bytes| then Some(width) else None
  }

  lemma LeadByte(c: char)
    ensures LeadWidth(Utf8Char(c)[0]) == CharWidth(c)
    ensures IsAscii(c) <==> Utf8Char(c)[0] < 0x80
    ensures IsAscii(c) ==> Utf8Char(c) == [c as int]
  {
  }

  lemma {:induction false} Utf8Concat(a: string, b: string)
    ensures Utf8(a + b) == Utf8(a) + Utf8(b)
  {
    if a == "" {
      assert a + b == b;
    } else {
      assert (a + b)[1..] == a[1..] + b;
      Utf8Concat(a[1..], b);
    }
  }

  /** The length Rust counts is the number of UTF-8 bytes. */
  lemma {:induction false} Utf8Length(s: string)
    ensures |Utf8(s)| == ByteLen(s)
    decreases |s|
  {
    if s != "" {
      var n := |s| - 1;
      Utf8Length(s[..n]);
      assert s == s[..n] + [s[n]];
      Utf8Concat(s[..n], [s[n]]);
      assert Utf8([s[n]]) == Utf8Char(s[n]) + Utf8("");
    }
  }

  lemma {:induction false} BytesOfChars(s: string, c: char)
    requires c in s
    ensures IsAscii(c) ==> c as int in Utf8(s)
    ensures !IsAscii(c) ==> exists b :: b in Utf8(s) && b >= 0x80
  {
    if s[0] == c {
      assert Utf8(s)[0] == Utf8Char(c)[0] && Utf8(s)[0] in Utf8(s);
      LeadByte(c);
    } else {
      BytesOfChars(s[1..], c);
      assert forall b :: b in Utf8(s[1..]) ==> b in Utf8(s);
    }
  }

  lemma {:induction false} BytesAreChars(s: string)
    requires AllAscii(s)
    ensures |Utf8(s)| == |s| && forall i :: 0 <= i < |s| ==> Utf8(s)[i] == s[i] as int
  {
    if s != "" {
      assert s[0] in s;
      BytesAreChars(s[1..]);
      LeadByte(s[0]);
    }
  }

  // ----- Replacing characters -----

  // Which bytes are to be replaced.
  type ByteTest = Byte -> bool

  predicate IsReplaced(c: char, f: ByteTest) {
    !IsAscii(c) || f(c as int)
  }

  /** Every character that is not ASCII, or that the test selects, becomes one
      replacement character; the others stay. */
  function MapChars(s: string, f: ByteTest, replacement: char): (r: string)
    ensures |r| == |s|
    ensures forall i :: 0 <= i < |s| ==> r[i] == if IsReplaced(s[i], f) then replacement else s[i]
  {
    seq(|s|, i requires 0 <= i < |s| => if IsReplaced(s[i], f) then replacement else s[i])
  }

  predicate IsBad(b: Byte, f: ByteTest) {
    b >= 0x80 || f(b)
  }

  function FindBad(bytes: seq<Byte>, f: ByteTest): (pos: Option<nat>)
    ensures pos.None? ==> forall b :: b in bytes ==> !IsBad(b, f)
    ensures pos.Some? ==>
      pos.value < |bytes| && IsBad(bytes[pos.value], f) &&
      forall i :: 0 <= i < pos.value ==> !IsBad(bytes[i], f)
  {
    if bytes == [] then None
    else if IsBad(bytes[0], f) then Some(0)
    else
      match FindBad(bytes[1..], f)
      case Some(pos) => Some(pos + 1)
      case None => None
  }

  /** Bytes that need no replacement are characters of their own. */
  lemma {:induction false} CleanPrefix(s: string, f: ByteTest, n: nat)
    requires n <= |Utf8(s)| && forall i :: 0 <= i < n ==> !IsBad(Utf8(s)[i], f)
    ensures n <= |s| && Utf8(s)[..n] == Utf8(s[..n]) && Utf8(s)[n..] == Utf8(s[n..])
    ensures forall i :: 0 <= i < n ==> !IsReplaced(s[i], f)
    decreases n
  {
    hide Utf8Char;
    if n == 0 {
      assert s[..0] == "" && s[0..] == s;
    } else {
      LeadByte(s[0]);
      var rest := s[1..];
      assert Utf8(s)[0] == Utf8Char(s[0])[0];
      assert Utf8(s) == [s[0] as int] + Utf8(rest);
      assert forall i :: 0 <= i < n - 1 ==> Utf8(rest)[i] == Utf8(s)[i + 1];
      CleanPrefix(rest, f, n - 1);
      assert s[..n] == [s[0]] + rest[..n - 1] && s[..n][1..] == rest[..n - 1];
      assert Utf8(s)[..n] == [s[0] as int] + Utf8(rest)[..n - 1];
      assert Utf8(s)[n..] == Utf8(rest)[n - 1..] && s[n..] == rest[n - 1..];
    }
  }

  /** One round of the loop: a clean prefix is copied, one character is replaced. */
  lemma MapOneMore(s: string, n: nat, f: ByteTest, replacement: char)
    requires n < |s| && IsReplaced(s[n], f)
    requires forall i :: 0 <= i < n ==> !IsReplaced(s[i], f)
    ensures Utf8(MapChars(s, f, replacement))
         == Utf8(s[..n]) + Utf8Char(replacement) + Utf8(MapChars(s[n + 1..], f, replacement))
  {
    var rest := MapChars(s[n + 1..], f, replacement);
    assert MapChars(s, f, replacement) == s[..n] + ([replacement] + rest);
    Utf8Concat(s[..n], [replacement] + rest);
    assert ([replacement] + rest)[1..] == rest;
  }

  lemma AllClean(s: string, f: ByteTest, replacement: char)
    requires FindBad(Utf8(s), f).None?
    ensures MapChars(s, f, replacement) == s
  {
    var bytes := Utf8(s);
    assert forall i :: 0 <= i < |bytes| ==> bytes[i] in bytes;
    CleanPrefix(s, f, |bytes|);
    if |s| > |bytes| {
      LeadByte(s[|bytes|]);
    }
  }

  /** The first bad byte is the first byte of the first character to replace. */
  lemma BadChar(s: string, f: ByteTest, pos: nat)
    requires FindBad(Utf8(s), f) == Some(pos)
    ensures pos < |s| && IsReplaced(s[pos], f)
    ensures forall i :: 0 <= i < pos ==> !IsReplaced(s[i], f)
    ensures Utf8(s)[..pos] == Utf8(s[..pos])
    ensures var rest := Utf8(s)[pos..];
      && (rest[0] < 0x80 ==> Utf8(s)[pos + 1..] == Utf8(s[pos + 1..]))
      && (rest[0] >= 0x80 && SecondChar(rest).None? ==> s[pos + 1..] == "")
      && (rest[0] >= 0x80 && SecondChar(rest).Some? ==>
            pos + SecondChar(rest).value <= |Utf8(s)| && SecondChar(rest).value > 0 &&
            Utf8(s)[pos + SecondChar(rest).value..] == Utf8(s[pos + 1..]))
  {
    hide Utf8Char, FindBad, SecondChar, CharWidth;
    CleanPrefix(s, f, pos);
    assert s[pos..] != "" && s[pos..][1..] == s[pos + 1..];
    var tail, width := Utf8(s)[pos..], CharWidth(s[pos]);
    SecondCharIs(s[pos..]);
    assert tail == Utf8(s[pos..]) && tail[0] == Utf8(s)[pos];
    assert Utf8(s)[pos + width..] == tail[width..];
  }

  /** The code finds the second character by the width of the first one. */
  lemma SecondCharIs(s: string)
    requires s != ""
    ensures var bytes, width := Utf8(s), CharWidth(s[0]);
      && width > 0 && width <= |bytes| && bytes[width..] == Utf8(s[1..])
      && (IsAscii(s[0]) <==> bytes[0] < 0x80) && (IsAscii(s[0]) ==> width == 1 && bytes[0] == s[0] as int)
      && SecondChar(bytes) == (if s[1..] == "" then None else Some(width))
  {
    hide Utf8Char, LeadWidth;
    var bytes, width := Utf8(s), CharWidth(s[0]);
    LeadByte(s[0]);
    assert bytes == Utf8Char(s[0]) + Utf8(s[1..]);
    assert bytes[0] == Utf8Char(s[0])[0];
    if s[1..] != "" {
      assert |Utf8(s[1..])| >= |Utf8Char(s[1..][0])|;
    }
  }

  lemma RoundKeeps(goal: seq<Byte>, replaced: seq<Byte>, rest: string, f: ByteTest, replacement: char, pos: nat)
    requires FindBad(Utf8(rest), f) == Some(pos)
    requires goal == replaced + Utf8(MapChars(rest, f, replacement))
    ensures pos < |rest|
    ensures goal == replaced + Utf8(rest)[..pos] + Utf8Char(replacement)
                    + Utf8(MapChars(rest[pos + 1..], f, replacement))
  {
    BadChar(rest, f, pos);
    MapOneMore(rest, pos, f, replacement);
    var a, b, c := Utf8(rest)[..pos], Utf8Char(replacement), Utf8(MapChars(rest[pos + 1..], f, replacement));
    assert replaced + (a + b + c) == replaced + a + b + c;
  }

  /** The loop over bytes, with its fast first pass, its step over the rest of a
      multi-byte character and its exit on a final one, is the map over
      characters, for any string and any test. */
  method ReplaceChars(s: string, f: ByteTest, replacement: char) returns (replaced: seq<Byte>)
    ensures replaced == Utf8(MapChars(s, f, replacement))
  {
    hide Utf8, Utf8Char, MapChars, FindBad, SecondChar;
    var tail := Utf8(s);
    ghost var goal := Utf8(MapChars(s, f, replacement));
    if FindBad(tail, f).None? {
      AllClean(s, f, replacement);
      return tail;
    }
    replaced := [];
    ghost var rest := s;
    assert goal == [] + goal;
    while true
      invariant tail == Utf8(rest)
      invariant goal == replaced + Utf8(MapChars(rest, f, replacement))
      decreases |tail|
    {
      var found := FindBad(tail, f);
      if found.None? {
        AllClean(rest, f, replacement);
        replaced := replaced + tail;
        break;
      }
      var pos := found.value;
      RoundKeeps(goal, replaced, rest, f, replacement, pos);
      BadChar(rest, f, pos);
      replaced := replaced + tail[..pos] + Utf8Char(replacement);
      var offset := 1;
      if tail[pos] >= 0x80 {
        var next := SecondChar(tail[pos..]);
        if next.None? {
          NothingLeft(f, replacement);
          assert replaced + [] == replaced;
          break;
        }
        offset := next.value;
      }
      tail := tail[pos + offset..];
      rest := rest[pos + 1..];
    }
  }

  lemma NothingLeft(f: ByteTest, replacement: char)
    ensures Utf8(MapChars("", f, replacement)) == []
  {
  }
}
