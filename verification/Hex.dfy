/**
  Base 16: the encoder of Go's encoding/hex, the matching decoder, ASCII
  lower-casing, removal of leading zeros, and the value of a digit string.
 */
module Hex {
  import opened Basics

  predicate IsLowerHexDigit(c: char) {
    '0' <= c <= '9' || 'a' <= c <= 'f'
  }

  predicate IsHexDigit(c: char) {
    IsLowerHexDigit(c) || 'A' <= c <= 'F'
  }

  function DigitValue(c: char): (d: nat)
    requires IsHexDigit(c)
    ensures d < 16
  {
    if '0' <= c <= '9' then c as int - '0' as int
    else if 'a' <= c <= 'f' then c as int - 'a' as int + 10
    else c as int - 'A' as int + 10
  }

  function Digit(d: nat): (c: char)
    requires d < 16
    ensures IsLowerHexDigit(c) && DigitValue(c) == d
  {
    if d < 10 then ('0' as int + d) as char else ('a' as int + d - 10) as char
  }

  function Lower(c: char): char {
    if 'A' <= c <= 'Z' then (c as int + 32) as char else c
  }

  /** strings.ToLower on ASCII text. */
  function ToLower(s: string): string {
    seq(|s|, i requires 0 <= i < |s| => Lower(s[i]))
  }

  /** hex.EncodeToString: two lower-case digits a byte. */
  function Encode(b: Bytes): string {
    if |b| == 0 then ""
    else Encode(b[..|b| - 1]) + [Digit(b[|b| - 1] / 16), Digit(b[|b| - 1] % 16)]
  }

  ghost predicate AllHex(s: string) {
    forall i :: 0 <= i < |s| ==> IsHexDigit(s[i])
  }

  ghost predicate AllLowerHex(s: string) {
    forall i :: 0 <= i < |s| ==> IsLowerHexDigit(s[i])
  }

  /** The bytes that a string of hex digits of either case denotes; None for an odd length or another character. */
  function Decode(s: string): Option<Bytes> {
    var n := |s|;
    if n == 0 then Some([])
    else if n == 1 || !IsHexDigit(s[n - 2]) || !IsHexDigit(s[n - 1]) then None
    else
      match Decode(s[..n - 2])
      case None => None
      case Some(b) => Some(b + [16 * DigitValue(s[n - 2]) + DigitValue(s[n - 1])])
  }

  /** strings.TrimLeft(s, "0"). */
  function TrimZeros(s: string): (t: string)
    ensures t == [] || t[0] != '0'
  {
    if s != [] && s[0] == '0' then TrimZeros(s[1..]) else s
  }

  /** The number that a string of hex digits denotes; the empty string denotes zero. */
  ghost function Value(s: string): nat
    requires AllHex(s)
  {
    if |s| == 0 then 0 else 16 * Value(s[..|s| - 1]) + DigitValue(s[|s| - 1])
  }

  /** Lower-casing leaves no capital letter, and changes nothing but capitals into their own small letters. */
  lemma ToLowerMeans(s: string, i: nat)
    requires i < |s|
    ensures var c := ToLower(s)[i];
            && !('A' <= c <= 'Z')
            && (if 'A' <= s[i] <= 'Z' then c as int - 'a' as int == s[i] as int - 'A' as int else c == s[i])
  {
  }

  // ---- lower-casing and decoding

  lemma LowerDigit(c: char, d: char)
    requires IsLowerHexDigit(d)
    ensures Lower(c) == d <==> IsHexDigit(c) && DigitValue(c) == DigitValue(d)
  {
  }

  /** A string lower-cases to the encoding of `b` exactly when it decodes to `b`. */
  lemma {:induction false} LowerEncodes(s: string, b: Bytes)
    ensures ToLower(s) == Encode(b) <==> Decode(s) == Some(b)
  {
    var n, m := |s|, |b|;
    if n >= 2 && m >= 1 {
      var s1, b1, last := s[..n - 2], b[..m - 1], b[m - 1];
      LowerEncodes(s1, b1);
      LowerDigit(s[n - 2], Digit(last / 16));
      LowerDigit(s[n - 1], Digit(last % 16));
      var tail := [Digit(last / 16), Digit(last % 16)];
      assert ToLower(s) == ToLower(s1) + [Lower(s[n - 2]), Lower(s[n - 1])];
      SplitLastTwo(ToLower(s1), [Lower(s[n - 2]), Lower(s[n - 1])], Encode(b1), tail);
      if Decode(s1).Some? && IsHexDigit(s[n - 2]) && IsHexDigit(s[n - 1]) {
        var d := Decode(s1).value;
        var v := 16 * DigitValue(s[n - 2]) + DigitValue(s[n - 1]);
        assert d + [v] == b <==> d == b1 && v == last by {
          assert b == b1 + [last];
          assert (d + [v])[..|d|] == d;
        }
      }
    }
  }

  lemma SplitLastTwo(a: string, x: string, b: string, y: string)
    requires |x| == |y|
    ensures a + x == b + y <==> a == b && x == y
  {
    if a + x == b + y {
      assert |a| == |b|;
      assert (a + x)[..|a|] == a && (b + y)[..|b|] == b;
      assert (a + x)[|a|..] == x && (b + y)[|b|..] == y;
    }
  }

  lemma {:induction false} EncodeDigits(b: Bytes)
    ensures AllLowerHex(Encode(b)) && |Encode(b)| == 2 * |b|
  {
    if |b| == 0 {
    } else {
      EncodeDigits(b[..|b| - 1]);
    }
  }

  lemma EncodeIsLowerHex(b: Bytes)
    ensures AllLowerHex(Encode(b)) && AllHex(Encode(b)) && |Encode(b)| == 2 * |b|
    ensures ToLower(Encode(b)) == Encode(b)
    ensures Decode(Encode(b)) == Some(b)
  {
    EncodeDigits(b);
    assert ToLower(Encode(b)) == Encode(b);
    LowerEncodes(Encode(b), b);
  }

  // ---- values and minimal forms

  lemma ValueSnoc(s: string, c: char)
    requires AllHex(s) && IsHexDigit(c)
    ensures AllHex(s + [c]) && Value(s + [c]) == 16 * Value(s) + DigitValue(c)
  {
    assert (s + [c])[..|s|] == s;
  }

  /** Trimming drops a run of zeros and nothing else. */
  lemma {:induction false} ZerosTrimmed(s: string) returns (k: nat)
    ensures k <= |s| && (forall i :: 0 <= i < k ==> s[i] == '0') && TrimZeros(s) == s[k..]
  {
    if s != [] && s[0] == '0' {
      var rest := ZerosTrimmed(s[1..]);
      k := rest + 1;
      assert s[1..][rest..] == s[k..];
      assert forall i :: 1 <= i < k ==> s[i] == s[1..][i - 1];
    } else {
      k := 0;
    }
  }

  lemma NoDigitsAreZero()
    ensures Value("") == 0 && AllLowerHex("0") && Value("0") == 0
  {
    ValueSnoc("", '0');
    assert "" + ['0'] == "0";
  }

  /** The encoding of a byte string denotes the same number as the byte string itself. */
  lemma {:induction false} EncodeValue(b: Bytes)
    ensures AllHex(Encode(b)) && Value(Encode(b)) == BigEndianValue(b)
  {
    if |b| == 0 {
    } else {
      var b1, last := b[..|b| - 1], b[|b| - 1];
      EncodeValue(b1);
      var hi, lo := Digit(last / 16), Digit(last % 16);
      ValueSnoc(Encode(b1), hi);
      ValueSnoc(Encode(b1) + [hi], lo);
      assert Encode(b) == Encode(b1) + [hi] + [lo];
    }
  }

  /** Removing leading zeros keeps the value. */
  lemma {:induction false} TrimKeepsValue(s: string)
    requires AllHex(s)
    ensures AllHex(TrimZeros(s)) && Value(TrimZeros(s)) == Value(s)
  {
    if s != [] && s[0] == '0' {
      TrimKeepsValue(s[1..]);
      DropZero(s);
    }
  }

  lemma {:induction false} DropZero(s: string)
    requires AllHex(s) && s != [] && s[0] == '0'
    ensures Value(s[1..]) == Value(s)
  {
    if |s| > 1 {
      DropZero(s[..|s| - 1]);
      assert s[1..][..|s| - 2] == s[..|s| - 1][1..];
    }
  }

  /** A digit string without a leading zero denotes zero only if it is empty. */
  lemma {:induction false} MinimalPositive(s: string)
    requires AllHex(s) && s != [] && s[0] != '0'
    ensures Value(s) > 0
  {
    if |s| > 1 {
      MinimalPositive(s[..|s| - 1]);
    }
  }

  /** Every number has one minimal lower-case form. */
  lemma {:induction false} MinimalUnique(s: string, t: string)
    requires AllLowerHex(s) && AllLowerHex(t)
    requires s == [] || s[0] != '0'
    requires t == [] || t[0] != '0'
    requires Value(s) == Value(t)
    ensures s == t
  {
    if s == [] || t == [] {
      if s != [] { MinimalPositive(s); }
      if t != [] { MinimalPositive(t); }
    } else {
      var s1, t1 := s[..|s| - 1], t[..|t| - 1];
      assert DigitValue(s[|s| - 1]) == DigitValue(t[|t| - 1]) && Value(s1) == Value(t1);
      MinimalUnique(s1, t1);
      assert s == s1 + [s[|s| - 1]] && t == t1 + [t[|t| - 1]];
    }
  }

  /** Two lower-case digit strings have the same trimmed form exactly when they denote the same number. */
  lemma TrimCanonical(s: string, t: string)
    requires AllLowerHex(s) && AllLowerHex(t)
    ensures TrimZeros(s) == TrimZeros(t) <==> Value(s) == Value(t)
  {
    TrimKeepsValue(s);
    TrimKeepsValue(t);
    TrimKeepsLower(s);
    TrimKeepsLower(t);
    if Value(s) == Value(t) {
      MinimalUnique(TrimZeros(s), TrimZeros(t));
    }
  }

  /** Trimming neither hides nor introduces a character other than '0'. */
  lemma {:induction false} TrimKeepsLower(s: string)
    ensures AllLowerHex(s) <==> AllLowerHex(TrimZeros(s))
  {
    if s != [] && s[0] == '0' {
      TrimKeepsLower(s[1..]);
      assert s == ['0'] + s[1..];
    }
  }
}
