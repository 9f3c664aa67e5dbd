/** The decimal text that fmt's %d prints for a non-negative integer, and its reader. */
module Decimal {
  import opened Basics

  predicate IsDigit(c: char) {
    '0' <= c <= '9'
  }

  function Print(n: nat): string {
    var last := [('0' as int + n % 10) as char];
    if n < 10 then last else Print(n / 10) + last
  }

  /** Reads the digits of `s` on top of the number `acc` up to the first ']'; the number and what follows it. */
  function ReadIndex(s: string, acc: nat): (r: Option<(nat, string)>)
    ensures r.Some? ==> |r.value.1| < |s|
  {
    if s == "" then None
    else if s[0] == ']' then Some((acc, s[1..]))
    else if IsDigit(s[0]) then ReadIndex(s[1..], 10 * acc + (s[0] as int - '0' as int))
    else None
  }

  lemma {:induction false} PrintIsDigits(n: nat)
    ensures Print(n) != [] && forall i :: 0 <= i < |Print(n)| ==> IsDigit(Print(n)[i])
  {
    if n >= 10 {
      PrintIsDigits(n / 10);
    }
  }

  /** Reading a printed number, whatever follows its closing bracket, gives the number back. */
  lemma {:induction false} ReadPrinted(n: nat, rest: string)
    ensures ReadIndex(Print(n) + "]" + rest, 0) == Some((n, rest))
  {
    ReadFrom(n, "]" + rest);
    assert Print(n) + "]" + rest == Print(n) + ("]" + rest);
    assert ("]" + rest)[1..] == rest;
  }

  lemma {:induction false} ReadFrom(n: nat, tail: string)
    ensures ReadIndex(Print(n) + tail, 0) == ReadIndex(tail, n)
  {
    var last := [('0' as int + n % 10) as char];
    assert (last + tail)[1..] == tail;
    if n >= 10 {
      ReadFrom(n / 10, last + tail);
      assert Print(n) + tail == Print(n / 10) + (last + tail);
    }
  }

  /** Distinct numbers print differently. */
  lemma PrintInjective(a: nat, b: nat)
    ensures Print(a) == Print(b) <==> a == b
  {
    ReadPrinted(a, "");
    ReadPrinted(b, "");
  }
}
