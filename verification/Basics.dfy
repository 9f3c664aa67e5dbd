/**
  Types shared by all modules: optional values, byte strings and the fixed-width
  unsigned integers of the program, with their big-endian encoding.
 */
module Basics {

  datatype Option<+T> = None | Some(value: T) {
    predicate IsFailure() {
      None?
    }

    function PropagateFailure<U>(): Option<U>
      requires None?
    {
      None
    }

    function Extract(): T
      requires Some?
    {
      value
    }

    function GetOr(default: T): T {
      match this
      case Some(v) => v
      case None => default
    }
  }

  /** The values of an optional list, an absent list counting as empty. */
  function OrEmpty<T>(o: Option<seq<T>>): seq<T> {
    o.GetOr([])
  }

  // ---- lists

  function Map<T, U>(f: T -> U, s: seq<T>): (r: seq<U>)
    ensures |r| == |s|
    ensures forall i :: 0 <= i < |s| ==> r[i] == f(s[i])
  {
    seq(|s|, i requires 0 <= i < |s| => f(s[i]))
  }

  /** Reads every element of a list; None as soon as one cannot be read. */
  function ReadAll<T, U>(read: T -> Option<U>, s: seq<T>): Option<seq<U>> {
    if |s| == 0 then Some([])
    else
      var init :- ReadAll(read, s[..|s| - 1]);
      var last :- read(s[|s| - 1]);
      Some(init + [last])
  }

  /** A list is read as another exactly when each element is read as its counterpart. */
  lemma {:induction false} ReadAllIff<T, U>(read: T -> Option<U>, s: seq<T>, t: seq<U>)
    ensures ReadAll(read, s) == Some(t) <==> |s| == |t| && forall i :: 0 <= i < |s| ==> read(s[i]) == Some(t[i])
  {
    if |s| == 0 {
    } else if |t| == 0 {
      assert ReadAll(read, s).Some? ==> |ReadAll(read, s).value| > 0;
    } else {
      ReadAllIff(read, s[..|s| - 1], t[..|t| - 1]);
      assert t == t[..|t| - 1] + [t[|t| - 1]];
      if ReadAll(read, s) == Some(t) {
        var init, last := ReadAll(read, s[..|s| - 1]).value, read(s[|s| - 1]).value;
        assert t == init + [last];
      }
    }
  }

  /** A reader that undoes a writer on every element undoes it on the list. */
  lemma {:induction false} ReadAllWritten<T, U, V>(write: T -> U, read: U -> Option<V>, view: T -> V, s: seq<T>)
    requires forall x :: x in s ==> read(write(x)) == Some(view(x))
    ensures ReadAll(read, Map(write, s)) == Some(Map(view, s))
  {
    if |s| == 0 {
    } else {
      var init, last := s[..|s| - 1], s[|s| - 1];
      ReadAllWritten(write, read, view, init);
      assert Map(write, s)[..|s| - 1] == Map(write, init);
      assert last in s;
      assert Map(view, s) == Map(view, init) + [view(last)];
    }
  }

  function Same<T>(x: T): T {
    x
  }

  lemma MapSame<T>(s: seq<T>)
    ensures Map(Same<T>, s) == s
  {
  }

  /** A reader that accepts only what the writer makes of what it returns does so on lists. */
  lemma {:induction false} ReadAllExact<T, U>(write: T -> U, read: U -> Option<T>, s: seq<U>)
    requires forall p :: p in s && read(p).Some? ==> write(read(p).value) == p
    ensures ReadAll(read, s).Some? ==> Map(write, ReadAll(read, s).value) == s
  {
    if |s| == 0 {
    } else if ReadAll(read, s).Some? {
      var init, last := s[..|s| - 1], s[|s| - 1];
      ReadAllExact(write, read, init);
      assert last in s && s == init + [last];
      assert Map(write, ReadAll(read, init).value + [read(last).value]) ==
             Map(write, ReadAll(read, init).value) + [write(read(last).value)];
    }
  }

  // ---- rearrangements

  lemma Extracted<T>(a: seq<T>, x: T, b: seq<T>)
    ensures multiset(a + [x] + b) == multiset(a + b) + multiset{x}
  {
    assert multiset(a + [x] + b) == multiset(a) + multiset{x} + multiset(b);
  }

  lemma Cancel<T>(a: multiset<T>, b: multiset<T>, x: T)
    requires a + multiset{x} == b + multiset{x}
    ensures a == b
  {
    assert a == (a + multiset{x}) - multiset{x} && b == (b + multiset{x}) - multiset{x};
  }

  /** A rearrangement of a list has the list's last element somewhere, and the others around it. */
  lemma WithoutLast<T>(a: seq<T>, b: seq<T>) returns (b1: seq<T>, b2: seq<T>)
    requires |a| > 0 && multiset(a) == multiset(b)
    ensures b == b1 + [a[|a| - 1]] + b2
    ensures multiset(a[..|a| - 1]) == multiset(b1 + b2)
  {
    var init, last := a[..|a| - 1], a[|a| - 1];
    assert last in multiset(b);
    var i :| 0 <= i < |b| && b[i] == last;
    b1, b2 := b[..i], b[i + 1..];
    assert multiset(a) == multiset(init) + multiset{last} by {
      assert a == init + [last];
    }
    assert multiset(b) == multiset(b1 + b2) + multiset{last} by {
      assert b == b1 + [last] + b2;
      Extracted(b1, last, b2);
    }
    Cancel(multiset(init), multiset(b1 + b2), last);
  }

  // ---- bytes and integers

  type Byte = n: int | 0 <= n < 256

  type Bytes = seq<Byte>

  type U64 = n: nat | n < 0x1_0000_0000_0000_0000
  type U128 = n: nat | n < 0x1_0000_0000_0000_0000_0000_0000_0000_0000
  type U256 = n: nat | n < 0x1_0000_0000_0000_0000_0000_0000_0000_0000_0000_0000_0000_0000_0000_0000_0000_0000

  type Address = b: Bytes | |b| == 20 witness seq(20, _ => 0)
  type B256 = b: Bytes | |b| == 32 witness seq(32, _ => 0)

  function HashToBytes(h: B256): Bytes {
    h
  }

  function AddressToBytes(a: Address): Bytes {
    a
  }

  /** 256 to the power `w`: the number of values that `w` bytes can hold. */
  function Pow256(w: nat): (p: nat)
    ensures p > 0
  {
    if w == 0 then 1 else 256 * Pow256(w - 1)
  }

  lemma Widths()
    ensures Pow256(8) == 0x1_0000_0000_0000_0000
    ensures Pow256(16) == 0x1_0000_0000_0000_0000_0000_0000_0000_0000
    ensures Pow256(32) == 0x1_0000_0000_0000_0000_0000_0000_0000_0000_0000_0000_0000_0000_0000_0000_0000_0000
  {
    assert Pow256(4) == 0x1_0000_0000;
    assert Pow256(8) == 0x1_0000_0000_0000_0000;
    assert Pow256(12) == 0x1_0000_0000_0000_0000_0000_0000;
    assert Pow256(16) == 0x1_0000_0000_0000_0000_0000_0000_0000_0000;
    assert Pow256(20) == 0x1_0000_0000_0000_0000_0000_0000_0000_0000_0000_0000;
    assert Pow256(24) == 0x1_0000_0000_0000_0000_0000_0000_0000_0000_0000_0000_0000_0000;
    assert Pow256(28) == 0x1_0000_0000_0000_0000_0000_0000_0000_0000_0000_0000_0000_0000_0000_0000;
    assert Pow256(32) == 0x1_0000_0000_0000_0000_0000_0000_0000_0000_0000_0000_0000_0000_0000_0000_0000_0000;
  }

  /** Big-endian encoding of `v` in `w` bytes. */
  function ToBigEndian(v: nat, w: nat): (b: Bytes)
    ensures |b| == w
    decreases w
  {
    if w == 0 then [] else ToBigEndian(v / 256, w - 1) + [v % 256]
  }

  /** The number that a byte string denotes, most significant byte first. */
  function BigEndianValue(b: Bytes): (v: nat)
    ensures v < Pow256(|b|)
  {
    if |b| == 0 then 0
    else BigEndianValue(b[..|b| - 1]) * 256 + b[|b| - 1]
  }

  lemma {:induction false} BigEndianRoundTrip(v: nat, w: nat)
    requires v < Pow256(w)
    ensures BigEndianValue(ToBigEndian(v, w)) == v
    decreases w
  {
    if w == 0 {
    } else {
      BigEndianRoundTrip(v / 256, w - 1);
      var b := ToBigEndian(v, w);
      assert b[..w - 1] == ToBigEndian(v / 256, w - 1);
    }
  }

  /** The encoding of the number that a byte string denotes is that byte string. */
  lemma {:induction false} BigEndianBytes(b: Bytes)
    ensures ToBigEndian(BigEndianValue(b), |b|) == b
  {
    if |b| == 0 {
    } else {
      BigEndianBytes(b[..|b| - 1]);
    }
  }

  /** What comes first weighs more. */
  lemma {:induction false} BigEndianConcat(a: Bytes, b: Bytes)
    ensures BigEndianValue(a + b) == BigEndianValue(a) * Pow256(|b|) + BigEndianValue(b)
  {
    if |b| == 0 {
      assert a + b == a;
    } else {
      var init, last := b[..|b| - 1], b[|b| - 1];
      BigEndianConcat(a, init);
      assert (a + b)[..|a + b| - 1] == a + init;
      Rescale(BigEndianValue(a), Pow256(|init|), BigEndianValue(init));
    }
  }

  lemma Rescale(x: nat, p: nat, y: nat)
    ensures (x * p + y) * 256 == x * (256 * p) + y * 256
  {
  }

  /** Fixed-width big-endian encodings: the width is fixed and the value is kept. */
  function U64ToBytes(v: U64): (b: Bytes)
    ensures |b| == 8 && BigEndianValue(b) == v
  {
    Widths();
    BigEndianRoundTrip(v, 8);
    ToBigEndian(v, 8)
  }

  function U128ToBytes(v: U128): (b: Bytes)
    ensures |b| == 16 && BigEndianValue(b) == v
  {
    Widths();
    BigEndianRoundTrip(v, 16);
    ToBigEndian(v, 16)
  }

  function U256ToBytes(v: U256): (b: Bytes)
    ensures |b| == 32 && BigEndianValue(b) == v
  {
    Widths();
    BigEndianRoundTrip(v, 32);
    ToBigEndian(v, 32)
  }

  function ReadU64(b: Bytes): Option<U64> {
    Widths();
    if |b| == 8 then Some(BigEndianValue(b)) else None
  }

  function ReadU128(b: Bytes): Option<U128> {
    Widths();
    if |b| == 16 then Some(BigEndianValue(b)) else None
  }

  function ReadU256(b: Bytes): Option<U256> {
    Widths();
    if |b| == 32 then Some(BigEndianValue(b)) else None
  }

  function ReadAddress(b: Bytes): Option<Address> {
    if |b| == 20 then Some(b) else None
  }

  function ReadB256(b: Bytes): Option<B256> {
    if |b| == 32 then Some(b) else None
  }

  /** Fixed-width encodings can be read back. */
  lemma IntegersRoundTrip()
    ensures forall v: U64 :: ReadU64(U64ToBytes(v)) == Some(v)
    ensures forall v: U128 :: ReadU128(U128ToBytes(v)) == Some(v)
    ensures forall v: U256 :: ReadU256(U256ToBytes(v)) == Some(v)
  {
  }

  /** What is read as a fixed-width number is the encoding of that number. */
  lemma IntegersExact()
    ensures forall b :: ReadU64(b).Some? ==> U64ToBytes(ReadU64(b).value) == b
    ensures forall b :: ReadU128(b).Some? ==> U128ToBytes(ReadU128(b).value) == b
    ensures forall b :: ReadU256(b).Some? ==> U256ToBytes(ReadU256(b).value) == b
  {
    forall b: Bytes
      ensures ToBigEndian(BigEndianValue(b), |b|) == b
    {
      BigEndianBytes(b);
    }
  }
}
