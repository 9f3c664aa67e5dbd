/**
  The five normalisers of examples/go-trace-verifier/compare.go, and for every pair that the
  comparison uses the exact set of inputs on which the two sides come out equal.
 */
module Normalize {
  import opened Basics
  import Hex

  function NormalizeAddress(b: Bytes): string {
    if |b| == 0 then "" else "0x" + Hex.Encode(b)
  }

  function NormalizeU256Grpc(b: Bytes): string {
    if |b| == 0 then ""
    else
      var s := Hex.TrimZeros(Hex.Encode(b));
      if s == "" then "0x0" else "0x" + s
  }

  predicate HasPrefix(s: string) {
    |s| >= 2 && s[0] == '0' && s[1] == 'x'
  }

  function NormalizeU256Rpc(s: string): string {
    if s == "" then ""
    else if !HasPrefix(s) then s
    else
      var trimmed := Hex.TrimZeros(s[2..]);
      if trimmed == "" then "0x0" else "0x" + trimmed
  }

  function NormalizeBytes(b: Bytes): string {
    if |b| == 0 then "" else "0x" + Hex.Encode(b)
  }

  function NormalizeHexStr(s: string): string {
    if s == "" || s == "0x" then "" else Hex.ToLower(s)
  }

  // ---- what agreement means

  /** `s` is how JSON-RPC may write the byte string `b`: with either case of the prefix and of the digits. */
  ghost predicate DataAgrees(b: Bytes, s: string) {
    if b == [] then
      s == "" || s == "0x"
    else
      |s| >= 2 && s[0] == '0' && (s[1] == 'x' || s[1] == 'X') && Hex.Decode(s[2..]) == Some(b)
  }

  /** `s` is how JSON-RPC may write the number that `b` holds; an absent number is written as nothing. */
  ghost predicate QuantityAgrees(b: Bytes, s: string) {
    if b == [] then
      s == ""
    else
      HasPrefix(s) && Hex.AllLowerHex(s[2..]) && Hex.Value(s[2..]) == BigEndianValue(b)
  }

  lemma BytesAgreement(b: Bytes, s: string)
    ensures NormalizeBytes(b) == NormalizeHexStr(s) <==> DataAgrees(b, s)
    ensures NormalizeAddress(b) == NormalizeHexStr(s) <==> DataAgrees(b, s)
  {
    if |s| >= 2 && b != [] {
      Hex.LowerEncodes(s[2..], b);
      assert Hex.ToLower(s)[2..] == Hex.ToLower(s[2..]);
      var lhs := "0x" + Hex.Encode(b);
      assert lhs[2..] == Hex.Encode(b);
      if s[0] == '0' && (s[1] == 'x' || s[1] == 'X') && Hex.ToLower(s[2..]) == Hex.Encode(b) {
        assert Hex.ToLower(s) == "0x" + Hex.ToLower(s[2..]);
      }
      if lhs == Hex.ToLower(s) {
        assert Hex.ToLower(s)[0] == '0' && Hex.ToLower(s)[1] == 'x';
      }
    }
  }

  lemma QuantityAgreement(b: Bytes, s: string)
    ensures NormalizeU256Grpc(b) == NormalizeU256Rpc(s) <==> QuantityAgrees(b, s)
  {
    if b != [] && HasPrefix(s) {
      var e, d := Hex.Encode(b), s[2..];
      var te, td := Hex.TrimZeros(e), Hex.TrimZeros(d);
      Hex.EncodeValue(b);
      Hex.EncodeIsLowerHex(b);
      Hex.TrimKeepsLower(e);
      Hex.TrimKeepsLower(d);
      assert NormalizeU256Grpc(b) == NormalizeU256Rpc(s) <==> te == td by {
        assert te != "" ==> ("0x" + te)[2..] == te && te[0] != '0';
        assert td != "" ==> ("0x" + td)[2..] == td && td[0] != '0';
        assert "0x0"[2..] == "0" && "0x0"[2..][0] == '0';
      }
      if Hex.AllLowerHex(d) {
        Hex.TrimCanonical(e, d);
      }
    }
  }

  /** Distinct byte strings stay distinct. */
  lemma NormalizeBytesInjective(a: Bytes, b: Bytes)
    ensures NormalizeBytes(a) == NormalizeBytes(b) <==> a == b
  {
    if NormalizeBytes(a) == NormalizeBytes(b) && a != [] {
      Hex.EncodeIsLowerHex(a);
      Hex.EncodeIsLowerHex(b);
      assert NormalizeBytes(a)[2..] == Hex.Encode(a) && NormalizeBytes(b)[2..] == Hex.Encode(b);
    }
  }

  /** The text normaliser is idempotent on every input but one: "0X" becomes "0x", which becomes "". */
  lemma NormalizeHexStrIdempotent(s: string)
    ensures NormalizeHexStr(NormalizeHexStr(s)) == NormalizeHexStr(s) <==> s != "0X"
  {
    var t := Hex.ToLower(s);
    assert Hex.ToLower(t) == t;
    if t == "0x" {
      assert |s| == |t| == 2 && Hex.Lower(s[0]) == t[0] && Hex.Lower(s[1]) == t[1];
      assert s == [s[0], s[1]];
    }
    if s == "0X" {
      assert t == "0x";
    }
  }

  /** The number normaliser is idempotent on every input. */
  lemma NormalizeU256RpcIdempotent(s: string)
    ensures NormalizeU256Rpc(NormalizeU256Rpc(s)) == NormalizeU256Rpc(s)
  {
    if HasPrefix(s) {
      var td := Hex.TrimZeros(s[2..]);
      if td == "" {
        assert "0x0"[2..] == "0";
      } else {
        assert ("0x" + td)[2..] == td;
      }
    }
  }

  // ---- what a normalised text denotes

  lemma BytesTextDenotes(b: Bytes)
    ensures DataAgrees(b, NormalizeBytes(b)) && DataAgrees(b, NormalizeAddress(b))
  {
    Hex.EncodeIsLowerHex(b);
    assert ("0x" + Hex.Encode(b))[2..] == Hex.Encode(b);
  }

  lemma AmountTextDenotes(b: Bytes)
    ensures QuantityAgrees(b, NormalizeU256Grpc(b))
  {
    hide Hex.Encode, Hex.TrimZeros, Hex.Value;
    var digits := Hex.Encode(b);
    var trimmed := Hex.TrimZeros(digits);
    Hex.EncodeIsLowerHex(b);
    Hex.EncodeValue(b);
    Hex.TrimKeepsValue(digits);
    Hex.TrimKeepsLower(digits);
    Hex.NoDigitsAreZero();
    assert ("0x" + trimmed)[2..] == trimmed && "0x0"[2..] == "0";
  }

  /** The text printed for bytes or an amount is one that JSON-RPC may write for them. */
  lemma GrpcTextDenotes(b: Bytes)
    ensures DataAgrees(b, NormalizeBytes(b)) && DataAgrees(b, NormalizeAddress(b))
    ensures QuantityAgrees(b, NormalizeU256Grpc(b))
  {
    hide DataAgrees, QuantityAgrees;
    BytesTextDenotes(b);
    AmountTextDenotes(b);
  }

  /** The text printed for an answer's data denotes what its own text denotes, if and only if that is not "0X". */
  lemma RpcDataDenotesIff(s: string)
    ensures (forall b :: DataAgrees(b, NormalizeHexStr(s)) <==> DataAgrees(b, s)) <==> s != "0X"
  {
    if s == "0X" {
      assert NormalizeHexStr(s) == "0x";
      assert DataAgrees([], NormalizeHexStr(s)) && !DataAgrees([], s);
    } else {
      NormalizeHexStrIdempotent(s);
      forall b
        ensures DataAgrees(b, NormalizeHexStr(s)) <==> DataAgrees(b, s)
      {
        BytesAgreement(b, s);
        BytesAgreement(b, NormalizeHexStr(s));
      }
    }
  }

  lemma RpcAmountDenotes(s: string)
    ensures forall b :: QuantityAgrees(b, NormalizeU256Rpc(s)) <==> QuantityAgrees(b, s)
  {
    hide QuantityAgrees, NormalizeU256Grpc, NormalizeU256Rpc;
    NormalizeU256RpcIdempotent(s);
    forall b
      ensures QuantityAgrees(b, NormalizeU256Rpc(s)) <==> QuantityAgrees(b, s)
    {
      QuantityAgreement(b, s);
      QuantityAgreement(b, NormalizeU256Rpc(s));
    }
  }

  // ---- texts that denote nothing are printed as well

  /** Any text but the two empty ones is printed letter by letter in lower case. */
  lemma RpcDataKeepsText(s: string)
    ensures NormalizeHexStr(s) == "" <==> s == "" || s == "0x"
    ensures s != "" && s != "0x" ==> NormalizeHexStr(s) == seq(|s|, i requires 0 <= i < |s| => Hex.Lower(s[i]))
  {
  }

  /** Of an amount only leading zeros are dropped, but for the last one; a text without the prefix is kept. */
  lemma RpcAmountKeepsText(s: string) returns (zeros: nat)
    ensures !HasPrefix(s) ==> NormalizeU256Rpc(s) == s
    ensures HasPrefix(s) ==>
              && 2 + zeros <= |s|
              && (forall i :: 2 <= i < 2 + zeros ==> s[i] == '0')
              && NormalizeU256Rpc(s) == if 2 + zeros == |s| then "0x0" else "0x" + s[2 + zeros..]
  {
    zeros := 0;
    if HasPrefix(s) {
      zeros := Hex.ZerosTrimmed(s[2..]);
      assert s[2..][zeros..] == s[2 + zeros..];
      assert forall i :: 2 <= i < 2 + zeros ==> s[i] == s[2..][i - 2];
    }
  }
}
