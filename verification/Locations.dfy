/**
  Where two traces can differ, the text by which a mismatch line names that place, and a
  reader that recovers the place from the text.
 */
module Locations {
  import opened Basics
  import Decimal

  datatype FrameField =
    | Typ | From | To | Value | Gas | GasUsed | Input | Output | Error | RevertReason
    | Calls | Logs

  datatype LogField = Address | Topics | Topic(i: nat) | Data | Position | Index

  /** A place inside a frame: a field of its own, a place inside a child call, or a field of a log. */
  datatype Location =
    | Here(field: FrameField)
    | InCall(call: nat, inner: Location)
    | InLog(log: nat, logField: LogField)

  datatype BlockLocation = TxCount | InTx(tx: nat, loc: Location)

  // ---- printing

  function Name(f: FrameField): string {
    match f
    case Typ => "typ"
    case From => "from"
    case To => "to"
    case Value => "value"
    case Gas => "gas"
    case GasUsed => "gasUsed"
    case Input => "input"
    case Output => "output"
    case Error => "error"
    case RevertReason => "revertReason"
    case Calls => "calls"
    case Logs => "logs"
  }

  function LogName(f: LogField): string {
    match f
    case Address => "address"
    case Topics => "topics"
    case Topic(i) => "topics[" + Decimal.Print(i) + "]"
    case Data => "data"
    case Position => "position"
    case Index => "index"
  }

  /** What a location adds to the path of its frame. */
  function Suffix(loc: Location): string {
    match loc
    case Here(f) => "." + Name(f)
    case InCall(i, inner) => ".calls[" + Decimal.Print(i) + "]" + Suffix(inner)
    case InLog(j, f) => ".logs[" + Decimal.Print(j) + "]." + LogName(f)
  }

  function BlockText(loc: BlockLocation): string {
    match loc
    case TxCount => "tx count"
    case InTx(i, inner) => "tx[" + Decimal.Print(i) + "]" + Suffix(inner)
  }

  // ---- reading

  predicate StartsWith(s: string, prefix: string) {
    |prefix| <= |s| && s[..|prefix|] == prefix
  }

  function NameOf(s: string): Option<FrameField> {
    if s == "typ" then Some(Typ)
    else if s == "from" then Some(From)
    else if s == "to" then Some(To)
    else if s == "value" then Some(Value)
    else if s == "gas" then Some(Gas)
    else if s == "gasUsed" then Some(GasUsed)
    else if s == "input" then Some(Input)
    else if s == "output" then Some(Output)
    else if s == "error" then Some(Error)
    else if s == "revertReason" then Some(RevertReason)
    else if s == "calls" then Some(Calls)
    else if s == "logs" then Some(Logs)
    else None
  }

  function LogNameOf(s: string): Option<LogField> {
    if StartsWith(s, "topics[") then
      match Decimal.ReadIndex(s[7..], 0)
      case Some((i, rest)) => if rest == "" then Some(Topic(i)) else None
      case None => None
    else if s == "address" then Some(Address)
    else if s == "topics" then Some(Topics)
    else if s == "data" then Some(Data)
    else if s == "position" then Some(Position)
    else if s == "index" then Some(Index)
    else None
  }

  function ReadSuffix(s: string): Option<Location>
    decreases |s|
  {
    if StartsWith(s, ".calls[") then
      match Decimal.ReadIndex(s[7..], 0)
      case None => None
      case Some((i, rest)) =>
        match ReadSuffix(rest)
        case None => None
        case Some(inner) => Some(InCall(i, inner))
    else if StartsWith(s, ".logs[") then
      match Decimal.ReadIndex(s[6..], 0)
      case None => None
      case Some((j, rest)) =>
        if StartsWith(rest, ".") then
          match LogNameOf(rest[1..])
          case None => None
          case Some(f) => Some(InLog(j, f))
        else None
    else if StartsWith(s, ".") then
      match NameOf(s[1..])
      case None => None
      case Some(f) => Some(Here(f))
    else None
  }

  function ReadBlockText(s: string): Option<BlockLocation> {
    if s == "tx count" then Some(TxCount)
    else if StartsWith(s, "tx[") then
      match Decimal.ReadIndex(s[3..], 0)
      case None => None
      case Some((i, rest)) =>
        match ReadSuffix(rest)
        case None => None
        case Some(inner) => Some(InTx(i, inner))
    else None
  }

  /** The part of a mismatch line in front of its first colon. */
  function BeforeColon(s: string): string {
    if s == "" || s[0] == ':' then "" else [s[0]] + BeforeColon(s[1..])
  }

  // ---- reading undoes printing

  lemma Cut(prefix: string, rest: string)
    ensures StartsWith(prefix + rest, prefix)
    ensures (prefix + rest)[|prefix|..] == rest
  {
  }

  lemma NotAPrefix(s: string, prefix: string, k: nat)
    requires k < |prefix|
    requires k < |s| ==> s[k] != prefix[k]
    ensures !StartsWith(s, prefix)
  {
  }

  lemma NameRoundTrip(f: FrameField)
    ensures NameOf(Name(f)) == Some(f)
  {
  }

  lemma FieldRoundTrip(f: FrameField)
    ensures ReadSuffix("." + Name(f)) == Some(Here(f))
  {
    var s := "." + Name(f);
    NameRoundTrip(f);
    Cut(".", Name(f));
    NotAPrefix(s, ".calls[", if f == Calls then 6 else 1);
    NotAPrefix(s, ".logs[", if f == Logs then 5 else 1);
  }

  lemma LogNameRoundTrip(f: LogField)
    ensures LogNameOf(LogName(f)) == Some(f)
  {
    var s := LogName(f);
    match f
    case Topic(i) =>
      var rest := Decimal.Print(i) + "]" + "";
      Decimal.ReadPrinted(i, "");
      Cut("topics[", rest);
      assert s == "topics[" + rest;
    case Topics =>
      NotAPrefix(s, "topics[", 6);
    case _ =>
      NotAPrefix(s, "topics[", 0);
  }

  lemma CallRoundTrip(i: nat, tail: string, inner: Location)
    requires ReadSuffix(tail) == Some(inner)
    ensures ReadSuffix(".calls[" + Decimal.Print(i) + "]" + tail) == Some(InCall(i, inner))
  {
    var rest := Decimal.Print(i) + "]" + tail;
    Decimal.ReadPrinted(i, tail);
    Cut(".calls[", rest);
    assert ".calls[" + Decimal.Print(i) + "]" + tail == ".calls[" + rest;
  }

  lemma LogRoundTrip(j: nat, f: LogField)
    ensures ReadSuffix(".logs[" + Decimal.Print(j) + "]." + LogName(f)) == Some(InLog(j, f))
  {
    var tail := "." + LogName(f);
    var rest := Decimal.Print(j) + "]" + tail;
    var s := ".logs[" + Decimal.Print(j) + "]." + LogName(f);
    assert s == ".logs[" + rest;
    LogNameRoundTrip(f);
    Decimal.ReadPrinted(j, tail);
    Cut(".", LogName(f));
    Cut(".logs[", rest);
    NotAPrefix(s, ".calls[", 1);
  }

  lemma {:induction false} SuffixRoundTrip(loc: Location)
    ensures ReadSuffix(Suffix(loc)) == Some(loc)
  {
    match loc
    case Here(f) =>
      FieldRoundTrip(f);
    case InCall(i, inner) =>
      SuffixRoundTrip(inner);
      CallRoundTrip(i, Suffix(inner), inner);
    case InLog(j, f) =>
      LogRoundTrip(j, f);
  }

  /** The text of a location can be read back: no two places share their text. */
  lemma BlockTextRoundTrip(loc: BlockLocation)
    ensures ReadBlockText(BlockText(loc)) == Some(loc)
  {
    if loc.InTx? {
      var tail := Suffix(loc.loc);
      var rest := Decimal.Print(loc.tx) + "]" + tail;
      var s := BlockText(loc);
      SuffixRoundTrip(loc.loc);
      Decimal.ReadPrinted(loc.tx, tail);
      Cut("tx[", rest);
      assert s == "tx[" + rest;
      assert s != "tx count" by { assert s[2] == '['; assert "tx count"[2] == ' '; }
    }
  }

  // ---- the location is the text before the colon

  ghost predicate NoColon(s: string) {
    forall i :: 0 <= i < |s| ==> s[i] != ':'
  }

  lemma {:induction false} BeforeColonOf(s: string, rest: string)
    requires NoColon(s)
    ensures BeforeColon(s + ":" + rest) == s
  {
    var t := s + ":" + rest;
    if s != "" {
      BeforeColonOf(s[1..], rest);
      assert t[1..] == s[1..] + ":" + rest;
      assert s == [s[0]] + s[1..];
    }
  }

  lemma LogNameNoColon(f: LogField)
    ensures NoColon(LogName(f))
  {
    if f.Topic? {
      Decimal.PrintIsDigits(f.i);
    }
  }

  lemma {:induction false} SuffixNoColon(loc: Location)
    ensures NoColon(Suffix(loc))
  {
    match loc
    case Here(f) =>
    case InCall(i, inner) =>
      Decimal.PrintIsDigits(i);
      SuffixNoColon(inner);
    case InLog(j, f) =>
      Decimal.PrintIsDigits(j);
      LogNameNoColon(f);
  }

  lemma BlockTextNoColon(loc: BlockLocation)
    ensures NoColon(BlockText(loc))
  {
    if loc.InTx? {
      Decimal.PrintIsDigits(loc.tx);
      SuffixNoColon(loc.loc);
    }
  }
}
