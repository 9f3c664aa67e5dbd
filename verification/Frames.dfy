/**
  The two shapes of a call trace that the verifier compares: the protobuf messages of
  proto/exex.proto, and the decoded JSON-RPC frames of examples/go-trace-verifier/rpc.go.
 */
module Frames {
  import opened Basics

  datatype CallLogFrame = CallLogFrame(
    address: Bytes,
    topics: seq<Bytes>,
    data: Bytes,
    hasPosition: bool,
    position: U64,
    hasIndex: bool,
    index: U64)

  datatype CallFrame = CallFrame(
    typ: string,
    from: Bytes,
    to: Bytes,
    value: Bytes,
    gas: Bytes,
    gasUsed: Bytes,
    input: Bytes,
    output: Bytes,
    error: string,
    revertReason: string,
    calls: seq<CallFrame>,
    logs: seq<CallLogFrame>)

  datatype RpcLogFrame = RpcLogFrame(
    address: string,
    topics: seq<string>,
    data: string,
    position: Option<U64>,
    index: Option<U64>)

  datatype RpcCallFrame = RpcCallFrame(
    typ: string,
    from: string,
    to: string,
    value: string,
    gas: string,
    gasUsed: string,
    input: string,
    output: string,
    error: string,
    revertReason: string,
    calls: seq<RpcCallFrame>,
    logs: seq<RpcLogFrame>)
}
