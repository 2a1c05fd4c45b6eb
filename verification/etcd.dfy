/**
 * The etcd v3 protobuf messages the client builds and reads (package `etcdserverpb`),
 * reduced to the fields the library sets or reads. A repeated field that is left unset
 * is the empty sequence, as in proto3.
 */
module Etcd {
  import opened Wrappers

  datatype CompareResult = Equal | Greater | Less | NotEqual

  datatype CompareTarget = Version | Create | Mod | Value | Lease

  datatype Compare = Compare(key: string, value: string, result: CompareResult, target: CompareTarget)

  datatype PutRequest = PutRequest(
    key: string, value: string, prevKv: bool, lease: int, ignoreLease: bool, ignoreValue: bool)

  datatype RangeRequest = RangeRequest(key: string)

  datatype DeleteRangeRequest = DeleteRangeRequest(key: string)

  datatype RequestOp =
    | RequestRange(range: RangeRequest)
    | RequestPut(put: PutRequest)
    | RequestDeleteRange(deleteRange: DeleteRangeRequest)

  datatype TxnRequest = TxnRequest(compare: seq<Compare>, success: seq<RequestOp>, failure: seq<RequestOp>)

  datatype KeyValue = KeyValue(key: string, value: string)

  datatype RangeResponse = RangeResponse(kvs: seq<KeyValue>)

  /** `prev_kv` is a message field: unset (None) when the key had no previous value. */
  datatype PutResponse = PutResponse(prevKv: Option<KeyValue>)

  datatype DeleteRangeResponse = DeleteRangeResponse(deleted: int)

  datatype ResponseOp =
    | ResponseRange(range: RangeResponse)
    | ResponsePut(put: PutResponse)
    | ResponseDeleteRange(deleteRange: DeleteRangeResponse)

  datatype TxnResponse = TxnResponse(succeeded: bool, responses: seq<ResponseOp>)

  /** The gRPC status that comes back with every response; code 0 is OK. */
  datatype Status = Status(code: int, details: string)

  const Ok := Status(0, "")
}
