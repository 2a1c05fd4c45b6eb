/**
 * `Client`: one etcd node. Each RPC is an abstract function from the request to the
 * `(response, status)` pair `->wait()` hands back; what remains is how the requests are
 * built and how the responses are decoded.
 */
module EtcdClient {
  import opened Wrappers
  import opened Exceptions
  import opened Etcd
  import ResponseFactory

  /** What `get` answers: the value, or PHP's `false` when there is no key-value. */
  type GetResult = Option<string>

  /** What `putIf`, `deleteIf` and `requestIf` answer: PHP's `bool|string`. */
  datatype IfResult = Flag(flag: bool) | CurrentValue(value: string)

  /** The exception a non-zero status is turned into (`Client` uses the coarse factory). */
  function StatusError(status: Status): (e: Exception)
    ensures IsResponseStatusCodeException(e) && e.code == status.code
    ensures !IsTransient(e)
  {
    ResponseFactory.NeverTransient(status.code, status.details);
    ResponseFactory.GetExceptionByCode(status.code, status.details)
  }

  /** The request `put` sends. */
  function PutRequestOf(key: string, value: string, prevKv: bool, lease: int, ignoreLease: bool, ignoreValue: bool): PutRequest {
    PutRequest(key, value, prevKv, lease, ignoreLease, ignoreValue)
  }

  /** `put`'s decoding, as written: with `$prevKv` set it calls `getValue()` on
      `getPrevKv()`, which is null when the key had no previous value. */
  function DecodePut(prevKv: bool, response: PutResponse, status: Status): (r: Result<Option<string>, Exception>)
    ensures r.Failure? <==> status.code != 0 || (prevKv && response.prevKv.None?)
    ensures status.code != 0 ==> r == Failure(StatusError(status))
    ensures r.Success? ==> (r.value.Some? <==> prevKv)
  {
    if status.code != 0 then Failure(StatusError(status))
    else if prevKv then
      match response.prevKv
      case Some(kv) => Success(Some(kv.value))
      case None => Failure(NullReference)
    else Success(None)
  }

  /** `put`'s decoding with the missing previous value read as "no previous value". */
  function DecodePutChecked(prevKv: bool, response: PutResponse, status: Status): (r: Result<Option<string>, Exception>)
    ensures r.Failure? <==> status.code != 0
    ensures status.code != 0 ==> r == Failure(StatusError(status))
    ensures r.Success? ==> (r.value.Some? <==> prevKv && response.prevKv.Some?)
    ensures r.Success? && r.value.Some? ==> r.value.value == response.prevKv.value.value
    ensures DecodePut(prevKv, response, status).Success? ==> r == DecodePut(prevKv, response, status)
  {
    if status.code != 0 then Failure(StatusError(status))
    else if prevKv && response.prevKv.Some? then Success(Some(response.prevKv.value.value))
    else Success(None)
  }

  /** `get`'s decoding. */
  function DecodeGet(response: RangeResponse, status: Status): (r: Result<GetResult, Exception>)
    ensures r.Failure? <==> status.code != 0
    ensures status.code != 0 ==> r == Failure(StatusError(status))
    ensures r.Success? ==> (r.value.None? <==> response.kvs == [])
    ensures r.Success? && r.value.Some? ==> r.value.value == response.kvs[0].value
  {
    if status.code != 0 then Failure(StatusError(status))
    else if |response.kvs| == 0 then Success(None)
    else Success(Some(response.kvs[0].value))
  }

  /** `delete`'s decoding. */
  function DecodeDelete(response: DeleteRangeResponse, status: Status): (r: Result<bool, Exception>)
    ensures r.Failure? <==> status.code != 0
    ensures status.code != 0 ==> r == Failure(StatusError(status))
    ensures r.Success? ==> (r.value <==> response.deleted > 0)
  {
    if status.code != 0 then Failure(StatusError(status))
    else if response.deleted > 0 then Success(true)
    else Success(false)
  }

  /** The transaction `requestIf` sends: compare the key's value for equality, run the given
      operation on success and, when asked, read the key back on failure. */
  function BuildTxn(key: string, previousValue: string, op: RequestOp, returnNewValueOnFail: bool): (t: TxnRequest)
    ensures |t.compare| == 1 && t.compare[0].key == key && t.compare[0].value == previousValue
    ensures forall c :: c in t.compare ==> c.result == Equal && c.target == Value
    ensures t.success == [op]
    ensures t.failure == if returnNewValueOnFail then [RequestRange(RangeRequest(key))] else []
  {
    var compare := Compare(key, previousValue, Equal, Value);
    var failure := if returnNewValueOnFail then [RequestRange(RangeRequest(key))] else [];
    TxnRequest([compare], [op], failure)
  }

  /** `requestIf`'s decoding: the current value (or `false`) when the transaction failed and
      the value was asked for, the `succeeded` flag otherwise. A failed transaction whose
      first response is not a range read makes PHP call a method on null. */
  function DecodeTxn(returnNewValueOnFail: bool, response: TxnResponse, status: Status): (r: Result<IfResult, Exception>)
    ensures status.code != 0 ==> r == Failure(StatusError(status))
    ensures status.code == 0 && !(returnNewValueOnFail && !response.succeeded) ==>
      r == Success(Flag(response.succeeded))
    ensures r.Success? && r.value.CurrentValue? ==> returnNewValueOnFail && !response.succeeded
    ensures status.code == 0 && returnNewValueOnFail && !response.succeeded ==>
      && (r == Failure(NullReference) <==> response.responses == [] || !response.responses[0].ResponseRange?)
      && (r == Success(Flag(false)) <==> response.responses != [] && response.responses[0].ResponseRange? && response.responses[0].range.kvs == [])
      && (response.responses != [] && response.responses[0].ResponseRange? && response.responses[0].range.kvs != [] ==>
            r == Success(CurrentValue(response.responses[0].range.kvs[0].value)))
  {
    if status.code != 0 then Failure(StatusError(status))
    else if returnNewValueOnFail && !response.succeeded then
      if |response.responses| == 0 || !response.responses[0].ResponseRange? then Failure(NullReference)
      else
        var kvs := response.responses[0].range.kvs;
        if |kvs| == 0 then Success(Flag(false)) else Success(CurrentValue(kvs[0].value))
    else Success(Flag(response.succeeded))
  }

  /** The abstract `Txn` RPC: request in, `(response, status)` out. */
  type TxnRpc = TxnRequest -> (TxnResponse, Status)

  /** `requestIf($key, $previousValue, $requestOperation, $returnNewValueOnFail)`: one `Txn`
      call; a non-zero status is thrown, and without `returnNewValueOnFail` the answer is
      always a boolean. */
  function RequestIf(key: string, previousValue: string, op: RequestOp, returnNewValueOnFail: bool, txn: TxnRpc): (r: Result<IfResult, Exception>)
    ensures var sent := TxnRequest([Compare(key, previousValue, Equal, Value)], [op],
        if returnNewValueOnFail then [RequestRange(RangeRequest(key))] else []);
      var (response, status) := txn(sent);
      && r == DecodeTxn(returnNewValueOnFail, response, status)
      && (status.code != 0 <==> r.Failure? && r.error == StatusError(status))
    ensures !returnNewValueOnFail && r.Success? ==> r.value.Flag?
  {
    var (response, status) := txn(BuildTxn(key, previousValue, op, returnNewValueOnFail));
    DecodeTxn(returnNewValueOnFail, response, status)
  }

  /** The operation `putIf` hands to `requestIf`. */
  function PutOperation(key: string, value: string): RequestOp {
    RequestPut(PutRequest(key, value, false, 0, false, false))
  }

  /** The operation `deleteIf` hands to `requestIf`. */
  function DeleteOperation(key: string): RequestOp {
    RequestDeleteRange(DeleteRangeRequest(key))
  }

  /** `putIf($key, $value, $previousValue, $returnNewValueOnFail)`: the conditional
      transaction whose success branch puts exactly `(key, value)`. */
  function PutIf(key: string, value: string, previousValue: string, returnNewValueOnFail: bool, txn: TxnRpc): (r: Result<IfResult, Exception>)
    ensures var sent := TxnRequest([Compare(key, previousValue, Equal, Value)],
        [RequestPut(PutRequest(key, value, false, 0, false, false))],
        if returnNewValueOnFail then [RequestRange(RangeRequest(key))] else []);
      r == DecodeTxn(returnNewValueOnFail, txn(sent).0, txn(sent).1)
    ensures !returnNewValueOnFail && r.Success? ==> r.value.Flag?
  {
    RequestIf(key, previousValue, PutOperation(key, value), returnNewValueOnFail, txn)
  }

  /** `deleteIf($key, $previousValue, $returnNewValueOnFail)`: the conditional transaction
      whose success branch deletes exactly `key`. */
  function DeleteIf(key: string, previousValue: string, returnNewValueOnFail: bool, txn: TxnRpc): (r: Result<IfResult, Exception>)
    ensures var sent := TxnRequest([Compare(key, previousValue, Equal, Value)],
        [RequestDeleteRange(DeleteRangeRequest(key))],
        if returnNewValueOnFail then [RequestRange(RangeRequest(key))] else []);
      r == DecodeTxn(returnNewValueOnFail, txn(sent).0, txn(sent).1)
    ensures !returnNewValueOnFail && r.Success? ==> r.value.Flag?
  {
    RequestIf(key, previousValue, DeleteOperation(key), returnNewValueOnFail, txn)
  }

  /** `putIf` sends one transaction that compares `key`'s value with `previousValue`, puts
      exactly `(key, value)` on success and never compares a version. */
  lemma PutIfSends(key: string, value: string, previousValue: string, returnNewValueOnFail: bool, txn: TxnRpc)
    ensures var t := BuildTxn(key, previousValue, PutOperation(key, value), returnNewValueOnFail);
      && PutIf(key, value, previousValue, returnNewValueOnFail, txn) == DecodeTxn(returnNewValueOnFail, txn(t).0, txn(t).1)
      && t.compare == [Compare(key, previousValue, Equal, Value)]
      && t.success == [RequestPut(PutRequest(key, value, false, 0, false, false))]
  {
  }

  /** `deleteIf` sends one transaction that compares `key`'s value with `previousValue`,
      deletes exactly `key` on success and never compares a version. */
  lemma DeleteIfSends(key: string, previousValue: string, returnNewValueOnFail: bool, txn: TxnRpc)
    ensures var t := BuildTxn(key, previousValue, DeleteOperation(key), returnNewValueOnFail);
      && DeleteIf(key, previousValue, returnNewValueOnFail, txn) == DecodeTxn(returnNewValueOnFail, txn(t).0, txn(t).1)
      && t.compare == [Compare(key, previousValue, Equal, Value)]
      && t.success == [RequestDeleteRange(DeleteRangeRequest(key))]
  {
  }
}
