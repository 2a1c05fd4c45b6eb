/**
 * A reference etcd key-value store, the server side the client talks to: the meaning
 * against which the client's requests and decodings are checked. It keeps a value and a
 * version per key and evaluates the value-equality compares the client builds (a value
 * compare on a missing key fails, as etcd's does). Leases and the `ignore_*` flags of a
 * put are outside it.
 */
module EtcdStore {
  import opened Wrappers
  import opened Etcd
  import opened EtcdClient
  import opened Exceptions

  datatype Entry = Entry(value: string, version: nat)

  type Store = map<string, Entry>

  function Range(s: Store, req: RangeRequest): RangeResponse {
    RangeResponse(if req.key in s then [KeyValue(req.key, s[req.key].value)] else [])
  }

  function NextVersion(s: Store, key: string): nat {
    if key in s then s[key].version + 1 else 1
  }

  function ApplyPut(s: Store, req: PutRequest): (PutResponse, Store) {
    var prev := if req.prevKv && req.key in s then Some(KeyValue(req.key, s[req.key].value)) else None;
    (PutResponse(prev), s[req.key := Entry(req.value, NextVersion(s, req.key))])
  }

  function ApplyDelete(s: Store, req: DeleteRangeRequest): (DeleteRangeResponse, Store) {
    (DeleteRangeResponse(if req.key in s then 1 else 0), s - {req.key})
  }

  /** The requests this store can answer: value-equality compares, puts without the
      `ignore_*` flags. */
  predicate Supported(t: TxnRequest) {
    && (forall c :: c in t.compare ==> c.result == Equal && c.target == Value)
    && (forall op :: op in t.success + t.failure && op.RequestPut? ==> !op.put.ignoreValue && !op.put.ignoreLease)
  }

  predicate Holds(s: Store, c: Compare) {
    c.key in s && s[c.key].value == c.value
  }

  function Apply(s: Store, op: RequestOp): (ResponseOp, Store) {
    match op
    case RequestRange(r) => (ResponseRange(Range(s, r)), s)
    case RequestPut(p) => var (resp, s') := ApplyPut(s, p); (ResponsePut(resp), s')
    case RequestDeleteRange(d) => var (resp, s') := ApplyDelete(s, d); (ResponseDeleteRange(resp), s')
  }

  function ApplyAll(s: Store, ops: seq<RequestOp>): (seq<ResponseOp>, Store)
    decreases |ops|
  {
    if ops == [] then ([], s)
    else
      var (first, s1) := Apply(s, ops[0]);
      var (rest, s2) := ApplyAll(s1, ops[1..]);
      ([first] + rest, s2)
  }

  lemma ApplyOne(s: Store, op: RequestOp)
    ensures ApplyAll(s, [op]) == ([Apply(s, op).0], Apply(s, op).1)
  {
    assert [op][1..] == [];
    var (first, s1) := Apply(s, op);
    assert ApplyAll(s1, []) == ([], s1);
    assert [first] + [] == [first];
  }

  /** A transaction: every compare must hold for the success branch to run. */
  function Txn(s: Store, t: TxnRequest): (TxnResponse, Store)
    requires Supported(t)
  {
    var succeeded := forall c :: c in t.compare ==> Holds(s, c);
    var (responses, s') := ApplyAll(s, if succeeded then t.success else t.failure);
    (TxnResponse(succeeded, responses), s')
  }

  /** The store answering the client's `Txn` RPC with status OK; a request outside what it
      can answer gets an empty, failed response. */
  function Server(s: Store): TxnRpc {
    t => if Supported(t) then (Txn(s, t).0, Ok) else (TxnResponse(false, []), Ok)
  }

  /** `get` answers the stored value, or `false` for a missing key. */
  lemma GetReadsStore(s: Store, key: string)
    ensures DecodeGet(Range(s, RangeRequest(key)), Ok) ==
      Success(if key in s then Some(s[key].value) else None)
  {
  }

  /** `delete` answers whether a key was removed, and the key is gone afterwards. */
  lemma DeleteReportsRemoval(s: Store, key: string)
    ensures var (response, s') := ApplyDelete(s, DeleteRangeRequest(key));
      && DecodeDelete(response, Ok) == Success(key in s)
      && key !in s'
  {
  }

  /** As written, `put` with `$prevKv` on a key that did not exist calls a method on null. */
  lemma PutPrevKvOnNewKey(s: Store, key: string, value: string)
    requires key !in s
    ensures DecodePut(true, ApplyPut(s, PutRequestOf(key, value, true, 0, false, false)).0, Ok) == Failure(NullReference)
  {
  }

  /** With the checked decoding, `put` answers the previous value exactly when it was asked
      for and the key existed, and a later `get` reads the new value. */
  lemma PutReturnsPrevious(s: Store, key: string, value: string, prevKv: bool)
    ensures var (response, s') := ApplyPut(s, PutRequestOf(key, value, prevKv, 0, false, false));
      && DecodePutChecked(prevKv, response, Ok) ==
           Success(if prevKv && key in s then Some(s[key].value) else None)
      && DecodeGet(Range(s', RangeRequest(key)), Ok) == Success(Some(value))
  {
  }

  /** The client's one compare holds exactly when the stored value equals the expected one. */
  lemma CompareHoldsIff(s: Store, key: string, previousValue: string, op: RequestOp, returnNewValueOnFail: bool)
    ensures var t := BuildTxn(key, previousValue, op, returnNewValueOnFail);
      (forall c :: c in t.compare ==> Holds(s, c)) <==> key in s && s[key].value == previousValue
  {
    var t := BuildTxn(key, previousValue, op, returnNewValueOnFail);
    assert t.compare[0] in t.compare;
    assert forall c :: c in t.compare ==> c == t.compare[0];
  }

  /** What a conditional write answers, and what it leaves in the store. */
  function IfOutcome(s: Store, key: string, previousValue: string, returnNewValueOnFail: bool): IfResult {
    if key in s && s[key].value == previousValue then Flag(true)
    else if returnNewValueOnFail && key in s then CurrentValue(s[key].value)
    else Flag(false)
  }

  /** `putIf` against the store: it writes exactly when the stored value equals
      `previousValue`; otherwise it answers the current value when asked (or `false` for a
      missing key), and `false` when not. */
  lemma PutIfAgainstStore(s: Store, key: string, value: string, previousValue: string, returnNewValueOnFail: bool)
    ensures var t := BuildTxn(key, previousValue, PutOperation(key, value), returnNewValueOnFail);
      && Supported(t)
      && PutIf(key, value, previousValue, returnNewValueOnFail, Server(s)) == Success(IfOutcome(s, key, previousValue, returnNewValueOnFail))
      && Txn(s, t).1 == if key in s && s[key].value == previousValue
                        then s[key := Entry(value, s[key].version + 1)] else s
  {
    CompareHoldsIff(s, key, previousValue, PutOperation(key, value), returnNewValueOnFail);
    ApplyOne(s, PutOperation(key, value));
    ApplyOne(s, RequestRange(RangeRequest(key)));
  }

  /** `deleteIf` against the store: it removes the key exactly when the stored value equals
      `previousValue`, and answers like `putIf` otherwise. */
  lemma DeleteIfAgainstStore(s: Store, key: string, previousValue: string, returnNewValueOnFail: bool)
    ensures var t := BuildTxn(key, previousValue, DeleteOperation(key), returnNewValueOnFail);
      && Supported(t)
      && DeleteIf(key, previousValue, returnNewValueOnFail, Server(s)) == Success(IfOutcome(s, key, previousValue, returnNewValueOnFail))
      && Txn(s, t).1 == if key in s && s[key].value == previousValue then s - {key} else s
  {
    CompareHoldsIff(s, key, previousValue, DeleteOperation(key), returnNewValueOnFail);
    ApplyOne(s, DeleteOperation(key));
    ApplyOne(s, RequestRange(RangeRequest(key)));
  }

  /** There is no "key must be absent" compare: whatever `previousValue` is, even "", a
      conditional write on a missing key is refused and leaves the store as it was. */
  lemma MissingKeyNeverMatches(s: Store, key: string, value: string, previousValue: string, returnNewValueOnFail: bool)
    requires key !in s
    ensures var t := BuildTxn(key, previousValue, PutOperation(key, value), returnNewValueOnFail);
      && PutIf(key, value, previousValue, returnNewValueOnFail, Server(s)) == Success(Flag(false))
      && Txn(s, t).1 == s
  {
    PutIfAgainstStore(s, key, value, previousValue, returnNewValueOnFail);
  }

  /** The walk-through: put x=1; putIf(x, 2, 1) succeeds; get(x) is 2; putIf(x, 3, 1) is
      refused, and with `returnNewValueOnFail` answers the current value 2. */
  lemma CompareAndSwapScenario(s: Store)
    ensures var s1 := ApplyPut(s, PutRequestOf("x", "1", false, 0, false, false)).1;
      var t2 := BuildTxn("x", "1", PutOperation("x", "2"), false);
      var s2 := Txn(s1, t2).1;
      && PutIf("x", "2", "1", false, Server(s1)) == Success(Flag(true))
      && DecodeGet(Range(s2, RangeRequest("x")), Ok) == Success(Some("2"))
      && PutIf("x", "3", "1", false, Server(s2)) == Success(Flag(false))
      && PutIf("x", "3", "1", true, Server(s2)) == Success(CurrentValue("2"))
  {
    var s1 := ApplyPut(s, PutRequestOf("x", "1", false, 0, false, false)).1;
    PutIfAgainstStore(s1, "x", "2", "1", false);
    var s2 := Txn(s1, BuildTxn("x", "1", PutOperation("x", "2"), false)).1;
    assert s2["x"].value == "2";
    PutIfAgainstStore(s2, "x", "3", "1", false);
    PutIfAgainstStore(s2, "x", "3", "1", true);
  }
}
