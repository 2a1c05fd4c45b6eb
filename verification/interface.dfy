/**
 * The public methods `FailoverClient` and `ShardedClient` hand on to one of their clients.
 * Each value of `Call` is one method call with its arguments. `getHostname`, `put`, `get`,
 * `delete`, `putIf` and `deleteIf` are the methods of `ClientInterface`; the others the two
 * routers add. `TxnCall`'s `key` is the routing key `ShardedClient::txnRequest` takes first.
 * `FailoverClient::txnRequest` has no such parameter, and the model of `FailoverClient` does
 * not use the key. A `ShardedClient` that forwards its call to a `FailoverClient` hands the
 * key over in the `$requestOperations` slot; that mismatch is not modelled.
 */
module Interface {
  import opened Wrappers
  import opened Etcd

  datatype Call =
    | GetHostname(hostKey: Option<string>)
    | Put(key: string, value: string, prevKv: bool, lease: int, ignoreLease: bool, ignoreValue: bool)
    | Get(key: string)
    | Delete(key: string)
    | PutIf(key: string, value: string, compareValue: string, returnNewValueOnFail: bool)
    | DeleteIf(key: string, compareValue: string, returnNewValueOnFail: bool)
    | TxnCall(key: string, requestOperations: seq<RequestOp>, failureOperations: Option<seq<RequestOp>>, compare: seq<Compare>)
    | GetCompare(key: string, value: string, result: int, target: int)
    | GetGetOperation(key: string)
    | GetPutOperation(key: string, value: string, leaseId: int)
    | GetDeleteOperation(key: string)
    | GetLeaseID(ttl: int)
    | RevokeLeaseID(leaseID: int)
    | RefreshLease(leaseID: int)

  /** The PHP method name of a call. */
  function MethodName(c: Call): string {
    match c
    case GetHostname(_) => "getHostname"
    case Put(_, _, _, _, _, _) => "put"
    case Get(_) => "get"
    case Delete(_) => "delete"
    case PutIf(_, _, _, _) => "putIf"
    case DeleteIf(_, _, _) => "deleteIf"
    case TxnCall(_, _, _, _) => "txnRequest"
    case GetCompare(_, _, _, _) => "getCompare"
    case GetGetOperation(_) => "getGetOperation"
    case GetPutOperation(_, _, _) => "getPutOperation"
    case GetDeleteOperation(_) => "getDeleteOperation"
    case GetLeaseID(_) => "getLeaseID"
    case RevokeLeaseID(_) => "revokeLeaseID"
    case RefreshLease(_) => "refreshLease"
  }

  /** The calls that carry a key (and so are routed by it). */
  predicate IsKeyed(c: Call) {
    !c.GetHostname? && !c.GetLeaseID? && !c.RevokeLeaseID? && !c.RefreshLease?
  }

  /** The calls on a lease, which carry no key. */
  predicate IsLeaseCall(c: Call) {
    c.GetLeaseID? || c.RevokeLeaseID? || c.RefreshLease?
  }
}
