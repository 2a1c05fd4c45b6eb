/**
 * `FailoverClient`: spreads calls over a pool of clients, counts each host's transient
 * failures, quarantines a host once its count reaches `maxRetry`, and lets a quarantined
 * host back in only when no active client is left and some quarantine is older than
 * `holdoffTime` seconds.
 *
 * The clock, the random choice and the dynamic call `$client->$name(...)` are inputs: `now`
 * is the time during one call, `pick` an index chosen at random, and `call(client, k)` what
 * the `k`-th attempt of the call answers.
 */
module Failover {
  import opened Wrappers
  import opened Exceptions
  import opened HostTable
  import Interface

  /** An entry of `$failedClients`: the client and the time it was quarantined. */
  datatype FailedEntry = FailedEntry(client: Member, time: int)

  /** What one dynamic call `$client->$name(...$arguments)` does. */
  datatype Reply<R> = Returned(value: R) | Raised(error: Exception)

  const NoClientMessage := "Could not get any working etcd server"
  const InvalidClientMessage := "Invalid client in the client list"

  /** `isLocalCall($methodName)`: the calls that do not reach a remote etcd server. */
  predicate IsLocalCall(name: string) {
    name in {"getCompare", "getDeleteOperation", "getPutOperation", "getGetOperation", "getResponses", "getHostname"}
  }

  /** Of the interface's calls, exactly the hostname query and the four request builders are
      local; every key-value call and every lease call resets the failure counter. */
  lemma LocalInterfaceCalls(c: Interface.Call)
    ensures IsLocalCall(Interface.MethodName(c)) <==>
      c.GetHostname? || c.GetCompare? || c.GetGetOperation? || c.GetPutOperation? || c.GetDeleteOperation?
  {
  }

  /** `$this->retry[$host]`, or 0 when it is not set. */
  function Count(retry: map<string, int>, h: string): int {
    if h in retry then retry[h] else 0
  }

  /** An entry whose holdoff has passed: `time() - $failedClient['time'] > $this->holdoffTime`. */
  predicate Stale(e: FailedEntry, now: int, holdoffTime: int) {
    now - e.time > holdoffTime
  }

  predicate AnyStale(fs: seq<FailedEntry>, now: int, holdoffTime: int) {
    exists i :: 0 <= i < |fs| && Stale(fs[i], now, holdoffTime)
  }

  /** The entries stand in the order of their quarantine times. */
  predicate TimesOrdered(fs: seq<FailedEntry>) {
    forall i, j :: 0 <= i < j < |fs| ==> fs[i].time <= fs[j].time
  }

  /** When the quarantine times are in order (a clock that does not go back), "some entry is
      past its holdoff" is "the head is past its holdoff": the client readmitted is itself
      one whose holdoff has passed. */
  lemma HeadDecides(fs: seq<FailedEntry>, now: int, holdoffTime: int)
    requires fs != [] && TimesOrdered(fs)
    ensures AnyStale(fs, now, holdoffTime) <==> Stale(fs[0], now, holdoffTime)
  {
  }

  /** The client getClient picks from a non-empty pool: a random one when balancing, the first
      otherwise. */
  function Choose(clients: seq<Member>, balancing: bool, pick: nat): (c: Member)
    requires clients != []
    ensures c in clients
    ensures !balancing ==> c == clients[0]
  {
    if balancing then clients[pick % |clients|] else clients[0]
  }

  /** With balancing, every active client can be the one picked. */
  lemma EveryClientPickable(clients: seq<Member>, m: Member)
    requires m in clients
    ensures exists pick: nat :: Choose(clients, true, pick) == m
  {
    var i :| 0 <= i < |clients| && clients[i] == m;
    assert Choose(clients, true, i) == m;
  }

  // The measure that bounds the retry loop of one call (the clock standing still): the
  // entries past their holdoff, the entries queued before the first of them, and the
  // failures the active clients can still take before quarantine.

  function StaleCount(fs: seq<FailedEntry>, now: int, holdoffTime: int): nat {
    if fs == [] then 0
    else (if Stale(fs[0], now, holdoffTime) then 1 else 0) + StaleCount(fs[1..], now, holdoffTime)
  }

  function Lead(fs: seq<FailedEntry>, now: int, holdoffTime: int): nat {
    if fs == [] || Stale(fs[0], now, holdoffTime) || StaleCount(fs[1..], now, holdoffTime) == 0 then 0
    else 1 + Lead(fs[1..], now, holdoffTime)
  }

  function Headroom(retry: map<string, int>, h: string, maxRetry: int): nat {
    if Count(retry, h) < maxRetry then maxRetry - Count(retry, h) else 0
  }

  function Weight(cs: seq<Member>, retry: map<string, int>, maxRetry: int): nat {
    if cs == [] then 0
    else 1 + Headroom(retry, cs[0].hostname, maxRetry) + Weight(cs[1..], retry, maxRetry)
  }

  lemma {:induction false} StaleCountPositive(fs: seq<FailedEntry>, now: int, holdoffTime: int)
    ensures StaleCount(fs, now, holdoffTime) > 0 <==> AnyStale(fs, now, holdoffTime)
  {
    if fs != [] {
      StaleCountPositive(fs[1..], now, holdoffTime);
      if AnyStale(fs[1..], now, holdoffTime) {
        var i :| 0 <= i < |fs| - 1 && Stale(fs[1..][i], now, holdoffTime);
        assert Stale(fs[i + 1], now, holdoffTime);
      }
      if AnyStale(fs, now, holdoffTime) && !Stale(fs[0], now, holdoffTime) {
        var i :| 0 <= i < |fs| && Stale(fs[i], now, holdoffTime);
        assert Stale(fs[1..][i - 1], now, holdoffTime);
      }
    }
  }

  /** Queuing an entry whose holdoff has not passed changes neither count. */
  lemma {:induction false} AppendFresh(fs: seq<FailedEntry>, e: FailedEntry, now: int, holdoffTime: int)
    requires !Stale(e, now, holdoffTime)
    ensures StaleCount(fs + [e], now, holdoffTime) == StaleCount(fs, now, holdoffTime)
    ensures Lead(fs + [e], now, holdoffTime) == Lead(fs, now, holdoffTime)
  {
    if fs != [] {
      assert (fs + [e])[1..] == fs[1..] + [e];
      AppendFresh(fs[1..], e, now, holdoffTime);
    }
  }

  lemma {:induction false} WeightOther(cs: seq<Member>, retry: map<string, int>, h: string, v: int, maxRetry: int)
    requires forall m :: m in cs ==> m.hostname != h
    ensures Weight(cs, retry[h := v], maxRetry) == Weight(cs, retry, maxRetry)
  {
    if cs != [] {
      WeightOther(cs[1..], retry, h, v, maxRetry);
    }
  }

  lemma {:induction false} WeightSplit(cs: seq<Member>, retry: map<string, int>, c: Member, maxRetry: int)
    requires Distinct(cs) && c in cs
    ensures Weight(cs, retry, maxRetry) ==
      1 + Headroom(retry, c.hostname, maxRetry) + Weight(Unset(cs, c.hostname), retry, maxRetry)
  {
    if cs[0].hostname == c.hostname {
      assert forall m :: m in cs[1..] ==> m.hostname != c.hostname;
      UnsetAbsent(cs[1..], c.hostname);
    } else {
      WeightSplit(cs[1..], retry, c, maxRetry);
      var u := Unset(cs[1..], c.hostname);
      assert ([cs[0]] + u)[1..] == u;
    }
  }

  /** A transient failure of an active client either uses up one of its retries or, at the
      last, moves it to the failed queue: the active pool's weight drops, and the stale
      entries and their lead stay as they were. */
  lemma FailureOfActive(cs: seq<Member>, retry: map<string, int>, c: Member, maxRetry: int,
                        fs: seq<FailedEntry>, now: int, holdoffTime: int)
    requires Distinct(cs) && c in cs && holdoffTime >= 0
    ensures var retry' := retry[c.hostname := Count(retry, c.hostname) + 1];
      if retry'[c.hostname] >= maxRetry then
        && StaleCount(fs + [FailedEntry(c, now)], now, holdoffTime) == StaleCount(fs, now, holdoffTime)
        && Lead(fs + [FailedEntry(c, now)], now, holdoffTime) == Lead(fs, now, holdoffTime)
        && Weight(Unset(cs, c.hostname), retry', maxRetry) < Weight(cs, retry, maxRetry)
      else
        Weight(cs, retry', maxRetry) < Weight(cs, retry, maxRetry)
  {
    var h := c.hostname;
    var n := Count(retry, h) + 1;
    var retry' := retry[h := n];
    var rest := Unset(cs, h);
    assert Count(retry', h) == n;
    WeightSplit(cs, retry, c, maxRetry);
    UnsetMembers(cs, h);
    WeightOther(rest, retry, h, n, maxRetry);
    if n >= maxRetry {
      AppendFresh(fs, FailedEntry(c, now), now, holdoffTime);
    } else {
      WeightSplit(cs, retry', c, maxRetry);
      assert Headroom(retry', h, maxRetry) < Headroom(retry, h, maxRetry);
    }
  }

  /** Readmitting the head of the failed queue, whether it is queued again or not, brings
      the stale entries, or else the entries ahead of the first stale one, down. */
  lemma Readmission(fs: seq<FailedEntry>, now: int, holdoffTime: int)
    requires AnyStale(fs, now, holdoffTime) && holdoffTime >= 0
    ensures var e := FailedEntry(fs[0].client, now);
      && (|| StaleCount(fs[1..], now, holdoffTime) < StaleCount(fs, now, holdoffTime)
          || (&& StaleCount(fs[1..], now, holdoffTime) == StaleCount(fs, now, holdoffTime)
              && Lead(fs[1..], now, holdoffTime) < Lead(fs, now, holdoffTime)))
      && StaleCount(fs[1..] + [e], now, holdoffTime) == StaleCount(fs[1..], now, holdoffTime)
      && Lead(fs[1..] + [e], now, holdoffTime) == Lead(fs[1..], now, holdoffTime)
  {
    StaleCountPositive(fs, now, holdoffTime);
    AppendFresh(fs[1..], FailedEntry(fs[0].client, now), now, holdoffTime);
  }

  /** The active clients have distinct hostnames, and every host is either active or queued
      once among the failed ones. */
  ghost predicate Partitioned(cs: seq<Member>, fs: seq<FailedEntry>) {
    && Distinct(cs)
    && (forall i, j :: 0 <= i < j < |fs| ==> fs[i].client.hostname != fs[j].client.hostname)
    && (forall i, m :: 0 <= i < |fs| && m in cs ==> fs[i].client.hostname != m.hostname)
  }

  ghost predicate SaturatedBy(fs: seq<FailedEntry>, retry: map<string, int>, maxRetry: int) {
    forall i :: 0 <= i < |fs| ==> Count(retry, fs[i].client.hostname) >= maxRetry
  }

  /** Quarantining an active client keeps every host either active or queued once. */
  lemma QuarantinePartitioned(cs: seq<Member>, fs: seq<FailedEntry>, c: Member, now: int)
    requires Partitioned(cs, fs) && c in cs
    ensures Partitioned(Unset(cs, c.hostname), fs + [FailedEntry(c, now)])
  {
    UnsetMembers(cs, c.hostname);
  }

  /** Counting a failure against an active host leaves the quarantined hosts saturated, and a
      host quarantined at `maxRetry` failures is saturated too. */
  lemma CountSaturated(cs: seq<Member>, fs: seq<FailedEntry>, retry: map<string, int>, maxRetry: int,
                       c: Member, now: int)
    requires Partitioned(cs, fs) && c in cs && SaturatedBy(fs, retry, maxRetry)
    ensures var retry' := retry[c.hostname := Count(retry, c.hostname) + 1];
      && SaturatedBy(fs, retry', maxRetry)
      && (retry'[c.hostname] >= maxRetry ==> SaturatedBy(fs + [FailedEntry(c, now)], retry', maxRetry))
  {
  }

  /** Readmitting the head of the failed queue into an empty pool keeps the partition, and the
      rest of the queue stays saturated. */
  lemma ReadmitPartitioned(fs: seq<FailedEntry>, retry: map<string, int>, maxRetry: int)
    requires fs != [] && Partitioned([], fs)
    ensures Partitioned([fs[0].client], fs[1..])
    ensures SaturatedBy(fs, retry, maxRetry) ==> SaturatedBy(fs[1..], retry, maxRetry)
  {
  }

  lemma QueueOrdered(fs: seq<FailedEntry>, e: FailedEntry)
    ensures TimesOrdered(fs) && (forall x :: x in fs ==> x.time <= e.time) ==> TimesOrdered(fs + [e])
  {
  }

  /** The loop's measure went down, in lexicographic order, from the state `(fs, cs, retry)`
      to the state `(fs', cs', retry')`. */
  predicate Shrinks(fs': seq<FailedEntry>, cs': seq<Member>, retry': map<string, int>,
                    fs: seq<FailedEntry>, cs: seq<Member>, retry: map<string, int>,
                    now: int, holdoffTime: int, maxRetry: int)
  {
    var a', b', c' := StaleCount(fs', now, holdoffTime), Lead(fs', now, holdoffTime), Weight(cs', retry', maxRetry);
    var a, b, c := StaleCount(fs, now, holdoffTime), Lead(fs, now, holdoffTime), Weight(cs, retry, maxRetry);
    a' < a || (a' == a && (b' < b || (b' == b && c' < c)))
  }

  class FailoverClient {
    var holdoffTime: int
    var maxRetry: int
    var retry: map<string, int>
    var clients: seq<Member>
    var failedClients: seq<FailedEntry>
    var balancing: bool

    /** The active clients are keyed by distinct hostnames; a host is either active or
        queued once among the failed ones; the holdoff is not negative. */
    ghost predicate Valid()
      reads this
    {
      Partitioned(clients, failedClients) && holdoffTime >= 0
    }

    /** Every quarantined host has used up its retries. */
    ghost predicate Saturated()
      reads this
    {
      SaturatedBy(failedClients, retry, maxRetry)
    }

    constructor (table: seq<Member>)
      requires Distinct(table)
      ensures Valid() && Saturated()
      ensures clients == table && failedClients == [] && retry == map[]
      ensures holdoffTime == 120 && maxRetry == 3 && balancing
    {
      holdoffTime := 120;
      maxRetry := 3;
      retry := map[];
      clients := table;
      failedClients := [];
      balancing := true;
    }

    /** `new FailoverClient($clients)`: throws on an element that is not a client; otherwise
        keys the clients by hostname, a later one replacing an earlier one. */
    static method Create(cands: seq<Candidate>) returns (r: Result<FailoverClient, Exception>)
      ensures r.Failure? <==> exists i :: 0 <= i < |cands| && cands[i].NotAClient?
      ensures r.Failure? ==> r.error == InvalidClientException(InvalidClientMessage)
      ensures r.Success? ==> fresh(r.value) && r.value.Valid()
      ensures r.Success? ==> r.value.clients == Keyed(MembersOf(cands, |cands|))
      ensures r.Success? ==> r.value.failedClients == [] && r.value.retry == map[]
      ensures r.Success? ==> r.value.holdoffTime == 120 && r.value.maxRetry == 3 && r.value.balancing
    {
      var table := Collect(cands);
      if table.None? {
        return Failure(InvalidClientException(InvalidClientMessage));
      }
      KeyedDistinct(MembersOf(cands, |cands|));
      var client := new FailoverClient(table.value);
      return Success(client);
    }

    method SetHoldoffTime(holdoff: int)
      requires Valid() && holdoff >= 0
      modifies this
      ensures Valid() && holdoffTime == holdoff
      ensures maxRetry == old(maxRetry) && balancing == old(balancing) && retry == old(retry)
      ensures clients == old(clients) && failedClients == old(failedClients)
    {
      holdoffTime := holdoff;
    }

    method SetMaxRetry(n: int)
      requires Valid()
      modifies this
      ensures Valid() && maxRetry == n
      ensures holdoffTime == old(holdoffTime) && balancing == old(balancing) && retry == old(retry)
      ensures clients == old(clients) && failedClients == old(failedClients)
      ensures old(Saturated()) && n <= old(maxRetry) ==> Saturated()
    {
      maxRetry := n;
    }

    method SetBalancing(b: bool)
      requires Valid()
      modifies this
      ensures Valid() && balancing == b
      ensures holdoffTime == old(holdoffTime) && maxRetry == old(maxRetry) && retry == old(retry)
      ensures clients == old(clients) && failedClients == old(failedClients)
    {
      balancing := b;
    }

    /** `failClient($client)`: one more failure for the host; at `maxRetry` the client leaves
        the active ones and is queued, with the time, at the tail of the failed ones. */
    method FailClient(c: Member, now: int)
      requires Valid() && c in clients
      modifies this
      ensures Valid()
      ensures holdoffTime == old(holdoffTime) && maxRetry == old(maxRetry) && balancing == old(balancing)
      ensures retry == old(retry)[c.hostname := Count(old(retry), c.hostname) + 1]
      ensures retry[c.hostname] >= maxRetry ==>
        clients == Unset(old(clients), c.hostname) && failedClients == old(failedClients) + [FailedEntry(c, now)]
      ensures retry[c.hostname] < maxRetry ==>
        clients == old(clients) && failedClients == old(failedClients)
      ensures old(Saturated()) ==> Saturated()
      ensures old(TimesOrdered(failedClients)) && (forall e :: e in old(failedClients) ==> e.time <= now) ==>
        TimesOrdered(failedClients)
    {
      retry := retry[c.hostname := Count(retry, c.hostname) + 1];
      if old(Saturated()) {
        CountSaturated(clients, failedClients, old(retry), maxRetry, c, now);
      }
      if retry[c.hostname] >= maxRetry {
        QuarantinePartitioned(clients, failedClients, c, now);
        QueueOrdered(failedClients, FailedEntry(c, now));
        failedClients := failedClients + [FailedEntry(c, now)];
        clients := Unset(clients, c.hostname);
      }
    }

    /** `getRandomClient()` */
    method GetRandomClient(pick: nat) returns (c: Member)
      requires clients != []
      ensures c in clients && c == clients[pick % |clients|]
    {
      c := clients[pick % |clients|];
    }

    /** `getFirstClient()`: the first active client in insertion order, or null. */
    method GetFirstClient() returns (r: Option<Member>)
      ensures r.None? <==> clients == []
      ensures r.Some? ==> r.value == clients[0]
    {
      if |clients| > 0 {
        r := Some(clients[0]);
      } else {
        r := None;
      }
    }

    /** `getClient()`: an active client if there is one; otherwise, when some quarantine is
        older than the holdoff, the head of the failed queue readmitted; otherwise
        `NoClientAvailableException`. */
    method GetClient(pick: nat, now: int) returns (r: Result<Member, Exception>)
      requires Valid()
      modifies this
      ensures Valid()
      ensures holdoffTime == old(holdoffTime) && maxRetry == old(maxRetry) && balancing == old(balancing)
      ensures retry == old(retry)
      ensures old(clients) != [] ==>
        && r == Success(Choose(old(clients), balancing, pick))
        && clients == old(clients) && failedClients == old(failedClients)
      ensures old(clients) == [] && AnyStale(old(failedClients), now, holdoffTime) ==>
        && r == Success(old(failedClients)[0].client)
        && clients == [r.value] && failedClients == old(failedClients)[1..]
      ensures old(clients) == [] && !AnyStale(old(failedClients), now, holdoffTime) ==>
        && r == Failure(NoClientAvailableException(NoClientMessage))
        && clients == old(clients) && failedClients == old(failedClients)
      ensures old(Saturated()) ==> Saturated()
      ensures old(Saturated()) && old(clients) == [] && r.Success? ==> Count(retry, r.value.hostname) >= maxRetry
    {
      var first := GetFirstClient();
      if first.Some? {
        if balancing {
          var c := GetRandomClient(pick);
          return Success(c);
        }
        return Success(first.value);
      }
      var i := 0;
      while i < |failedClients|
        invariant 0 <= i <= |failedClients|
        invariant forall j :: 0 <= j < i ==> !Stale(failedClients[j], now, holdoffTime)
        invariant clients == old(clients) && failedClients == old(failedClients)
      {
        if now - failedClients[i].time > holdoffTime {
          var head := failedClients[0];
          ReadmitPartitioned(failedClients, retry, maxRetry);
          failedClients := failedClients[1..];
          clients := Assign(clients, head.client);
          return Success(head.client);
        }
        i := i + 1;
      }
      return Failure(NoClientAvailableException(NoClientMessage));
    }

    /** The `try` block of `callClientMethod` for the selected client: its answer is
        returned, resetting the host's count unless the call is local; a transient failure is
        counted against the host (`None`: try again); any other exception passes through. */
    method TryClient<R>(name: string, call: (Member, nat) -> Reply<R>, client: Member, attempt: nat, now: int)
      returns (r: Option<Result<R, Exception>>)
      requires Valid() && client in clients
      modifies this
      ensures Valid()
      ensures holdoffTime == old(holdoffTime) && maxRetry == old(maxRetry) && balancing == old(balancing)
      ensures old(Saturated()) ==> Saturated()
      ensures match call(client, attempt)
        case Returned(v) =>
          && r == Some(Success(v)) && clients == old(clients) && failedClients == old(failedClients)
          && retry == if IsLocalCall(name) then old(retry) else old(retry) - {client.hostname}
        case Raised(e) =>
          if IsTransient(e) then
            && r.None?
            && retry == old(retry)[client.hostname := Count(old(retry), client.hostname) + 1]
            && (retry[client.hostname] >= maxRetry ==>
                  && clients == Unset(old(clients), client.hostname)
                  && failedClients == old(failedClients) + [FailedEntry(client, now)])
            && (retry[client.hostname] < maxRetry ==>
                  clients == old(clients) && failedClients == old(failedClients))
          else
            r == Some(Failure(e)) && clients == old(clients) && failedClients == old(failedClients) && retry == old(retry)
    {
      match call(client, attempt)
      case Returned(v) =>
        if client.hostname in retry && !IsLocalCall(name) {
          retry := retry - {client.hostname};
        }
        return Some(Success(v));
      case Raised(e) =>
        if !IsTransient(e) {
          return Some(Failure(e));
        }
        FailClient(client, now);
        return None;
    }

    /** One pass of the loop in `callClientMethod`: select a client and run the `try` block
        on it. `None` means the call failed transiently and was counted: the loop's measure
        went down and the loop goes on. */
    method Attempt<R>(name: string, call: (Member, nat) -> Reply<R>, pick: nat, attempt: nat, now: int)
      returns (r: Option<Result<R, Exception>>, ghost served: Option<Member>)
      requires Valid()
      modifies this
      ensures Valid()
      ensures holdoffTime == old(holdoffTime) && maxRetry == old(maxRetry) && balancing == old(balancing)
      ensures old(Saturated()) ==> Saturated()
      ensures r.None? ==>
        Shrinks(failedClients, clients, retry, old(failedClients), old(clients), old(retry), now, holdoffTime, maxRetry)
      ensures r.Some? && r.value.Failure? ==> !IsTransient(r.value.error)
      ensures old(Saturated()) && old(clients) == [] && r.None? ==>
        && clients == []
        && failedClients == old(failedClients)[1..] + [FailedEntry(old(failedClients)[0].client, now)]
      ensures r.Some? && r.value.Success? ==>
        && served.Some? && served.value in clients && call(served.value, attempt) == Returned(r.value.value)
        && (!IsLocalCall(name) ==> served.value.hostname !in retry)
      ensures r.Some? && r.value.Failure? && served.Some? ==> call(served.value, attempt) == Raised(r.value.error)
      ensures r.Some? && r.value.Failure? && served.None? ==>
        && r.value.error == NoClientAvailableException(NoClientMessage)
        && clients == [] && !AnyStale(failedClients, now, holdoffTime)
      ensures old(clients) != [] ==>
        var c := Choose(old(clients), balancing, pick);
        match call(c, attempt)
        case Returned(v) =>
          && r == Some(Success(v)) && clients == old(clients) && failedClients == old(failedClients)
          && retry == if IsLocalCall(name) then old(retry) else old(retry) - {c.hostname}
        case Raised(e) =>
          if IsTransient(e) then r.None?
          else
            && r == Some(Failure(e)) && clients == old(clients) && failedClients == old(failedClients)
            && retry == old(retry)
      ensures old(clients) == [] && AnyStale(old(failedClients), now, holdoffTime) ==>
        var h := old(failedClients)[0].client;
        && served == Some(h)
        && match call(h, attempt)
          case Returned(v) =>
            && r == Some(Success(v)) && clients == [h] && failedClients == old(failedClients)[1..]
            && retry == if IsLocalCall(name) then old(retry) else old(retry) - {h.hostname}
          case Raised(e) =>
            if IsTransient(e) then r.None?
            else
              && r == Some(Failure(e)) && clients == [h] && failedClients == old(failedClients)[1..]
              && retry == old(retry)
    {
      ghost var clients0, failed0, retry0 := clients, failedClients, retry;
      var selected := GetClient(pick, now);
      if selected.Failure? {
        return Some(Failure(selected.error)), None;
      }
      var client := selected.value;
      if clients0 == [] {
        Readmission(failed0, now, holdoffTime);
      } else {
        FailureOfActive(clients0, retry0, client, maxRetry, failed0, now, holdoffTime);
      }
      r := TryClient(name, call, client, attempt, now);
      served := Some(client);
    }

    /** `callClientMethod($name, ...$arguments)`: pick a client and call it; on a transient
        failure count it against the host and try again; on success reset the host's count
        unless the call is local; let every other exception through. `served` and `attempt`
        name the client and the attempt whose answer is returned. */
    method CallClientMethod<R>(name: string, call: (Member, nat) -> Reply<R>, picks: nat -> nat, now: int)
      returns (r: Result<R, Exception>, ghost served: Option<Member>, ghost attempt: nat)
      requires Valid()
      modifies this
      ensures Valid()
      ensures holdoffTime == old(holdoffTime) && maxRetry == old(maxRetry) && balancing == old(balancing)
      ensures old(Saturated()) ==> Saturated()
      ensures r.Failure? ==> !IsTransient(r.error)
      ensures r.Success? ==>
        && served.Some? && served.value in clients && call(served.value, attempt) == Returned(r.value)
        && (!IsLocalCall(name) ==> served.value.hostname !in retry)
      ensures r.Failure? && served.Some? ==> call(served.value, attempt) == Raised(r.error)
      ensures r.Failure? && served.None? ==>
        && r.error == NoClientAvailableException(NoClientMessage)
        && clients == [] && !AnyStale(failedClients, now, holdoffTime)
      ensures old(clients) != [] ==>
        var c := Choose(old(clients), balancing, picks(0));
        match call(c, 0)
        case Returned(v) =>
          && r == Success(v) && clients == old(clients) && failedClients == old(failedClients)
          && retry == if IsLocalCall(name) then old(retry) else old(retry) - {c.hostname}
        case Raised(e) =>
          !IsTransient(e) ==>
            && r == Failure(e) && clients == old(clients) && failedClients == old(failedClients)
            && retry == old(retry)
      ensures old(clients) == [] && AnyStale(old(failedClients), now, holdoffTime) ==>
        var h := old(failedClients)[0].client;
        match call(h, 0)
        case Returned(v) =>
          && r == Success(v) && served == Some(h) && attempt == 0
          && clients == [h] && failedClients == old(failedClients)[1..]
          && retry == if IsLocalCall(name) then old(retry) else old(retry) - {h.hostname}
        case Raised(e) =>
          !IsTransient(e) ==>
            && r == Failure(e) && served == Some(h) && attempt == 0
            && clients == [h] && failedClients == old(failedClients)[1..] && retry == old(retry)
    {
      var k: nat := 0;
      while true
        invariant Valid()
        invariant holdoffTime == old(holdoffTime) && maxRetry == old(maxRetry) && balancing == old(balancing)
        invariant old(Saturated()) ==> Saturated()
        invariant k == 0 ==> clients == old(clients) && failedClients == old(failedClients) && retry == old(retry)
        invariant k > 0 && old(clients) != [] ==>
          var first := call(Choose(old(clients), balancing, picks(0)), 0);
          first.Raised? && IsTransient(first.error)
        invariant k > 0 && old(clients) == [] && AnyStale(old(failedClients), now, holdoffTime) ==>
          var first := call(old(failedClients)[0].client, 0);
          first.Raised? && IsTransient(first.error)
        decreases StaleCount(failedClients, now, holdoffTime), Lead(failedClients, now, holdoffTime),
          Weight(clients, retry, maxRetry)
      {
        var outcome, client := Attempt(name, call, picks(k), k, now);
        if outcome.Some? {
          return outcome.value, client, k;
        }
        k := k + 1;
      }
    }
  }
}
