/**
 * `ShardedClient`: routes every key-bearing call to one client chosen by consistent hashing
 * of the key, remembers the choice per key, and sends lease calls to a random client.
 *
 * The hash ring (Flexihash) is a foreign library: `lookup(targets, key)` stands for its
 * deterministic choice and is read as an index into the targets. The random choice of
 * `array_rand` is the input `pick`.
 */
module Sharded {
  import opened Wrappers
  import opened Exceptions
  import opened HostTable
  import opened Interface

  const InvalidClientMessage := "Invalid client in client list."
  const NoTargetsMessage := "No targets exist"
  const EmptyArrayMessage := "array_rand(): Argument #1 ($array) cannot be empty"
  const ReturnTypeMessage := "Aternos\\Etcd\\ShardedClient::getClientFromKey(): Return value must be of type Aternos\\Etcd\\ClientInterface, null returned"

  /** The Flexihash instance: the targets added to it, in order. */
  datatype Ring = Ring(targets: seq<string>)

  /** `$this->hash->lookup($key)`: one of the added targets, or an exception when none was added. */
  function RingLookup(ring: Ring, lookup: (seq<string>, string) -> nat, key: string): (r: Result<string, Exception>)
    ensures r.Failure? <==> ring.targets == []
    ensures r.Failure? ==> r.error == HashException(NoTargetsMessage)
    ensures r.Success? ==> r.value in ring.targets
  {
    if ring.targets == [] then Failure(HashException(NoTargetsMessage))
    else Success(ring.targets[lookup(ring.targets, key) % |ring.targets|])
  }

  /** The client a key is routed to: the client of the hostname the ring built from all
      clients returns. This is the reference the cache is checked against. */
  function Route(clients: seq<Member>, lookup: (seq<string>, string) -> nat, key: string): (r: Result<Member, Exception>)
    ensures r.Failure? <==> clients == []
    ensures r.Failure? ==> r.error == HashException(NoTargetsMessage)
    ensures r.Success? ==> r.value in clients
  {
    match RingLookup(Ring(Hostnames(clients)), lookup, key)
    case Failure(e) => Failure(e)
    case Success(h) => Success(Find(clients, h).value)
  }

  /** Flexihash's refusal of a target that is already on the ring. */
  function DuplicateTargetMessage(target: string): string {
    "Target '" + target + "' already exists."
  }

  /** No name is given twice. */
  predicate DistinctNames(names: seq<string>) {
    forall i, j :: 0 <= i < j < |names| ==> names[i] != names[j]
  }

  /** Adding `names` to a new ring one by one: `addTarget` throws on the first name that is
      already on the ring. */
  function FillRing(names: seq<string>): (r: Result<Ring, Exception>)
    ensures r.Success? <==> DistinctNames(names)
    ensures r.Success? ==> r.value == Ring(names)
    ensures r.Failure? ==> exists j :: 0 <= j < |names| && names[j] in names[..j] && r.error == HashException(DuplicateTargetMessage(names[j]))
  {
    if names == [] then Success(Ring([]))
    else
      var n := |names|;
      var last := names[n - 1];
      assert names[..n - 1] + [last] == names;
      match FillRing(names[..n - 1])
      case Failure(e) =>
        assert forall j :: 0 <= j < n - 1 ==> names[..n - 1][..j] == names[..j];
        Failure(e)
      case Success(ring) =>
        if last in ring.targets then
          assert names[..n - 1] == names[..n - 1][..n - 1];
          Failure(HashException(DuplicateTargetMessage(last)))
        else
          assert forall j :: 0 <= j < n - 1 ==> names[j] == names[..n - 1][j];
          Success(Ring(ring.targets + [last]))
  }

  /** The route as the ring is actually built: from what each client's `getHostname()`
      answers while the ring is filled, `answers[i]` for `clients[i]`, and not from the keys
      the clients were stored under. A client whose answer changes (a `FailoverClient` with
      balancing answers one of its own hosts at random) can put a name on the ring that is
      no key; the lookup of that key yields null, which the declared return type rejects.
      Two clients giving the same answer make the ring refuse the second one. */
  function RouteAsBuilt(clients: seq<Member>, answers: seq<string>, lookup: (seq<string>, string) -> nat, key: string): (r: Result<Member, Exception>)
    requires |answers| == |clients|
    ensures answers == Hostnames(clients) && Distinct(clients) ==> r == Route(clients, lookup, key)
    ensures r.Success? ==> r.value in clients
    ensures !DistinctNames(answers) ==> r.Failure? && r.error.HashException?
    ensures DistinctNames(answers) ==>
      (r.Failure? <==> clients == [] || RingLookup(Ring(answers), lookup, key).value !in Hostnames(clients))
    ensures DistinctNames(answers) && r.Failure? && clients != [] ==> r.error == TypeError(ReturnTypeMessage)
  {
    match FillRing(answers)
    case Failure(e) => Failure(e)
    case Success(ring) =>
      match RingLookup(ring, lookup, key)
      case Failure(e) => Failure(e)
      case Success(h) =>
        match Find(clients, h)
        case Some(m) => Success(m)
        case None => Failure(TypeError(ReturnTypeMessage))
  }

  /** One client stored under "a" that answers "b" when the ring is built: the keyed route
      finds it, the ring as built fails. */
  lemma RingHostnameDrift(lookup: (seq<string>, string) -> nat)
    ensures Route([Member("a", 0)], lookup, "k") == Success(Member("a", 0))
    ensures RouteAsBuilt([Member("a", 0)], ["b"], lookup, "k") == Failure(TypeError(ReturnTypeMessage))
  {
    assert Hostnames([Member("a", 0)]) == ["a"];
  }

  /** Two clients stored under "a" and "b" that both answer "a" when the ring is built: the
      ring refuses the second, while the keyed route is defined. */
  lemma RingDuplicateAnswer(lookup: (seq<string>, string) -> nat)
    ensures Route([Member("a", 0), Member("b", 1)], lookup, "k").Success?
    ensures RouteAsBuilt([Member("a", 0), Member("b", 1)], ["a", "a"], lookup, "k") ==
      Failure(HashException(DuplicateTargetMessage("a")))
  {
    var answers := ["a", "a"];
    assert answers[0] == answers[1];
  }

  /** `implode($separator, $parts)` */
  function Join(parts: seq<string>, separator: string): string {
    if parts == [] then ""
    else if |parts| == 1 then parts[0]
    else parts[0] + separator + Join(parts[1..], separator)
  }

  /** Joining two non-empty lists is joining each and putting the separator between. */
  lemma {:induction false} JoinAppend(a: seq<string>, b: seq<string>, separator: string)
    requires a != [] && b != []
    ensures Join(a + b, separator) == Join(a, separator) + separator + Join(b, separator)
  {
    if |a| == 1 {
      assert (a + b)[1..] == b;
    } else {
      assert (a + b)[1..] == a[1..] + b;
      JoinAppend(a[1..], b, separator);
    }
  }

  /** Each part is found in the joined string at the position the earlier parts and
      separators leave for it: the first part is a prefix, the last a suffix. */
  lemma {:induction false} JoinEnds(parts: seq<string>, separator: string)
    requires parts != []
    ensures parts[0] <= Join(parts, separator)
    ensures |Join(parts, separator)| >= |parts[|parts| - 1]|
    ensures Join(parts, separator)[|Join(parts, separator)| - |parts[|parts| - 1]|..] == parts[|parts| - 1]
  {
    if |parts| > 1 {
      JoinEnds(parts[1..], separator);
      var rest := Join(parts[1..], separator);
      var whole := parts[0] + separator + rest;
      assert whole[|whole| - |parts[|parts| - 1]|..] == rest[|rest| - |parts[|parts| - 1]|..];
    }
  }

  /** A truthy PHP key: not null, not "" and not "0". */
  predicate Truthy(key: Option<string>) {
    key.Some? && !IsFalsyString(key.value)
  }

  /** What a call on the sharded client turns into: the same call sent to one client, or the
      answer given without any client (`getHostname()` without a key). */
  datatype Dispatch = Forward(target: Member, call: Call) | Joined(hostnames: string)

  class ShardedClient {
    const clients: seq<Member>
    const lookup: (seq<string>, string) -> nat
    var keyCache: map<string, Member>
    var hash: Option<Ring>
    /** How many times the ring has been built. */
    ghost var builds: nat

    /** The ring, once built, holds the hostnames of all clients, and was built once; every
        cached client is the one the ring routes its key to. */
    ghost predicate Valid()
      reads this
    {
      && Distinct(clients)
      && (hash.Some? ==> hash.value == Ring(Hostnames(clients)))
      && builds == (if hash.Some? then 1 else 0)
      && (forall k :: k in keyCache ==> Route(clients, lookup, k) == Success(keyCache[k]))
    }

    constructor (table: seq<Member>, lookup: (seq<string>, string) -> nat)
      requires Distinct(table)
      ensures Valid()
      ensures clients == table && this.lookup == lookup
      ensures keyCache == map[] && hash == None
    {
      clients := table;
      this.lookup := lookup;
      keyCache := map[];
      hash := None;
      builds := 0;
    }

    /** `new ShardedClient($clients)`: throws on an element that is not a client; otherwise
        keys the clients by hostname, a later one replacing an earlier one. */
    static method Create(cands: seq<Candidate>, lookup: (seq<string>, string) -> nat)
      returns (r: Result<ShardedClient, Exception>)
      ensures r.Failure? <==> exists i :: 0 <= i < |cands| && cands[i].NotAClient?
      ensures r.Failure? ==> r.error == InvalidClientException(InvalidClientMessage)
      ensures r.Success? ==> fresh(r.value) && r.value.Valid()
      ensures r.Success? ==> r.value.clients == Keyed(MembersOf(cands, |cands|))
      ensures r.Success? ==> r.value.keyCache == map[] && r.value.hash == None
      ensures r.Success? ==> r.value.lookup == lookup
    {
      var table := Collect(cands);
      if table.None? {
        return Failure(InvalidClientException(InvalidClientMessage));
      }
      KeyedDistinct(MembersOf(cands, |cands|));
      var client := new ShardedClient(table.value, lookup);
      return Success(client);
    }

    /** `getClientFromKey($key)`: the cached client of the key if there is one, without
        touching the cache or the ring; otherwise the ring (built here if it was not yet)
        chooses, and the choice is cached. Either way the answer is `Route(clients, lookup,
        key)`, so a key keeps going to the same client. */
    method GetClientFromKey(key: string) returns (r: Result<Member, Exception>)
      requires Valid()
      modifies this
      ensures Valid()
      ensures r == Route(clients, lookup, key)
      ensures key in old(keyCache) ==>
        r == Success(old(keyCache)[key]) && keyCache == old(keyCache) && hash == old(hash)
      ensures key !in old(keyCache) && r.Success? ==> keyCache == old(keyCache)[key := r.value]
      ensures r.Success? ==> key in keyCache && keyCache[key] == r.value
      ensures r.Failure? ==> keyCache == old(keyCache)
      ensures old(hash).Some? ==> hash == old(hash)
      ensures key !in old(keyCache) ==> hash == Some(Ring(Hostnames(clients)))
      ensures builds <= 1
    {
      if key in keyCache {
        return Success(keyCache[key]);
      }
      if hash.None? {
        var targets := AddTargets();
        hash := Some(Ring(targets));
        builds := builds + 1;
      }
      var hostname := RingLookup(hash.value, lookup, key);
      if hostname.Failure? {
        return Failure(hostname.error);
      }
      var client := Find(clients, hostname.value).value;
      keyCache := keyCache[key := client];
      return Success(client);
    }

    /** The `foreach` that adds every client's hostname to a new ring, in order. */
    method AddTargets() returns (targets: seq<string>)
      ensures targets == Hostnames(clients)
    {
      targets := [];
      for i := 0 to |clients|
        invariant targets == Hostnames(clients[..i])
      {
        assert clients[..i + 1] == clients[..i] + [clients[i]];
        HostnamesAppend(clients[..i], clients[i]);
        targets := targets + [clients[i].hostname];
      }
      assert clients[..|clients|] == clients;
    }

    /** `getRandomClient()`: `array_rand` picks a key of the clients; it throws on an empty
        array. */
    method GetRandomClient(pick: nat) returns (r: Result<Member, Exception>)
      ensures r.Failure? <==> clients == []
      ensures r.Failure? ==> r.error == ValueError(EmptyArrayMessage)
      ensures r.Success? ==> r.value in clients && r.value == clients[pick % |clients|]
    {
      if |clients| == 0 {
        return Failure(ValueError(EmptyArrayMessage));
      }
      return Success(clients[pick % |clients|]);
    }

    /** The methods of `ClientInterface` on the sharded client: `getHostname` with a falsy key
        answers the hostnames joined by "-"; every other call carrying a key goes, unchanged,
        to the key's client; the lease calls go, unchanged, to a random client. */
    method Delegate(c: Call, pick: nat) returns (r: Result<Dispatch, Exception>)
      requires Valid()
      modifies this
      ensures Valid()
      ensures IsKeyed(c) ==>
        r == match Route(clients, lookup, c.key)
          case Success(m) => Success(Forward(m, c))
          case Failure(e) => Failure(e)
      ensures c.GetHostname? && Truthy(c.hostKey) ==>
        r == match Route(clients, lookup, c.hostKey.value)
          case Success(m) => Success(Forward(m, c))
          case Failure(e) => Failure(e)
      ensures c.GetHostname? && !Truthy(c.hostKey) ==>
        && r == Success(Joined(Join(Hostnames(clients), "-")))
        && keyCache == old(keyCache) && hash == old(hash)
      ensures old(hash).Some? ==> hash == old(hash)
      ensures forall k :: k in old(keyCache) ==> k in keyCache && keyCache[k] == old(keyCache)[k]
      ensures IsLeaseCall(c) ==>
        && keyCache == old(keyCache) && hash == old(hash)
        && (clients == [] ==> r == Failure(ValueError(EmptyArrayMessage)))
        && (clients != [] ==> r == Success(Forward(clients[pick % |clients|], c)))
    {
      if IsLeaseCall(c) {
        var target := GetRandomClient(pick);
        if target.Failure? {
          return Failure(target.error);
        }
        return Success(Forward(target.value, c));
      }
      if c.GetHostname? && !Truthy(c.hostKey) {
        return Success(Joined(Join(Hostnames(clients), "-")));
      }
      var key := if c.GetHostname? then c.hostKey.value else c.key;
      var target := GetClientFromKey(key);
      if target.Failure? {
        return Failure(target.error);
      }
      return Success(Forward(target.value, c));
    }
  }
}
