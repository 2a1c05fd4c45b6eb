/**
 * The `$clients` array both routers keep: a PHP array keyed by hostname, in insertion
 * order. Assigning to an existing key replaces the value in place; `unset` removes the key.
 */
module HostTable {
  import opened Wrappers

  /** A client object: what `getHostname()` answers, and an identity telling apart two
      objects with the same hostname. */
  datatype Member = Member(hostname: string, id: nat)

  /** An element of the constructor's list, which may not implement `ClientInterface`. */
  datatype Candidate = Client(member: Member) | NotAClient

  /** `array_keys($clients)` */
  function Hostnames(s: seq<Member>): (hs: seq<string>)
    ensures |hs| == |s| && forall i :: 0 <= i < |s| ==> hs[i] == s[i].hostname
  {
    if s == [] then [] else [s[0].hostname] + Hostnames(s[1..])
  }

  lemma HostnamesAppend(s: seq<Member>, m: Member)
    ensures Hostnames(s + [m]) == Hostnames(s) + [m.hostname]
  {
  }

  /** No hostname is a key twice. */
  ghost predicate Distinct(s: seq<Member>) {
    forall i, j :: 0 <= i < j < |s| ==> s[i].hostname != s[j].hostname
  }

  /** `$clients[$hostname] ?? null` */
  function Find(s: seq<Member>, h: string): (r: Option<Member>)
    ensures r.Some? <==> h in Hostnames(s)
    ensures r.Some? ==> r.value in s && r.value.hostname == h
  {
    if s == [] then None
    else if s[0].hostname == h then Some(s[0])
    else Find(s[1..], h)
  }

  /** `$clients[$m->getHostname()] = $m`: replaces the member of that hostname where it
      stands, or appends. */
  function Assign(s: seq<Member>, m: Member): seq<Member> {
    if s == [] then [m]
    else if s[0].hostname == m.hostname then [m] + s[1..]
    else [s[0]] + Assign(s[1..], m)
  }

  /** Assigning keeps every key where it stands and appends a new key at the end. */
  lemma {:induction false} AssignHostnames(s: seq<Member>, m: Member)
    ensures Hostnames(Assign(s, m)) ==
      if m.hostname in Hostnames(s) then Hostnames(s) else Hostnames(s) + [m.hostname]
  {
    if s != [] && s[0].hostname != m.hostname {
      AssignHostnames(s[1..], m);
      assert Hostnames(s) == [s[0].hostname] + Hostnames(s[1..]);
      assert Hostnames([s[0]] + Assign(s[1..], m)) == [s[0].hostname] + Hostnames(Assign(s[1..], m));
    }
  }

  /** After assigning, the key of `m` holds `m` and every other key what it held. */
  lemma {:induction false} AssignFind(s: seq<Member>, m: Member, h: string)
    ensures Find(Assign(s, m), h) == if h == m.hostname then Some(m) else Find(s, h)
  {
    if s != [] && s[0].hostname != m.hostname {
      AssignFind(s[1..], m, h);
      assert ([s[0]] + Assign(s[1..], m))[1..] == Assign(s[1..], m);
    }
  }

  lemma {:induction false} AssignDistinct(s: seq<Member>, m: Member)
    requires Distinct(s)
    ensures Distinct(Assign(s, m))
  {
    if s != [] && s[0].hostname != m.hostname {
      AssignDistinct(s[1..], m);
      AssignHostnames(s[1..], m);
      var r := Assign(s, m);
      forall j | 0 < j < |r| ensures r[0].hostname != r[j].hostname {
        assert Hostnames(Assign(s[1..], m))[j - 1] == r[j].hostname;
        assert s[0].hostname !in Hostnames(s[1..]) by {
          forall k | 0 <= k < |s| - 1 ensures Hostnames(s[1..])[k] != s[0].hostname {
            assert s[k + 1].hostname != s[0].hostname;
          }
        }
      }
    }
  }

  /** `unset($clients[$h])` */
  function Unset(s: seq<Member>, h: string): seq<Member> {
    if s == [] then []
    else if s[0].hostname == h then Unset(s[1..], h)
    else [s[0]] + Unset(s[1..], h)
  }

  /** Unsetting removes exactly the members with that hostname and keeps the others. */
  lemma {:induction false} UnsetMembers(s: seq<Member>, h: string)
    ensures forall m :: m in Unset(s, h) <==> m in s && m.hostname != h
    ensures Distinct(s) ==> Distinct(Unset(s, h))
  {
    if s != [] {
      UnsetMembers(s[1..], h);
      if Distinct(s) {
        assert Distinct(s[1..]);
        assert forall m :: m in s[1..] ==> m.hostname != s[0].hostname;
      }
    }
  }

  /** Unsetting a hostname that is not a key changes nothing. */
  lemma {:induction false} UnsetAbsent(s: seq<Member>, h: string)
    requires forall m :: m in s ==> m.hostname != h
    ensures Unset(s, h) == s
  {
    if s != [] {
      UnsetAbsent(s[1..], h);
    }
  }

  /** The array the constructor's `foreach` builds from its list. */
  function Keyed(l: seq<Member>): seq<Member> {
    if l == [] then [] else Assign(Keyed(l[..|l| - 1]), l[|l| - 1])
  }

  /** No hostname is a key twice. */
  lemma {:induction false} KeyedDistinct(l: seq<Member>)
    ensures Distinct(Keyed(l))
  {
    if l != [] {
      KeyedDistinct(l[..|l| - 1]);
      AssignDistinct(Keyed(l[..|l| - 1]), l[|l| - 1]);
    }
  }

  /** The last member of `l` with hostname `h`. */
  function LastWith(l: seq<Member>, h: string): Option<Member> {
    if l == [] then None
    else if l[|l| - 1].hostname == h then Some(l[|l| - 1])
    else LastWith(l[..|l| - 1], h)
  }

  /** The hostnames of `hs` without repetitions, each where it first occurs. */
  function FirstOccurrences(hs: seq<string>): seq<string> {
    if hs == [] then []
    else
      var d := FirstOccurrences(hs[..|hs| - 1]);
      if hs[|hs| - 1] in d then d else d + [hs[|hs| - 1]]
  }

  /** A later member with the same hostname replaces an earlier one. */
  lemma {:induction false} KeyedLastWins(l: seq<Member>, h: string)
    ensures Find(Keyed(l), h) == LastWith(l, h)
  {
    if l != [] {
      KeyedLastWins(l[..|l| - 1], h);
      AssignFind(Keyed(l[..|l| - 1]), l[|l| - 1], h);
    }
  }

  lemma {:induction false} FirstOccurrencesMembers(hs: seq<string>)
    ensures forall h :: h in FirstOccurrences(hs) <==> h in hs
  {
    if hs != [] {
      FirstOccurrencesMembers(hs[..|hs| - 1]);
      assert hs == hs[..|hs| - 1] + [hs[|hs| - 1]];
    }
  }

  /** The keys stand in the order in which their hostnames first occur in the list. */
  lemma {:induction false} KeyedOrder(l: seq<Member>)
    ensures Hostnames(Keyed(l)) == FirstOccurrences(Hostnames(l))
  {
    if l != [] {
      var init := l[..|l| - 1];
      KeyedOrder(init);
      assert Hostnames(l)[..|l| - 1] == Hostnames(init);
      FirstOccurrencesMembers(Hostnames(init));
      KeyedHostnames(init);
      AssignHostnames(Keyed(init), l[|l| - 1]);
    }
  }

  lemma {:induction false} KeyedHostnames(l: seq<Member>)
    ensures forall h :: h in Hostnames(Keyed(l)) <==> h in Hostnames(l)
  {
    if l != [] {
      var init := l[..|l| - 1];
      KeyedHostnames(init);
      AssignHostnames(Keyed(init), l[|l| - 1]);
      assert l == init + [l[|l| - 1]];
      forall h ensures h in Hostnames(l) <==> h in Hostnames(init) || h == l[|l| - 1].hostname {
        if h in Hostnames(l) {
          var i :| 0 <= i < |l| && Hostnames(l)[i] == h;
          if i < |l| - 1 { assert Hostnames(init)[i] == h; }
        }
        if h in Hostnames(init) {
          var i :| 0 <= i < |init| && Hostnames(init)[i] == h;
          assert Hostnames(l)[i] == h;
        }
        if h == l[|l| - 1].hostname { assert Hostnames(l)[|l| - 1] == h; }
      }
    }
  }

  /** The members among the first `n` candidates, in order, skipping what is not a client. */
  function MembersOf(cands: seq<Candidate>, n: nat): seq<Member>
    requires n <= |cands|
  {
    if n == 0 then []
    else
      match cands[n - 1]
      case Client(m) => MembersOf(cands, n - 1) + [m]
      case NotAClient => MembersOf(cands, n - 1)
  }

  lemma KeyedStep(cands: seq<Candidate>, i: nat)
    requires i < |cands| && cands[i].Client?
    ensures Keyed(MembersOf(cands, i + 1)) == Assign(Keyed(MembersOf(cands, i)), cands[i].member)
  {
  }

  /** The constructor's `foreach`: fails on the first element that is not a client, otherwise
      keys every member by hostname. */
  method Collect(cands: seq<Candidate>) returns (r: Option<seq<Member>>)
    ensures r.Some? <==> forall i :: 0 <= i < |cands| ==> cands[i].Client?
    ensures r.Some? ==> r.value == Keyed(MembersOf(cands, |cands|))
  {
    var table: seq<Member> := [];
    for i := 0 to |cands|
      invariant forall j :: 0 <= j < i ==> cands[j].Client?
      invariant table == Keyed(MembersOf(cands, i))
    {
      if cands[i].NotAClient? {
        return None;
      }
      var m := cands[i].member;
      KeyedStep(cands, i);
      assert Assign(table, m) == Keyed(MembersOf(cands, i + 1));
      table := Assign(table, m);
    }
    return Some(table);
  }
}
