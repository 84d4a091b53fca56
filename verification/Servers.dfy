/** The list of CoT/TAK servers: fresh ids and create, update, delete. */
module Servers {
  import opened Wrappers
  import opened Sequences
  import opened Sets
  import Decimal

  /** The fields that mean a new connector when they change. */
  datatype Endpoint = Endpoint(host: string, port: int, tls: bool, verify: bool, clientCert: Option<string>,
                               clientKey: Option<string>, cacert: Option<string>)

  datatype Settings = Settings(name: string, endpoint: Endpoint, enabled: bool)

  datatype ServerConnection = ServerConnection(id: string, settings: Settings)

  function Ids(servers: seq<ServerConnection>): set<string> {
    set s | s in servers :: s.id
  }

  predicate DistinctIds(servers: seq<ServerConnection>) {
    forall i, k | 0 <= i < k < |servers| :: servers[i].id != servers[k].id
  }

  // ------------------------------------------------------------ fresh ids

  /** The n-th id _unique_id tries: the base, then base-2, base-3 and so on. */
  function Candidate(base: string, n: nat): string
    requires n >= 1
  {
    if n == 1 then base else base + "-" + Decimal.Nat(n)
  }

  lemma CandidatesDiffer(base: string, n: nat, m: nat)
    requires n >= 1 && m >= 1 && Candidate(base, n) == Candidate(base, m)
    ensures n == m
  {
    if n > 1 && m > 1 {
      Cancel(base + "-", Decimal.Nat(n), base + "-", Decimal.Nat(m));
      Decimal.NatInjective(n, m);
    } else {
      assert |Candidate(base, n)| == |base| <==> n == 1;
      assert |Candidate(base, m)| == |base| <==> m == 1;
    }
  }

  function Tried(base: string, n: nat): set<string> {
    if n == 0 then {} else Tried(base, n - 1) + {Candidate(base, n)}
  }

  lemma {:induction false} TriedAreMany(base: string, n: nat)
    ensures |Tried(base, n)| == n
    ensures forall c | c in Tried(base, n) :: exists k: nat :: 1 <= k <= n && c == Candidate(base, k)
    decreases n
  {
    if n > 0 {
      TriedAreMany(base, n - 1);
      if Candidate(base, n) in Tried(base, n - 1) {
        var k: nat :| 1 <= k <= n - 1 && Candidate(base, n) == Candidate(base, k);
        CandidatesDiffer(base, n, k);
      }
      forall c | c in Tried(base, n) ensures exists k: nat :: 1 <= k <= n && c == Candidate(base, k) {
        if c == Candidate(base, n) { assert 1 <= n <= n; }
      }
    }
  }

  /** Taken candidates are different ids, so there are at most as many as ids. */
  lemma AtMostTaken(base: string, n: nat, existing: set<string>)
    requires Tried(base, n) <= existing
    ensures n <= |existing|
  {
    TriedAreMany(base, n);
    SubsetSize(Tried(base, n), existing);
  }

  lemma {:induction false} TriedHolds(base: string, n: nat, k: nat)
    requires 1 <= k <= n
    ensures Candidate(base, k) in Tried(base, n)
    decreases n
  {
    if k < n { TriedHolds(base, n - 1, k); }
  }

  /** The loop ends, after at most |existing| + 1 membership tests, at the first candidate not taken. */
  method UniqueId(base: string, existing: set<string>) returns (sid: string, tests: nat)
    ensures sid !in existing
    ensures 1 <= tests <= |existing| + 1 && sid == Candidate(base, tests)
    ensures sid == if tests == 1 then base else base + "-" + Decimal.Nat(tests)
    ensures forall k: nat | 1 <= k < tests :: Candidate(base, k) in existing
  {
    var n := 2;
    sid := base;
    AtMostTaken(base, 0, existing);
    while sid in existing
      invariant n >= 2 && n - 2 <= |existing| && sid == Candidate(base, n - 1)
      invariant Tried(base, n - 2) <= existing
      decreases |existing| + 2 - n
    {
      AtMostTaken(base, n - 1, existing);
      sid, n := base + "-" + Decimal.Nat(n), n + 1;
    }
    tests := n - 1;
    forall k: nat | 1 <= k < tests ensures Candidate(base, k) in existing {
      TriedHolds(base, tests - 1, k);
    }
  }

  // ------------------------------------------------------------ create, update, delete

  method CreateServer(servers: seq<ServerConnection>, base: string, settings: Settings)
    returns (created: seq<ServerConnection>, sid: string)
    ensures created == servers + [ServerConnection(sid, settings)] && sid !in Ids(servers)
    ensures DistinctIds(servers) ==> DistinctIds(created)
  {
    var tests;
    sid, tests := UniqueId(base, Ids(servers));
    created := servers + [ServerConnection(sid, settings)];
    AppendDistinct(servers, ServerConnection(sid, settings));
  }

  lemma AppendDistinct(servers: seq<ServerConnection>, s: ServerConnection)
    requires s.id !in Ids(servers)
    ensures DistinctIds(servers) ==> DistinctIds(servers + [s])
  {
    assert forall i | 0 <= i < |servers| :: servers[i] in servers && servers[i].id != s.id;
  }

  /** None is the 404. */
  function UpdateServer(servers: seq<ServerConnection>, id: string, settings: Settings): Option<seq<ServerConnection>> {
    if id !in Ids(servers) then None
    else Some(seq(|servers|, i requires 0 <= i < |servers| =>
                    if servers[i].id == id then ServerConnection(id, settings) else servers[i]))
  }

  function Remaining(servers: seq<ServerConnection>, id: string): seq<ServerConnection> {
    if servers == [] then []
    else Remaining(servers[..|servers| - 1], id)
         + if servers[|servers| - 1].id != id then [servers[|servers| - 1]] else []
  }

  function DeleteServer(servers: seq<ServerConnection>, id: string): Option<seq<ServerConnection>> {
    var remaining := Remaining(servers, id);
    if |remaining| == |servers| then None else Some(remaining)
  }

  datatype Crud = Create(base: string, settings: Settings) | Update(id: string, settings: Settings) | Delete(id: string)

  /** A request that fails leaves the list alone. */
  function Unless<T>(o: Option<T>, otherwise: T): T {
    match o
    case None => otherwise
    case Some(x) => x
  }

  /** What one request does to the list; sid is the id a create was given. */
  ghost predicate Applied(servers: seq<ServerConnection>, op: Crud, sid: string, servers': seq<ServerConnection>) {
    match op
    case Create(_, settings) => sid !in Ids(servers) && servers' == servers + [ServerConnection(sid, settings)]
    case Update(id, settings) =>
      servers' == Unless(UpdateServer(servers, id, settings), servers)
    case Delete(id) => servers' == Unless(DeleteServer(servers, id), servers)
  }

  lemma {:induction false} RemainingHolds(servers: seq<ServerConnection>, id: string, s: ServerConnection)
    ensures s in Remaining(servers, id) <==> s in servers && s.id != id
  {
    if servers != [] {
      var front, last := servers[..|servers| - 1], servers[|servers| - 1];
      RemainingHolds(front, id, s);
      assert servers == front + [last];
    }
  }

  lemma {:induction false} RemainingLength(servers: seq<ServerConnection>, id: string)
    ensures |Remaining(servers, id)| <= |servers|
    ensures |Remaining(servers, id)| == |servers| <==> id !in Ids(servers)
  {
    if servers != [] {
      var front, last := servers[..|servers| - 1], servers[|servers| - 1];
      RemainingLength(front, id);
      assert servers == front + [last];
      assert Ids(servers) == Ids(front) + {last.id};
    }
  }

  lemma {:induction false} RemainingDistinct(servers: seq<ServerConnection>, id: string)
    requires DistinctIds(servers)
    ensures DistinctIds(Remaining(servers, id))
  {
    if servers != [] {
      var front, last := servers[..|servers| - 1], servers[|servers| - 1];
      RemainingDistinct(front, id);
      forall s | s in Remaining(front, id) ensures s.id != last.id {
        RemainingHolds(front, id, s);
      }
      AppendDistinct(Remaining(front, id), last);
    }
  }

  lemma {:induction false} RemainingAll(servers: seq<ServerConnection>, id: string)
    requires forall i | 0 <= i < |servers| :: servers[i].id != id
    ensures Remaining(servers, id) == servers
  {
    if servers != [] {
      RemainingAll(servers[..|servers| - 1], id);
    }
  }

  lemma {:induction false} RemainingAppend(a: seq<ServerConnection>, b: seq<ServerConnection>, id: string)
    ensures Remaining(a + b, id) == Remaining(a, id) + Remaining(b, id)
  {
    if b == [] {
      assert a + b == a;
    } else {
      RemainingAppend(a, b[..|b| - 1], id);
      assert (a + b)[..|a + b| - 1] == a + b[..|b| - 1];
    }
  }

  lemma RemainingAround(servers: seq<ServerConnection>, id: string, k: nat)
    requires DistinctIds(servers) && k < |servers| && servers[k].id == id
    ensures Remaining(servers, id) == servers[..k] + servers[k + 1..]
  {
    hide Remaining;
    var before, after, removed := servers[..k], servers[k + 1..], [servers[k]];
    forall i | 0 <= i < |after| ensures after[i].id != id {
      assert after[i] == servers[k + 1 + i];
    }
    assert forall i | 0 <= i < |before| :: before[i] == servers[i];
    assert servers == before + (removed + after);
    hide DistinctIds;
    RemainingAppend(before, removed + after, id);
    RemainingAppend(removed, after, id);
    RemainingAll(before, id);
    RemainingAll(after, id);
    NothingRemains(servers[k], id);
    assert [] + after == after;
  }

  lemma NothingRemains(s: ServerConnection, id: string)
    requires s.id == id
    ensures Remaining([s], id) == []
  {
    assert [s][..0] == [];
  }

  /** A delete removes the named server and nothing else, and fails exactly when there is none. */
  lemma DeleteExact(servers: seq<ServerConnection>, id: string)
    ensures DeleteServer(servers, id).None? <==> id !in Ids(servers)
    ensures DeleteServer(servers, id).Some? ==>
              forall s :: s in DeleteServer(servers, id).value <==> s in servers && s.id != id
    ensures DeleteServer(servers, id).Some? && DistinctIds(servers) ==>
              exists k :: 0 <= k < |servers| && servers[k].id == id
                          && DeleteServer(servers, id).value == servers[..k] + servers[k + 1..]
  {
    RemainingLength(servers, id);
    if id in Ids(servers) && DistinctIds(servers) {
      var k :| 0 <= k < |servers| && servers[k].id == id;
      RemainingAround(servers, id, k);
    }
    forall s ensures s in Remaining(servers, id) <==> s in servers && s.id != id {
      RemainingHolds(servers, id, s);
    }
  }

  /** An update fails exactly when there is no such server; otherwise that server has the new settings,
      every other one is as it was, and the order of ids stands. */
  lemma UpdateExact(servers: seq<ServerConnection>, id: string, settings: Settings)
    ensures var r := UpdateServer(servers, id, settings);
            && (r.None? <==> id !in Ids(servers))
            && (r.Some? ==>
                  && |r.value| == |servers|
                  && (forall i | 0 <= i < |servers| :: r.value[i].id == servers[i].id)
                  && forall s :: s in r.value <==> if s.id == id then s.settings == settings else s in servers)
  {
    var r := UpdateServer(servers, id, settings);
    if r.Some? {
      var k :| 0 <= k < |servers| && servers[k].id == id;
      assert r.value[k] == ServerConnection(id, settings);
      forall s ensures s in r.value <==> if s.id == id then s.settings == settings else s in servers {
        if s.id != id && s in servers {
          var i :| 0 <= i < |servers| && servers[i] == s;
          assert r.value[i] == s;
        }
      }
    }
  }

  lemma AppliedKeepsDistinct(servers: seq<ServerConnection>, op: Crud, sid: string, servers': seq<ServerConnection>)
    requires DistinctIds(servers) && Applied(servers, op, sid, servers')
    ensures DistinctIds(servers')
  {
    match op
    case Create(_, settings) => AppendDistinct(servers, ServerConnection(sid, settings));
    case Update(_, _) =>
    case Delete(id) => RemainingDistinct(servers, id);
  }

  /** Any sequence of requests keeps ids distinct. */
  lemma {:induction false} CrudKeepsDistinct(lists: seq<seq<ServerConnection>>, ops: seq<Crud>, sids: seq<string>, i: nat)
    requires |lists| == |ops| + 1 && |sids| == |ops| && DistinctIds(lists[0])
    requires forall k | 0 <= k < |ops| :: Applied(lists[k], ops[k], sids[k], lists[k + 1])
    requires i < |lists|
    ensures DistinctIds(lists[i])
    decreases i
  {
    if i > 0 {
      CrudKeepsDistinct(lists, ops, sids, i - 1);
      AppliedKeepsDistinct(lists[i - 1], ops[i - 1], sids[i - 1], lists[i]);
    }
  }
}
