/** PolicyDistributor: the object on every node that edits, broadcasts or applies coalition policy. */
module Distributor {
  import opened Wrappers
  import opened Json
  import opened Policy
  import opened Signing
  import opened PolicyUpdate
  import opened Distribution

  lemma EntriesSnoc(fs: seq<Field>, f: Field)
    requires WellFormed(Obj(fs)) && f.key !in Entries(fs) && WellFormed(f.value)
    ensures WellFormed(Obj(fs + [f])) && DistinctKeys(fs + [f])
    ensures Entries(fs + [f]) == Entries(fs)[f.key := f.value]
  {
    WellFormedSnoc(fs, f);
    hide WellFormed, KeysOf;
    assert (fs + [f])[..|fs|] == fs;
  }

  lemma WellFormedSnoc(fs: seq<Field>, f: Field)
    requires WellFormed(Obj(fs)) && f.key !in Entries(fs) && WellFormed(f.value)
    ensures WellFormed(Obj(fs + [f])) && DistinctKeys(fs + [f])
  {
    forall i | 0 <= i < |fs| ensures fs[i].key != f.key {
      assert fs[i] in fs;
    }
    hide Entries, KeysOf;
    var gs := fs + [f];
    assert forall i | 0 <= i < |fs| :: gs[i] == fs[i];
    assert gs[|fs|] == f;
  }

  /** The actions of some overrides as words. */
  function Worded(overrides: map<string, bool>, done: set<string>): map<string, Json>
    requires done <= overrides.Keys
  {
    map p | p in done :: Str(if overrides[p] then "allow" else "block")
  }

  function WordField(p: string, allowed: bool): (f: Field)
    ensures f.key == p && WellFormed(f.value)
  {
    Field(p, Str(if allowed then "allow" else "block"))
  }

  lemma WordedMore(overrides: map<string, bool>, done: set<string>, p: string)
    requires done <= overrides.Keys
    ensures Worded(overrides, done).Keys == done && Worded(overrides, {}) == map[]
    ensures p in overrides ==>
              Worded(overrides, done + {p}) == Worded(overrides, done)[p := WordField(p, overrides[p]).value]
  {
  }

  lemma AllWorded(m: Matrix)
    ensures Worded(m.overrides, m.overrides.Keys) == map p | p in m.overrides :: Str(SnapshotOf(m).overrides[p])
  {
  }

  class PolicyDistributor {
    const cfg: Config
    const nodeId: string
    const isAuthority: bool
    const policy: MatrixConnectionPolicy
    const pairs: PairBlockPolicy
    var version: int

    constructor (nodeId: string, cfg: Config, policy: MatrixConnectionPolicy, pairs: PairBlockPolicy)
      ensures this.nodeId == nodeId && this.cfg == cfg && this.policy == policy && this.pairs == pairs
      ensures isAuthority == (nodeId == cfg.authority)
      ensures version == if isAuthority then 1 else 0
    {
      this.cfg := cfg;
      this.nodeId := nodeId;
      this.isAuthority := nodeId == cfg.authority;
      this.policy := policy;
      this.pairs := pairs;
      this.version := if nodeId == cfg.authority then 1 else 0;
    }

    ghost function Held(): Coalition reads policy, pairs {
      Coalition(policy.State(), pairs.pairs)
    }

    ghost function State(): Receiver reads this, policy, pairs {
      Receiver(version, policy.State(), pairs.pairs)
    }

    /** The update that leaves this node in its present state. */
    ghost predicate Announces(u: Update) reads this, policy, pairs {
      && u.node == nodeId && u.version == version && Encodes(u, Held())
      && u.sig == if cfg.signs then Over(Payload(u)) else Junk("")
    }

    /** An edit either commits and announces the next version or, away from the authority, is refused. */
    twostate predicate Committed(e: Edit, new sent: Option<Update>) reads this, policy, pairs {
      if isAuthority then
        && version == old(version) + 1 && Held() == Apply(e, old(Held()))
        && sent.Some? && Announces(sent.value)
      else State() == old(State()) && sent == None
    }

    method SnapshotOverrides() returns (j: Json)
      ensures WellFormed(j) && j.Obj?
      ensures Entries(j.fields) == map p | p in policy.overrides :: Str(SnapshotOf(policy.State()).overrides[p])
    {
      var fs: seq<Field> := [];
      var overrides := policy.overrides;
      var todo := overrides.Keys;
      ghost var done := {};
      WordedMore(overrides, {}, "");
      assert Entries(fs) == map[];
      AllWorded(policy.State());
      hide Entries, Worded, KeysOf, WellFormed, SnapshotOf;
      while todo != {}
        invariant todo !! done && todo + done == overrides.Keys
        invariant WellFormed(Obj(fs)) && Entries(fs) == Worded(overrides, done)
        decreases todo
      {
        var p :| p in todo;
        var f := WordField(p, overrides[p]);
        WordedMore(overrides, done, p);
        EntriesSnoc(fs, f);
        fs, todo, done := fs + [f], todo - {p}, done + {p};
      }
      j := Obj(fs);
    }

    method ListOf(s: set<string>) returns (j: Json)
      ensures WellFormed(j) && Lists(j, s)
    {
      var es: seq<Json> := [];
      var todo := s;
      while todo != {}
        invariant todo <= s && (forall e | e in es :: e.Str? && e.s in s - todo)
        invariant forall x | x in s - todo :: Str(x) in es
        decreases todo
      {
        var x :| x in todo;
        es := es + [Str(x)];
        todo := todo - {x};
      }
      assert forall i | 0 <= i < |es| :: es[i] in es;
      j := Arr(es);
    }

    method SnapshotPairs() returns (j: Json)
      ensures WellFormed(j) && j.Obj? && Entries(j.fields).Keys == NonEmpty(pairs.pairs).Keys
      ensures forall o | o in NonEmpty(pairs.pairs) :: Lists(Entries(j.fields)[o], pairs.pairs[o])
    {
      var fs: seq<Field> := [];
      var rows := NonEmpty(pairs.pairs);
      var todo := rows.Keys;
      assert Entries(fs) == map[];
      hide Entries, KeysOf, Lists, NonEmpty;
      while todo != {}
        invariant todo <= rows.Keys && WellFormed(Obj(fs))
        invariant Entries(fs).Keys == rows.Keys - todo
        invariant forall o | o in rows.Keys - todo :: Lists(Entries(fs)[o], rows[o])
        decreases todo
      {
        var o :| o in todo;
        var list := ListOf(rows[o]);
        EntriesSnoc(fs, Field(o, list));
        fs := fs + [Field(o, list)];
        todo := todo - {o};
      }
      j := Obj(fs);
    }

    method Broadcast() returns (u: Update)
      ensures Announces(u)
    {
      var overrides := SnapshotOverrides();
      var rows := SnapshotPairs();
      u := Update(nodeId, version, Str(if policy.defaultAllow then "allow" else "deny"),
                  overrides, rows, Junk(""));
      if cfg.signs {
        u := u.(sig := Over(Payload(u)));
      }
    }

    /** What the authority announces is what the distribution protocol broadcasts in a state with its policy and
        version. */
    lemma AnnouncementIsBroadcast(w: World, u: Update)
      requires nodeId == cfg.authority && Announces(u)
      requires w.history != [] && |w.history| == version && Current(w) == Held()
      ensures Broadcasts(cfg, w, u)
    {
      hide Encodes, Payload;
    }

    method Commit() returns (u: Update)
      modifies this
      ensures version == old(version) + 1 && Announces(u)
    {
      version := version + 1;
      u := Broadcast();
    }

    method Block(peer: string) returns (sent: Option<Update>)
      modifies this, policy
      ensures Committed(Edit.Block(peer), sent)
      ensures isAuthority ==> pairs.pairs == old(pairs.pairs)
      ensures isAuthority ==>
                forall x :: policy.State().AllowsPeer(x) <==> x != peer && old(policy.State()).AllowsPeer(x)
    {
      if !isAuthority { return None; }
      policy.Block(peer);
      var u := Commit();
      sent := Some(u);
    }

    method Allow(peer: string) returns (sent: Option<Update>)
      modifies this, policy
      ensures Committed(Edit.Allow(peer), sent)
      ensures isAuthority ==> pairs.pairs == old(pairs.pairs)
      ensures isAuthority ==>
                forall x :: policy.State().AllowsPeer(x) <==> x == peer || old(policy.State()).AllowsPeer(x)
    {
      if !isAuthority { return None; }
      policy.Allow(peer);
      var u := Commit();
      sent := Some(u);
    }

    method Reset(peer: string) returns (sent: Option<Update>)
      modifies this, policy
      ensures Committed(Edit.Reset(peer), sent)
      ensures isAuthority ==> pairs.pairs == old(pairs.pairs)
      ensures isAuthority ==>
                forall x :: policy.State().AllowsPeer(x) <==>
                              if x == peer then old(policy.defaultAllow) else old(policy.State()).AllowsPeer(x)
    {
      if !isAuthority { return None; }
      policy.Reset(peer);
      var u := Commit();
      sent := Some(u);
    }

    method SetDefault(action: string) returns (sent: Option<Update>)
      modifies this, policy
      ensures Committed(Edit.SetDefault(action), sent)
      ensures isAuthority ==> pairs.pairs == old(pairs.pairs)
      ensures isAuthority ==>
                forall x :: policy.State().AllowsPeer(x) <==>
                              if x in old(policy.overrides) then old(policy.State()).AllowsPeer(x) else action != "deny"
    {
      if !isAuthority { return None; }
      policy.SetDefault(action);
      var u := Commit();
      sent := Some(u);
    }

    method BlockPair(observer: string, originator: string) returns (sent: Option<Update>)
      modifies this, pairs
      ensures Committed(Edit.BlockPair(observer, originator), sent)
      ensures isAuthority ==> policy.State() == old(policy.State())
      ensures isAuthority ==>
                forall o, q :: PairAllows(pairs.pairs, o, q) <==>
                                 (o, q) != (observer, originator) && PairAllows(old(pairs.pairs), o, q)
    {
      if !isAuthority { return None; }
      EditMeans(Edit.BlockPair(observer, originator), Held());
      pairs.Block(observer, originator);
      var u := Commit();
      sent := Some(u);
    }

    method AllowPair(observer: string, originator: string) returns (sent: Option<Update>)
      modifies this, pairs
      ensures Committed(Edit.AllowPair(observer, originator), sent)
      ensures isAuthority ==> policy.State() == old(policy.State())
      ensures isAuthority ==>
                forall o, q :: PairAllows(pairs.pairs, o, q) <==>
                                 (o, q) == (observer, originator) || PairAllows(old(pairs.pairs), o, q)
    {
      if !isAuthority { return None; }
      EditMeans(Edit.AllowPair(observer, originator), Held());
      pairs.Allow(observer, originator);
      var u := Commit();
      sent := Some(u);
    }

    method OnUpdate(u: Update)
      requires Parsed(u)
      modifies this, policy, pairs
      ensures State() == if isAuthority then old(State()) else Receive(cfg, old(State()), u)
    {
      if u.node != cfg.authority || isAuthority { return; }
      if cfg.verifies && !Verify(Payload(u), u.sig) { return; }
      if u.version <= version { return; }
      version := u.version;
      policy.defaultAllow := u.defaultAction != Str("deny");
      var overrides := ReadOverrides(u.overrides);
      if overrides.None? { return; }
      policy.overrides := overrides.value;
      var rows := ReadPairs(u.pairs);
      if rows.None? { return; }
      pairs.pairs := rows.value;
    }
  }
}
