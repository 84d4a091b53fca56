/** Admit/deny policies: one node's matrix row and the coalition's per-pair blocks. */
module Policy {
  datatype Matrix = Matrix(defaultAllow: bool, overrides: map<string, bool>) {
    predicate AllowsPeer(peer: string) {
      if peer in overrides then overrides[peer] else defaultAllow
    }
  }

  /** observer -> originators it refuses. */
  type Pairs = map<string, set<string>>

  predicate PairAllows(pairs: Pairs, observer: string, originator: string) {
    observer !in pairs || originator !in pairs[observer]
  }

  function NonEmpty(pairs: Pairs): Pairs {
    map o | o in pairs && pairs[o] != {} :: pairs[o]
  }

  /** The wire form of a matrix: actions as words. */
  datatype MatrixSnapshot = MatrixSnapshot(defaultAction: string, overrides: map<string, string>)

  function SnapshotOf(m: Matrix): MatrixSnapshot {
    MatrixSnapshot(if m.defaultAllow then "allow" else "deny",
                   map p | p in m.overrides :: if m.overrides[p] then "allow" else "block")
  }

  function Restored(s: MatrixSnapshot): Matrix {
    Matrix(s.defaultAction != "deny", map p | p in s.overrides :: s.overrides[p] == "allow")
  }

  lemma SnapshotRoundTrip(m: Matrix)
    ensures Restored(SnapshotOf(m)) == m
    ensures SnapshotOf(m).overrides.Keys == m.overrides.Keys
    ensures forall p | p in m.overrides :: SnapshotOf(m).overrides[p] == if m.AllowsPeer(p) then "allow" else "block"
    ensures SnapshotOf(m).defaultAction == if m.defaultAllow then "allow" else "deny"
  {
    assert Restored(SnapshotOf(m)).overrides == m.overrides;
  }

  /** What a snapshot omits, an observer with nothing blocked, changes no answer. */
  lemma EmptyRowsAnswerNothing(pairs: Pairs)
    ensures forall o, q :: PairAllows(NonEmpty(pairs), o, q) == PairAllows(pairs, o, q)
    ensures NonEmpty(NonEmpty(pairs)) == NonEmpty(pairs)
  {
  }

  class MatrixConnectionPolicy {
    var defaultAllow: bool
    var overrides: map<string, bool>

    ghost function State(): Matrix reads this {
      Matrix(defaultAllow, overrides)
    }

    constructor (defaultAction: string, overrides: map<string, bool>)
      ensures State() == Matrix(defaultAction != "deny", overrides)
    {
      this.defaultAllow := defaultAction != "deny";
      this.overrides := overrides;
    }

    method AllowsPeer(peer: string) returns (r: bool)
      ensures r == State().AllowsPeer(peer)
    {
      r := if peer in overrides then overrides[peer] else defaultAllow;
    }

    method Block(peer: string)
      modifies this
      ensures State() == old(State()).(overrides := old(overrides)[peer := false])
      ensures forall p :: State().AllowsPeer(p) == (p != peer && old(State()).AllowsPeer(p))
    {
      overrides := overrides[peer := false];
    }

    method Allow(peer: string)
      modifies this
      ensures State() == old(State()).(overrides := old(overrides)[peer := true])
      ensures forall p :: State().AllowsPeer(p) == (p == peer || old(State()).AllowsPeer(p))
    {
      overrides := overrides[peer := true];
    }

    method Reset(peer: string)
      modifies this
      ensures State() == old(State()).(overrides := old(overrides) - {peer})
      ensures forall p :: State().AllowsPeer(p)
                          == if p == peer then old(defaultAllow) else old(State()).AllowsPeer(p)
    {
      overrides := overrides - {peer};
    }

    method SetDefault(action: string)
      modifies this
      ensures State() == old(State()).(defaultAllow := action != "deny")
      ensures forall p :: State().AllowsPeer(p)
                          == if p in old(overrides) then old(State()).AllowsPeer(p) else action != "deny"
    {
      defaultAllow := action != "deny";
    }

    method BlockedPeers() returns (peers: set<string>)
      ensures forall p :: p in peers <==> p in overrides && !State().AllowsPeer(p)
    {
      peers := set p | p in overrides && !overrides[p];
    }
  }

  class PairBlockPolicy {
    const nodeId: string
    var pairs: Pairs

    constructor (nodeId: string, pairs: Pairs)
      ensures this.nodeId == nodeId && this.pairs == pairs
    {
      this.nodeId := nodeId;
      this.pairs := pairs;
    }

    method Allows(originator: string) returns (r: bool)
      ensures r == PairAllows(pairs, nodeId, originator)
    {
      r := nodeId !in pairs || pairs[nodeId] == {} || originator !in pairs[nodeId];
    }

    method Block(observer: string, originator: string)
      modifies this
      ensures pairs == Blocked(old(pairs), observer, originator)
    {
      if observer !in pairs {
        pairs := pairs[observer := {}];
      }
      pairs := pairs[observer := pairs[observer] + {originator}];
    }

    method Allow(observer: string, originator: string)
      modifies this
      ensures pairs == Unblocked(old(pairs), observer, originator)
    {
      if observer in pairs && pairs[observer] != {} {
        pairs := pairs[observer := pairs[observer] - {originator}];
        if pairs[observer] == {} {
          pairs := pairs - {observer};
        }
      }
    }
  }

  function Blocked(pairs: Pairs, observer: string, originator: string): Pairs {
    pairs[observer := (if observer in pairs then pairs[observer] else {}) + {originator}]
  }

  function Unblocked(pairs: Pairs, observer: string, originator: string): Pairs {
    if observer !in pairs || pairs[observer] == {} then pairs
    else if pairs[observer] <= {originator} then pairs - {observer}
    else pairs[observer := pairs[observer] - {originator}]
  }

  /** Blocking and allowing change exactly the one cell they name. */
  lemma PairEditsOneCell(pairs: Pairs, observer: string, originator: string, o: string, q: string)
    ensures PairAllows(Blocked(pairs, observer, originator), o, q)
            == ((o, q) != (observer, originator) && PairAllows(pairs, o, q))
    ensures PairAllows(Unblocked(pairs, observer, originator), o, q)
            == ((o, q) == (observer, originator) || PairAllows(pairs, o, q))
  {
  }
}
