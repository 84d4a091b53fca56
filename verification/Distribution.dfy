/** One authority versions and broadcasts the coalition policy; any number of receivers apply what a
    lossy, duplicating, reordering channel hands them. Other members may put anything on the channel. */
module Distribution {
  import opened Json
  import opened Policy
  import opened Signing
  import opened PolicyUpdate

  /** The edits only the authority may make. */
  datatype Edit =
    | Block(peer: string)
    | Allow(peer: string)
    | Reset(peer: string)
    | SetDefault(action: string)
    | BlockPair(observer: string, originator: string)
    | AllowPair(observer: string, originator: string)

  function Apply(e: Edit, c: Coalition): Coalition {
    var m := c.matrix;
    match e
    case Block(p) => c.(matrix := m.(overrides := m.overrides[p := false]))
    case Allow(p) => c.(matrix := m.(overrides := m.overrides[p := true]))
    case Reset(p) => c.(matrix := m.(overrides := m.overrides - {p}))
    case SetDefault(a) => c.(matrix := m.(defaultAllow := a != "deny"))
    case BlockPair(o, q) => c.(pairs := Blocked(c.pairs, o, q))
    case AllowPair(o, q) => c.(pairs := Unblocked(c.pairs, o, q))
  }

  /** What each edit does to the answers: it changes the one it names, a new default changes those of the
      peers without an override, and no edit of the matrix touches the pairs or the other way round. */
  lemma EditMeans(e: Edit, c: Coalition)
    ensures var c' := Apply(e, c);
            match e
            case Block(p) =>
              c'.pairs == c.pairs && c'.matrix.overrides.Keys == c.matrix.overrides.Keys + {p}
              && c'.matrix.defaultAllow == c.matrix.defaultAllow
              && forall x :: c'.matrix.AllowsPeer(x) <==> x != p && c.matrix.AllowsPeer(x)
            case Allow(p) =>
              c'.pairs == c.pairs && c'.matrix.overrides.Keys == c.matrix.overrides.Keys + {p}
              && c'.matrix.defaultAllow == c.matrix.defaultAllow
              && forall x :: c'.matrix.AllowsPeer(x) <==> x == p || c.matrix.AllowsPeer(x)
            case Reset(p) =>
              c'.pairs == c.pairs && c'.matrix.overrides.Keys == c.matrix.overrides.Keys - {p}
              && c'.matrix.defaultAllow == c.matrix.defaultAllow
              && forall x :: c'.matrix.AllowsPeer(x) <==> if x == p then c.matrix.defaultAllow else c.matrix.AllowsPeer(x)
            case SetDefault(a) =>
              c'.pairs == c.pairs && c'.matrix.overrides == c.matrix.overrides
              && forall x :: c'.matrix.AllowsPeer(x) <==>
                               if x in c.matrix.overrides then c.matrix.AllowsPeer(x) else a != "deny"
            case BlockPair(observer, originator) =>
              c'.matrix == c.matrix
              && forall o, q :: PairAllows(c'.pairs, o, q) <==>
                                  (o, q) != (observer, originator) && PairAllows(c.pairs, o, q)
            case AllowPair(observer, originator) =>
              c'.matrix == c.matrix
              && forall o, q :: PairAllows(c'.pairs, o, q) <==>
                                  (o, q) == (observer, originator) || PairAllows(c.pairs, o, q)
  {
    match e
    case BlockPair(observer, originator) =>
      forall o, q ensures PairAllows(Apply(e, c).pairs, o, q) <==>
                            (o, q) != (observer, originator) && PairAllows(c.pairs, o, q)
      {
        PairEditsOneCell(c.pairs, observer, originator, o, q);
      }
    case AllowPair(observer, originator) =>
      forall o, q ensures PairAllows(Apply(e, c).pairs, o, q) <==>
                            (o, q) == (observer, originator) || PairAllows(c.pairs, o, q)
      {
        PairEditsOneCell(c.pairs, observer, originator, o, q);
      }
    case _ =>
  }

  /** Deployment: who the authority is, whether it signs and whether receivers hold its public key. */
  datatype Config = Config(authority: string, signs: bool, verifies: bool)

  datatype Receiver = Receiver(version: int, matrix: Matrix, pairs: Pairs)

  /** A node that is not the authority starts permissive, at version 0. */
  const FRESH := Receiver(0, Matrix(true, map[]), map[])

  predicate Accepts(cfg: Config, r: Receiver, u: Update) {
    && u.node == cfg.authority
    && (cfg.verifies ==> Verify(Payload(u), u.sig))
    && u.version > r.version
  }

  /** The fields are replaced in order; an exception keeps what was assigned before it. */
  function Install(r: Receiver, u: Update): Receiver
    requires Parsed(u)
  {
    var defaultAllow := u.defaultAction != Str("deny");
    match ReadOverrides(u.overrides)
    case None => Receiver(u.version, r.matrix.(defaultAllow := defaultAllow), r.pairs)
    case Some(o) =>
      Receiver(u.version, Matrix(defaultAllow, o),
               match ReadPairs(u.pairs) case None => r.pairs case Some(p) => p)
  }

  function Receive(cfg: Config, r: Receiver, u: Update): Receiver
    requires Parsed(u)
  {
    if Accepts(cfg, r, u) then Install(r, u) else r
  }

  // ------------------------------------------------------------ the protocol

  /** history[v - 1] is the authority's policy at its version v. wire holds every message ever put on
      the channel: delivering any of them, any number of times or never, is loss, duplication and
      reordering. signed holds every payload the authority has signed. */
  datatype World = World(history: seq<Coalition>, receivers: map<string, Receiver>,
                         wire: set<Update>, signed: set<string>)

  datatype Step =
    | Commit(edit: Edit, u: Update)
    | Rebroadcast(u: Update)
    | Inject(u: Update)
    | Deliver(id: string, u: Update)
    | Join(id: string)

  ghost predicate Init(w: World) {
    |w.history| == 1 && w.receivers == map[] && w.wire == {} && w.signed == {}
  }

  function Current(w: World): Coalition
    requires w.history != []
  {
    w.history[|w.history| - 1]
  }

  /** What _broadcast sends in the state w. */
  ghost predicate Broadcasts(cfg: Config, w: World, u: Update)
    requires w.history != []
  {
    && u.node == cfg.authority && u.version == |w.history| && Encodes(u, Current(w))
    && (cfg.signs ==> u.sig == Over(Payload(u)))
    && (!cfg.signs ==> u.sig == Junk(""))
  }

  function Sent(cfg: Config, w: World, u: Update): World {
    w.(wire := w.wire + {u}, signed := if cfg.signs then w.signed + {Payload(u)} else w.signed)
  }

  /** Without a verifier the model trusts members not to write the authority's id; with one it trusts
      them with nothing but the inability to sign. */
  ghost predicate MemberCanSend(cfg: Config, w: World, u: Update) {
    && Parsed(u)
    && (!cfg.verifies ==> u.node != cfg.authority)
    && (u.sig.Over? ==> u.sig.payload in w.signed)
  }

  ghost predicate Next(cfg: Config, w: World, s: Step, w': World)
    requires w.history != []
  {
    match s
    case Commit(e, u) =>
      var edited := w.(history := w.history + [Apply(e, Current(w))]);
      Broadcasts(cfg, edited, u) && w' == Sent(cfg, edited, u)
    case Rebroadcast(u) => Broadcasts(cfg, w, u) && w' == Sent(cfg, w, u)
    case Inject(u) => MemberCanSend(cfg, w, u) && w' == w.(wire := w.wire + {u})
    case Deliver(id, u) =>
      && u in w.wire && Parsed(u) && id in w.receivers
      && w' == w.(receivers := w.receivers[id := Receive(cfg, w.receivers[id], u)])
    case Join(id) =>
      id != cfg.authority && id !in w.receivers && w' == w.(receivers := w.receivers[id := FRESH])
  }

  ghost predicate Run(cfg: Config, ws: seq<World>, steps: seq<Step>) {
    && |ws| == |steps| + 1 && Init(ws[0])
    && forall i | 0 <= i < |steps| :: ws[i].history != [] && Next(cfg, ws[i], steps[i], ws[i + 1])
  }

  // ------------------------------------------------------------ the invariant

  ghost predicate Wrote(history: seq<Coalition>, u: Update) {
    1 <= u.version <= |history| && Encodes(u, history[u.version - 1])
  }

  ghost predicate Signed(w: World, p: string) {
    exists u: Update :: Wrote(w.history, u) && p == Payload(u)
  }

  predicate Trusted(cfg: Config, u: Update) {
    u.node == cfg.authority && (cfg.verifies ==> Verify(Payload(u), u.sig))
  }

  /** u is on the channel, so if a receiver trusts it, it carries the authority's policy at u.version. */
  ghost predicate Genuine(cfg: Config, w: World, u: Update) {
    && Parsed(u)
    && (Trusted(cfg, u) ==> 1 <= u.version <= |w.history| && Carries(u, w.history[u.version - 1]))
    && (u.sig.Over? ==> u.sig.payload in w.signed)
  }

  /** Version and matrix agree with the authority's history. */
  ghost predicate MatrixAgrees(w: World, r: Receiver) {
    && 0 <= r.version <= |w.history|
    && (r.version == 0 ==> r == FRESH)
    && (r.version > 0 ==> r.matrix == w.history[r.version - 1].matrix)
  }

  ghost predicate PairsAgree(w: World, r: Receiver) {
    0 < r.version <= |w.history| ==> r.pairs == NonEmpty(w.history[r.version - 1].pairs)
  }

  ghost predicate Inv(cfg: Config, w: World) {
    && w.history != []
    && (forall p | p in w.signed :: Signed(w, p))
    && (forall u | u in w.wire :: Genuine(cfg, w, u))
    && (forall id | id in w.receivers :: MatrixAgrees(w, w.receivers[id]))
  }

  lemma GrownSigned(w: World, w': World, p: string)
    requires w.history <= w'.history && Signed(w, p)
    ensures Signed(w', p)
  {
    var u: Update :| Wrote(w.history, u) && p == Payload(u);
    assert w'.history[u.version - 1] == w.history[u.version - 1];
    assert Wrote(w'.history, u);
  }

  lemma GrownGenuine(cfg: Config, w: World, w': World, u: Update)
    requires w.history <= w'.history && w.signed <= w'.signed && Genuine(cfg, w, u)
    ensures Genuine(cfg, w', u)
  {
  }

  lemma GrownAgrees(w: World, w': World, r: Receiver)
    requires w.history <= w'.history && MatrixAgrees(w, r)
    ensures MatrixAgrees(w', r)
    ensures PairsAgree(w, r) ==> PairsAgree(w', r)
  {
  }

  lemma Grown(cfg: Config, w: World, w': World)
    requires Inv(cfg, w) && w.history <= w'.history && w.signed <= w'.signed
    ensures forall p | p in w.signed :: Signed(w', p)
    ensures forall u | u in w.wire :: Genuine(cfg, w', u)
    ensures forall id | id in w.receivers :: MatrixAgrees(w', w.receivers[id])
  {
    forall p | p in w.signed ensures Signed(w', p) { GrownSigned(w, w', p); }
    forall u | u in w.wire ensures Genuine(cfg, w', u) { GrownGenuine(cfg, w, w', u); }
    forall id | id in w.receivers ensures MatrixAgrees(w', w.receivers[id]) {
      GrownAgrees(w, w', w.receivers[id]);
    }
  }

  lemma BroadcastIsGenuine(cfg: Config, w: World, u: Update)
    requires w.history != [] && Broadcasts(cfg, w, u)
    ensures Genuine(cfg, Sent(cfg, w, u), u)
    ensures Wrote(w.history, u)
  {
    EncodedCarries(u, Current(w));
  }

  lemma SentKeepsInv(cfg: Config, w: World, u: Update)
    requires Inv(cfg, w) && Broadcasts(cfg, w, u)
    ensures Inv(cfg, Sent(cfg, w, u))
  {
    hide Genuine, MatrixAgrees, Wrote, Encodes, Payload;
    var w' := Sent(cfg, w, u);
    BroadcastIsGenuine(cfg, w, u);
    Grown(cfg, w, w');
    assert Signed(w', Payload(u));
  }

  lemma SignedIsGenuine(history: seq<Coalition>, u: Update, u0: Update)
    requires Parsed(u) && Wrote(history, u0) && Payload(u) == Payload(u0)
    ensures 1 <= u.version <= |history| && Carries(u, history[u.version - 1])
  {
    SignedContent(u, u0, history[u0.version - 1]);
  }

  lemma InjectedIsGenuine(cfg: Config, w: World, u: Update)
    requires forall p | p in w.signed :: Signed(w, p)
    requires MemberCanSend(cfg, w, u)
    ensures Genuine(cfg, w, u)
  {
    if Trusted(cfg, u) {
      assert Signed(w, Payload(u));
      var u0: Update :| Wrote(w.history, u0) && Payload(u) == Payload(u0);
      SignedIsGenuine(w.history, u, u0);
    }
  }

  lemma InstallAgrees(cfg: Config, w: World, r: Receiver, u: Update)
    requires Genuine(cfg, w, u) && MatrixAgrees(w, r) && Accepts(cfg, r, u)
    ensures MatrixAgrees(w, Receive(cfg, r, u))
    ensures PairsAgree(w, Receive(cfg, r, u)) <==> u.pairs.Obj? || r.pairs == map[]
  {
    assert Trusted(cfg, u);
  }

  lemma EditKeepsInv(cfg: Config, w: World, w': World)
    requires Inv(cfg, w) && w.history <= w'.history && w' == w.(history := w'.history)
    ensures Inv(cfg, w')
  {
    Grown(cfg, w, w');
  }

  lemma InjectKeepsInv(cfg: Config, w: World, u: Update)
    requires Inv(cfg, w) && MemberCanSend(cfg, w, u)
    ensures Inv(cfg, w.(wire := w.wire + {u}))
  {
    var w' := w.(wire := w.wire + {u});
    InjectedIsGenuine(cfg, w, u);
    Grown(cfg, w, w');
    GrownGenuine(cfg, w, w', u);
  }

  lemma ReceiversKeepInv(cfg: Config, w: World, id: string, r: Receiver)
    requires Inv(cfg, w) && MatrixAgrees(w, r)
    ensures Inv(cfg, w.(receivers := w.receivers[id := r]))
  {
    var w' := w.(receivers := w.receivers[id := r]);
    Grown(cfg, w, w');
    GrownAgrees(w, w', r);
  }

  lemma NextKeepsInv(cfg: Config, w: World, s: Step, w': World)
    requires Inv(cfg, w) && Next(cfg, w, s, w')
    ensures Inv(cfg, w')
  {
    match s
    case Commit(e, u) =>
      var edited := w.(history := w.history + [Apply(e, Current(w))]);
      EditKeepsInv(cfg, w, edited);
      SentKeepsInv(cfg, edited, u);
    case Rebroadcast(u) => SentKeepsInv(cfg, w, u);
    case Inject(u) => InjectKeepsInv(cfg, w, u);
    case Deliver(id, u) =>
      var r := w.receivers[id];
      if Accepts(cfg, r, u) {
        InstallAgrees(cfg, w, r, u);
      }
      ReceiversKeepInv(cfg, w, id, Receive(cfg, r, u));
    case Join(id) => ReceiversKeepInv(cfg, w, id, FRESH);
  }

  /** Every reachable state keeps the invariant, whatever other members put on the channel. */
  lemma {:induction false} RunKeepsInv(cfg: Config, ws: seq<World>, steps: seq<Step>, i: nat)
    requires Run(cfg, ws, steps) && i < |ws|
    ensures Inv(cfg, ws[i])
    decreases i
  {
    if i > 0 {
      RunKeepsInv(cfg, ws, steps, i - 1);
      NextKeepsInv(cfg, ws[i - 1], steps[i - 1], ws[i]);
    }
  }

  // ------------------------------------------------------------ what a receiver answers

  /** r answers every peer query and every pair query as the authority's policy c did. */
  ghost predicate AnswersAs(r: Receiver, c: Coalition) {
    && (forall p :: r.matrix.AllowsPeer(p) == c.matrix.AllowsPeer(p))
    && (forall o, q :: PairAllows(r.pairs, o, q) == PairAllows(c.pairs, o, q))
  }

  /** Version bounds and peer answers hold in every run, against every member of the channel. */
  lemma PeerAnswersFollowHistory(cfg: Config, ws: seq<World>, steps: seq<Step>, i: nat, id: string)
    requires Run(cfg, ws, steps) && i < |ws| && id in ws[i].receivers
    ensures var r := ws[i].receivers[id];
            && 0 <= r.version <= |ws[i].history|
            && (r.version > 0 ==>
                  forall p :: r.matrix.AllowsPeer(p) == ws[i].history[r.version - 1].matrix.AllowsPeer(p))
  {
    RunKeepsInv(cfg, ws, steps, i);
    assert MatrixAgrees(ws[i], ws[i].receivers[id]);
  }

  /** No replay that a receiver would trust has pairs rewritten to null or another non-object. */
  predicate PairsAreObjects(cfg: Config, steps: seq<Step>) {
    forall i | 0 <= i < |steps| && steps[i].Inject? :: Trusted(cfg, steps[i].u) ==> steps[i].u.pairs.Obj?
  }

  ghost predicate PairsInv(cfg: Config, w: World) {
    && (forall u | u in w.wire :: Trusted(cfg, u) ==> u.pairs.Obj?)
    && (forall id | id in w.receivers :: PairsAgree(w, w.receivers[id]))
  }

  lemma GrownPairs(cfg: Config, w: World, w': World)
    requires PairsInv(cfg, w) && w.history <= w'.history
    requires forall id | id in w.receivers :: MatrixAgrees(w, w.receivers[id])
    ensures forall id | id in w.receivers :: PairsAgree(w', w.receivers[id])
  {
    forall id | id in w.receivers ensures PairsAgree(w', w.receivers[id]) {
      GrownAgrees(w, w', w.receivers[id]);
    }
  }

  lemma NextKeepsPairs(cfg: Config, w: World, s: Step, w': World)
    requires Inv(cfg, w) && PairsInv(cfg, w) && Next(cfg, w, s, w')
    requires s.Inject? && Trusted(cfg, s.u) ==> s.u.pairs.Obj?
    ensures PairsInv(cfg, w')
  {
    hide Genuine, Payload, MatrixAgrees, Trusted, PairsAgree, Receive, Apply;
    FreshHoldsNothing(w');
    GrownPairs(cfg, w, w');
    if s.Deliver? {
      DeliverKeepsPairs(cfg, w, w.receivers[s.id], s.u);
      SameHistory(w, w', Receive(cfg, w.receivers[s.id], s.u));
    }
  }

  lemma SameHistory(w: World, w': World, r: Receiver)
    requires w.history == w'.history && PairsAgree(w, r)
    ensures PairsAgree(w', r)
  {
  }

  lemma FreshHoldsNothing(w: World)
    ensures PairsAgree(w, FRESH)
  {
  }

  lemma DeliverKeepsPairs(cfg: Config, w: World, r: Receiver, u: Update)
    requires Genuine(cfg, w, u) && (Trusted(cfg, u) ==> u.pairs.Obj?) && MatrixAgrees(w, r) && PairsAgree(w, r)
    ensures PairsAgree(w, Receive(cfg, r, u))
  {
    if Accepts(cfg, r, u) {
      InstallAgrees(cfg, w, r, u);
    }
  }

  lemma InitPairs(cfg: Config, w: World)
    requires Init(w)
    ensures PairsInv(cfg, w)
  {
  }

  lemma {:induction false} RunKeepsPairs(cfg: Config, ws: seq<World>, steps: seq<Step>, i: nat)
    requires Run(cfg, ws, steps) && PairsAreObjects(cfg, steps) && i < |ws|
    ensures PairsInv(cfg, ws[i])
    decreases i
  {
    hide PairsInv, Inv, Next, Trusted;
    if i == 0 {
      InitPairs(cfg, ws[0]);
    } else {
      RunKeepsPairs(cfg, ws, steps, i - 1);
      RunKeepsInv(cfg, ws, steps, i - 1);
      NextKeepsPairs(cfg, ws[i - 1], steps[i - 1], ws[i]);
    }
  }

  /** The history theorem: a receiver at version v answers every query as the authority did at v. */
  lemma AnswersFollowHistory(cfg: Config, ws: seq<World>, steps: seq<Step>, i: nat, id: string)
    requires Run(cfg, ws, steps) && PairsAreObjects(cfg, steps) && i < |ws| && id in ws[i].receivers
    ensures var r := ws[i].receivers[id];
            && 0 <= r.version <= |ws[i].history|
            && (r.version > 0 ==> AnswersAs(r, ws[i].history[r.version - 1]))
  {
    PeerAnswersFollowHistory(cfg, ws, steps, i, id);
    RunKeepsPairs(cfg, ws, steps, i);
    var r := ws[i].receivers[id];
    assert PairsAgree(ws[i], r);
    if r.version > 0 {
      EmptyRowsAnswerNothing(ws[i].history[r.version - 1].pairs);
    }
  }

  // ------------------------------------------------------------ whatever pairs other members send

  /** pairs are the authority's blocks at its version k. */
  ghost predicate BlocksAt(w: World, k: int, pairs: Pairs) {
    1 <= k <= |w.history| && pairs == NonEmpty(w.history[k - 1].pairs)
  }

  /** The pair blocks are the authority's at the receiver's version, or an earlier version's kept where
      the authority has none left. */
  ghost predicate PairsFromHistory(w: World, r: Receiver) {
    0 < r.version <= |w.history| ==>
      PairsAgree(w, r)
      || (NonEmpty(w.history[r.version - 1].pairs) == map[]
          && exists k :: k < r.version && BlocksAt(w, k, r.pairs))
  }

  lemma GrownFromHistory(w: World, w': World, r: Receiver)
    requires w.history <= w'.history && MatrixAgrees(w, r) && PairsFromHistory(w, r)
    ensures PairsFromHistory(w', r)
  {
    if 0 < r.version && !PairsAgree(w, r) {
      var k :| k < r.version && BlocksAt(w, k, r.pairs);
      assert BlocksAt(w', k, r.pairs);
    }
  }

  lemma InstallFromHistory(cfg: Config, w: World, r: Receiver, u: Update)
    requires Genuine(cfg, w, u) && MatrixAgrees(w, r) && PairsFromHistory(w, r) && Accepts(cfg, r, u)
    ensures PairsFromHistory(w, Receive(cfg, r, u))
  {
    InstallAgrees(cfg, w, r, u);
    var r' := Receive(cfg, r, u);
    assert Trusted(cfg, u);
    if !u.pairs.Obj? && r.version > 0 {
      assert r'.pairs == r.pairs && NonEmpty(w.history[r'.version - 1].pairs) == map[];
      if PairsAgree(w, r) {
        assert BlocksAt(w, r.version, r'.pairs);
      } else {
        var k :| k < r.version && BlocksAt(w, k, r.pairs);
        assert k < r'.version && BlocksAt(w, k, r'.pairs);
      }
    }
  }

  lemma NextKeepsFromHistory(cfg: Config, w: World, s: Step, w': World)
    requires Inv(cfg, w) && Next(cfg, w, s, w')
    requires forall id | id in w.receivers :: PairsFromHistory(w, w.receivers[id])
    ensures forall id | id in w'.receivers :: PairsFromHistory(w', w'.receivers[id])
  {
    forall id | id in w.receivers ensures PairsFromHistory(w', w.receivers[id]) {
      GrownFromHistory(w, w', w.receivers[id]);
    }
    if s.Deliver? && Accepts(cfg, w.receivers[s.id], s.u) {
      var r := w.receivers[s.id];
      InstallFromHistory(cfg, w, r, s.u);
      InstallAgrees(cfg, w, r, s.u);
      GrownFromHistory(w, w', Receive(cfg, r, s.u));
    }
    hide Genuine, PairsAgree, Payload, Install, Accepts, Trusted;
  }

  /** In every run, against every member of the channel: the pair blocks held at version v > 0 are the
      authority's at v, or, only where the authority has none at v, its blocks at some earlier version. */
  lemma {:induction false} PairsComeFromHistory(cfg: Config, ws: seq<World>, steps: seq<Step>, i: nat)
    requires Run(cfg, ws, steps) && i < |ws|
    ensures forall id | id in ws[i].receivers :: PairsFromHistory(ws[i], ws[i].receivers[id])
    decreases i
  {
    if i > 0 {
      PairsComeFromHistory(cfg, ws, steps, i - 1);
      RunKeepsInv(cfg, ws, steps, i - 1);
      NextKeepsFromHistory(cfg, ws[i - 1], steps[i - 1], ws[i]);
    }
  }

  /** What an accepted update with an object for overrides installs, entry by entry: only the word "allow" allows
      a listed peer, and only the word "deny" denies the others. */
  lemma InstallReads(cfg: Config, r: Receiver, u: Update, i: nat, p: string)
    requires Parsed(u) && Accepts(cfg, r, u) && u.overrides.Obj?
    ensures var r' := Receive(cfg, r, u);
            && r'.version == u.version
            && (i < |u.overrides.fields| ==>
                  r'.matrix.AllowsPeer(u.overrides.fields[i].key) == (u.overrides.fields[i].value == Str("allow")))
            && (p !in KeysOf(u.overrides.fields) ==> r'.matrix.AllowsPeer(p) == (u.defaultAction != Str("deny")))
  {
    hide Payload, Verify, Entries, ReadPairs;
    if i < |u.overrides.fields| {
      EntryAt(u.overrides.fields, i);
    }
  }

  /** Where its pairs are an object of lists of texts, exactly the listed originators are refused. */
  lemma InstallReadsPairs(cfg: Config, r: Receiver, u: Update, k: nat, o: string, q: string)
    requires Parsed(u) && Accepts(cfg, r, u) && u.overrides.Obj? && u.pairs.Obj? && ReadPairs(u.pairs).Some?
    ensures var r' := Receive(cfg, r, u);
            && (k < |u.pairs.fields| && u.pairs.fields[k].value.Arr? ==>
                  PairAllows(r'.pairs, u.pairs.fields[k].key, q) == (Str(q) !in u.pairs.fields[k].value.elems))
            && (o !in KeysOf(u.pairs.fields) ==> PairAllows(r'.pairs, o, q))
  {
    InstalledPairs(cfg, r, u);
    hide Payload, Verify, Entries, WellFormed, Receive, Accepts;
    if k < |u.pairs.fields| {
      EntryAt(u.pairs.fields, k);
      if u.pairs.fields[k].value.Arr? {
        RowReads(u.pairs.fields[k].value, q);
      }
      hide SetOf, Truthy;
    }
  }

  lemma InstalledPairs(cfg: Config, r: Receiver, u: Update)
    requires Parsed(u) && Accepts(cfg, r, u) && u.overrides.Obj? && u.pairs.Obj? && ReadPairs(u.pairs).Some?
    ensures Receive(cfg, r, u).pairs == ReadRows(Entries(u.pairs.fields)).value
    ensures ReadRows(Entries(u.pairs.fields)).Some?
  {
    hide Payload, Verify, Entries, ReadRows, WellFormed;
  }

  lemma RowReads(row: Json, q: string)
    requires row.Arr? && SetOf(row).Some?
    ensures q in SetOf(row).value <==> Str(q) in row.elems
    ensures !Truthy(row) <==> row.elems == []
  {
  }

  /** Exactly when accepting an update keeps the history theorem: when its pairs field is an object,
      or the receiver blocked no pair to begin with. */
  lemma InstallAnswersExactlyWhen(cfg: Config, w: World, r: Receiver, u: Update)
    requires Genuine(cfg, w, u) && MatrixAgrees(w, r) && Accepts(cfg, r, u)
    ensures AnswersAs(Receive(cfg, r, u), w.history[u.version - 1])
            <==> u.pairs.Obj? || forall o, q :: PairAllows(r.pairs, o, q)
  {
    var r' := Receive(cfg, r, u);
    var c := w.history[u.version - 1];
    EmptyRowsAnswerNothing(c.pairs);
    InstallAgrees(cfg, w, r, u);
    assert Trusted(cfg, u);
    if !u.pairs.Obj? {
      assert r'.pairs == r.pairs;
      assert forall o, q :: PairAllows(NonEmpty(c.pairs), o, q);
    }
  }

  /** The failing input: the signature of version 3, which lifts a pair block, also covers a copy with
      pairs null. A receiver takes the version from that copy and keeps the block. */
  lemma NullPairsKeepsOldBlock()
    ensures var cfg := Config("a", true, true);
            var lifted := Coalition(Matrix(true, map[]), map[]);
            var sent := Update("a", 3, Str("allow"), Obj([]), Obj([]), Junk(""));
            var replay := sent.(pairs := Null, sig := Over(Payload(sent)));
            var r := Receiver(2, Matrix(true, map[]), map["b" := {"c"}]);
            && Encodes(sent, lifted) && Accepts(cfg, r, replay)
            && Receive(cfg, r, replay).version == 3
            && PairAllows(lifted.pairs, "b", "c")
            && !PairAllows(Receive(cfg, r, replay).pairs, "b", "c")
  {
    hide Dumps, Canon;
    var sent := Update("a", 3, Str("allow"), Obj([]), Obj([]), Junk(""));
    assert OrEmpty(Null) == OrEmpty(Obj([]));
    assert Payload(sent.(pairs := Null)) == Payload(sent);
  }

  lemma {:induction false} HistoryGrows(cfg: Config, ws: seq<World>, steps: seq<Step>, i: nat, k: nat)
    requires Run(cfg, ws, steps) && i <= k < |ws|
    ensures ws[i].history <= ws[k].history
    decreases k
  {
    hide Next;
    if i < k {
      HistoryGrows(cfg, ws, steps, i, k - 1);
      NextGrows(cfg, ws[k - 1], steps[k - 1], ws[k]);
    }
  }

  lemma NextGrows(cfg: Config, w: World, s: Step, w': World)
    requires w.history != [] && Next(cfg, w, s, w')
    ensures w.history <= w'.history
  {
    hide Broadcasts, MemberCanSend, Receive, Apply;
  }

  /** Versions never decrease, on either side. */
  lemma {:induction false} VersionsNeverDecrease(cfg: Config, ws: seq<World>, steps: seq<Step>, i: nat, k: nat, id: string)
    requires Run(cfg, ws, steps) && i <= k < |ws| && id in ws[i].receivers
    ensures id in ws[k].receivers && ws[i].receivers[id].version <= ws[k].receivers[id].version
    ensures ws[i].history <= ws[k].history
    decreases k
  {
    HistoryGrows(cfg, ws, steps, i, k);
    if i < k {
      VersionsNeverDecrease(cfg, ws, steps, i, k - 1, id);
      assert Next(cfg, ws[k - 1], steps[k - 1], ws[k]);
    }
  }

  // ------------------------------------------------------------ edits stand

  predicate Commits(s: Step, e: Edit) {
    s.Commit? && s.edit == e
  }

  /** The authority's word on p, allowed or blocked, is given at step i and not taken back before step k. */
  ghost predicate WordStands(steps: seq<Step>, i: nat, k: nat, p: string, allowed: bool) {
    && i < |steps| && Commits(steps[i], if allowed then Allow(p) else Block(p))
    && forall j | i < j < k && j < |steps| ::
         !Commits(steps[j], Reset(p)) && !Commits(steps[j], if allowed then Block(p) else Allow(p))
  }

  ghost predicate PairWordStands(steps: seq<Step>, i: nat, k: nat, o: string, q: string, allowed: bool) {
    && i < |steps| && Commits(steps[i], if allowed then AllowPair(o, q) else BlockPair(o, q))
    && forall j | i < j < k && j < |steps| :: !Commits(steps[j], if allowed then BlockPair(o, q) else AllowPair(o, q))
  }

  /** Whatever else the authority edits meanwhile, every policy in its history since it blocked or allowed a
      peer answers so for that peer. */
  lemma {:induction false} WordIsKept(cfg: Config, ws: seq<World>, steps: seq<Step>, i: nat, k: nat, p: string,
                                      allowed: bool)
    requires Run(cfg, ws, steps) && i < k < |ws| && WordStands(steps, i, k, p, allowed)
    ensures forall v | |ws[i].history| <= v < |ws[k].history| ::
              p in ws[k].history[v].matrix.overrides && ws[k].history[v].matrix.AllowsPeer(p) == allowed
    ensures |ws[i].history| < |ws[k].history|
    decreases k
  {
    hide Inv, Broadcasts, Encodes;
    var w, s := ws[k - 1], steps[k - 1];
    assert Next(cfg, w, s, ws[k]);
    if i < k - 1 {
      WordIsKept(cfg, ws, steps, i, k - 1, p, allowed);
    }
    if s.Commit? {
      EditMeans(s.edit, Current(w));
    }
  }

  lemma {:induction false} PairWordIsKept(cfg: Config, ws: seq<World>, steps: seq<Step>, i: nat, k: nat, o: string,
                                          q: string, allowed: bool)
    requires Run(cfg, ws, steps) && i < k < |ws| && PairWordStands(steps, i, k, o, q, allowed)
    ensures forall v | |ws[i].history| <= v < |ws[k].history| :: PairAllows(ws[k].history[v].pairs, o, q) == allowed
    ensures |ws[i].history| < |ws[k].history|
    decreases k
  {
    hide Inv, Broadcasts, Encodes;
    var w, s := ws[k - 1], steps[k - 1];
    assert Next(cfg, w, s, ws[k]);
    if i < k - 1 {
      PairWordIsKept(cfg, ws, steps, i, k - 1, o, q, allowed);
    }
    if s.Commit? {
      EditMeans(s.edit, Current(w));
    }
  }

  /** So every receiver that has reached the version of such an edit answers so too, in every run. */
  lemma ReceiversKeepWord(cfg: Config, ws: seq<World>, steps: seq<Step>, i: nat, k: nat, p: string, allowed: bool,
                          id: string)
    requires Run(cfg, ws, steps) && i < k < |ws| && WordStands(steps, i, k, p, allowed)
    requires id in ws[k].receivers && ws[k].receivers[id].version > |ws[i].history|
    ensures ws[k].receivers[id].matrix.AllowsPeer(p) == allowed
  {
    WordIsKept(cfg, ws, steps, i, k, p, allowed);
    PeerAnswersFollowHistory(cfg, ws, steps, k, id);
  }

  // ------------------------------------------------------------ convergence

  predicate AllParsed(us: seq<Update>) {
    forall i | 0 <= i < |us| :: Parsed(us[i])
  }

  /** u is genuine and, if it can be trusted, has an object for pairs. */
  ghost predicate Sound(cfg: Config, w: World, u: Update) {
    Genuine(cfg, w, u) && (Trusted(cfg, u) ==> u.pairs.Obj?)
  }

  ghost predicate AllSound(cfg: Config, w: World, us: seq<Update>)
    ensures AllSound(cfg, w, us) ==> AllParsed(us)
  {
    forall i | 0 <= i < |us| :: Sound(cfg, w, us[i])
  }

  /** Whatever is taken off the channel of a run is sound. */
  lemma ChannelIsSound(cfg: Config, ws: seq<World>, steps: seq<Step>, i: nat, us: seq<Update>)
    requires Run(cfg, ws, steps) && PairsAreObjects(cfg, steps) && i < |ws|
    requires forall u | u in us :: u in ws[i].wire
    ensures AllSound(cfg, ws[i], us)
  {
    RunKeepsInv(cfg, ws, steps, i);
    RunKeepsPairs(cfg, ws, steps, i);
    assert forall k | 0 <= k < |us| :: us[k] in us;
  }

  function DeliverAll(cfg: Config, r: Receiver, us: seq<Update>): Receiver
    requires AllParsed(us)
    decreases |us|
  {
    if us == [] then r else DeliverAll(cfg, Receive(cfg, r, us[0]), us[1..])
  }

  predicate TrustedVersion(cfg: Config, us: seq<Update>, v: int) {
    exists i :: 0 <= i < |us| && Trusted(cfg, us[i]) && us[i].version == v
  }

  /** The highest version among v and the trusted updates of us. */
  function Newest(cfg: Config, v: int, us: seq<Update>): (n: int)
    ensures n >= v && forall i | 0 <= i < |us| && Trusted(cfg, us[i]) :: us[i].version <= n
    ensures n == v || TrustedVersion(cfg, us, n)
    decreases |us|
  {
    if us == [] then v
    else
      var m := if Trusted(cfg, us[0]) && us[0].version > v then us[0].version else v;
      var n := Newest(cfg, m, us[1..]);
      assert forall i | 1 <= i < |us| :: us[i] == us[1..][i - 1];
      n
  }

  function AtVersion(w: World, r: Receiver, v: int): Receiver
    requires v == r.version || 1 <= v <= |w.history|
  {
    if v == r.version then r
    else Receiver(v, w.history[v - 1].matrix, NonEmpty(w.history[v - 1].pairs))
  }

  lemma {:induction false} DeliverAllIsNewest(cfg: Config, w: World, r: Receiver, us: seq<Update>)
    requires AllSound(cfg, w, us)
    ensures var n := Newest(cfg, r.version, us);
            && (n == r.version || 1 <= n <= |w.history|)
            && DeliverAll(cfg, r, us) == AtVersion(w, r, n)
    decreases |us|
  {
    if us != [] {
      ReceiveIsAtVersion(cfg, w, r, us[0]);
      AcceptsNewer(cfg, r, us[0]);
      DeliverOne(cfg, r, us);
      assert AllSound(cfg, w, us[1..]);
      hide AllSound, Sound, Genuine, Receive, Accepts, Trusted, DeliverAll, Newest;
      DeliverAllIsNewest(cfg, w, Receive(cfg, r, us[0]), us[1..]);
    }
  }

  lemma DeliverOne(cfg: Config, r: Receiver, us: seq<Update>)
    requires us != [] && AllParsed(us)
    ensures DeliverAll(cfg, r, us) == DeliverAll(cfg, Receive(cfg, r, us[0]), us[1..])
    ensures Newest(cfg, r.version, us) == Newest(cfg, Receive(cfg, r, us[0]).version, us[1..])
    ensures Newest(cfg, r.version, us) >= Receive(cfg, r, us[0]).version
  {
    hide Verify, Payload;
    ReceivedVersion(cfg, r, us[0]);
  }

  lemma ReceivedVersion(cfg: Config, r: Receiver, u: Update)
    requires Parsed(u)
    ensures Receive(cfg, r, u).version == if Trusted(cfg, u) && u.version > r.version then u.version else r.version
  {
    hide Verify, Payload, ReadOverrides, ReadPairs;
  }

  lemma AcceptsNewer(cfg: Config, r: Receiver, u: Update)
    ensures Accepts(cfg, r, u) <==> Trusted(cfg, u) && u.version > r.version
    ensures Parsed(u) && !Accepts(cfg, r, u) ==> Receive(cfg, r, u) == r
  {
  }

  lemma ReceiveIsAtVersion(cfg: Config, w: World, r: Receiver, u: Update)
    requires Sound(cfg, w, u)
    ensures Accepts(cfg, r, u) ==>
              1 <= u.version <= |w.history| && Receive(cfg, r, u) == AtVersion(w, r, u.version)
  {
    assert Accepts(cfg, r, u) ==> Trusted(cfg, u);
  }

  lemma NewestOfSameSet(cfg: Config, v: int, us: seq<Update>, vs: seq<Update>)
    requires forall u :: u in us ==> u in vs
    ensures Newest(cfg, v, us) <= Newest(cfg, v, vs)
  {
    var n := Newest(cfg, v, us);
    if n != v {
      var i :| 0 <= i < |us| && Trusted(cfg, us[i]) && us[i].version == n;
      assert us[i] in vs;
    }
  }

  /** Reordering and duplication change nothing: only which updates arrived matters. */
  lemma OrderIrrelevant(cfg: Config, w: World, r: Receiver, us: seq<Update>, vs: seq<Update>)
    requires AllSound(cfg, w, us) && AllSound(cfg, w, vs)
    requires forall u :: u in us <==> u in vs
    ensures DeliverAll(cfg, r, us) == DeliverAll(cfg, r, vs)
  {
    DeliverAllIsNewest(cfg, w, r, us);
    DeliverAllIsNewest(cfg, w, r, vs);
    NewestOfSameSet(cfg, r.version, us, vs);
    NewestOfSameSet(cfg, r.version, vs, us);
  }

  /** One copy of the latest broadcast, wherever it arrives among the rest, brings agreement. */
  lemma LatestSuffices(cfg: Config, w: World, r: Receiver, us: seq<Update>)
    requires w.history != [] && r.version < |w.history|
    requires AllSound(cfg, w, us) && TrustedVersion(cfg, us, |w.history|)
    ensures DeliverAll(cfg, r, us).version == |w.history|
    ensures AnswersAs(DeliverAll(cfg, r, us), Current(w))
  {
    hide Genuine, Trusted, DeliverAll, Newest;
    DeliverAllIsNewest(cfg, w, r, us);
    EmptyRowsAnswerNothing(Current(w).pairs);
    var n := Newest(cfg, r.version, us);
    assert n == |w.history|;
    assert DeliverAll(cfg, r, us) == AtVersion(w, r, n);
  }
}
