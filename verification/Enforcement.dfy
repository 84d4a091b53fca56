/** The coalition policy from the authority to the dispatches of one node: the exchange runs of a node whose
    control frames come off the channel of a distribution run. */
module Enforcement {
  import opened Wrappers
  import opened Messages
  import opened Wire
  import opened Json
  import opened Policy
  import opened PolicyUpdate
  import opened Signing
  import D = Distribution
  import E = Exchange

  /** The update a control frame carries, where the i-th event is one that can be read. */
  function UpdateAt(st: E.Stack, n: E.Node, e: E.Event): Option<Update> {
    if e.Arrives? && E.Judge(st, n, e.raw).Control? then
      match st.readUpdate(E.Judge(st, n, e.raw).payload)
      case Some(u) => if Parsed(u) then Some(u) else None
      case None => None
    else None
  }

  /** The node is not the authority and starts afresh; at[i] is the state of the distribution run when the
      node's i-th event happens, and every update the node reads is on the channel by then. Which updates
      reach it, in which order and how often, is open. */
  ghost predicate FromChannel(st: E.Stack, ns: seq<E.Node>, es: seq<E.Event>, ws: seq<D.World>, at: seq<nat>) {
    && |ns| == |es| + 1 && |at| == |ns|
    && st.nodeId != st.cfg.authority && ns[0].coalition == D.FRESH
    && (forall i | 0 <= i < |at| :: at[i] < |ws|)
    && (forall i | 0 <= i < |es| :: at[i] <= at[i + 1])
    && (forall i | 0 <= i < |es| :: ReadsFrom(ws[at[i]], UpdateAt(st, ns[i], es[i])))
  }

  predicate ReadsFrom(w: D.World, u: Option<Update>) {
    u.Some? ==> u.value in w.wire
  }

  /** Such runs start from any fresh node and go on with any event whose update, if it carries one, is on the
      channel, while the distribution run has gone on as far as it likes. */
  lemma JoinedRunsExtend(st: E.Stack, ns: seq<E.Node>, es: seq<E.Event>, ws: seq<D.World>, at: seq<nat>,
                         n: E.Node, e: E.Event, a: nat)
    requires st.nodeId != st.cfg.authority && a < |ws|
    ensures n.coalition == D.FRESH && n.history == [] ==> E.Run(st, [n], []) && FromChannel(st, [n], [], ws, [a])
    ensures E.Run(st, ns, es) && FromChannel(st, ns, es, ws, at) && at[|es|] <= a
            && ReadsFrom(ws[at[|es|]], UpdateAt(st, ns[|es|], e)) ==>
              E.Run(st, ns + [E.Step(st, ns[|es|], e)], es + [e])
              && FromChannel(st, ns + [E.Step(st, ns[|es|], e)], es + [e], ws, at + [a])
  {
    hide E.Step, UpdateAt;
  }

  lemma StepCoalition(st: E.Stack, n: E.Node, e: E.Event)
    requires st.nodeId != st.cfg.authority
    ensures var u := UpdateAt(st, n, e);
            E.Step(st, n, e).coalition == if u.Some? then D.Receive(st.cfg, n.coalition, u.value) else n.coalition
  {
    hide E.Judge, D.Receive, E.Remembering;
    RememberingKeepsCoalition(st, n, e);
  }

  lemma RememberingKeepsCoalition(st: E.Stack, n: E.Node, e: E.Event)
    ensures forall m :: E.Remembering(st, n, m).coalition == n.coalition
  {
  }

  /** The coalition policy a node holds is the authority's at its version. */
  ghost predicate Agrees(w: D.World, r: D.Receiver) {
    D.MatrixAgrees(w, r) && D.PairsFromHistory(w, r)
  }

  lemma ReceiveAgrees(cfg: D.Config, w: D.World, r: D.Receiver, u: Update)
    requires D.Inv(cfg, w) && u in w.wire && Agrees(w, r)
    ensures Parsed(u) && Agrees(w, D.Receive(cfg, r, u))
    ensures D.PairsInv(cfg, w) && D.PairsAgree(w, r) ==> D.PairsAgree(w, D.Receive(cfg, r, u))
  {
    assert D.Genuine(cfg, w, u);
    if D.PairsInv(cfg, w) && D.PairsAgree(w, r) {
      D.DeliverKeepsPairs(cfg, w, r, u);
    }
    if D.Accepts(cfg, r, u) {
      D.InstallAgrees(cfg, w, r, u);
      D.InstallFromHistory(cfg, w, r, u);
    }
  }

  lemma GrownKeepsAgreement(w: D.World, w': D.World, r: D.Receiver)
    requires w.history <= w'.history && Agrees(w, r)
    ensures Agrees(w', r)
    ensures D.PairsAgree(w, r) ==> D.PairsAgree(w', r)
  {
    D.GrownAgrees(w, w', r);
    D.GrownFromHistory(w, w', r);
  }

  lemma {:induction false} NodeAgrees(st: E.Stack, ns: seq<E.Node>, es: seq<E.Event>,
                                      ws: seq<D.World>, steps: seq<D.Step>, at: seq<nat>, i: nat)
    requires E.Run(st, ns, es) && D.Run(st.cfg, ws, steps) && FromChannel(st, ns, es, ws, at) && i < |ns|
    ensures Agrees(ws[at[i]], ns[i].coalition)
    ensures D.PairsAreObjects(st.cfg, steps) ==> D.PairsAgree(ws[at[i]], ns[i].coalition)
    decreases i
  {
    hide Agrees, D.Inv, D.Next, D.Run, UpdateAt, E.Step, D.Receive, D.PairsInv, D.PairsAgree, D.PairsAreObjects;
    if i == 0 {
      FreshAgrees(st.cfg, ws, steps, at[0]);
    } else {
      var w, n, e := ws[at[i - 1]], ns[i - 1], es[i - 1];
      NodeAgrees(st, ns, es, ws, steps, at, i - 1);
      D.RunKeepsInv(st.cfg, ws, steps, at[i - 1]);
      if D.PairsAreObjects(st.cfg, steps) {
        D.RunKeepsPairs(st.cfg, ws, steps, at[i - 1]);
      }
      StepCoalition(st, n, e);
      assert ReadsFrom(w, UpdateAt(st, n, e));
      assert ns[i] == E.Step(st, n, e);
      if UpdateAt(st, n, e).Some? {
        ReceiveAgrees(st.cfg, w, n.coalition, UpdateAt(st, n, e).value);
      }
      D.HistoryGrows(st.cfg, ws, steps, at[i - 1], at[i]);
      GrownKeepsAgreement(w, ws[at[i]], ns[i].coalition);
    }
  }

  lemma FreshAgrees(cfg: D.Config, ws: seq<D.World>, steps: seq<D.Step>, a: nat)
    requires D.Run(cfg, ws, steps) && a < |ws|
    ensures Agrees(ws[a], D.FRESH) && D.PairsAgree(ws[a], D.FRESH)
  {
  }

  // ------------------------------------------------------------ what is dispatched

  /** The authority's policy permits what node hears from originator. */
  predicate Permitted(c: Coalition, node: string, originator: string) {
    c.matrix.AllowsPeer(originator) && PairAllows(c.pairs, node, originator)
  }

  /** What an agreeing policy permits, the authority's policy at that version does: blocks that linger where
      the authority has none only refuse more. */
  lemma AgreeingPermitsLess(w: D.World, r: D.Receiver, node: string, originator: string)
    requires Agrees(w, r) && r.version > 0
    requires r.matrix.AllowsPeer(originator) && PairAllows(r.pairs, node, originator)
    ensures r.version <= |w.history| && Permitted(w.history[r.version - 1], node, originator)
  {
    EmptyRowsAnswerNothing(w.history[r.version - 1].pairs);
  }

  /** From the authority to the dispatch, in every run, whatever the channel loses, repeats and reorders and
      whatever other members put on it: what a node dispatches while it holds version v > 0 comes from an
      originator that the authority's policy at v permits this node to hear. */
  lemma EveryDispatchPermittedByAuthority(
      st: E.Stack, ns: seq<E.Node>, es: seq<E.Event>,
      ws: seq<D.World>, steps: seq<D.Step>, at: seq<nat>, k: nat, m: Message)
    requires E.Run(st, ns, es) && D.Run(st.cfg, ws, steps) && FromChannel(st, ns, es, ws, at)
    requires E.Dispatches(st, ns, es, k, m) && ns[k].coalition.version > 0
    ensures ns[k].coalition.version <= |ws[at[k]].history|
    ensures Permitted(ws[at[k]].history[ns[k].coalition.version - 1], st.nodeId, m.originator)
  {
    NodeAgrees(st, ns, es, ws, steps, at, k);
    E.EveryDispatchPermitted(st, ns, es, k, m);
    hide Agrees, E.Run, D.Run, E.Dispatches;
    AgreeingPermitsLess(ws[at[k]], ns[k].coalition, st.nodeId, m.originator);
  }

  /** Where no trusted replay has its pairs rewritten, a node at version v > 0 permits exactly what its local
      policy and the authority's policy at v permit. */
  lemma PermitsExactlyAsAuthority(
      st: E.Stack, ns: seq<E.Node>, es: seq<E.Event>,
      ws: seq<D.World>, steps: seq<D.Step>, at: seq<nat>, i: nat, originator: string)
    requires E.Run(st, ns, es) && D.Run(st.cfg, ws, steps) && FromChannel(st, ns, es, ws, at)
    requires D.PairsAreObjects(st.cfg, steps) && i < |ns| && ns[i].coalition.version > 0
    ensures ns[i].coalition.version <= |ws[at[i]].history|
    ensures E.Permits(st, ns[i], originator) <==>
              ns[i].local.AllowsPeer(originator)
              && Permitted(ws[at[i]].history[ns[i].coalition.version - 1], st.nodeId, originator)
  {
    NodeAgrees(st, ns, es, ws, steps, at, i);
    hide E.Run, D.Run, D.PairsAreObjects;
    EmptyRowsAnswerNothing(ws[at[i]].history[ns[i].coalition.version - 1].pairs);
  }

  /** Once a node has a version from which on the authority has refused it an originator, nothing from that
      originator is dispatched, however stale or reordered the updates that still reach it. */
  lemma BlockTakesHold(
      st: E.Stack, ns: seq<E.Node>, es: seq<E.Event>,
      ws: seq<D.World>, steps: seq<D.Step>, at: seq<nat>, i: nat, k: nat, b: nat, m: Message)
    requires E.Run(st, ns, es) && D.Run(st.cfg, ws, steps) && FromChannel(st, ns, es, ws, at)
    requires i <= k < |ns| && b < ns[i].coalition.version
    requires forall j | b <= j < |ws[at[k]].history| ::
               !Permitted(ws[at[k]].history[j], st.nodeId, m.originator)
    ensures !E.Dispatches(st, ns, es, k, m)
  {
    E.CoalitionMovesByVersion(st, ns, es, i, k);
    if E.Dispatches(st, ns, es, k, m) {
      EveryDispatchPermittedByAuthority(st, ns, es, ws, steps, at, k, m);
    }
  }

  // ------------------------------------------------------------ from the authority's edits

  /** From the edit to the silence: the authority blocks a peer at step i of the distribution run and neither
      allows nor resets it by the node's event k; a node that has reached the version of that edit dispatches
      nothing from the peer, whatever else is edited, lost, repeated, reordered or injected. */
  lemma BlockedPeerStaysSilent(
      st: E.Stack, ns: seq<E.Node>, es: seq<E.Event>,
      ws: seq<D.World>, steps: seq<D.Step>, at: seq<nat>, i: nat, a: nat, k: nat, m: Message)
    requires E.Run(st, ns, es) && D.Run(st.cfg, ws, steps) && FromChannel(st, ns, es, ws, at)
    requires a <= k < |ns| && i < at[k] && D.WordStands(steps, i, at[k], m.originator, false)
    requires ns[a].coalition.version > |ws[i].history|
    ensures !E.Dispatches(st, ns, es, k, m)
  {
    D.WordIsKept(st.cfg, ws, steps, i, at[k], m.originator, false);
    BlockTakesHold(st, ns, es, ws, steps, at, a, k, |ws[i].history|, m);
  }

  /** The same for a pair: only the observer it names falls silent. */
  lemma BlockedPairStaysSilent(
      st: E.Stack, ns: seq<E.Node>, es: seq<E.Event>,
      ws: seq<D.World>, steps: seq<D.Step>, at: seq<nat>, i: nat, a: nat, k: nat, m: Message)
    requires E.Run(st, ns, es) && D.Run(st.cfg, ws, steps) && FromChannel(st, ns, es, ws, at)
    requires a <= k < |ns| && i < at[k] && D.PairWordStands(steps, i, at[k], st.nodeId, m.originator, false)
    requires ns[a].coalition.version > |ws[i].history|
    ensures !E.Dispatches(st, ns, es, k, m)
  {
    D.PairWordIsKept(st.cfg, ws, steps, i, at[k], st.nodeId, m.originator, false);
    BlockTakesHold(st, ns, es, ws, steps, at, a, k, |ws[i].history|, m);
  }

  /** One control frame with the latest broadcast is enough: a node that is behind permits from then on what its
      local policy and the authority's present policy permit. Receivers that verify need an authority that
      signs. */
  lemma LatestBroadcastTakesHold(
      st: E.Stack, ns: seq<E.Node>, es: seq<E.Event>,
      ws: seq<D.World>, steps: seq<D.Step>, at: seq<nat>, k: nat, sec: string, p: seq<byte>, originator: string)
    requires E.Run(st, ns, es) && D.Run(st.cfg, ws, steps) && FromChannel(st, ns, es, ws, at)
    requires k < |es| && st.provider.Valid() && Encodable(E.ControlFrame(st, sec, p))
    requires es[k] == E.Arrives(ToBytes(E.ControlFrame(st, sec, p)).value)
    requires ws[at[k]].history != [] && st.readUpdate(p).Some?
    requires D.Broadcasts(st.cfg, ws[at[k]], st.readUpdate(p).value) && (st.cfg.verifies ==> st.cfg.signs)
    requires ns[k].coalition.version < |ws[at[k]].history|
    ensures ns[k + 1].coalition.version == |ws[at[k]].history|
    ensures E.Permits(st, ns[k + 1], originator) <==>
              ns[k].local.AllowsPeer(originator)
              && Permitted(D.Current(ws[at[k]]), st.nodeId, originator)
  {
    var w, u := ws[at[k]], st.readUpdate(p).value;
    NodeAgrees(st, ns, es, ws, steps, at, k);
    E.ControlFrameIsApplied(st, ns[k], sec, p);
    assert ns[k + 1] == E.Step(st, ns[k], es[k]);
    BroadcastInstalls(st.cfg, w, ns[k].coalition, u);
    hide E.Run, D.Run, FromChannel, E.Step, D.Broadcasts, D.Receive;
    EmptyRowsAnswerNothing(D.Current(w).pairs);
  }

  lemma BroadcastInstalls(cfg: D.Config, w: D.World, r: D.Receiver, u: Update)
    requires w.history != [] && D.Broadcasts(cfg, w, u) && (cfg.verifies ==> cfg.signs)
    requires r.version < |w.history|
    ensures Parsed(u)
    ensures D.Receive(cfg, r, u) == D.Receiver(|w.history|, D.Current(w).matrix, NonEmpty(D.Current(w).pairs))
  {
    hide Carries, D.Receive, Payload, NonEmpty;
    BroadcastCarries(cfg, w, r, u);
    CarriedInstalls(cfg, r, u, D.Current(w));
  }

  lemma BroadcastCarries(cfg: D.Config, w: D.World, r: D.Receiver, u: Update)
    requires w.history != [] && D.Broadcasts(cfg, w, u) && (cfg.verifies ==> cfg.signs)
    requires r.version < |w.history|
    ensures Parsed(u) && Carries(u, D.Current(w)) && u.pairs.Obj? && u.version == |w.history| && D.Accepts(cfg, r, u)
  {
    hide Carries, Payload;
    EncodedCarries(u, D.Current(w));
    hide Encodes;
    BroadcastFields(cfg, w, u);
  }

  lemma BroadcastFields(cfg: D.Config, w: D.World, u: Update)
    requires w.history != [] && D.Broadcasts(cfg, w, u)
    ensures Parsed(u) && u.pairs.Obj? && u.node == cfg.authority && u.version == |w.history|
    ensures cfg.signs ==> u.sig == Over(Payload(u))
  {
    hide Payload, Entries, Lists, NonEmpty, SnapshotOf;
  }

  lemma CarriedInstalls(cfg: D.Config, r: D.Receiver, u: Update, c: Coalition)
    requires Parsed(u) && Carries(u, c) && u.pairs.Obj? && D.Accepts(cfg, r, u)
    ensures D.Receive(cfg, r, u) == D.Receiver(u.version, c.matrix, NonEmpty(c.pairs))
  {
    hide NonEmpty, ReadPairs, ReadOverrides, D.Accepts;
  }
}
