/** ExchangeEngine: the object whose fields the receive and transmit paths update. */
module Engine {
  import opened Wrappers
  import opened Messages
  import opened Wire
  import opened Policy
  import opened PolicyUpdate
  import opened Distributor
  import opened Dedup
  import opened Metrics
  import opened Exchange

  /** A message handler: the types it subscribes to, and the messages it raises on. */
  datatype Handler = Handler(subscribesTo: set<string>, raises: Message -> bool)

  predicate Subscribed(h: Handler, kind: string) {
    "*" in h.subscribesTo || kind in h.subscribesTo
  }

  /** The calls _dispatch makes from the i-th handler on: (handler index, message), in registration order.
      A handler that raises is the last one called. */
  function DeliveriesFrom(handlers: seq<Handler>, i: nat, m: Message): seq<(nat, Message)>
    requires i <= |handlers|
    decreases |handlers| - i
  {
    if i == |handlers| then []
    else if !Subscribed(handlers[i], m.kind) then DeliveriesFrom(handlers, i + 1, m)
    else [(i, m)] + if handlers[i].raises(m) then [] else DeliveriesFrom(handlers, i + 1, m)
  }

  function Deliveries(handlers: seq<Handler>, m: Message): seq<(nat, Message)> {
    DeliveriesFrom(handlers, 0, m)
  }

  /** No subscribed handler from index i up to j raises on m. */
  predicate NoneRaises(handlers: seq<Handler>, i: nat, j: nat, m: Message) {
    forall k | i <= k < j && k < |handlers| && Subscribed(handlers[k], m.kind) :: !handlers[k].raises(m)
  }

  lemma {:induction false} DeliveriesFromHas(handlers: seq<Handler>, i: nat, m: Message, j: nat)
    requires i <= |handlers|
    ensures (j, m) in DeliveriesFrom(handlers, i, m) <==>
              i <= j < |handlers| && Subscribed(handlers[j], m.kind) && NoneRaises(handlers, i, j, m)
    decreases |handlers| - i
  {
    hide Subscribed, NoneRaises;
    if i < |handlers| {
      DeliveriesFromHas(handlers, i + 1, m, j);
      RaisesFirst(handlers, i, m);
    }
  }

  lemma {:induction false} DeliveriesFromOrdered(handlers: seq<Handler>, i: nat, m: Message)
    requires i <= |handlers|
    ensures forall x, y | 0 <= x < y < |DeliveriesFrom(handlers, i, m)| ::
              DeliveriesFrom(handlers, i, m)[x].0 < DeliveriesFrom(handlers, i, m)[y].0
    ensures forall d | d in DeliveriesFrom(handlers, i, m) :: i <= d.0 < |handlers| && d.1 == m
    decreases |handlers| - i
  {
    hide Subscribed;
    if i < |handlers| {
      DeliveriesFromOrdered(handlers, i + 1, m);
      var later := DeliveriesFrom(handlers, i + 1, m);
      assert forall x | 0 <= x < |later| :: later[x] in later;
    }
  }

  lemma RaisesFirst(handlers: seq<Handler>, i: nat, m: Message)
    requires i < |handlers|
    ensures NoneRaises(handlers, i, i, m)
    ensures forall j: nat | j > i :: NoneRaises(handlers, i, j, m) <==>
              NoneRaises(handlers, i + 1, j, m) && (Subscribed(handlers[i], m.kind) ==> !handlers[i].raises(m))
  {
    hide Subscribed;
  }

  /** Each subscribed handler is called once, in order of registration, up to and including the first that
      raises, and no other. */
  lemma DeliveriesExact(handlers: seq<Handler>, m: Message)
    ensures forall j: nat :: (j, m) in Deliveries(handlers, m) <==>
              && j < |handlers| && ("*" in handlers[j].subscribesTo || m.kind in handlers[j].subscribesTo)
              && forall k | 0 <= k < j && ("*" in handlers[k].subscribesTo || m.kind in handlers[k].subscribesTo) ::
                   !handlers[k].raises(m)
    ensures forall x, y | 0 <= x < y < |Deliveries(handlers, m)| ::
              Deliveries(handlers, m)[x].0 < Deliveries(handlers, m)[y].0
    ensures forall d | d in Deliveries(handlers, m) :: d.0 < |handlers| && d.1 == m
  {
    hide DeliveriesFrom;
    DeliveriesFromOrdered(handlers, 0, m);
    forall j: nat
      ensures (j, m) in DeliveriesFrom(handlers, 0, m) <==>
                j < |handlers| && Subscribed(handlers[j], m.kind) && NoneRaises(handlers, 0, j, m)
    {
      DeliveriesFromHas(handlers, 0, m, j);
    }
    forall j: nat | j < |handlers|
      ensures NoneRaises(handlers, 0, j, m) <==>
                forall k | 0 <= k < j && ("*" in handlers[k].subscribesTo || m.kind in handlers[k].subscribesTo) ::
                  !handlers[k].raises(m)
    {
    }
  }

  function Copies(raw: seq<byte>, n: nat): seq<seq<byte>> {
    seq(n, _ => raw)
  }

  // ------------------------------------------------------------ frames handled in turn

  /** What the receive path works on: the node's state, the metrics reports and the handler calls so far. */
  datatype Picture = Picture(node: Node, log: seq<Record>, calls: seq<(nat, Message)>)

  /** One frame handled. */
  function AfterFrame(st: Stack, handlers: seq<Handler>, p: Picture, raw: seq<byte>): Picture {
    var o := Judge(st, p.node, raw);
    Picture(Step(st, p.node, Arrives(raw)), p.log + Reports(o),
            p.calls + if o.Accepted? then Deliveries(handlers, o.message) else [])
  }

  /** Frames handled one after the other. */
  function AfterFrames(st: Stack, handlers: seq<Handler>, p: Picture, frames: seq<seq<byte>>): Picture {
    if frames == [] then p
    else AfterFrame(st, handlers, AfterFrames(st, handlers, p, frames[..|frames| - 1]), frames[|frames| - 1])
  }

  lemma {:induction false} AfterFramesAppend(st: Stack, handlers: seq<Handler>, p: Picture,
                                             a: seq<seq<byte>>, b: seq<seq<byte>>)
    ensures AfterFrames(st, handlers, p, a + b)
            == AfterFrames(st, handlers, AfterFrames(st, handlers, p, a), b)
  {
    hide AfterFrame;
    if b == [] {
      assert a + b == a;
    } else {
      AfterFramesAppend(st, handlers, p, a, b[..|b| - 1]);
      assert (a + b)[..|a + b| - 1] == a + b[..|b| - 1];
    }
  }

  /** The frames handled while the first n sends were suspended: arriving(i) during the i-th. */
  function During(arriving: nat -> seq<seq<byte>>, n: nat): seq<seq<byte>> {
    if n == 0 then [] else During(arriving, n - 1) + arriving(n - 1)
  }

  lemma NoFrames(st: Stack, handlers: seq<Handler>, p: Picture)
    ensures AfterFrames(st, handlers, p, []) == p
  {
  }

  lemma AcceptedReports(m: Message, log: seq<Record>)
    ensures log + Reports(Accepted(m)) == log + [Seen(m.originator)] + [Record.Received(m)]
  {
  }

  class ExchangeEngine {
    const st: Stack
    const repeat: nat
    const local: MatrixConnectionPolicy
    const distributor: PolicyDistributor
    const dedup: DedupIndex
    const metrics: GatewayMetrics
    var receive: map<string, bool>
    var handlers: seq<Handler>
    var sequence: nat
    /** Frames handed to the transport, and calls made to handlers. */
    var wire: seq<seq<byte>>
    var delivered: seq<(nat, Message)>

    ghost predicate Valid() reads this, dedup, metrics, metrics.audit {
      && dedup.Valid() && metrics.Valid()
      && dedup.maxlen == st.window
      && local != distributor.policy
      && distributor.cfg == st.cfg && distributor.nodeId == st.nodeId
      && distributor.isAuthority == (st.nodeId == st.cfg.authority)
      && distributor.pairs.nodeId == st.nodeId
      && repeat >= 1
    }

    ghost function State(): Node
      reads this, dedup, local, distributor, distributor.policy, distributor.pairs
    {
      Node(local.State(), distributor.State(), receive, dedup.history)
    }

    constructor (st: Stack, repeat: int, local: MatrixConnectionPolicy, distributor: PolicyDistributor,
                 receive: map<string, bool>, telemetryCapacity: nat)
      requires st.window >= 1
      requires local != distributor.policy
      requires distributor.cfg == st.cfg && distributor.nodeId == st.nodeId
      requires distributor.isAuthority == (st.nodeId == st.cfg.authority)
      requires distributor.pairs.nodeId == st.nodeId
      ensures Valid() && State().history == [] && metrics.log == [] && delivered == [] && wire == []
      ensures this.st == st && this.repeat == if repeat > 1 then repeat else 1
    {
      this.st := st;
      this.repeat := if repeat > 1 then repeat else 1;
      this.local := local;
      this.distributor := distributor;
      this.dedup := new DedupIndex(st.window);
      this.metrics := new GatewayMetrics(telemetryCapacity);
      this.receive := receive;
      this.handlers, this.sequence, this.wire, this.delivered := [], 0, [], [];
    }

    method Dispatch(m: Message)
      modifies this`delivered
      ensures delivered == old(delivered) + Deliveries(handlers, m)
    {
      for i := 0 to |handlers|
        invariant delivered + DeliveriesFrom(handlers, i, m) == old(delivered) + Deliveries(handlers, m)
      {
        if Subscribed(handlers[i], m.kind) {
          delivered := delivered + [(i, m)];
          if handlers[i].raises(m) { return; }
        }
      }
    }

    /** CompositePolicy(local, coalition, pairs).allows */
    method PolicyAllows(originator: string) returns (r: bool)
      requires Valid()
      ensures r == Permits(st, State(), originator)
    {
      r := local.AllowsPeer(originator);
      if r { r := distributor.policy.AllowsPeer(originator); }
      if r { r := distributor.pairs.Allows(originator); }
    }

    method HandleControl(payload: seq<byte>)
      requires Valid()
      modifies distributor, distributor.policy, distributor.pairs
      ensures Valid() && State() == ApplyControl(st, old(State()), payload)
    {
      var u := st.readUpdate(payload);
      if u.Some? && Parsed(u.value) {
        distributor.OnUpdate(u.value);
      }
    }

    method Reject(reason: string, context: Option<Message>) returns (o: Outcome)
      requires Valid()
      modifies metrics, metrics.audit
      ensures Valid() && State() == old(State())
      ensures o == Rejected(reason, context) && metrics.log == old(metrics.log) + Reports(o)
    {
      metrics.RecordDropped(reason, context);
      o := Rejected(reason, context);
    }

    /** Folds a message into this node's own picture: no gate is consulted. */
    method DeliverLocal(m: Message)
      requires Valid()
      modifies this`delivered, metrics, metrics.audit
      ensures Valid() && State() == old(State())
      ensures metrics.log == old(metrics.log) + Reports(Accepted(m))
      ensures metrics.log == old(metrics.log) + [Seen(m.originator)] + [Record.Received(m)]
      ensures delivered == old(delivered) + Deliveries(handlers, m)
    {
      hide Deliveries, Reports;
      AcceptedReports(m, metrics.log);
      metrics.NodeSeen(m.originator);
      metrics.RecordReceived(m);
      Dispatch(m);
    }

    /** The gates after decoding. */
    method Admit(m: Message) returns (o: Outcome)
      requires Valid()
      modifies this`delivered, dedup, metrics, metrics.audit
      ensures Valid() && o == Gate(st, old(State()), m) && (o.Accepted? ==> o.message == m)
      ensures State() == if o.Accepted? then Remembering(st, old(State()), m) else old(State())
      ensures metrics.log == old(metrics.log) + Reports(o)
      ensures delivered == old(delivered) + if o.Accepted? then Deliveries(handlers, m) else []
    {
      var permitted := PolicyAllows(m.originator);
      if !permitted {
        o := Reject("policy" + ":" + (" sender " + m.originator + " not permitted"), Some(m));
        return;
      }
      if m.kind in receive && !receive[m.kind] {
        o := Reject("capability" + ":" + (" receive of " + m.kind + " disabled"), Some(m));
        return;
      }
      var duplicate := dedup.IsDuplicate(KeyOf(m));
      if duplicate {
        metrics.RecordDropped("duplicate", Some(m));
        return Duplicate(m);
      }
      dedup.Remember(KeyOf(m));
      DeliverLocal(m);
      o := Accepted(m);
    }

    method OnFrame(raw: seq<byte>) returns (o: Outcome)
      requires Valid()
      modifies this`delivered, dedup, metrics, metrics.audit
      modifies distributor, distributor.policy, distributor.pairs
      ensures Valid() && o == Judge(st, old(State()), raw)
      ensures State() == Step(st, old(State()), Arrives(raw))
      ensures metrics.log == old(metrics.log) + Reports(o)
      ensures delivered == old(delivered) + if o.Accepted? then Deliveries(handlers, o.message) else []
    {
      hide FromBytes, ApplyControl, Remembering, Describe, Deliveries, Provider.Verify;
      var frame := ParseFrame(raw);
      if frame.Failure? {
        o := Reject("framing" + ":" + (" " + Describe(frame.error)), None);
        return;
      }
      var payload := st.provider.Verify(frame.value.payload);
      if payload.Failure? {
        o := Reject("security" + ":" + (" " + Describe(payload.error)), None);
        return;
      }
      if frame.value.codecName == CONTROL_CODEC {
        HandleControl(payload.value);
        return Control(payload.value);
      }
      if frame.value.codecName != st.codecName {
        o := Reject("codec" + ":" + (" no codec for " + frame.value.codecName), None);
        return;
      }
      var message := st.decode(payload.value);
      if message.Failure? {
        o := Reject("codec" + ":" + (" " + message.error), None);
        return;
      }
      o := Admit(message.value);
    }

    ghost function Sees(): Picture
      reads this, dedup, local, distributor, distributor.policy, distributor.pairs, metrics
    {
      Picture(State(), metrics.log, delivered)
    }

    method Receive(raw: seq<byte>)
      requires Valid()
      modifies this`delivered, dedup, metrics, metrics.audit
      modifies distributor, distributor.policy, distributor.pairs
      ensures Valid() && Sees() == AfterFrame(st, handlers, old(Sees()), raw)
    {
      hide Step, Judge, Reports, Deliveries, State;
      var o := OnFrame(raw);
    }

    /** The receive path, run for each frame that arrives while the engine is suspended. */
    method Suspended(frames: seq<seq<byte>>)
      requires Valid()
      modifies this`delivered, dedup, metrics, metrics.audit
      modifies distributor, distributor.policy, distributor.pairs
      ensures Valid() && Sees() == AfterFrames(st, handlers, old(Sees()), frames)
    {
      hide AfterFrame, Sees, Valid;
      if frames != [] {
        Suspended(frames[..|frames| - 1]);
        Receive(frames[|frames| - 1]);
      }
    }

    /** How many sends are begun, where the one after the given number of successes raises. */
    function Begun(successes: nat): nat {
      if successes < repeat then successes + 1 else repeat
    }

    /** Stamps, protects and sends every copy, then remembers the id. False where framing or a send raises:
        the sequence number is used up, the copies sent so far are out and nothing is remembered.
        successes: how many sends succeed before one raises; reached: whether that one had delivered its copy;
        arriving: the frames handled while each send is suspended. */
    method Transmit(m: Message, successes: nat, reached: bool, arriving: nat -> seq<seq<byte>>)
      returns (ok: bool, stamped: Message)
      requires Valid()
      modifies this`sequence, this`wire, this`delivered, dedup, metrics, metrics.audit
      modifies distributor, distributor.policy, distributor.pairs
      ensures Valid() && sequence == old(sequence) + 1 && stamped == m.(sequence := sequence)
      ensures ok == (Encodable(FrameOf(st, stamped)) && successes >= repeat)
      ensures wire == old(wire) + if !Encodable(FrameOf(st, stamped)) then []
                                  else Copies(WireForm(st, stamped),
                                              if ok || reached then Begun(successes) else successes)
      ensures var p := AfterFrames(st, handlers, old(Sees()),
                                   if Encodable(FrameOf(st, stamped)) then During(arriving, Begun(successes)) else []);
              Sees() == if ok then p.(node := Step(st, p.node, Transmitted(stamped))) else p
    {
      hide AfterFrames, During, Copies, Layout, Encodable;
      NoFrames(st, handlers, Sees());
      sequence := sequence + 1;
      stamped := m.(sequence := sequence);
      var raw := ToBytes(FrameOf(st, stamped));
      if raw.Failure? { return false, stamped; }
      ok := SendCopies(raw.value, successes, reached, arriving);
      if ok {
        dedup.Remember(KeyOf(stamped));
      }
    }

    /** The sending loop. */
    method SendCopies(raw: seq<byte>, successes: nat, reached: bool, arriving: nat -> seq<seq<byte>>)
      returns (ok: bool)
      requires Valid()
      modifies this`wire, this`delivered, dedup, metrics, metrics.audit
      modifies distributor, distributor.policy, distributor.pairs
      ensures Valid() && ok == (successes >= repeat)
      ensures wire == old(wire) + Copies(raw, if ok || reached then Begun(successes) else successes)
      ensures Sees() == AfterFrames(st, handlers, old(Sees()), During(arriving, Begun(successes)))
    {
      hide AfterFrames, Copies, During, Sees;
      ghost var p, sent := Sees(), wire;
      NothingReceived(st, handlers, p, arriving, raw);
      for i := 0 to repeat
        invariant Valid() && i <= successes && wire == sent + Copies(raw, i)
        invariant Sees() == AfterFrames(st, handlers, p, During(arriving, i))
      {
        OneMoreSend(st, handlers, p, arriving, i, raw);
        if i < successes || reached {
          PutOnWire(raw);
        }
        Suspended(arriving(i));
        if i == successes { return false; }
      }
      ok := true;
    }

    method PutOnWire(raw: seq<byte>)
      modifies this`wire
      ensures wire == old(wire) + [raw] && Sees() == old(Sees())
    {
      wire := wire + [raw];
    }

    method Publish(m: Message, successes: nat, reached: bool, arriving: nat -> seq<seq<byte>>)
      returns (ok: bool, stamped: Message)
      requires Valid()
      modifies this`sequence, this`wire, this`delivered, dedup, metrics, metrics.audit
      modifies distributor, distributor.policy, distributor.pairs
      ensures Valid() && stamped.originator == if m.originator == "" then st.nodeId else m.originator
      ensures ok ==>
                var p := AfterFrames(st, handlers, old(Sees()), During(arriving, repeat));
                && Sees() == Picture(Step(st, p.node, Transmitted(stamped)), p.log + [Sent(stamped)], p.calls)
                && Encodable(FrameOf(st, stamped)) && wire == old(wire) + Copies(WireForm(st, stamped), repeat)
    {
      hide AfterFrames, During, Step, Copies, WireForm, FrameOf, Encodable;
      ok, stamped := Transmit(if m.originator == "" then m.(originator := st.nodeId) else m,
                              successes, reached, arriving);
      if ok {
        metrics.RecordSent(stamped);
      }
    }

    /** Transmits and folds in a bridge's message; counted once, as received. */
    method RelayFromBridge(m: Message, successes: nat, reached: bool, arriving: nat -> seq<seq<byte>>)
      returns (ok: bool, stamped: Message)
      requires Valid()
      modifies this`sequence, this`wire, this`delivered, dedup, metrics, metrics.audit
      modifies distributor, distributor.policy, distributor.pairs
      ensures Valid()
      ensures ok ==>
                var p := AfterFrames(st, handlers, old(Sees()), During(arriving, repeat));
                && Sees() == Picture(Step(st, p.node, Transmitted(stamped)), p.log + Reports(Accepted(stamped)),
                                     p.calls + Deliveries(handlers, stamped))
                && Encodable(FrameOf(st, stamped)) && wire == old(wire) + Copies(WireForm(st, stamped), repeat)
    {
      hide AfterFrames, During, Step, Copies, WireForm, FrameOf, Encodable, Reports, Deliveries;
      ok, stamped := Transmit(m, successes, reached, arriving);
      if ok {
        DeliverLocal(stamped);
      }
    }

    method ClearDedup() returns (n: nat)
      requires Valid()
      modifies dedup
      ensures Valid() && State() == Step(st, old(State()), Exchange.ClearDedup)
    {
      n := dedup.Clear();
    }
  }

  lemma NothingReceived(st: Stack, handlers: seq<Handler>, p: Picture, arriving: nat -> seq<seq<byte>>, raw: seq<byte>)
    ensures Copies(raw, 0) == [] && AfterFrames(st, handlers, p, During(arriving, 0)) == p
  {
  }

  lemma OneMoreSend(st: Stack, handlers: seq<Handler>, p: Picture, arriving: nat -> seq<seq<byte>>, i: nat,
                    raw: seq<byte>)
    ensures Copies(raw, i + 1) == Copies(raw, i) + [raw]
    ensures AfterFrames(st, handlers, p, During(arriving, i + 1))
            == AfterFrames(st, handlers, AfterFrames(st, handlers, p, During(arriving, i)), arriving(i))
  {
    AfterFramesAppend(st, handlers, p, During(arriving, i), arriving(i));
  }
}
