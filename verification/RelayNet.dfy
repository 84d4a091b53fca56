/** Several gateways and their CoT peers: no echo, and no endless relaying.

    Peers forward CoT unchanged. Losing a token is a relay step that produces nothing; taking tokens in
    any order is reordering. */
module RelayNet {
  import opened Wrappers
  import opened Cot
  import opened Relay

  /** Copies sent of each message, gateways, peers of one gateway, and gateway links one peer forwards to. */
  datatype Limits = Limits(copies: nat, gateways: nat, peers: nat, links: nat)

  /** Something in flight: CoT arriving at a gateway from a peer, a coalition frame arriving at a
      gateway, or CoT a gateway wrote to a peer (source: whose message it renders, None for a pong). */
  datatype Token =
    | AtGateway(g: nat, peer: Peer, raw: string)
    | FrameAt(g: nat, message: Report)
    | AtPeer(g: nat, peer: Peer, raw: string, source: Option<string>)

  datatype Net = Net(gateways: seq<Gateway>, flight: seq<Token>)

  datatype Event =
    | Arrive(token: Token)              // from outside: unrelayed CoT, or a copy of a node's own message
    | Connect(g: nat, peer: Peer)
    | Disconnect(g: nat, peer: Peer)
    | Relay(i: nat, arrival: Arrival, out: seq<Token>)

  // ------------------------------------------------------------ one step

  /** out renders messages of ms to peers of gateway h, each message to each peer at most once. */
  ghost predicate Emissions(g: Gateway, h: nat, m: Report, out: seq<Token>) {
    && (forall i | 0 <= i < |out| ::
          out[i].AtPeer? && out[i].g == h && EmitsTo(g, m, out[i].peer)
          && out[i].raw == MessageToCot(m).value && out[i].source == Some(m.originator))
    && (forall i, k | 0 <= i < k < |out| :: out[i].peer != out[k].peer)
  }

  /** Copies of m reach gateways over the coalition network. */
  ghost predicate Copies(lim: Limits, m: Report, out: seq<Token>) {
    |out| <= lim.copies * lim.gateways && forall i | 0 <= i < |out| :: out[i].FrameAt? && out[i].message == m
  }

  /** What ingesting ms at gateway h produces: copies on the network, and local emissions. */
  ghost predicate Ingests(lim: Limits, g: Gateway, h: nat, ms: seq<Report>, out: seq<Token>)
    decreases |ms|
  {
    if ms == [] then out == []
    else exists a: seq<Token>, b: seq<Token>, c: seq<Token> ::
      out == a + b + c && Copies(lim, ms[0], a) && Emissions(g, h, ms[0], b) && Ingests(lim, g, h, ms[1..], c)
  }

  ghost predicate Pongs(h: nat, peer: Peer, parse: string -> Option<Parsed>, out: seq<Token>) {
    |out| <= 1 && forall t | t in out ::
      t.AtPeer? && t.g == h && t.peer == peer && t.source == None && Inert(parse, t.raw)
  }

  ghost predicate Forwards(lim: Limits, raw: string, out: seq<Token>) {
    |out| <= lim.links && forall i | 0 <= i < |out| :: out[i].AtGateway? && out[i].raw == raw
  }

  /** The effect of taking token t out of flight. */
  ghost predicate Takes(lim: Limits, parse: string -> Option<Parsed>, gs: seq<Gateway>, t: Token, arrival: Arrival,
                        out: seq<Token>, gs': seq<Gateway>) {
    if out == [] && gs' == gs then true  // lost, or dropped by policy, capability or dedup
    else match t
      case AtGateway(h, peer, raw) =>
        && h < |gs| && Connected(gs[h], peer)
        && var r := OnCot(parse, gs[h], peer, raw, arrival);
           && gs' == gs[h := r.gateway]
           && Answers(lim, parse, h, peer, r, out)
      case FrameAt(h, m) => h < |gs| && gs' == gs && Emissions(gs[h], h, m, out)
      case AtPeer(_, _, raw, _) => gs' == gs && Forwards(lim, raw, out)
  }

  function Without(s: seq<Token>, i: nat): seq<Token>
    requires i < |s|
  {
    s[..i] + s[i + 1..]
  }

  ghost predicate PeersBounded(lim: Limits, gs: seq<Gateway>) {
    forall h | 0 <= h < |gs| :: |gs[h].clients.Keys| + |gs[h].conns| <= lim.peers
  }

  function Opened(g: Gateway, p: Peer): Gateway {
    match p
    case Eud(cid) => g.(clients := g.clients[cid := Client("atak-" + Decimal.Nat(cid), {}, {})])
    case Server(sid) => g.(conns := g.conns + {sid})
  }

  function Closed(g: Gateway, p: Peer): Gateway {
    match p
    case Eud(cid) => g.(clients := g.clients - {cid})
    case Server(sid) => g.(conns := g.conns - {sid}, origins := g.origins - {sid})
  }

  ghost predicate Next(lim: Limits, parse: string -> Option<Parsed>, n: Net, e: Event, n': Net) {
    match e
    case Arrive(t) => !t.AtPeer? && n' == n.(flight := n.flight + [t])
    case Connect(h, p) =>
      && h < |n.gateways| && !Connected(n.gateways[h], p)
      && n' == n.(gateways := n.gateways[h := Opened(n.gateways[h], p)])
      && PeersBounded(lim, n'.gateways)
    case Disconnect(h, p) =>
      h < |n.gateways| && n' == n.(gateways := n.gateways[h := Closed(n.gateways[h], p)])
    case Relay(i, arrival, out) =>
      && i < |n.flight| && n'.flight == Without(n.flight, i) + out
      && Takes(lim, parse, n.gateways, n.flight[i], arrival, out, n'.gateways)
  }

  ghost predicate Run(lim: Limits, parse: string -> Option<Parsed>, ns: seq<Net>, es: seq<Event>) {
    && |ns| == |es| + 1
    && PeersBounded(lim, ns[0].gateways) && ns[0].flight == []
    && forall i | 0 <= i < |es| :: Next(lim, parse, ns[i], es[i], ns[i + 1])
  }

  // ------------------------------------------------------------ weights

  function PeerWeight(lim: Limits): nat { 1 + lim.links }
  function FrameWeight(lim: Limits): nat { 1 + lim.peers * PeerWeight(lim) }
  /** One ingested message: its copies and its local emissions. */
  function MessageWeight(lim: Limits): nat {
    lim.copies * lim.gateways * FrameWeight(lim) + lim.peers * PeerWeight(lim)
  }
  function FreshWeight(lim: Limits): nat { 1 + 2 * MessageWeight(lim) + PeerWeight(lim) }

  ghost function Weight(lim: Limits, parse: string -> Option<Parsed>, t: Token): nat {
    match t
    case AtPeer(_, _, _, _) => PeerWeight(lim)
    case FrameAt(_, _) => FrameWeight(lim)
    case AtGateway(_, _, raw) => if Inert(parse, raw) then 1 else FreshWeight(lim)
  }

  ghost function Potential(lim: Limits, parse: string -> Option<Parsed>, ts: seq<Token>): nat {
    if ts == [] then 0 else Weight(lim, parse, ts[0]) + Potential(lim, parse, ts[1..])
  }

  lemma {:induction false} PotentialAppend(lim: Limits, parse: string -> Option<Parsed>, a: seq<Token>, b: seq<Token>)
    ensures Potential(lim, parse, a + b) == Potential(lim, parse, a) + Potential(lim, parse, b)
  {
    if a == [] {
      assert a + b == b;
    } else {
      PotentialAppend(lim, parse, a[1..], b);
      assert (a + b)[1..] == a[1..] + b;
    }
  }

  lemma PotentialWithout(lim: Limits, parse: string -> Option<Parsed>, ts: seq<Token>, i: nat)
    requires i < |ts|
    ensures Potential(lim, parse, ts) == Potential(lim, parse, Without(ts, i)) + Weight(lim, parse, ts[i])
  {
    PotentialAppend(lim, parse, ts[..i], ts[i..]);
    PotentialAppend(lim, parse, ts[..i], ts[i + 1..]);
    assert ts == ts[..i] + ts[i..] && ts[i..][1..] == ts[i + 1..];
  }

  lemma {:induction false} PotentialOfEqual(lim: Limits, parse: string -> Option<Parsed>, ts: seq<Token>, w: nat, n: nat)
    requires |ts| <= n && forall i | 0 <= i < |ts| :: Weight(lim, parse, ts[i]) == w
    ensures Potential(lim, parse, ts) == |ts| * w <= n * w
    decreases n
  {
    if ts != [] {
      PotentialOfEqual(lim, parse, ts[1..], w, n - 1);
      assert |ts| * w == w + (|ts| - 1) * w && n * w == w + (n - 1) * w;
    } else {
      assert 0 <= n * w;
    }
  }

  function PeersOf(g: Gateway): set<Peer> {
    (set c | c in g.clients.Keys :: Eud(c)) + (set s | s in g.conns :: Server(s))
  }

  lemma {:induction false} EudCount(cs: set<nat>)
    ensures |set c | c in cs :: Eud(c)| == |cs|
  {
    if cs != {} {
      var c :| c in cs;
      EudCount(cs - {c});
      assert (set x | x in cs :: Eud(x)) == (set x | x in cs - {c} :: Eud(x)) + {Eud(c)};
    }
  }

  lemma {:induction false} ServerCount(ss: set<string>)
    ensures |set s | s in ss :: Server(s)| == |ss|
  {
    if ss != {} {
      var s :| s in ss;
      ServerCount(ss - {s});
      assert (set x | x in ss :: Server(x)) == (set x | x in ss - {s} :: Server(x)) + {Server(s)};
    }
  }

  lemma PeersOfCount(g: Gateway)
    ensures |PeersOf(g)| == |g.clients.Keys| + |g.conns|
  {
    EudCount(g.clients.Keys);
    ServerCount(g.conns);
    assert (set c | c in g.clients.Keys :: Eud(c)) !! (set s | s in g.conns :: Server(s));
  }

  lemma ConnectedIsPeer(g: Gateway, p: Peer)
    requires Connected(g, p)
    ensures p in PeersOf(g)
  {
  }

  lemma {:induction false} DistinctPeersFit(out: seq<Token>, ps: set<Peer>)
    requires forall i | 0 <= i < |out| :: out[i].AtPeer? && out[i].peer in ps
    requires forall i, k | 0 <= i < k < |out| :: out[i].peer != out[k].peer
    ensures |out| <= |ps|
  {
    if out != [] {
      var last := out[|out| - 1];
      DistinctPeersFit(out[..|out| - 1], ps - {last.peer});
    }
  }

  /** A message is emitted at most once to each peer. */
  lemma EmissionsFit(lim: Limits, g: Gateway, h: nat, m: Report, out: seq<Token>)
    requires Emissions(g, h, m, out) && |g.clients.Keys| + |g.conns| <= lim.peers
    ensures |out| <= lim.peers
  {
    PeersOfCount(g);
    forall i | 0 <= i < |out| ensures out[i].peer in PeersOf(g) {
      ConnectedIsPeer(g, out[i].peer);
    }
    DistinctPeersFit(out, PeersOf(g));
  }

  lemma EmissionsWeigh(lim: Limits, parse: string -> Option<Parsed>, g: Gateway, h: nat, m: Report, out: seq<Token>)
    requires Emissions(g, h, m, out) && |g.clients.Keys| + |g.conns| <= lim.peers
    ensures Potential(lim, parse, out) <= lim.peers * PeerWeight(lim)
  {
    EmissionsFit(lim, g, h, m, out);
    PotentialOfEqual(lim, parse, out, PeerWeight(lim), lim.peers);
  }

  lemma {:induction false} IngestsWeigh(lim: Limits, parse: string -> Option<Parsed>, g: Gateway, h: nat,
                                        ms: seq<Report>, out: seq<Token>)
    requires Ingests(lim, g, h, ms, out) && |g.clients.Keys| + |g.conns| <= lim.peers
    ensures Potential(lim, parse, out) <= |ms| * MessageWeight(lim)
    decreases |ms|
  {
    hide Potential, Emissions, Copies, MessageWeight;
    if ms == [] {
      assert Potential(lim, parse, []) == 0 by { NothingWeighs(lim, parse); }
    } else {
      var a: seq<Token>, b: seq<Token>, c: seq<Token> :|
        out == a + b + c && Copies(lim, ms[0], a) && Emissions(g, h, ms[0], b) && Ingests(lim, g, h, ms[1..], c);
      hide Ingests;
      MessageWeighs(lim, parse, g, h, ms[0], a, b);
      IngestsWeigh(lim, parse, g, h, ms[1..], c);
      PotentialAppend(lim, parse, a + b, c);
      OneMoreTimes(|ms| - 1, MessageWeight(lim));
    }
  }

  lemma NothingWeighs(lim: Limits, parse: string -> Option<Parsed>)
    ensures Potential(lim, parse, []) == 0
  {
  }

  lemma OneMoreTimes(n: nat, w: nat)
    ensures (n + 1) * w == w + n * w
  {
  }

  lemma MessageWeighs(lim: Limits, parse: string -> Option<Parsed>, g: Gateway, h: nat, m: Report,
                      a: seq<Token>, b: seq<Token>)
    requires Copies(lim, m, a) && Emissions(g, h, m, b) && |g.clients.Keys| + |g.conns| <= lim.peers
    ensures Potential(lim, parse, a + b) <= MessageWeight(lim)
  {
    CopiesWeigh(lim, parse, m, a);
    EmissionsWeigh(lim, parse, g, h, m, b);
    hide Potential, Emissions, Copies, FrameWeight, PeerWeight;
    PotentialAppend(lim, parse, a, b);
  }

  lemma CopiesWeigh(lim: Limits, parse: string -> Option<Parsed>, m: Report, a: seq<Token>)
    requires Copies(lim, m, a)
    ensures Potential(lim, parse, a) <= lim.copies * lim.gateways * FrameWeight(lim)
  {
    hide Potential, FrameWeight, Inert;
    PotentialOfEqual(lim, parse, a, FrameWeight(lim), lim.copies * lim.gateways);
  }

  /** CoT a gateway wrote is inert wherever it goes. */
  ghost predicate WrittenIsInert(parse: string -> Option<Parsed>, ts: seq<Token>) {
    forall i | 0 <= i < |ts| && ts[i].AtPeer? :: Inert(parse, ts[i].raw)
  }

  lemma InertAppend(parse: string -> Option<Parsed>, a: seq<Token>, b: seq<Token>)
    requires WrittenIsInert(parse, a) && WrittenIsInert(parse, b)
    ensures WrittenIsInert(parse, a + b)
  {
  }

  lemma EmissionsInert(parse: string -> Option<Parsed>, g: Gateway, h: nat, m: Report, out: seq<Token>)
    requires Emissions(g, h, m, out)
    ensures WrittenIsInert(parse, out)
  {
    if out != [] {
      assert EmitsTo(g, m, out[0].peer);
      EmittedIsInert(parse, m);
    }
  }

  lemma {:induction false} IngestsInert(lim: Limits, parse: string -> Option<Parsed>, g: Gateway, h: nat,
                                        ms: seq<Report>, out: seq<Token>)
    requires Ingests(lim, g, h, ms, out)
    ensures WrittenIsInert(parse, out)
    decreases |ms|
  {
    if ms != [] {
      var a: seq<Token>, b: seq<Token>, c: seq<Token> :|
        out == a + b + c && Copies(lim, ms[0], a) && Emissions(g, h, ms[0], b) && Ingests(lim, g, h, ms[1..], c);
      EmissionsInert(parse, g, h, ms[0], b);
      IngestsInert(lim, parse, g, h, ms[1..], c);
      assert WrittenIsInert(parse, a);
      InertAppend(parse, a, b);
      InertAppend(parse, a + b, c);
    }
  }

  lemma TakesInert(lim: Limits, parse: string -> Option<Parsed>, gs: seq<Gateway>, t: Token, arrival: Arrival,
                   out: seq<Token>, gs': seq<Gateway>)
    requires Takes(lim, parse, gs, t, arrival, out, gs')
    ensures WrittenIsInert(parse, out)
  {
    if out != [] {
      match t
      case AtGateway(h, peer, raw) =>
        var r := OnCot(parse, gs[h], peer, raw, arrival);
        if r.pong {
          assert forall i | 0 <= i < |out| :: out[i] in out;
        } else {
          IngestsInert(lim, parse, r.gateway, h, r.ingested, out);
        }
      case FrameAt(h, m) => EmissionsInert(parse, gs[h], h, m, out);
      case AtPeer(_, _, _, _) =>
    }
  }

  /** Taking a token out of flight loses at least one unit of potential. */
  lemma TakesLosesPotential(lim: Limits, parse: string -> Option<Parsed>, gs: seq<Gateway>, t: Token, arrival: Arrival,
                            out: seq<Token>, gs': seq<Gateway>)
    requires Takes(lim, parse, gs, t, arrival, out, gs') && PeersBounded(lim, gs)
    requires t.AtPeer? ==> Inert(parse, t.raw)
    ensures Potential(lim, parse, out) < Weight(lim, parse, t)
    ensures PeersBounded(lim, gs')
  {
    if !(out == [] && gs' == gs) {
      match t
      case AtGateway(h, peer, raw) => ArrivalLosesPotential(lim, parse, gs[h], h, peer, raw, arrival, out);
        ReactionBooksOrigin(parse, gs[h], peer, raw, arrival);
      case FrameAt(h, m) => EmissionsWeigh(lim, parse, gs[h], h, m, out);
      case AtPeer(_, _, raw, _) => PotentialOfEqual(lim, parse, out, 1, lim.links);
    }
  }

  /** A reaction's output, whatever it ingested. */
  ghost predicate Answers(lim: Limits, parse: string -> Option<Parsed>, h: nat, peer: Peer, r: Reaction,
                          out: seq<Token>)
  {
    if r.pong then Pongs(h, peer, parse, out) else Ingests(lim, r.gateway, h, r.ingested, out)
  }

  lemma AnswersWeigh(lim: Limits, parse: string -> Option<Parsed>, h: nat, peer: Peer, r: Reaction, out: seq<Token>)
    requires Answers(lim, parse, h, peer, r, out) && |r.ingested| <= 2
    requires |r.gateway.clients.Keys| + |r.gateway.conns| <= lim.peers
    ensures Potential(lim, parse, out) <= 2 * MessageWeight(lim) + PeerWeight(lim)
    ensures !r.pong && r.ingested == [] ==> out == []
  {
    if r.pong {
      assert forall i | 0 <= i < |out| :: out[i] in out;
      PotentialOfEqual(lim, parse, out, PeerWeight(lim), 1);
    } else {
      IngestsWeigh(lim, parse, r.gateway, h, r.ingested, out);
      Times(|r.ingested|, 2, MessageWeight(lim));
    }
  }

  lemma Times(a: nat, b: nat, w: nat)
    requires a <= b
    ensures a * w <= b * w
  {
  }

  lemma ArrivalLosesPotential(lim: Limits, parse: string -> Option<Parsed>, g: Gateway, h: nat, peer: Peer,
                              raw: string, arrival: Arrival, out: seq<Token>)
    requires Connected(g, peer) && |g.clients.Keys| + |g.conns| <= lim.peers
    requires Answers(lim, parse, h, peer, OnCot(parse, g, peer, raw, arrival), out)
    ensures Potential(lim, parse, out) < Weight(lim, parse, AtGateway(h, peer, raw))
  {
    var r := OnCot(parse, g, peer, raw, arrival);
    ReactionBooksOrigin(parse, g, peer, raw, arrival);
    AnswersWeigh(lim, parse, h, peer, r, out);
    if Inert(parse, raw) {
      InertCausesNothing(parse, g, peer, raw, arrival);
    }
  }

  // ------------------------------------------------------------ runs

  function RelaySteps(es: seq<Event>): nat {
    if es == [] then 0 else RelaySteps(es[..|es| - 1]) + if es[|es| - 1].Relay? then 1 else 0
  }

  function Arrivals(es: seq<Event>): nat {
    if es == [] then 0 else Arrivals(es[..|es| - 1]) + if es[|es| - 1].Arrive? then 1 else 0
  }

  ghost predicate Inv(lim: Limits, parse: string -> Option<Parsed>, n: Net) {
    PeersBounded(lim, n.gateways) && WrittenIsInert(parse, n.flight)
  }

  lemma ArrivalWeight(lim: Limits, parse: string -> Option<Parsed>, t: Token)
    requires !t.AtPeer?
    ensures Weight(lim, parse, t) <= FreshWeight(lim) + FrameWeight(lim)
  {
  }

  lemma NextKeeps(lim: Limits, parse: string -> Option<Parsed>, n: Net, e: Event, n': Net)
    requires Inv(lim, parse, n) && Next(lim, parse, n, e, n')
    ensures Inv(lim, parse, n')
    ensures Potential(lim, parse, n'.flight) + (if e.Relay? then 1 else 0)
            <= Potential(lim, parse, n.flight) + if e.Arrive? then FreshWeight(lim) + FrameWeight(lim) else 0
  {
    hide Takes, Inert, PeersBounded, Weight, FreshWeight, FrameWeight, Opened;
    match e
    case Arrive(t) =>
      ArrivalWeight(lim, parse, t);
      PotentialAppend(lim, parse, n.flight, [t]);
    case Connect(h, p) =>
    case Disconnect(h, p) => ClosedShrinks(lim, n.gateways, h, p);
    case Relay(i, arrival, out) => RelayKeeps(lim, parse, n, i, arrival, out, n');
  }

  lemma RelayKeeps(lim: Limits, parse: string -> Option<Parsed>, n: Net, i: nat, arrival: Arrival,
                   out: seq<Token>, n': Net)
    requires Inv(lim, parse, n) && Next(lim, parse, n, Event.Relay(i, arrival, out), n')
    ensures Inv(lim, parse, n')
    ensures Potential(lim, parse, n'.flight) + 1 <= Potential(lim, parse, n.flight)
  {
    hide Takes, Potential, Weight, PeersBounded, Inert;
    var t := n.flight[i];
    TakesLosesPotential(lim, parse, n.gateways, t, arrival, out, n'.gateways);
    TakesInert(lim, parse, n.gateways, t, arrival, out, n'.gateways);
    PotentialWithout(lim, parse, n.flight, i);
    PotentialAppend(lim, parse, Without(n.flight, i), out);
  }

  lemma ClosedShrinks(lim: Limits, gs: seq<Gateway>, h: nat, p: Peer)
    requires h < |gs| && PeersBounded(lim, gs)
    ensures PeersBounded(lim, gs[h := Closed(gs[h], p)])
  {
    var g, g' := gs[h], Closed(gs[h], p);
    match p
    case Eud(cid) => assert g'.clients.Keys == g.clients.Keys - {cid};
    case Server(sid) =>
  }

  /** Quiescence: however many gateways relay to one another over however many peers, the number of
      relay steps is bounded by the arrivals from outside times a constant of the topology. */
  lemma {:induction false} RelayStepsBounded(lim: Limits, parse: string -> Option<Parsed>, ns: seq<Net>, es: seq<Event>)
    requires Run(lim, parse, ns, es)
    ensures Inv(lim, parse, ns[|es|])
    ensures RelaySteps(es) + Potential(lim, parse, ns[|es|].flight)
            <= Arrivals(es) * (FreshWeight(lim) + FrameWeight(lim))
  {
    if es == [] {
      NothingWeighs(lim, parse);
    } else {
      var k := |es| - 1;
      RelayStepsBounded(lim, parse, ns[..k + 1], es[..k]);
      NextKeeps(lim, parse, ns[k], es[k], ns[k + 1]);
      OneMoreTimes(Arrivals(es[..k]), FreshWeight(lim) + FrameWeight(lim));
    }
    hide Next, Inv, Potential, FreshWeight, FrameWeight;
  }

  // ------------------------------------------------------------ no echo

  /** Everything out writes at gateway h for some originator is for a peer that has not sourced it. */
  ghost predicate SparesSources(g: Gateway, h: nat, out: seq<Token>) {
    forall i | 0 <= i < |out| && out[i].AtPeer? && out[i].source.Some? ::
      out[i].g == h && out[i].source.value != g.nodeId && out[i].source.value !in Sourced(g, out[i].peer)
  }

  lemma {:induction false} IngestsSpare(lim: Limits, g: Gateway, h: nat, ms: seq<Report>, out: seq<Token>)
    requires Ingests(lim, g, h, ms, out)
    ensures SparesSources(g, h, out)
    decreases |ms|
  {
    if ms != [] {
      var a: seq<Token>, b: seq<Token>, c: seq<Token> :|
        out == a + b + c && Copies(lim, ms[0], a) && Emissions(g, h, ms[0], b) && Ingests(lim, g, h, ms[1..], c);
      IngestsSpare(lim, g, h, ms[1..], c);
      EmissionsSpare(g, h, ms[0], b);
      assert SparesSources(g, h, a);
      SpareAppend(g, h, a, b);
      SpareAppend(g, h, a + b, c);
    }
  }

  lemma EmissionsSpare(g: Gateway, h: nat, m: Report, out: seq<Token>)
    requires Emissions(g, h, m, out)
    ensures SparesSources(g, h, out)
  {
  }

  lemma SpareAppend(g: Gateway, h: nat, a: seq<Token>, b: seq<Token>)
    requires SparesSources(g, h, a) && SparesSources(g, h, b)
    ensures SparesSources(g, h, a + b)
  {
  }

  lemma TakesSpares(lim: Limits, parse: string -> Option<Parsed>, gs: seq<Gateway>, t: Token, arrival: Arrival,
                    out: seq<Token>, gs': seq<Gateway>, i: nat)
    requires Takes(lim, parse, gs, t, arrival, out, gs')
    requires i < |out| && out[i].AtPeer? && out[i].source.Some?
    ensures out[i].g < |gs| && out[i].source.value != gs[out[i].g].nodeId
    ensures out[i].source.value !in Sourced(gs[out[i].g], out[i].peer)
  {
    match t
    case AtGateway(h, peer, raw) =>
      var r := OnCot(parse, gs[h], peer, raw, arrival);
      ReactionBooksOrigin(parse, gs[h], peer, raw, arrival);
      assert out[i] in out;
      assert !r.pong;
      IngestsSpare(lim, r.gateway, h, r.ingested, out);
    case FrameAt(h, m) => EmissionsSpare(gs[h], h, m, out);
    case AtPeer(_, _, _, _) =>
  }

  lemma NextKeepsSources(lim: Limits, parse: string -> Option<Parsed>, n: Net, e: Event, n': Net, h: nat, p: Peer)
    requires Next(lim, parse, n, e, n') && h < |n.gateways| && Connected(n.gateways[h], p)
    requires e != Disconnect(h, p)
    ensures h < |n'.gateways| && Connected(n'.gateways[h], p)
    ensures Sourced(n.gateways[h], p) <= Sourced(n'.gateways[h], p)
  {
    if e.Relay? && n'.gateways != n.gateways {
      var t := n.flight[e.i];
      ReactionBooksOrigin(parse, n.gateways[t.g], t.peer, t.raw, e.arrival);
    }
  }

  lemma {:induction false} SourcesLast(lim: Limits, parse: string -> Option<Parsed>, ns: seq<Net>, es: seq<Event>,
                                       i: nat, k: nat, h: nat, p: Peer)
    requires Run(lim, parse, ns, es) && i <= k < |ns|
    requires h < |ns[i].gateways| && Connected(ns[i].gateways[h], p)
    requires forall j | i <= j < k :: es[j] != Disconnect(h, p)
    ensures h < |ns[k].gateways| && Sourced(ns[i].gateways[h], p) <= Sourced(ns[k].gateways[h], p)
    ensures Connected(ns[k].gateways[h], p)
    decreases k
  {
    if i < k {
      SourcesLast(lim, parse, ns, es, i, k - 1, h, p);
      NextKeepsSources(lim, parse, ns[k - 1], es[k - 1], ns[k], h, p);
    }
  }

  /** Over a peer's connection, no message is streamed to it whose originator it has ever sourced, nor
      one the gateway's own node originated. */
  lemma NothingReturnsToItsSource(lim: Limits, parse: string -> Option<Parsed>, ns: seq<Net>, es: seq<Event>,
                                  i: nat, k: nat, h: nat, p: Peer, x: nat)
    requires Run(lim, parse, ns, es) && i <= k < |es| && es[k].Relay? && x < |es[k].out|
    requires es[k].out[x].AtPeer? && es[k].out[x].source.Some?
    requires es[k].out[x].g == h && es[k].out[x].peer == p
    requires h < |ns[i].gateways| && Connected(ns[i].gateways[h], p)
    requires forall j | i <= j < k :: es[j] != Disconnect(h, p)
    ensures es[k].out[x].source.value !in Sourced(ns[i].gateways[h], p)
    ensures h < |ns[k].gateways| && es[k].out[x].source.value != ns[k].gateways[h].nodeId
  {
    SourcesLast(lim, parse, ns, es, i, k, h, p);
    var e := es[k];
    assert Next(lim, parse, ns[k], e, ns[k + 1]);
    TakesSpares(lim, parse, ns[k].gateways, ns[k].flight[e.i], e.arrival, e.out, ns[k + 1].gateways, x);
  }
}
