/** EudServerManager: the built-in CoT server attached EUDs connect to. Each handler step between two
    suspensions is one call here. */
module EudServer {
  import opened Wrappers
  import opened CotStream
  import opened Cot
  import opened Relay
  import opened RelayNet

  /** A connection's own variables. They live as long as its reader, which can outlast its entry among
      the clients: a failed write removes the entry. */
  datatype Local = Local(originator: string, identified: set<string>)

  function Joined(cids: set<nat>, locals: map<nat, Local>, origins: map<nat, set<string>>): map<nat, Client>
    requires cids <= locals.Keys && cids <= origins.Keys
  {
    map cid | cid in cids :: Client(locals[cid].originator, locals[cid].identified, origins[cid])
  }

  lemma JoinedSet(cids: set<nat>, locals: map<nat, Local>, origins: map<nat, set<string>>, cid: nat, local: Local,
                  sourced: set<string>)
    requires cids <= locals.Keys && cids == origins.Keys && cid in cids
    ensures Joined(cids, locals[cid := local], origins[cid := sourced])
            == Joined(cids, locals, origins)[cid := Client(local.originator, local.identified, sourced)]
    ensures Joined(cids, locals[cid := local], origins)
            == Joined(cids, locals, origins)[cid := Client(local.originator, local.identified, origins[cid])]
  {
  }

  lemma JoinedGone(cids: set<nat>, locals: map<nat, Local>, origins: map<nat, set<string>>, cid: nat, local: Local)
    requires cids <= locals.Keys && cids == origins.Keys && cid !in cids
    ensures Joined(cids, locals[cid := local], origins) == Joined(cids, locals, origins)
  {
  }

  lemma JoinedAt(cids: set<nat>, locals: map<nat, Local>, origins: map<nat, set<string>>)
    requires cids <= locals.Keys && cids <= origins.Keys
    ensures Joined(cids, locals, origins).Keys == cids
    ensures forall cid | cid in cids ::
              Joined(cids, locals, origins)[cid] == Client(locals[cid].originator, locals[cid].identified, origins[cid])
  {
  }

  class EudServerManager {
    var node: Option<string>
    /** The connections streamed to, with their printable peer names. */
    var clients: map<nat, string>
    var origins: map<nat, set<string>>
    var locals: map<nat, Local>

    ghost predicate Valid()
      reads this
    {
      clients.Keys == origins.Keys && clients.Keys <= locals.Keys
    }

    /** The part of the relay's state this manager holds. */
    ghost function State(): Gateway
      reads this
      requires Valid()
    {
      Gateway(if node.Some? then node.value else "", Joined(clients.Keys, locals, origins), {}, map[], {})
    }

    constructor ()
      ensures Valid() && node == None && clients == map[] && locals == map[]
    {
      node, clients, origins, locals := None, map[], map[], map[];
    }

    method Attach(nodeId: string)
      requires Valid()
      modifies this`node
      ensures Valid() && State() == old(State()).(nodeId := nodeId)
    {
      node := Some(nodeId);
    }

    /** cid is the identity of the new connection's writer. */
    method Accept(cid: nat, peer: string)
      requires Valid() && cid !in locals
      modifies this`clients, this`origins, this`locals
      ensures Valid() && State() == Opened(old(State()), Eud(cid))
      ensures locals == old(locals)[cid := Local("atak-" + Decimal.Nat(cid), {})]
      ensures clients == old(clients)[cid := peer] && origins == old(origins)[cid := {}]
    {
      clients, origins := clients[cid := peer], origins[cid := {}];
      locals := locals[cid := Local("atak-" + Decimal.Nat(cid), {})];
    }

    /** The reader of a connection ends. */
    method Finish(cid: nat)
      requires Valid()
      modifies this`clients, this`origins, this`locals
      ensures Valid() && State() == Closed(old(State()), Eud(cid)) && locals == old(locals) - {cid}
    {
      clients, origins, locals := clients - {cid}, origins - {cid}, locals - {cid};
    }

    method StopServer()
      requires Valid()
      modifies this`clients, this`origins
      ensures Valid() && clients == map[]
    {
      clients, origins := map[], map[];
    }

    /** One document from connection cid; returns what is handed to the gateway, in order, and whether a
        ping is answered. A document that maps to a message raises when the connection's entry is gone,
        before anything is ingested. */
    method Ingest(parse: string -> Option<Parsed>, cid: nat, raw: string, arrival: Arrival)
      returns (ingested: seq<Report>, pong: bool, raised: bool)
      requires Valid() && cid in locals
      modifies this`origins, this`locals
      ensures Valid() && clients == old(clients)
      ensures cid in clients && node.Some? ==>
                !raised && Reaction(State(), ingested, pong) == OnEud(parse, old(State()), cid, raw, arrival)
      ensures cid !in clients || node.None? ==> ingested == [] && State() == old(State())
      ensures cid in locals && locals == old(locals)[cid := locals[cid]]
    {
      ingested, pong, raised := [], false, false;
      if Marked(raw) {
        return;
      }
      var root := parse(raw);
      if root.None? {
        return;
      }
      var kind := root.value.kind;
      if kind == "t-x-c-t" {
        pong := true;
        return;
      }
      if Control(kind) || Dead(root.value, arrival.past) || node.None? {
        return;
      }
      var local := locals[cid];
      if root.value.uid.Some? && root.value.uid.value != "" && StartsWith(kind, "a-f") {
        local := local.(originator := "atak-" + root.value.uid.value);
      }
      ingested, raised := Book(cid, local, FromCot(root.value), arrival);
    }

    /** The rest of Ingest, once the connection's originator is settled. */
    method Book(cid: nat, local: Local, message: Option<Body>, arrival: Arrival)
      returns (ingested: seq<Report>, raised: bool)
      requires Valid() && cid in locals && locals[cid].identified == local.identified
      modifies this`origins, this`locals
      ensures Valid() && cid in locals && locals == old(locals)[cid := locals[cid]]
      ensures cid in clients && message.None? ==>
                ingested == [] && State() == old(State()).(clients := old(State()).clients[cid :=
                  Client(local.originator, local.identified, old(State()).clients[cid].origins)])
      ensures cid in clients && message.Some? ==>
                ingested == Announced(local.originator, message.value, local.identified, arrival)
                && State() == old(State()).(clients := old(State()).clients[cid :=
                  Client(local.originator, NowIdentified(local.originator, message.value, local.identified),
                         old(State()).clients[cid].origins + {local.originator})])
      ensures raised <==> cid !in clients && message.Some?
      ensures cid !in clients ==> ingested == [] && State() == old(State())
    {
      hide Joined;
      ingested, raised := [], false;
      JoinedAt(clients.Keys, locals, origins);
      if cid !in clients {
        JoinedGone(clients.Keys, locals, origins, cid, local);
      } else {
        JoinedSet(clients.Keys, locals, origins, cid, local, {});
      }
      locals := locals[cid := local];
      if message.None? {
        return;
      }
      if cid !in origins {
        raised := true;
        return;
      }
      origins := origins[cid := origins[cid] + {local.originator}];
      var callsign := CallsignOf(message.value);
      if callsign != "" && local.originator !in local.identified {
        locals := locals[cid := local.(identified := local.identified + {local.originator})];
        ingested := ingested + [Header(local.originator, arrival.announcement, Identification(callsign))];
      }
      ingested := ingested + [Header(local.originator, arrival.message, message.value)];
      Booked(cid, local, message.value, old(locals), old(origins), locals, origins);
    }

    lemma Booked(cid: nat, local: Local, body: Body, was: map<nat, Local>, sourced: map<nat, set<string>>,
                 now: map<nat, Local>, sources: map<nat, set<string>>)
      requires cid in clients && clients.Keys == sourced.Keys && clients.Keys <= was.Keys
      requires sources == sourced[cid := sourced[cid] + {local.originator}]
      requires now == if CallsignOf(body) != "" && local.originator !in local.identified
                      then was[cid := local.(identified := local.identified + {local.originator})] else was[cid := local]
      ensures Joined(clients.Keys, now, sources)
              == Joined(clients.Keys, was, sourced)[cid :=
                   Client(local.originator, NowIdentified(local.originator, body, local.identified),
                          sourced[cid] + {local.originator})]
    {
      var identified := NowIdentified(local.originator, body, local.identified);
      assert now[cid].identified == identified;
      assert now == was[cid := Local(local.originator, identified)];
      JoinedSet(clients.Keys, was, sourced, cid, Local(local.originator, identified), sources[cid]);
    }

    /** Streams a message to the connections it is for. A write to a connection in broken raises, and
        that connection is dropped. */
    method Emit(m: Report, broken: set<nat>) returns (sends: map<nat, string>)
      requires Valid()
      modifies this`clients, this`origins
      ensures Valid()
      ensures forall cid :: cid in sends <==> EmitsTo(old(State()), m, Eud(cid)) && cid !in broken
      ensures forall cid :: cid in sends <==>
                && cid in old(clients) && m.originator !in old(origins)[cid] && cid !in broken
                && m.originator != (match node case None => "" case Some(n) => n) && MessageToCot(m).Some?
      ensures forall cid | cid in sends :: MessageToCot(m).Some? && sends[cid] == Line(MessageToCot(m).value)
      ensures forall cid :: cid in clients <==> cid in old(clients) && !(EmitsTo(old(State()), m, Eud(cid)) && cid in broken)
      ensures forall cid | cid in clients :: origins[cid] == old(origins)[cid]
    {
      sends := map[];
      EmitsToWhom(m);
      hide State, EmitsTo, MessageToCot;
      if clients.Keys == {} || m.originator == (if node.Some? then node.value else "") {
        return;
      }
      var cot := MessageToCot(m);
      if cot.None? {
        return;
      }
      sends := Stream(m.originator, Line(cot.value), broken);
    }

    lemma EmitsToWhom(m: Report)
      requires Valid()
      ensures forall cid :: EmitsTo(State(), m, Eud(cid)) <==>
                m.originator != (if node.Some? then node.value else "") && MessageToCot(m).Some?
                && cid in clients && m.originator !in origins[cid]
    {
      JoinedAt(clients.Keys, locals, origins);
      hide Joined, MessageToCot;
    }

    /** The loop of Emit. */
    method Stream(originator: string, frame: string, broken: set<nat>) returns (sends: map<nat, string>)
      requires Valid()
      modifies this`clients, this`origins
      ensures Valid()
      ensures forall cid :: cid in sends <==> cid in old(clients) && originator !in old(origins)[cid] && cid !in broken
      ensures forall cid | cid in sends :: sends[cid] == frame
      ensures forall cid :: cid in clients <==> cid in old(clients) && (originator in old(origins)[cid] || cid !in broken)
      ensures forall cid | cid in clients :: origins[cid] == old(origins)[cid]
    {
      sends := map[];
      ghost var sourced := origins;
      var todo := clients.Keys;
      while todo != {}
        invariant Valid() && todo <= clients.Keys
        invariant forall cid :: cid in sends <==> cid in sourced && cid !in todo && originator !in sourced[cid] && cid !in broken
        invariant forall cid | cid in sends :: sends[cid] == frame
        invariant forall cid :: cid in clients <==>
                    cid in sourced && (cid in todo || originator in sourced[cid] || cid !in broken)
        invariant forall cid | cid in clients :: origins[cid] == sourced[cid]
        decreases |todo|
      {
        var cid :| cid in todo;
        todo := todo - {cid};
        if originator !in origins[cid] {
          if cid in broken {
            clients, origins := clients - {cid}, origins - {cid};
          } else {
            sends := sends[cid := frame];
          }
        }
      }
    }

    /** A connection from accept to close, undisturbed: what it causes is what the documents of its
        stream cause, one after the other; arrivals(n) is the arrival of the n-th of them. */
    method OnClient(parse: string -> Option<Parsed>, cid: nat, peer: string, chunks: seq<string>,
                    arrivals: nat -> Arrival)
      returns (ingested: seq<Report>)
      requires Valid() && node.Some? && cid !in locals && parse("") == None
      modifies this`clients, this`origins, this`locals
      ensures Valid() && cid !in clients
      ensures ingested == Session(parse, Opened(old(State()), Eud(cid)), cid,
                                  Timed(Events(Concat(UntilEof(chunks))).docs, arrivals)).ingested
    {
      Accept(cid, peer);
      ghost var g := State();
      var docs, buf := ReadLoop(chunks);
      ingested := [];
      var n := 0;
      ghost var heard: seq<Document> := [];
      NothingHeard(docs, arrivals);
      hide OnEud, Heard, Timed;
      for i := 0 to |docs|
        invariant Valid() && node.Some? && cid in clients
        invariant Reaction(State(), ingested, false) == Session(parse, g, cid, heard)
        invariant n == |NonEmpty(docs[..i])| && Heard(heard) == Timed(NonEmpty(docs[..i]), arrivals)
      {
        var document := Document(docs[i], arrivals(n));
        HearOne(docs, i, heard, arrivals);
        assert (heard + [document])[..|heard|] == heard;
        var more, _, _ := Ingest(parse, cid, document.raw, document.arrival);
        ingested := ingested + more;
        heard := heard + [document];
        n := n + if docs[i] == "" then 0 else 1;
      }
      assert docs[..|docs|] == docs;
      EmptyDocsAreIdle(parse, g, cid, heard);
      Finish(cid);
    }
  }

  // ------------------------------------------------------------ a whole connection

  /** A document and when it arrives. */
  datatype Document = Document(raw: string, arrival: Arrival)

  /** The documents of one connection, ingested in turn. */
  function Session(parse: string -> Option<Parsed>, g: Gateway, cid: nat, docs: seq<Document>): (r: Reaction)
    requires cid in g.clients
    ensures cid in r.gateway.clients && !r.pong
  {
    if docs == [] then Reaction(g, [], false)
    else
      var before := Session(parse, g, cid, docs[..|docs| - 1]);
      var now := OnEud(parse, before.gateway, cid, docs[|docs| - 1].raw, docs[|docs| - 1].arrival);
      Reaction(now.gateway, before.ingested + now.ingested, false)
  }

  function Timed(docs: seq<string>, arrivals: nat -> Arrival): seq<Document> {
    seq(|docs|, i requires 0 <= i < |docs| => Document(docs[i], arrivals(i)))
  }

  /** The documents that are not empty. */
  function Heard(docs: seq<Document>): seq<Document> {
    if docs == [] then []
    else Heard(docs[..|docs| - 1]) + if NonEmptyDoc(docs[|docs| - 1].raw) then [docs[|docs| - 1]] else []
  }

  lemma NothingHeard(docs: seq<string>, arrivals: nat -> Arrival)
    ensures NonEmpty(docs[..0]) == [] && Heard([]) == [] && Timed([], arrivals) == []
  {
  }

  lemma HearOne(docs: seq<string>, i: nat, heard: seq<Document>, arrivals: nat -> Arrival)
    requires i < |docs| && Heard(heard) == Timed(NonEmpty(docs[..i]), arrivals)
    ensures |NonEmpty(docs[..i + 1])| == |NonEmpty(docs[..i])| + if docs[i] == "" then 0 else 1
    ensures Heard(heard + [Document(docs[i], arrivals(|NonEmpty(docs[..i])|))])
            == Timed(NonEmpty(docs[..i + 1]), arrivals)
  {
    var document := Document(docs[i], arrivals(|NonEmpty(docs[..i])|));
    assert docs[..i + 1][..i] == docs[..i];
    assert (heard + [document])[..|heard|] == heard;
    TimedAppend(NonEmpty(docs[..i]), docs[i], arrivals);
    hide Timed;
  }

  lemma TimedAppend(docs: seq<string>, doc: string, arrivals: nat -> Arrival)
    ensures Timed(docs + [doc], arrivals) == Timed(docs, arrivals) + [Document(doc, arrivals(|docs|))]
    ensures Timed(docs + [], arrivals) == Timed(docs, arrivals) + []
  {
    assert docs + [] == docs;
  }

  lemma EmptyDocIsIdle(parse: string -> Option<Parsed>, g: Gateway, cid: nat, arrival: Arrival)
    requires cid in g.clients && parse("") == None
    ensures OnEud(parse, g, cid, "", arrival) == Reaction(g, [], false)
  {
  }

  lemma {:induction false} EmptyDocsAreIdle(parse: string -> Option<Parsed>, g: Gateway, cid: nat, docs: seq<Document>)
    requires cid in g.clients && parse("") == None
    ensures Session(parse, g, cid, docs) == Session(parse, g, cid, Heard(docs))
  {
    hide OnEud;
    if docs != [] {
      var front, last := docs[..|docs| - 1], docs[|docs| - 1];
      EmptyDocsAreIdle(parse, g, cid, front);
      var before := Session(parse, g, cid, front);
      EmptyDocIsIdle(parse, before.gateway, cid, last.arrival);
      if last.raw == "" {
        assert Heard(docs) == Heard(front);
        assert before.ingested + [] == before.ingested;
      } else {
        assert Heard(docs) == Heard(front) + [last];
        assert Heard(docs)[..|Heard(front)|] == Heard(front);
      }
    }
  }

  // ------------------------------------------------------------ among other connections

  /** What can happen between two documents of a connection: a document of some connection, a connection
      opened or closed, an emission that drops the connections whose write fails. */
  datatype Happening = Hears(cid: nat, document: Document) | Opens(cid: nat) | Closes(cid: nat) | Drops(gone: set<nat>)

  function Happened(parse: string -> Option<Parsed>, g: Gateway, h: Happening): Reaction {
    match h
    case Hears(cid, d) => if cid in g.clients then OnEud(parse, g, cid, d.raw, d.arrival) else Reaction(g, [], false)
    case Opens(cid) => Reaction(Opened(g, Eud(cid)), [], false)
    case Closes(cid) => Reaction(Closed(g, Eud(cid)), [], false)
    case Drops(gone) => Reaction(g.(clients := g.clients - gone), [], false)
  }

  /** The document of the connection in a happening. */
  function Own(h: Happening, cid: nat): seq<Document> {
    if h.Hears? && h.cid == cid then [h.document] else []
  }

  /** The documents of one connection among the first k happenings. */
  function DocumentsOf(hs: seq<Happening>, cid: nat, k: nat): seq<Document>
    requires k <= |hs|
  {
    if k == 0 then []
    else DocumentsOf(hs, cid, k - 1) + Own(hs[k - 1], cid)
  }

  /** What they made the gateway ingest. */
  function IngestedFor(rs: seq<Reaction>, hs: seq<Happening>, cid: nat, k: nat): seq<Report>
    requires k <= |hs| && k <= |rs|
  {
    if k == 0 then []
    else IngestedFor(rs, hs, cid, k - 1) + if |Own(hs[k - 1], cid)| > 0 then rs[k - 1].ingested else []
  }

  /** rs[i] is what the i-th happening does. */
  ghost predicate Runs(parse: string -> Option<Parsed>, gs: seq<Gateway>, hs: seq<Happening>, rs: seq<Reaction>) {
    && |gs| == |hs| + 1 && |rs| == |hs|
    && forall i | 0 <= i < |hs| :: rs[i] == Happened(parse, gs[i], hs[i]) && gs[i + 1] == rs[i].gateway
  }

  /** Any happening can come next. */
  lemma RunsExtend(parse: string -> Option<Parsed>, gs: seq<Gateway>, hs: seq<Happening>, rs: seq<Reaction>, h: Happening,
                   g: Gateway)
    ensures Runs(parse, [g], [], [])
    ensures Runs(parse, gs, hs, rs) ==>
              var r := Happened(parse, gs[|hs|], h);
              Runs(parse, gs + [r.gateway], hs + [h], rs + [r])
  {
    hide Happened;
  }

  /** A reaction looks at no other connection. */
  lemma ReactsAlone(parse: string -> Option<Parsed>, g: Gateway, g': Gateway, cid: nat, raw: string, arrival: Arrival)
    requires cid in g.clients && cid in g'.clients && g.clients[cid] == g'.clients[cid]
    ensures var r, r' := OnEud(parse, g, cid, raw, arrival), OnEud(parse, g', cid, raw, arrival);
            && r.ingested == r'.ingested
            && cid in r.gateway.clients && cid in r'.gateway.clients
            && r.gateway.clients[cid] == r'.gateway.clients[cid]
  {
  }

  /** What happens to others leaves a connection alone while it stays connected. */
  lemma OthersLeaveAlone(parse: string -> Option<Parsed>, g: Gateway, h: Happening, cid: nat)
    requires cid in g.clients && cid in Happened(parse, g, h).gateway.clients
    requires !(h.Hears? && h.cid == cid) && !(h.Opens? && h.cid == cid)
    ensures Happened(parse, g, h).gateway.clients[cid] == g.clients[cid]
  {
  }

  /** However other connections, emissions and failing writes interleave: while a connection stays connected,
      it ingests exactly what its own documents would cause on their own. */
  lemma {:induction false} ConnectionsAreIndependent(
      parse: string -> Option<Parsed>, gs: seq<Gateway>, hs: seq<Happening>, rs: seq<Reaction>, cid: nat, k: nat)
    requires Runs(parse, gs, hs, rs) && k <= |hs|
    requires forall i | 0 <= i <= k :: cid in gs[i].clients
    requires forall i | 0 <= i < k :: !(hs[i].Opens? && hs[i].cid == cid)
    ensures var alone := Session(parse, gs[0], cid, DocumentsOf(hs, cid, k));
            && IngestedFor(rs, hs, cid, k) == alone.ingested
            && gs[k].clients[cid] == alone.gateway.clients[cid]
    decreases k
  {
    hide Session, Happened, DocumentsOf, IngestedFor, Own;
    if k == 0 {
      NoDocuments(parse, gs[0], rs, hs, cid);
    } else {
      LastOwn(rs, hs, cid, k);
      assert rs[k - 1] == Happened(parse, gs[k - 1], hs[k - 1]) && gs[k - 1 + 1] == rs[k - 1].gateway;
      ConnectionsAreIndependent(parse, gs, hs, rs, cid, k - 1);
      OneMore(parse, gs[0], cid, DocumentsOf(hs, cid, k - 1), gs[k - 1], hs[k - 1]);
    }
  }

  lemma NoDocuments(parse: string -> Option<Parsed>, g: Gateway, rs: seq<Reaction>, hs: seq<Happening>, cid: nat)
    requires cid in g.clients
    ensures DocumentsOf(hs, cid, 0) == [] && IngestedFor(rs, hs, cid, 0) == []
    ensures Session(parse, g, cid, DocumentsOf(hs, cid, 0)) == Reaction(g, [], false)
  {
  }

  lemma LastOwn(rs: seq<Reaction>, hs: seq<Happening>, cid: nat, k: nat)
    requires 0 < k <= |hs| && k <= |rs|
    ensures DocumentsOf(hs, cid, k) == DocumentsOf(hs, cid, k - 1) + Own(hs[k - 1], cid)
    ensures IngestedFor(rs, hs, cid, k)
            == IngestedFor(rs, hs, cid, k - 1) + (if |Own(hs[k - 1], cid)| > 0 then rs[k - 1].ingested else [])
  {
    hide Own;
  }

  lemma OneMore(parse: string -> Option<Parsed>, g0: Gateway, cid: nat, docs: seq<Document>, g: Gateway, h: Happening)
    requires cid in g0.clients && cid in g.clients && !(h.Opens? && h.cid == cid)
    requires g.clients[cid] == Session(parse, g0, cid, docs).gateway.clients[cid]
    requires cid in Happened(parse, g, h).gateway.clients
    ensures var r, alone := Happened(parse, g, h), Session(parse, g0, cid, docs + Own(h, cid));
            && alone.ingested
               == Session(parse, g0, cid, docs).ingested + (if |Own(h, cid)| > 0 then r.ingested else [])
            && r.gateway.clients[cid] == alone.gateway.clients[cid]
  {
    hide OnEud, Session;
    if h.Hears? && h.cid == cid {
      OwnDocument(parse, g0, cid, docs, h.document, g);
    } else {
      OthersLeaveAlone(parse, g, h, cid);
      assert docs + [] == docs;
    }
  }

  lemma OwnDocument(parse: string -> Option<Parsed>, g0: Gateway, cid: nat, docs: seq<Document>, d: Document,
                    g: Gateway)
    requires cid in g0.clients && cid in g.clients
    requires g.clients[cid] == Session(parse, g0, cid, docs).gateway.clients[cid]
    ensures var alone := Session(parse, g0, cid, docs + [d]);
            var r := OnEud(parse, g, cid, d.raw, d.arrival);
            && alone.ingested == Session(parse, g0, cid, docs).ingested + r.ingested
            && cid in r.gateway.clients && alone.gateway.clients[cid] == r.gateway.clients[cid]
  {
    var before := Session(parse, g0, cid, docs);
    ReactsAlone(parse, g, before.gateway, cid, d.raw, d.arrival);
    hide OnEud;
    assert (docs + [d])[..|docs|] == docs;
  }
}
