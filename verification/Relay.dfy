/** Relaying between the coalition network and CoT peers: attached EUDs and dialled servers.

    parse is the XML library: the attributes of a document, or None where it raises. Whether a document
    is stale depends on when it arrives: the same bytes can be fresh at first and stale later. */
module Relay {
  import opened Wrappers
  import opened CotStream
  import opened Cot

  datatype Parsed = Parsed(tag: string, kind: string, uid: Option<string>, staleAt: Option<string>,
                           location: Point, callsign: string, remarks: string, track: Track)

  predicate StartsWith(s: string, p: string) {
    p <= s
  }

  /** What comes before the first c, or everything. */
  function UpTo(s: string, c: char): (r: string)
    ensures r <= s && c !in r && (|r| < |s| ==> s[|r|] == c)
  {
    if s == "" || s[0] == c then "" else [s[0]] + UpTo(s[1..], c)
  }

  lemma {:induction false} UpToIs(s: string, a: string, c: char)
    requires a <= s && c !in a && (|a| < |s| ==> s[|a|] == c)
    ensures UpTo(s, c) == a
  {
    if a != "" {
      assert s[0] == a[0];
      UpToIs(s[1..], a[1..], c);
      assert a == [a[0]] + a[1..];
    }
  }

  function Or(a: string, b: string): string {
    if a != "" then a else b
  }

  /** _AFF_TO_IDENTITY.get(letter, UNKNOWN) */
  function IdentityOf(letter: string): Identity {
    if letter == "f" then Friend
    else if letter == "h" then Hostile
    else if letter == "n" then Neutral
    else if letter == "p" then Pending
    else Unknown
  }

  /** cot_to_message. */
  function FromCot(p: Parsed): Option<Body> {
    if p.tag != "event" then None
    else if StartsWith(p.kind, "b-t-f") then Some(Chat(Or(p.remarks, p.callsign)))
    else if StartsWith(p.kind, "b-r-f-h-c") then Some(Casevac(p.location, 1))
    else if StartsWith(p.kind, "u-d") || StartsWith(p.kind, "b-m-p") then
      Some(Overlay(Or(p.callsign, "ATAK marker"),
                   [Graphic(p.location, Or(Or(p.remarks, p.callsign), "marker"))]))
    else if StartsWith(p.kind, "a-") then
      var aff := UpTo(p.kind[2..], '-');
      if aff == "f" then Some(Presence(p.location, Or(p.callsign, "ATAK"), p.track))
      else Some(Contact(p.location, IdentityOf(aff),
                        Or(Or(p.remarks, p.callsign), "CoT track"), p.track))
    else None
  }

  // ------------------------------------------------------------ announcing

  /** getattr(body, "callsign", None) or "" */
  function CallsignOf(b: Body): string {
    match b
    case Presence(_, callsign, _) => callsign
    case Identification(callsign) => callsign
    case _ => ""
  }

  // ------------------------------------------------------------ one gateway

  datatype Client = Client(originator: string, identified: set<string>, origins: set<string>)

  /** clients are attached EUDs; conns the dialled servers; origins and identified belong to the servers. */
  datatype Gateway = Gateway(nodeId: string, clients: map<nat, Client>, conns: set<string>,
                             origins: map<string, set<string>>, identified: set<string>)

  datatype Peer = Eud(cid: nat) | Server(sid: string)

  predicate Connected(g: Gateway, p: Peer) {
    match p case Eud(cid) => cid in g.clients case Server(sid) => sid in g.conns
  }

  /** The originators a peer has sourced over its present connection. */
  function Sourced(g: Gateway, p: Peer): set<string> {
    match p
    case Eud(cid) => if cid in g.clients then g.clients[cid].origins else {}
    case Server(sid) => if sid in g.origins then g.origins[sid] else {}
  }

  /** The id and times a new message header gets. */
  datatype Stamp = Stamp(id: string, time: string, stale: string)

  /** What the arrival of a document brings: the ids and times of the two headers that may be made for it, and
      which times are past. */
  datatype Arrival = Arrival(announcement: Stamp, message: Stamp, past: string -> bool)

  /** cot_is_stale. */
  predicate Dead(p: Parsed, past: string -> bool) {
    p.staleAt.Some? && p.staleAt.value != "" && past(p.staleAt.value)
  }

  datatype Reaction = Reaction(gateway: Gateway, ingested: seq<Report>, pong: bool)

  function Header(originator: string, stamp: Stamp, body: Body): Report {
    Report(originator, stamp.id, stamp.time, stamp.stale, body)
  }

  /** A first callsign announces an Identification before the message itself. */
  function Announced(originator: string, body: Body, identified: set<string>, arrival: Arrival): seq<Report> {
    (if CallsignOf(body) != "" && originator !in identified
     then [Header(originator, arrival.announcement, Identification(CallsignOf(body)))] else [])
    + [Header(originator, arrival.message, body)]
  }

  function NowIdentified(originator: string, body: Body, identified: set<string>): set<string> {
    if CallsignOf(body) != "" then identified + {originator} else identified
  }

  predicate Control(kind: string) {
    StartsWith(kind, "t-x") || StartsWith(kind, "t-b")
  }

  /** EudServerManager._ingest. */
  function OnEud(parse: string -> Option<Parsed>, g: Gateway, cid: nat, raw: string, arrival: Arrival): Reaction
    requires cid in g.clients
  {
    var quiet := Reaction(g, [], false);
    if Marked(raw) || parse(raw).None? then quiet
    else
      var p := parse(raw).value;
      if p.kind == "t-x-c-t" then Reaction(g, [], true)
      else if Control(p.kind) || Dead(p, arrival.past) then quiet
      else
        var c := g.clients[cid];
        var originator := if p.uid.Some? && p.uid.value != "" && StartsWith(p.kind, "a-f")
                          then "atak-" + p.uid.value else c.originator;
        match FromCot(p)
        case None => Reaction(g.(clients := g.clients[cid := c.(originator := originator)]), [], false)
        case Some(body) =>
          var c' := Client(originator, NowIdentified(originator, body, c.identified), c.origins + {originator});
          Reaction(g.(clients := g.clients[cid := c']), Announced(originator, body, c.identified, arrival), false)
  }

  /** ServerConnectionManager._on_cot. */
  function OnServer(parse: string -> Option<Parsed>, g: Gateway, sid: string, raw: string, arrival: Arrival): Reaction
  {
    var quiet := Reaction(g, [], false);
    if Marked(raw) || parse(raw).None? then quiet
    else
      var p := parse(raw).value;
      if Dead(p, arrival.past) || Control(p.kind) then quiet
      else
        var uid := if p.uid.Some? then Or(p.uid.value, "track") else "track";
        var originator := "tak-" + sid + "-" + uid;
        match FromCot(p)
        case None => quiet
        case Some(body) =>
          Reaction(g.(origins := g.origins[sid := Sourced(g, Server(sid)) + {originator}],
                      identified := NowIdentified(originator, body, g.identified)),
                   Announced(originator, body, g.identified, arrival), false)
  }

  function OnCot(parse: string -> Option<Parsed>, g: Gateway, p: Peer, raw: string, arrival: Arrival): Reaction
    requires Connected(g, p)
  {
    match p
    case Eud(cid) => OnEud(parse, g, cid, raw, arrival)
    case Server(sid) => OnServer(parse, g, sid, raw, arrival)
  }

  /** The peers _emit of either manager streams a message to. */
  ghost predicate EmitsTo(g: Gateway, m: Report, p: Peer) {
    && m.originator != g.nodeId
    && MessageToCot(m).Some?
    && Connected(g, p)
    && m.originator !in Sourced(g, p)
  }

  /** A document no gateway reacts to. */
  predicate Inert(parse: string -> Option<Parsed>, raw: string) {
    || Marked(raw)
    || (parse(raw).Some? && StartsWith(parse(raw).value.kind, "t-x") && parse(raw).value.kind != "t-x-c-t")
  }

  /** Marked documents, the gateway's own CoT above all, and pongs change nothing and cause nothing. */
  lemma InertCausesNothing(parse: string -> Option<Parsed>, g: Gateway, p: Peer, raw: string, arrival: Arrival)
    requires Connected(g, p) && Inert(parse, raw)
    ensures OnCot(parse, g, p, raw, arrival) == Reaction(g, [], false)
  {
  }

  lemma EmittedIsInert(parse: string -> Option<Parsed>, m: Report)
    requires MessageToCot(m).Some?
    ensures Inert(parse, MessageToCot(m).value)
  {
    RenderIsMarked(EventOf(m).value);
  }

  /** What a reaction ingests comes from the originator it has just booked under its source, so that
      source is never sent it back; other peers keep what they had. */
  lemma ReactionBooksOrigin(parse: string -> Option<Parsed>, g: Gateway, p: Peer, raw: string, arrival: Arrival)
    requires Connected(g, p)
    ensures var r := OnCot(parse, g, p, raw, arrival);
            && (forall m | m in r.ingested :: m.originator in Sourced(r.gateway, p))
            && (forall q :: Sourced(g, q) <= Sourced(r.gateway, q))
            && (forall q :: Connected(g, q) == Connected(r.gateway, q))
            && r.gateway.nodeId == g.nodeId
            && |r.ingested| <= 2 && (r.pong ==> r.ingested == [])
            && r.gateway.clients.Keys == g.clients.Keys && r.gateway.conns == g.conns
  {
  }

  // ------------------------------------------------------------ exactly what is relayed

  /** The text occurs somewhere in s. */
  ghost predicate Occurs(text: string, s: string) {
    exists i: nat :: At(s, text, i)
  }

  lemma MarkedMeans(raw: string)
    ensures Marked(raw) <==> Occurs("__jdssbridge", raw)
  {
    FindFirst(raw, BRIDGE_MARKER);
    hide At, Find;
  }

  /** Some affiliation token follows "a-", up to the next "-" or the end. */
  predicate Affiliation(kind: string, aff: string) {
    && '-' !in aff && "a-" + aff <= kind
    && (|kind| == 2 + |aff| || kind[2 + |aff|] == '-')
  }

  /** What each kind of CoT event becomes, and that no other event becomes a message. */
  lemma CotMeans(p: Parsed)
    ensures FromCot(p).Some? <==>
              p.tag == "event"
              && ("b-t-f" <= p.kind || "b-r-f-h-c" <= p.kind || "u-d" <= p.kind || "b-m-p" <= p.kind || "a-" <= p.kind)
    ensures p.tag == "event" && "b-t-f" <= p.kind ==>
              FromCot(p) == Some(Chat(if p.remarks == "" then p.callsign else p.remarks))
    ensures p.tag == "event" && "b-r-f-h-c" <= p.kind ==> FromCot(p) == Some(Casevac(p.location, 1))
    ensures p.tag == "event" && ("u-d" <= p.kind || "b-m-p" <= p.kind) ==>
              FromCot(p) == Some(Overlay(
                if p.callsign == "" then "ATAK marker" else p.callsign,
                [Graphic(p.location,
                         if p.remarks != "" then p.remarks else if p.callsign != "" then p.callsign else "marker")]))
    ensures forall aff | p.tag == "event" && Affiliation(p.kind, aff) ::
              FromCot(p) == Some(
                if aff == "f" then Presence(p.location, if p.callsign == "" then "ATAK" else p.callsign, p.track)
                else Contact(p.location,
                             if aff == "h" then Hostile else if aff == "n" then Neutral
                             else if aff == "p" then Pending else Unknown,
                             if p.remarks != "" then p.remarks else if p.callsign != "" then p.callsign
                             else "CoT track", p.track))
  {
    KindPrefixes(p.kind);
    forall aff | Affiliation(p.kind, aff) ensures "a-" <= p.kind && UpTo(p.kind[2..], '-') == aff {
      assert ("a-" + aff)[..2] == "a-";
      assert p.kind[2..2 + |aff|] == ("a-" + aff)[2..] == aff;
      UpToIs(p.kind[2..], aff, '-');
    }
    hide UpTo;
  }

  lemma KindPrefixes(kind: string)
    ensures "b-t-f" <= kind ==> |kind| > 2 && kind[0] == 'b' && kind[2] == 't'
    ensures "b-r-f-h-c" <= kind ==> |kind| > 2 && kind[0] == 'b' && kind[2] == 'r'
    ensures "b-m-p" <= kind ==> |kind| > 2 && kind[0] == 'b' && kind[2] == 'm'
    ensures "u-d" <= kind ==> |kind| > 2 && kind[0] == 'u'
    ensures "a-" <= kind ==> |kind| >= 2 && kind[0] == 'a'
  {
  }

  /** An unmarked document that parses, is no TAK control message and whose stale time, if it has one, is not
      past. */
  ghost predicate Live(parse: string -> Option<Parsed>, raw: string, past: string -> bool) {
    && !Occurs("__jdssbridge", raw)
    && match parse(raw)
       case None => false
       case Some(x) =>
         && !("t-x" <= x.kind) && !("t-b" <= x.kind)
         && match x.staleAt
            case None => true
            case Some(t) => t == "" || !past(t)
  }

  /** The originator a live document of this peer is ingested under: a server's track by server and uid, an
      EUD's by the uid of its own position reports, remembered for its other documents. */
  function OriginatorFor(g: Gateway, p: Peer, x: Parsed): string
    requires Connected(g, p)
  {
    var uid := match x.uid case None => "" case Some(u) => u;
    match p
    case Eud(cid) => if uid != "" && "a-f" <= x.kind then "atak-" + uid else g.clients[cid].originator
    case Server(sid) => "tak-" + sid + "-" + (if uid != "" then uid else "track")
  }

  /** The originators whose callsign this source has announced. */
  function KnownTo(g: Gateway, p: Peer): set<string>
    requires Connected(g, p)
  {
    match p case Eud(cid) => g.clients[cid].identified case Server(_) => g.identified
  }

  /** A document is ingested exactly when it is live and maps to a message. Then that message is ingested last,
      under the originator the peer, uid and kind give, preceded by one Identification exactly when it is a
      presence with a callsign new to this source, and the originator is booked under the source. */
  lemma IngestedExactlyWhen(parse: string -> Option<Parsed>, g: Gateway, p: Peer, raw: string, arrival: Arrival)
    requires Connected(g, p)
    ensures var r := OnCot(parse, g, p, raw, arrival);
            if Live(parse, raw, arrival.past) && FromCot(parse(raw).value).Some? then
              var body := FromCot(parse(raw).value).value;
              var o := OriginatorFor(g, p, parse(raw).value);
              var callsign := if body.Presence? then body.callsign else "";
              var message := Report(o, arrival.message.id, arrival.message.time, arrival.message.stale, body);
              var announcement := Report(o, arrival.announcement.id, arrival.announcement.time,
                                         arrival.announcement.stale, Identification(callsign));
              && r.ingested == (if callsign != "" && o !in KnownTo(g, p) then [announcement, message] else [message])
              && Sourced(r.gateway, p) == Sourced(g, p) + {o}
              && Connected(r.gateway, p)
              && KnownTo(r.gateway, p) == KnownTo(g, p) + (if callsign != "" then {o} else {})
            else r.ingested == []
    ensures OnCot(parse, g, p, raw, arrival).pong <==>
              p.Eud? && !Occurs("__jdssbridge", raw) && parse(raw).Some? && parse(raw).value.kind == "t-x-c-t"
  {
    MarkedMeans(raw);
    hide FromCot, Marked, Occurs;
    if parse(raw).Some? && FromCot(parse(raw).value).Some? {
      NoIdentification(parse(raw).value);
    }
    match p
    case Eud(cid) =>
    case Server(sid) =>
  }

  lemma NoIdentification(p: Parsed)
    requires FromCot(p).Some?
    ensures !FromCot(p).value.Identification?
  {
  }

  /** An EUD's own position report settles its originator for what it sends later, whether or not it maps to a
      message; nothing else about any peer changes where nothing is ingested. */
  lemma NothingIngestedLeaves(parse: string -> Option<Parsed>, g: Gateway, p: Peer, raw: string, arrival: Arrival)
    requires Connected(g, p) && OnCot(parse, g, p, raw, arrival).ingested == []
    ensures OnCot(parse, g, p, raw, arrival).gateway
            == if p.Eud? && Live(parse, raw, arrival.past) then
                 var c := g.clients[p.cid];
                 g.(clients := g.clients[p.cid := c.(originator := OriginatorFor(g, p, parse(raw).value))])
               else g
  {
    MarkedMeans(raw);
    hide FromCot, Marked, Occurs;
    if p.Eud? {
      assert g.clients == g.clients[p.cid := g.clients[p.cid]];
    }
  }
}
