/** JDSSDM messages as Cursor-on-Target events: the mapping, and the bytes of an emitted event.

    Coordinates, times and speeds are the texts str() gives them. A character outside ASCII stands for
    its UTF-8 bytes, none of which is "<". */
module Cot {
  import opened Wrappers
  import opened CotStream
  import Decimal

  const BRIDGE_MARKER := "__jdssbridge"
  const MARKER_TAG := "<__jdssbridge />"

  datatype Point = Point(lat: string, lon: string)

  datatype Track = Track(course: Option<string>, speed: Option<string>)

  datatype Graphic = Graphic(location: Point, text: string)

  /** StandardIdentity. */
  datatype Identity = Pending | Unknown | AssumedFriend | Friend | Neutral | Suspect | Hostile

  /** _IDENTITY_TO_AFF.get(identity, "u") */
  function Letter(i: Identity): string {
    match i
    case Friend => "f"
    case Hostile => "h"
    case Neutral => "n"
    case Pending => "p"
    case _ => "u"
  }

  datatype Body =
    | Presence(location: Point, callsign: string, track: Track)
    | Contact(location: Point, identity: Identity, description: string, track: Track)
    | Casevac(location: Point, urgent: int)
    | Overlay(name: string, graphics: seq<Graphic>)
    | Chat(text: string)
    | GeneralInfo(subject: string, text: string, at: Option<Point>)
    | Identification(callsign: string)
    | Unmapped(kind: string)

  datatype Report = Report(originator: string, messageId: string, time: string, stale: string, body: Body)

  /** What goes into one event element. */
  datatype Event = Event(uid: string, kind: string, time: string, stale: string, location: Point,
                         callsign: string, remarks: string, track: Track)

  const ORIGIN := Point("0.0", "0.0")
  const STILL := Track(None, None)

  function First(s: string, n: nat): string {
    if |s| <= n then s else s[..n]
  }

  /** message_to_cot, up to the tree it builds. */
  function EventOf(m: Report): Option<Event> {
    var uid := "JDSS." + m.originator + "." + First(m.messageId, 8);
    match m.body
    case Presence(at, callsign, track) =>
      Some(Event("JDSS." + m.originator, "a-f-G-U-C", m.time, m.stale, at, callsign, "", track))
    case Contact(at, identity, description, track) =>
      Some(Event(uid, "a-" + Letter(identity) + "-G", m.time, m.stale, at, "", description, track))
    case Casevac(at, urgent) =>
      Some(Event(uid, "b-r-f-h-c", m.time, m.stale, at, "", "CASEVAC urgent=" + Decimal.Int(urgent), STILL))
    case Overlay(name, graphics) =>
      if graphics == [] then None
      else Some(Event(uid, "u-d-p", m.time, m.stale, graphics[0].location, name, graphics[0].text, STILL))
    case Chat(text) => Some(Event(uid, "b-t-f", m.time, m.stale, ORIGIN, "", text, STILL))
    case GeneralInfo(subject, text, at) =>
      Some(Event(uid, "b-t-f", m.time, m.stale, if at.Some? then at.value else ORIGIN, "",
                 if subject == "" then text else subject + ": " + text, STILL))
    case _ => None
  }

  // ------------------------------------------------------------ serialization

  predicate Unbracketed(s: string) {
    forall i | 0 <= i < |s| :: s[i] != '<'
  }

  function TextChar(c: char): (r: string)
    ensures Unbracketed(r) && r != ""
  {
    match c
    case '&' => "&amp;"
    case '<' => "&lt;"
    case '>' => "&gt;"
    case _ => [c]
  }

  function AttrChar(c: char): (r: string)
    ensures Unbracketed(r) && r != ""
  {
    match c
    case '&' => "&amp;"
    case '<' => "&lt;"
    case '>' => "&gt;"
    case '"' => "&quot;"
    case '\r' => "&#13;"
    case '\n' => "&#10;"
    case '\t' => "&#09;"
    case _ => [c]
  }

  /** Character data as the XML library escapes it: a carriage return goes out as it is. */
  function EscText(s: string): (r: string)
    ensures Unbracketed(r)
  {
    if s == "" then "" else TextChar(s[0]) + EscText(s[1..])
  }

  function EscAttr(s: string): (r: string)
    ensures Unbracketed(r)
  {
    if s == "" then "" else AttrChar(s[0]) + EscAttr(s[1..])
  }

  /** The attributes that occur. */
  datatype Key =
    | Version | Uid | Type | How | Time | Start | Stale | Lat | Lon | Hae | Ce | Le | Callsign | Course | Speed

  function KeyName(k: Key): (r: string)
    ensures Plain(r) && r != ""
  {
    match k
    case Version => "version"
    case Uid => "uid"
    case Type => "type"
    case How => "how"
    case Time => "time"
    case Start => "start"
    case Stale => "stale"
    case Lat => "lat"
    case Lon => "lon"
    case Hae => "hae"
    case Ce => "ce"
    case Le => "le"
    case Callsign => "callsign"
    case Course => "course"
    case Speed => "speed"
  }

  /** What element and attribute names are made of. */
  predicate Plain(s: string) {
    forall i | 0 <= i < |s| :: 'a' <= s[i] <= 'z' || s[i] == '_'
  }

  datatype Attribute = Attribute(key: Key, value: string)

  function Attr(a: Attribute): (r: string)
    ensures Unbracketed(r)
  {
    " " + KeyName(a.key) + "=\"" + EscAttr(a.value) + "\""
  }

  function Attrs(attributes: seq<Attribute>): (r: string)
    ensures Unbracketed(r)
  {
    if attributes == [] then "" else Attr(attributes[0]) + Attrs(attributes[1..])
  }

  /** A start tag, or an empty element. */
  function Tag(start: string, attributes: seq<Attribute>, end: string): string {
    start + (Attrs(attributes) + end)
  }

  function OrZero(v: Option<string>): string {
    if v.Some? then v.value else "0.0"
  }

  function EventAttrs(e: Event): seq<Attribute> {
    [Attribute(Version, "2.0"), Attribute(Uid, e.uid), Attribute(Type, e.kind), Attribute(How, "m-g"),
     Attribute(Time, e.time), Attribute(Start, e.time), Attribute(Stale, e.stale)]
  }

  function PointAttrs(p: Point): seq<Attribute> {
    [Attribute(Lat, p.lat), Attribute(Lon, p.lon), Attribute(Hae, "0"), Attribute(Ce, "9999999"),
     Attribute(Le, "9999999")]
  }

  function TrackAttrs(t: Track): seq<Attribute> {
    [Attribute(Course, OrZero(t.course)), Attribute(Speed, OrZero(t.speed))]
  }

  /** The children of <detail> after the marker. */
  function Details(e: Event): seq<string> {
    (if e.callsign == "" then [] else [Tag("<contact", [Attribute(Callsign, e.callsign)], " />")])
    + (if e.remarks == "" then [] else ["<remarks>" + EscText(e.remarks), "</remarks>"])
    + (if e.track == STILL then [] else [Tag("<track", TrackAttrs(e.track), " />")])
  }

  /** The serialized event, cut before every "<", without its end tag. */
  function Pieces(e: Event): seq<string> {
    Opening(e) + (Details(e) + ["</detail>"])
  }

  function Opening(e: Event): seq<string> {
    [Tag(EVENT_START, EventAttrs(e), ">"), Tag("<point", PointAttrs(e.location), " />"), "<detail>", MARKER_TAG]
  }

  function Flat(ps: seq<string>): string {
    if ps == [] then "" else ps[0] + Flat(ps[1..])
  }

  function Render(e: Event): string {
    Flat(Pieces(e)) + EVENT_END
  }

  /** message_to_cot. */
  function MessageToCot(m: Report): Option<string> {
    match EventOf(m) case None => None case Some(e) => Some(Render(e))
  }

  // ------------------------------------------------------------ an emitted event is one frame

  /** One "<", at the front, and not the start of the end tag. */
  predicate Piece(p: string) {
    |p| >= 3 && p[0] == '<' && Unbracketed(p[1..]) && !(p[1] == '/' && p[2] == 'e')
  }

  lemma TagPiece(name: string, rest: string)
    requires |name| >= 3 && Piece(name) && Unbracketed(rest)
    ensures Piece(name + rest)
  {
    assert (name + rest)[1..] == name[1..] + rest;
  }

  predicate AllPieces(ps: seq<string>) {
    forall i | 0 <= i < |ps| :: Piece(ps[i])
  }

  lemma DetailsArePieces(e: Event)
    ensures AllPieces(Details(e))
  {
    hide Attrs, TrackAttrs, EscText;
    TagPiece("<contact", Attrs([Attribute(Callsign, e.callsign)]) + " />");
    TagPiece("<remarks>", EscText(e.remarks));
    TagPiece("<track", Attrs(TrackAttrs(e.track)) + " />");
    assert Piece("</remarks>");
  }

  lemma AllPiecesAppend(a: seq<string>, b: seq<string>)
    requires AllPieces(a) && AllPieces(b)
    ensures AllPieces(a + b)
  {
  }

  lemma OpeningOf(a: string, p: string)
    requires Unbracketed(a) && Unbracketed(p)
    ensures AllPieces([EVENT_START + a, "<point" + p, "<detail>", MARKER_TAG])
  {
    TagPiece(EVENT_START, a);
    TagPiece("<point", p);
  }

  lemma OpeningIsPieces(e: Event)
    ensures AllPieces(Opening(e))
  {
    OpeningOf(Attrs(EventAttrs(e)) + ">", Attrs(PointAttrs(e.location)) + " />");
  }

  lemma ClosingIsPiece()
    ensures AllPieces(["</detail>"])
  {
    assert Piece("</detail>");
  }

  lemma PiecesArePieces(e: Event)
    ensures AllPieces(Pieces(e))
  {
    OpeningIsPieces(e);
    DetailsArePieces(e);
    ClosingIsPiece();
    AllPiecesAppend(Details(e), ["</detail>"]);
    AllPiecesAppend(Opening(e), Details(e) + ["</detail>"]);
  }

  lemma NoEndInPiece(p: string, s: string, k: nat)
    requires Piece(p) && k < |p|
    ensures !At(p + s, EVENT_END, k)
  {
    if At(p + s, EVENT_END, k) {
      AtIndex(p + s, EVENT_END, k, 0);
      AtIndex(p + s, EVENT_END, k, 1);
      AtIndex(p + s, EVENT_END, k, 2);
    }
  }

  lemma {:induction false} NoEndBefore(ps: seq<string>, k: nat)
    requires AllPieces(ps) && k < |Flat(ps)|
    ensures !At(Flat(ps) + EVENT_END, EVENT_END, k)
    decreases |ps|
  {
    var p, rest := ps[0], Flat(ps[1..]) + EVENT_END;
    assert Flat(ps) + EVENT_END == p + rest;
    if k < |p| {
      NoEndInPiece(p, rest, k);
    } else {
      NoEndBefore(ps[1..], k - |p|);
      assert (p + rest)[|p|..] == rest;
      AtShift(p + rest, |p|, EVENT_END, k - |p|);
    }
  }

  /** A piece occurs in the text it is part of. */
  lemma {:induction false} PieceOccurs(ps: seq<string>, i: nat, s: string) returns (at: nat)
    requires i < |ps|
    ensures At(Flat(ps) + s, ps[i], at) && (i == 0 ==> at == 0)
    decreases |ps|
  {
    var t := Flat(ps) + s;
    assert t == ps[0] + (Flat(ps[1..]) + s);
    if i == 0 {
      assert t[0..|ps[0]|] == ps[0];
      at := 0;
    } else {
      var later := PieceOccurs(ps[1..], i - 1, s);
      assert t[|ps[0]|..] == Flat(ps[1..]) + s;
      AtShift(t, |ps[0]|, ps[i], later);
      at := |ps[0]| + later;
    }
  }

  lemma AtWithin(s: string, p: string, i: nat, q: string, k: nat)
    requires At(s, p, i) && At(p, q, k)
    ensures At(s, q, i + k)
  {
    assert forall x | 0 <= x < |p| :: s[i + x] == s[i..i + |p|][x] == p[x];
    assert forall x | 0 <= x < |q| :: p[k + x] == p[k..k + |q|][x] == q[x];
    assert s[i + k..i + k + |q|] == q;
  }

  lemma EndFoundLast(ps: seq<string>)
    requires AllPieces(ps)
    ensures Find(Flat(ps) + EVENT_END, EVENT_END) == |Flat(ps)|
  {
    var n, r := |Flat(ps)|, Flat(ps) + EVENT_END;
    assert r[n..n + |EVENT_END|] == EVENT_END;
    forall k: nat | k < n ensures !At(r, EVENT_END, k) { NoEndBefore(ps, k); }
    FindIs(r, EVENT_END, n);
  }

  /** Whatever the message says, its event starts with the start tag, ends with the end tag and holds
      no end tag in between: a reader of the stream gets it back whole. */
  lemma RenderIsFrame(e: Event)
    ensures IsFrame(Render(e))
  {
    var ps := Pieces(e);
    PiecesArePieces(e);
    EndFoundLast(ps);
    var at := PieceOccurs(ps, 0, EVENT_END);
    StartOfTag(e);
    AtWithin(Render(e), ps[0], 0, EVENT_START, 0);
  }

  lemma StartOfTag(e: Event)
    ensures At(Pieces(e)[0], EVENT_START, 0)
  {
    assert Pieces(e)[0] == EVENT_START + (Attrs(EventAttrs(e)) + ">");
  }

  predicate Marked(raw: string) {
    Find(raw, BRIDGE_MARKER) != -1
  }

  lemma RenderIsMarked(e: Event)
    ensures Marked(Render(e))
  {
    var ps, r := Pieces(e), Render(e);
    var at := PieceOccurs(ps, 3, EVENT_END);
    MarkerPiece();
    AtWithin(r, ps[3], at, BRIDGE_MARKER, 1);
    FindFirst(r, BRIDGE_MARKER);
  }

  lemma MarkerPiece()
    ensures At(MARKER_TAG, BRIDGE_MARKER, 1)
  {
    assert MARKER_TAG[1..13] == BRIDGE_MARKER;
  }

  /** What any gateways have emitted, forwarded unchanged and cut into any chunks, reads back event by
      event, and every event still bears the marker. */
  lemma ForwardedEventsStayMarked(ms: seq<Report>, frames: seq<string>, chunks: seq<string>)
    requires |frames| == |ms|
    requires forall i | 0 <= i < |ms| :: MessageToCot(ms[i]) == Some(frames[i])
    requires Concat(chunks) == Lines(frames)
    ensures ReadChunks(chunks).docs == frames
    ensures forall i | 0 <= i < |frames| :: Marked(frames[i])
  {
    forall i | 0 <= i < |frames| ensures IsFrame(frames[i]) && Marked(frames[i]) {
      assert MessageToCot(ms[i]) == Some(frames[i]);
      RenderIsFrame(EventOf(ms[i]).value);
      RenderIsMarked(EventOf(ms[i]).value);
    }
    WrittenFramesReadBack(frames, chunks);
  }
}
