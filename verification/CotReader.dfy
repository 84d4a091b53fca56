/** Reading an emitted CoT event as an XML reader does (XML 1.0, sections 2.2, 2.11, 3.3.3 and 4.6), and
    what becomes of a message that is sent as CoT and translated back.

    Read covers documents without comments, sections or declarations whose markup holds no raw "<" or ">"
    in values; every document message_to_cot emits is one. */
module CotReader {
  import opened Wrappers
  import opened Sequences
  import opened Cot
  import opened Relay
  import Decimal

  // ------------------------------------------------------------ characters

  predicate Legal(c: char) {
    var n := c as int;
    n == 9 || n == 10 || n == 13 || 0x20 <= n <= 0xD7FF || 0xE000 <= n <= 0xFFFD || n >= 0x1_0000
  }

  predicate AllLegal(s: string) {
    forall i | 0 <= i < |s| :: Legal(s[i])
  }

  /** Every line end, "\r\n" or a lone "\r", is read as "\n". */
  function LineEnds(s: string): string
    decreases |s|
  {
    if s == "" then ""
    else if s[0] == '\r' then "\n" + LineEnds(if |s| > 1 && s[1] == '\n' then s[2..] else s[1..])
    else [s[0]] + LineEnds(s[1..])
  }

  /** White space in an attribute value is read as blanks. */
  function Blanks(s: string): string {
    if s == "" then "" else [if s[0] in {'\t', '\n', '\r'} then ' ' else s[0]] + Blanks(s[1..])
  }

  /** The character at the front and how many characters denote it. */
  function Reference(s: string): (r: (char, nat))
    requires s != ""
    ensures 1 <= r.1 <= |s|
  {
    if "&amp;" <= s then ('&', 5)
    else if "&lt;" <= s then ('<', 4)
    else if "&gt;" <= s then ('>', 4)
    else if "&quot;" <= s then ('"', 6)
    else if "&#13;" <= s then ('\r', 5)
    else if "&#10;" <= s then ('\n', 5)
    else if "&#09;" <= s then ('\t', 5)
    else (s[0], 1)
  }

  function Unescaped(s: string): string
    decreases |s|
  {
    if s == "" then "" else [Reference(s).0] + Unescaped(s[Reference(s).1..])
  }

  function TextValue(s: string): string {
    Unescaped(LineEnds(s))
  }

  function AttrValue(s: string): string {
    Unescaped(Blanks(LineEnds(s)))
  }

  // ------------------------------------------------------------ unescaping undoes escaping

  lemma Apart(p: string, q: string, s: string, i: nat)
    requires i < |p| && i < |q| && p[i] != q[i]
    ensures !(p <= q + s)
  {
    assert (q + s)[i] == q[i];
  }

  lemma NoReference(c: char, s: string)
    requires c != '&'
    ensures Reference([c] + s) == (c, 1)
  {
    assert ([c] + s)[0] == c;
  }

  lemma AttrCharRead(c: char, s: string)
    ensures Reference(AttrChar(c) + s) == (c, |AttrChar(c)|)
    ensures (AttrChar(c) + s)[|AttrChar(c)|..] == s
  {
    match c
    case '&' =>
    case '<' => Apart("&amp;", "&lt;", s, 1);
    case '>' => Apart("&amp;", "&gt;", s, 1); Apart("&lt;", "&gt;", s, 1);
    case '"' => Apart("&amp;", "&quot;", s, 1); Apart("&lt;", "&quot;", s, 1); Apart("&gt;", "&quot;", s, 1);
    case '\r' => Numeric("&#13;", s);
    case '\n' => Numeric("&#10;", s); Apart("&#13;", "&#10;", s, 3);
    case '\t' => Numeric("&#09;", s); Apart("&#13;", "&#09;", s, 2); Apart("&#10;", "&#09;", s, 2);
    case _ => NoReference(c, s);
  }

  lemma Numeric(q: string, s: string)
    requires |q| > 1 && q[1] == '#'
    ensures !("&amp;" <= q + s) && !("&lt;" <= q + s) && !("&gt;" <= q + s) && !("&quot;" <= q + s)
  {
    Apart("&amp;", q, s, 1);
    Apart("&lt;", q, s, 1);
    Apart("&gt;", q, s, 1);
    Apart("&quot;", q, s, 1);
  }

  lemma TextCharRead(c: char, s: string)
    ensures Reference(TextChar(c) + s) == (c, |TextChar(c)|)
    ensures (TextChar(c) + s)[|TextChar(c)|..] == s
  {
    if c in {'&', '<', '>'} {
      AttrCharRead(c, s);
    } else {
      NoReference(c, s);
    }
  }

  lemma {:induction false} UnescapeAttr(s: string)
    ensures Unescaped(EscAttr(s)) == s
  {
    if s != "" {
      AttrCharRead(s[0], EscAttr(s[1..]));
      UnescapeAttr(s[1..]);
    }
  }

  lemma {:induction false} UnescapeText(s: string)
    ensures Unescaped(EscText(s)) == s
  {
    if s != "" {
      TextCharRead(s[0], EscText(s[1..]));
      UnescapeText(s[1..]);
    }
  }

  predicate NoSpaces(s: string) {
    forall i | 0 <= i < |s| :: s[i] !in {'\t', '\n', '\r'}
  }

  lemma {:induction false} NothingToNormalize(s: string)
    requires NoSpaces(s)
    ensures LineEnds(s) == s && Blanks(s) == s
  {
    if s != "" {
      NothingToNormalize(s[1..]);
      assert s == [s[0]] + s[1..];
    }
  }

  lemma {:induction false} EscAttrPlain(s: string)
    ensures NoSpaces(EscAttr(s)) && '"' !in EscAttr(s) && '>' !in EscAttr(s)
  {
    hide AttrChar;
    if s != "" {
      EscAttrPlain(s[1..]);
      AttrCharPlain(s[0]);
    }
  }

  lemma AttrCharPlain(c: char)
    ensures NoSpaces(AttrChar(c)) && '"' !in AttrChar(c) && '>' !in AttrChar(c)
  {
  }

  /** An attribute value comes back whatever it holds. */
  lemma AttrComesBack(s: string)
    ensures AttrValue(EscAttr(s)) == s
  {
    EscAttrPlain(s);
    NothingToNormalize(EscAttr(s));
    UnescapeAttr(s);
  }

  lemma {:induction false} LineEndsPass(a: string, b: string)
    requires '\r' !in a
    ensures LineEnds(a + b) == a + LineEnds(b)
  {
    if a == "" {
      assert a + b == b;
    } else {
      assert (a + b)[1..] == a[1..] + b;
      LineEndsPass(a[1..], b);
      assert a == [a[0]] + a[1..];
    }
  }

  lemma EscTextCons(c: char, s: string)
    ensures EscText([c] + s) == TextChar(c) + EscText(s)
  {
    assert ([c] + s)[1..] == s;
  }

  lemma {:induction false} LineEndsOfEscText(s: string)
    ensures LineEnds(EscText(s)) == EscText(LineEnds(s))
    decreases |s|
  {
    if s != "" && s[0] == '\r' {
      var rest := if |s| > 1 && s[1] == '\n' then s[2..] else s[1..];
      CarriageReturn(s);
      LineEndsOfEscText(rest);
      EscTextCons('\n', LineEnds(rest));
    } else if s != "" {
      LineEndsOfEscText(s[1..]);
      LineEndsPass(TextChar(s[0]), EscText(s[1..]));
      EscTextCons(s[0], LineEnds(s[1..]));
    }
  }

  lemma CarriageReturn(s: string)
    requires s != "" && s[0] == '\r'
    ensures LineEnds(EscText(s)) == "\n" + LineEnds(EscText(if |s| > 1 && s[1] == '\n' then s[2..] else s[1..]))
  {
    var t := EscText(s[1..]);
    assert EscText(s) == "\r" + t && EscText(s)[1..] == t;
    if |s| > 1 {
      assert t == TextChar(s[1]) + EscText(s[1..][1..]);
      assert s[1..][1..] == s[2..];
      assert t[0] == '\n' <==> s[1] == '\n';
      if s[1] == '\n' { assert EscText(s)[2..] == EscText(s[2..]); }
    }
  }

  lemma {:induction false} LineEndsChange(s: string)
    ensures LineEnds(s) == s <==> '\r' !in s
    ensures LineEnds(s) == "" <==> s == ""
  {
    if s != "" {
      if s[0] != '\r' {
        LineEndsChange(s[1..]);
        assert s == [s[0]] + s[1..];
      }
    }
  }

  /** Character data comes back with its line ends normalized. */
  lemma TextComesBack(s: string)
    ensures TextValue(EscText(s)) == LineEnds(s)
  {
    LineEndsOfEscText(s);
    UnescapeText(LineEnds(s));
  }

  // ------------------------------------------------------------ tags

  function After(s: string, c: char): (r: string)
    ensures |r| < |s| || s == ""
  {
    var n := |UpTo(s, c)|;
    if n < |s| then s[n + 1..] else ""
  }

  /** The document cut before every "<". */
  function Cut(s: string): seq<string>
    decreases |s|
  {
    if s == "" then []
    else
      var n := 1 + |UpTo(s[1..], '<')|;
      [s[..n]] + Cut(s[n..])
  }

  function Head(piece: string): string {
    UpTo(piece, '>')
  }

  /** The element name in a tag; an end tag's begins with "/". */
  function Name(piece: string): string {
    var opening := UpTo(Head(piece), ' ');
    if opening == "" then "" else opening[1..]
  }

  /** The value of an attribute in what a tag says before its ">". */
  function ValueIn(head: string, k: Key): Option<string>
    decreases |head|
  {
    if '"' !in head then None
    else
      var rest := After(head, '"');
      if EndsWith(UpTo(head, '"'), " " + KeyName(k) + "=") then Some(AttrValue(UpTo(rest, '"')))
      else ValueIn(After(rest, '"'), k)
  }

  function ValueOf(piece: string, k: Key): Option<string> {
    ValueIn(Head(piece), k)
  }

  function Text(piece: string): string {
    TextValue(After(piece, '>'))
  }

  function FirstNamed(ps: seq<string>, name: string): Option<string> {
    if ps == [] then None else if Name(ps[0]) == name then Some(ps[0]) else FirstNamed(ps[1..], name)
  }

  // ------------------------------------------------------------ the reader

  /** Which course and speed texts _deg and _spd keep. */
  datatype Ranges = Ranges(course: string -> bool, speed: string -> bool)

  function Kept(text: Option<string>, keeps: string -> bool): Option<string> {
    if text.Some? && keeps(text.value) then text else None
  }

  function OrElse(text: Option<string>, otherwise: string): string {
    if text.Some? then text.value else otherwise
  }

  /** float(text or 0), as a text. */
  function Coordinate(text: Option<string>): string {
    if text.Some? && text.value != "" then text.value else "0.0"
  }

  function ReadPoint(p: Option<string>): Point {
    if p.None? then ORIGIN else Point(Coordinate(ValueOf(p.value, Lat)), Coordinate(ValueOf(p.value, Lon)))
  }

  function ReadTrack(p: Option<string>, r: Ranges): Track {
    if p.None? then STILL
    else Track(Kept(ValueOf(p.value, Course), r.course), Kept(ValueOf(p.value, Speed), r.speed))
  }

  function ReadPieces(ps: seq<string>, r: Ranges): Parsed
    requires ps != []
  {
    var contact, remarks := FirstNamed(ps, "contact"), FirstNamed(ps, "remarks");
    Parsed(Name(ps[0]), OrElse(ValueOf(ps[0], Type), ""), ValueOf(ps[0], Uid), ValueOf(ps[0], Stale),
           ReadPoint(FirstNamed(ps, "point")),
           if contact.None? then "" else OrElse(ValueOf(contact.value, Callsign), ""),
           if remarks.None? then "" else Text(remarks.value),
           ReadTrack(FirstNamed(ps, "track"), r))
  }

  /** What cot_to_message and cot_is_stale take from a document; None where the parser raises. */
  function Read(s: string, r: Ranges): Option<Parsed> {
    if !AllLegal(s) || Cut(s) == [] then None else Some(ReadPieces(Cut(s), r))
  }

  // ------------------------------------------------------------ finding pieces, names and values again

  lemma SplitAtFirst(a: string, c: char, b: string)
    requires c !in a
    ensures UpTo(a + [c] + b, c) == a && After(a + [c] + b, c) == b
  {
    UpToIs(a + [c] + b, a, c);
  }

  predicate Chunk(p: string) {
    p != "" && p[0] == '<' && Unbracketed(p[1..])
  }

  lemma CutOne(p: string, later: string)
    requires Chunk(p) && (later == "" || later[0] == '<')
    ensures Cut(p + later) == [p] + Cut(later)
  {
    var s := p + later;
    assert s[1..] == p[1..] + later;
    UpToIs(s[1..], p[1..], '<');
    assert s[..|p|] == p && s[|p|..] == later;
    hide UpTo;
  }

  predicate Chunks(ps: seq<string>) {
    forall i | 0 <= i < |ps| :: Chunk(ps[i])
  }

  lemma FlatStart(ps: seq<string>)
    requires Chunks(ps)
    ensures Flat(ps) == "" || Flat(ps)[0] == '<'
  {
    if ps != [] { assert Flat(ps)[0] == ps[0][0]; }
  }

  lemma {:induction false} CutFlat(ps: seq<string>)
    requires Chunks(ps)
    ensures Cut(Flat(ps)) == ps
    decreases |ps|
  {
    hide Chunk, Cut;
    if ps == [] {
      assert Cut("") == [] by { CutNothing(); }
    } else {
      assert Chunks(ps[1..]);
      FlatStart(ps[1..]);
      CutOne(ps[0], Flat(ps[1..]));
      CutFlat(ps[1..]);
    }
  }

  lemma CutNothing()
    ensures Cut("") == []
  {
  }

  /** The first two characters of an attribute name and the last tell it apart. */
  function Mark(k: Key): (char, char, char) {
    match k
    case Version => ('v', 'e', 'n')
    case Uid => ('u', 'i', 'd')
    case Type => ('t', 'y', 'e')
    case How => ('h', 'o', 'w')
    case Time => ('t', 'i', 'e')
    case Start => ('s', 't', 't')
    case Stale => ('s', 't', 'e')
    case Lat => ('l', 'a', 't')
    case Lon => ('l', 'o', 'n')
    case Hae => ('h', 'a', 'e')
    case Ce => ('c', 'e', 'e')
    case Le => ('l', 'e', 'e')
    case Callsign => ('c', 'a', 'n')
    case Course => ('c', 'o', 'e')
    case Speed => ('s', 'p', 'd')
  }

  lemma NameBearsMark(k: Key)
    ensures var n := KeyName(k);
            |n| > 1 && Mark(k) == (n[0], n[1], n[|n| - 1])
  {
  }

  lemma MarkTells(k: Key, l: Key)
    ensures Mark(k) == Mark(l) ==> k == l
  {
  }

  lemma KeyNamesDiffer(k: Key, l: Key)
    ensures KeyName(k) == KeyName(l) <==> k == l
  {
    hide KeyName, Mark;
    NameBearsMark(k);
    NameBearsMark(l);
    MarkTells(k, l);
  }

  /** A name is found again behind the last blank. */
  lemma EndsWithPlain(before: string, n: string, m: string)
    requires Plain(n) && Plain(m)
    ensures EndsWith(before + (" " + n + "="), " " + m + "=") <==> n == m
  {
    var a, b := " " + n + "=", " " + m + "=";
    var s := before + a;
    assert forall i | |before| < i < |s| :: s[i] == a[i - |before|] != ' ';
    assert s[|before|] == ' ' && s[|before|..] == a;
    assert a[1..|a| - 1] == n && b[1..|b| - 1] == m;
    if EndsWith(s, b) {
      var start := |s| - |b|;
      assert forall i | start < i < |s| :: s[i] == b[i - start] != ' ';
      assert s[start] == b[0] == ' ';
      assert start == |before|;
    }
  }

  lemma EndsWithName(before: string, k: Key, l: Key)
    ensures EndsWith(before + (" " + KeyName(k) + "="), " " + KeyName(l) + "=") <==> k == l
  {
    EndsWithPlain(before, KeyName(k), KeyName(l));
    KeyNamesDiffer(k, l);
  }

  function Lookup(attributes: seq<Attribute>, k: Key): Option<string> {
    if attributes == [] then None
    else if attributes[0].key == k then Some(attributes[0].value)
    else Lookup(attributes[1..], k)
  }

  lemma {:induction false} ValueInAttrs(start: string, attributes: seq<Attribute>, end: string, k: Key)
    requires '"' !in start && '"' !in end
    ensures ValueIn(start + (Attrs(attributes) + end), k) == Lookup(attributes, k)
    decreases |attributes|
  {
    var head := start + (Attrs(attributes) + end);
    if attributes == [] {
      assert '"' !in head;
    } else {
      var a, more := attributes[0], Attrs(attributes[1..]) + end;
      OneAttr(start, a, more);
      EndsWithName(start, a.key, k);
      ValueInAttrs("", attributes[1..], end, k);
      assert "" + more == more;
      AttrsCons(start, attributes, end);
      hide Attr, Attrs, AttrValue, EndsWith, UpTo, After, KeyName;
    }
  }

  lemma AttrsCons(start: string, attributes: seq<Attribute>, end: string)
    requires attributes != []
    ensures start + (Attrs(attributes) + end) == start + (Attr(attributes[0]) + (Attrs(attributes[1..]) + end))
  {
    Assoc(Attr(attributes[0]), Attrs(attributes[1..]), end);
  }

  /** The first attribute in a tag, and what follows it. */
  lemma OneAttr(start: string, a: Attribute, more: string)
    requires '"' !in start
    ensures var head := start + (Attr(a) + more);
            var rest := After(head, '"');
            && '"' in head
            && UpTo(head, '"') == start + (" " + KeyName(a.key) + "=")
            && AttrValue(UpTo(rest, '"')) == a.value
            && After(rest, '"') == more
  {
    AttrParts(start, a, more);
    hide KeyName, EscAttr, Attr, AttrValue, UpTo, After;
    QuotedRead(start + (" " + KeyName(a.key) + "="), EscAttr(a.value), more);
    AttrComesBack(a.value);
  }

  lemma AttrParts(start: string, a: Attribute, more: string)
    requires '"' !in start
    ensures start + (Attr(a) + more)
            == (start + (" " + KeyName(a.key) + "=")) + ['"'] + (EscAttr(a.value) + ['"'] + more)
    ensures '"' !in start + (" " + KeyName(a.key) + "=") && '"' !in EscAttr(a.value)
  {
    EscAttrPlain(a.value);
    NoQuoteInName(a.key);
    hide KeyName, EscAttr;
    QuotedParts(start, " " + KeyName(a.key) + "=", EscAttr(a.value), more);
  }

  lemma NoQuoteInName(k: Key)
    ensures '"' !in KeyName(k)
  {
    hide KeyName;
  }

  lemma QuotedParts(start: string, name: string, value: string, more: string)
    ensures start + ((name + "\"" + value + "\"") + more) == (start + name) + ['"'] + (value + ['"'] + more)
  {
  }

  lemma QuotedRead(before: string, value: string, more: string)
    requires '"' !in before && '"' !in value
    ensures var head := before + ['"'] + (value + ['"'] + more);
            && '"' in head && UpTo(head, '"') == before
            && UpTo(After(head, '"'), '"') == value && After(After(head, '"'), '"') == more
  {
    hide UpTo, After;
    var rest := value + ['"'] + more;
    var head := before + ['"'] + rest;
    assert head[|before|] == '"';
    SplitAtFirst(before, '"', rest);
    SplitAtFirst(value, '"', more);
  }

  lemma {:induction false} AttrsUnclosed(attributes: seq<Attribute>)
    ensures '>' !in Attrs(attributes) && (attributes != [] ==> Attrs(attributes) != "" && Attrs(attributes)[0] == ' ')
  {
    if attributes != [] {
      AttrsUnclosed(attributes[1..]);
      EscAttrPlain(attributes[0].value);
      assert '>' !in Attr(attributes[0]);
    }
  }

  /** A start tag, or with a slash an empty element. */
  function Element(name: string, attributes: seq<Attribute>, slash: string): string {
    Tag("<" + name, attributes, slash + ">")
  }

  /** What a reader finds in it. */
  lemma TagRead(name: string, attributes: seq<Attribute>, slash: string, k: Key)
    requires Plain(name) && attributes != [] && '"' !in slash && '>' !in slash
    ensures var p := Element(name, attributes, slash);
            Name(p) == name && ValueOf(p, k) == Lookup(attributes, k)
  {
    var p := Element(name, attributes, slash);
    var head := "<" + name + (Attrs(attributes) + slash);
    AttrsUnclosed(attributes);
    assert p == head + ['>'] + "";
    SplitAtFirst(head, '>', "");
    UpToIs(head, "<" + name, ' ');
    ValueInAttrs("<" + name, attributes, slash, k);
  }

  lemma {:induction false} LookupAt(attributes: seq<Attribute>, i: nat)
    requires i < |attributes| && forall j | 0 <= j < i :: attributes[j].key != attributes[i].key
    ensures Lookup(attributes, attributes[i].key) == Some(attributes[i].value)
    decreases i
  {
    if i > 0 {
      assert attributes[0].key != attributes[i].key;
      LookupAt(attributes[1..], i - 1);
    }
  }

  lemma BareRead(name: string, text: string)
    requires ' ' !in name && '>' !in name
    ensures var p := "<" + name + ">" + text;
            Name(p) == name && After(p, '>') == text
  {
    var p, head := "<" + name + ">" + text, "<" + name;
    assert p == head + ['>'] + text;
    SplitAtFirst(head, '>', text);
    UpToIs(head, head, ' ');
  }

  lemma EmptyRead(name: string)
    requires ' ' !in name && '>' !in name
    ensures Name("<" + name + " />") == name
  {
    var head := "<" + name + " /";
    assert "<" + name + " />" == head + ['>'] + "";
    SplitAtFirst(head, '>', "");
    UpToIs(head, "<" + name, ' ');
  }

  lemma MarkerRead()
    ensures Name(MARKER_TAG) == BRIDGE_MARKER
  {
    assert MARKER_TAG == "<" + BRIDGE_MARKER + " />";
    EmptyRead(BRIDGE_MARKER);
  }

  lemma {:induction false} FirstNamedAppend(a: seq<string>, b: seq<string>, name: string)
    ensures FirstNamed(a + b, name) == if FirstNamed(a, name).Some? then FirstNamed(a, name) else FirstNamed(b, name)
  {
    if a == [] {
      assert a + b == b;
    } else {
      assert (a + b)[1..] == a[1..] + b;
      FirstNamedAppend(a[1..], b, name);
    }
  }

  // ------------------------------------------------------------ the pieces of an emitted event

  predicate Sought(name: string) {
    name == "point" || name == "contact" || name == "remarks" || name == "track"
  }

  function EventTag(e: Event): string {
    Element("event", EventAttrs(e), "")
  }

  function PointTag(e: Event): string {
    Element("point", PointAttrs(e.location), " /")
  }

  function ContactTag(e: Event): string {
    Element("contact", [Attribute(Callsign, e.callsign)], " /")
  }

  function RemarksTag(e: Event): string {
    "<remarks>" + EscText(e.remarks)
  }

  function TrackTag(e: Event): string {
    Element("track", TrackAttrs(e.track), " /")
  }

  lemma FirstOf4(p0: string, p1: string, p2: string, p3: string, name: string)
    ensures FirstNamed([p0, p1, p2, p3], name)
            == if Name(p0) == name then Some(p0)
               else if Name(p1) == name then Some(p1)
               else if Name(p2) == name then Some(p2)
               else if Name(p3) == name then Some(p3) else None
  {
    hide Name;
    FirstNamedAppend([p0] + [p1], [p2] + [p3], name);
    FirstNamedAppend([p0], [p1], name);
    FirstNamedAppend([p2], [p3], name);
    assert [p0, p1, p2, p3] == ([p0] + [p1]) + ([p2] + [p3]);
  }

  lemma PlainNames()
    ensures Plain("event") && Plain("point") && Plain("contact") && Plain("track")
  {
  }

  lemma TagNames(e: Event)
    ensures Name(EventTag(e)) == "event" && Name(PointTag(e)) == "point"
    ensures Name(ContactTag(e)) == "contact" && Name(TrackTag(e)) == "track"
  {
    PlainNames();
    hide Name, ValueOf, Lookup, Plain, Element, EventAttrs, PointAttrs, TrackAttrs;
    SomeAttributes(e);
    TagRead("event", EventAttrs(e), "", Uid);
    TagRead("point", PointAttrs(e.location), " /", Uid);
    TagRead("contact", [Attribute(Callsign, e.callsign)], " /", Uid);
    TagRead("track", TrackAttrs(e.track), " /", Uid);
  }

  lemma SomeAttributes(e: Event)
    ensures EventAttrs(e) != [] && PointAttrs(e.location) != [] && TrackAttrs(e.track) != []
  {
  }

  lemma OpeningParts(e: Event)
    ensures Opening(e) == [EventTag(e), PointTag(e), "<detail>", MARKER_TAG]
  {
    assert "<" + "event" == "<event" && "" + ">" == ">";
    assert "<" + "point" == "<point" && " /" + ">" == " />";
  }

  lemma DetailName()
    ensures Name("<detail>") == "detail"
  {
    hide Name;
    BareRead("detail", "");
    assert "<" + "detail" + ">" + "" == "<detail>";
  }

  lemma DetailEndName()
    ensures Name("</detail>") == "/detail"
  {
    hide Name;
    BareRead("/detail", "");
    assert "<" + "/detail" + ">" + "" == "</detail>";
  }

  lemma RemarksEndName()
    ensures Name("</remarks>") == "/remarks"
  {
    hide Name;
    BareRead("/remarks", "");
    assert "<" + "/remarks" + ">" + "" == "</remarks>";
  }

  lemma EventEndName()
    ensures Name("</event>") == "/event"
  {
    hide Name;
    BareRead("/event", "");
    assert "<" + "/event" + ">" + "" == "</event>";
  }

  lemma FixedNames()
    ensures Name("<detail>") == "detail" && Name("</remarks>") == "/remarks"
    ensures Name("</detail>") == "/detail" && Name("</event>") == "/event"
  {
    hide Name;
    DetailName();
    DetailEndName();
    RemarksEndName();
    EventEndName();
  }

  lemma SoughtInOpening(name: string)
    requires Sought(name)
    ensures name != "event" && name != "detail" && name != BRIDGE_MARKER
    ensures name != "/remarks" && name != "/detail" && name != "/event"
  {
  }

  lemma OpeningSought(e: Event, name: string)
    requires Sought(name)
    ensures FirstNamed(Opening(e), name) == if name == "point" then Some(PointTag(e)) else None
  {
    SoughtInOpening(name);
    OpeningParts(e);
    TagNames(e);
    FixedNames();
    MarkerRead();
    hide Name, EventTag, PointTag, Opening, Sought;
    FirstOf4(EventTag(e), PointTag(e), "<detail>", MARKER_TAG, name);
  }

  function Contacts(e: Event): seq<string> {
    if e.callsign == "" then [] else [ContactTag(e)]
  }

  function Remarks(e: Event): seq<string> {
    if e.remarks == "" then [] else [RemarksTag(e), "</remarks>"]
  }

  function Tracks(e: Event): seq<string> {
    if e.track == STILL then [] else [TrackTag(e)]
  }

  lemma DetailsParts(e: Event)
    ensures Details(e) == Contacts(e) + Remarks(e) + Tracks(e)
  {
    assert "<" + "contact" == "<contact" && "<" + "track" == "<track" && " /" + ">" == " />";
  }

  lemma RemarksTagRead(e: Event)
    ensures Name(RemarksTag(e)) == "remarks" && Text(RemarksTag(e)) == LineEnds(e.remarks)
  {
    hide Name, TextValue, After;
    BareRead("remarks", EscText(e.remarks));
    assert "<" + "remarks" + ">" + EscText(e.remarks) == RemarksTag(e);
    TextComesBack(e.remarks);
  }

  lemma FirstOf2(p0: string, p1: string, name: string)
    ensures FirstNamed([p0, p1], name) == if Name(p0) == name then Some(p0) else if Name(p1) == name then Some(p1) else None
    ensures FirstNamed([p0], name) == if Name(p0) == name then Some(p0) else None
  {
    hide Name;
    FirstNamedAppend([p0], [p1], name);
    assert [p0, p1] == [p0] + [p1];
  }

  lemma DetailsSought(e: Event, name: string)
    requires Sought(name)
    ensures FirstNamed(Details(e), name)
            == if name == "contact" && e.callsign != "" then Some(ContactTag(e))
               else if name == "remarks" && e.remarks != "" then Some(RemarksTag(e))
               else if name == "track" && e.track != STILL then Some(TrackTag(e))
               else None
  {
    SoughtInOpening(name);
    DetailsParts(e);
    TagNames(e);
    RemarksTagRead(e);
    FixedNames();
    hide Details, Name, ContactTag, RemarksTag, TrackTag, Sought;
    FirstNamedAppend(Contacts(e) + Remarks(e), Tracks(e), name);
    FirstNamedAppend(Contacts(e), Remarks(e), name);
    FirstOf2(ContactTag(e), "", name);
    FirstOf2(RemarksTag(e), "</remarks>", name);
    FirstOf2(TrackTag(e), "", name);
  }

  function AllOf(e: Event): seq<string> {
    Pieces(e) + ["</event>"]
  }

  lemma AllOfParts(e: Event)
    ensures AllOf(e) == Opening(e) + (Details(e) + ["</detail>", "</event>"])
  {
  }

  lemma PiecesSought(e: Event, name: string)
    requires Sought(name)
    ensures FirstNamed(AllOf(e), name)
            == if name == "point" then Some(PointTag(e)) else FirstNamed(Details(e), name)
  {
    SoughtInOpening(name);
    OpeningSought(e, name);
    AllOfParts(e);
    FixedNames();
    hide AllOf, Opening, Details, Name, Sought;
    FirstOf2("</detail>", "</event>", name);
    FirstNamedAppend(Opening(e), Details(e) + ["</detail>", "</event>"], name);
    FirstNamedAppend(Details(e), ["</detail>", "</event>"], name);
  }

  lemma {:induction false} FlatAppend(a: seq<string>, b: seq<string>)
    ensures Flat(a + b) == Flat(a) + Flat(b)
  {
    if a == [] {
      assert a + b == b;
    } else {
      assert (a + b)[1..] == a[1..] + b;
      FlatAppend(a[1..], b);
    }
  }

  lemma PieceIsChunk(p: string)
    requires Piece(p)
    ensures Chunk(p)
  {
  }

  lemma RenderCut(e: Event)
    ensures Render(e) == Flat(AllOf(e)) && Cut(Render(e)) == AllOf(e)
  {
    hide Pieces, Cut, Piece;
    PiecesArePieces(e);
    FlatAppend(Pieces(e), ["</event>"]);
    assert Flat(["</event>"]) == "</event>";
    assert Chunk("</event>");
    hide Flat;
    forall i | 0 <= i < |Pieces(e)| ensures Chunk(Pieces(e)[i]) {
      PieceIsChunk(Pieces(e)[i]);
    }
    assert Chunks(AllOf(e));
    CutFlat(AllOf(e));
  }

  // ------------------------------------------------------------ what is legal in it

  lemma LegalAppend(a: string, b: string)
    ensures AllLegal(a + b) <==> AllLegal(a) && AllLegal(b)
  {
    assert a == (a + b)[..|a|] && b == (a + b)[|a|..];
    assert forall i | 0 <= i < |a| :: (a + b)[i] == a[i];
    assert forall i | 0 <= i < |b| :: (a + b)[|a| + i] == b[i];
  }

  lemma LegalChar(c: char)
    ensures AllLegal(AttrChar(c)) <==> Legal(c)
    ensures AllLegal(TextChar(c)) <==> Legal(c)
  {
    assert AttrChar(c) == [c] ==> AttrChar(c)[0] == c;
    assert TextChar(c) == [c] ==> TextChar(c)[0] == c;
  }

  lemma {:induction false} LegalEscaped(s: string)
    ensures AllLegal(EscAttr(s)) <==> AllLegal(s)
    ensures AllLegal(EscText(s)) <==> AllLegal(s)
  {
    if s != "" {
      LegalEscaped(s[1..]);
      LegalChar(s[0]);
      LegalAppend(AttrChar(s[0]), EscAttr(s[1..]));
      LegalAppend(TextChar(s[0]), EscText(s[1..]));
      LegalAppend([s[0]], s[1..]);
      assert s == [s[0]] + s[1..];
      hide AttrChar, TextChar;
      assert AllLegal([s[0]]) <==> Legal(s[0]) by { assert [s[0]][0] == s[0]; }
    }
  }

  predicate LegalValues(attributes: seq<Attribute>) {
    forall i | 0 <= i < |attributes| :: AllLegal(attributes[i].value)
  }

  lemma LegalAttr(a: Attribute)
    ensures AllLegal(Attr(a)) <==> AllLegal(a.value)
  {
    LegalEscaped(a.value);
    var before, after := " " + KeyName(a.key) + "=\"", "\"";
    LegalAppend(before, EscAttr(a.value) + after);
    LegalAppend(EscAttr(a.value), after);
    assert Attr(a) == before + (EscAttr(a.value) + after);
  }

  lemma {:induction false} LegalAttrs(attributes: seq<Attribute>)
    ensures AllLegal(Attrs(attributes)) <==> LegalValues(attributes)
  {
    hide AllLegal, Attr;
    if attributes == [] {
      assert AllLegal("") by { LegalNothing(); }
    } else {
      LegalAttrs(attributes[1..]);
      LegalAttr(attributes[0]);
      LegalAppend(Attr(attributes[0]), Attrs(attributes[1..]));
      assert attributes == [attributes[0]] + attributes[1..];
    }
  }

  lemma LegalNothing()
    ensures AllLegal("")
  {
  }

  lemma LegalTag(start: string, attributes: seq<Attribute>, end: string)
    requires AllLegal(start) && AllLegal(end)
    ensures AllLegal(Tag(start, attributes, end)) <==> LegalValues(attributes)
  {
    LegalAttrs(attributes);
    LegalAppend(Attrs(attributes), end);
    LegalAppend(start, Attrs(attributes) + end);
  }

  predicate LegalPieces(ps: seq<string>) {
    forall i | 0 <= i < |ps| :: AllLegal(ps[i])
  }

  lemma {:induction false} LegalFlat(ps: seq<string>)
    ensures AllLegal(Flat(ps)) <==> LegalPieces(ps)
  {
    if ps != [] {
      LegalFlat(ps[1..]);
      LegalAppend(ps[0], Flat(ps[1..]));
      hide AllLegal;
      assert ps == [ps[0]] + ps[1..];
    }
  }

  lemma LegalPiecesAppend(a: seq<string>, b: seq<string>)
    ensures LegalPieces(a + b) <==> LegalPieces(a) && LegalPieces(b)
  {
    hide AllLegal;
    assert a == (a + b)[..|a|] && b == (a + b)[|a|..];
  }

  /** Every text of the event is one XML can hold. */
  predicate LegalEvent(e: Event) {
    && AllLegal(e.uid) && AllLegal(e.kind) && AllLegal(e.time) && AllLegal(e.stale)
    && AllLegal(e.location.lat) && AllLegal(e.location.lon)
    && AllLegal(e.callsign) && AllLegal(e.remarks)
    && (e.track == STILL || (AllLegal(OrZero(e.track.course)) && AllLegal(OrZero(e.track.speed))))
  }

  lemma LegalFixed()
    ensures AllLegal("2.0") && AllLegal("m-g") && AllLegal("0") && AllLegal("9999999")
  {
  }

  lemma LegalMarkup()
    ensures AllLegal("<event") && AllLegal("<point") && AllLegal(">") && AllLegal(" />") && AllLegal("<detail>")
  {
  }

  lemma LegalEnds()
    ensures AllLegal("<contact") && AllLegal("<track") && AllLegal("<remarks>") && AllLegal("</remarks>")
    ensures AllLegal("</detail>") && AllLegal("</event>") && AllLegal(MARKER_TAG)
  {
  }

  lemma LegalEventTag(e: Event)
    ensures AllLegal(EventTag(e)) <==> AllLegal(e.uid) && AllLegal(e.kind) && AllLegal(e.time) && AllLegal(e.stale)
  {
    LegalFixed();
    LegalMarkup();
    hide AllLegal, Tag;
    var attributes := EventAttrs(e);
    LegalTag("<event", attributes, ">");
    assert "<" + "event" == "<event" && "" + ">" == ">";
    assert LegalValues(attributes) <==>
      AllLegal(attributes[0].value) && AllLegal(attributes[1].value) && AllLegal(attributes[2].value)
      && AllLegal(attributes[3].value) && AllLegal(attributes[4].value) && AllLegal(attributes[5].value)
      && AllLegal(attributes[6].value);
  }

  lemma LegalPointTag(e: Event)
    ensures AllLegal(PointTag(e)) <==> AllLegal(e.location.lat) && AllLegal(e.location.lon)
  {
    LegalFixed();
    LegalMarkup();
    hide AllLegal, Tag;
    var attributes := PointAttrs(e.location);
    LegalTag("<point", attributes, " />");
    assert "<" + "point" == "<point" && " /" + ">" == " />";
    assert LegalValues(attributes) <==>
      AllLegal(attributes[0].value) && AllLegal(attributes[1].value) && AllLegal(attributes[2].value)
      && AllLegal(attributes[3].value) && AllLegal(attributes[4].value);
  }

  lemma LegalOpening(e: Event)
    ensures LegalPieces(Opening(e)) <==>
            AllLegal(e.uid) && AllLegal(e.kind) && AllLegal(e.time) && AllLegal(e.stale)
            && AllLegal(e.location.lat) && AllLegal(e.location.lon)
  {
    LegalEventTag(e);
    LegalPointTag(e);
    LegalMarkup();
    LegalEnds();
    OpeningParts(e);
    hide AllLegal, Opening, EventTag, PointTag, Name;
    LegalPiecesAppend([EventTag(e), PointTag(e)], ["<detail>", MARKER_TAG]);
    TwoLegal(EventTag(e), PointTag(e));
    TwoLegal("<detail>", MARKER_TAG);
    assert Opening(e) == [EventTag(e), PointTag(e)] + ["<detail>", MARKER_TAG];
  }

  lemma TwoLegal(p: string, q: string)
    ensures LegalPieces([p, q]) <==> AllLegal(p) && AllLegal(q)
    ensures LegalPieces([p]) <==> AllLegal(p)
  {
    hide AllLegal;
    var ps := [p, q];
    assert ps[0] == p && ps[1] == q && [p][0] == p;
  }

  lemma LegalTags(e: Event)
    ensures AllLegal(ContactTag(e)) <==> AllLegal(e.callsign)
    ensures AllLegal(TrackTag(e)) <==> AllLegal(OrZero(e.track.course)) && AllLegal(OrZero(e.track.speed))
    ensures AllLegal(RemarksTag(e)) <==> AllLegal(e.remarks)
  {
    LegalEnds();
    LegalMarkup();
    hide AllLegal, Tag;
    var callsign, track := [Attribute(Callsign, e.callsign)], TrackAttrs(e.track);
    LegalTag("<contact", callsign, " />");
    LegalTag("<track", track, " />");
    assert "<" + "contact" == "<contact" && "<" + "track" == "<track" && " /" + ">" == " />";
    LegalEscaped(e.remarks);
    LegalAppend("<remarks>", EscText(e.remarks));
    assert LegalValues(callsign) <==> AllLegal(callsign[0].value);
    assert LegalValues(track) <==> AllLegal(track[0].value) && AllLegal(track[1].value);
  }

  lemma LegalDetails(e: Event)
    ensures LegalPieces(Details(e)) <==>
            AllLegal(e.callsign) && AllLegal(e.remarks)
            && (e.track == STILL || (AllLegal(OrZero(e.track.course)) && AllLegal(OrZero(e.track.speed))))
  {
    LegalTags(e);
    LegalEnds();
    DetailsParts(e);
    assert AllLegal("");
    hide AllLegal, Details, ContactTag, RemarksTag, TrackTag, OrZero;
    LegalPiecesAppend(Contacts(e) + Remarks(e), Tracks(e));
    LegalPiecesAppend(Contacts(e), Remarks(e));
    TwoLegal(ContactTag(e), "");
    TwoLegal(RemarksTag(e), "</remarks>");
    TwoLegal(TrackTag(e), "");
  }

  lemma RenderLegal(e: Event)
    ensures AllLegal(Render(e)) <==> LegalEvent(e)
  {
    RenderCut(e);
    AllOfParts(e);
    LegalEnds();
    hide AllLegal, Render, Cut, AllOf, Opening, Details;
    LegalFlat(AllOf(e));
    LegalOpening(e);
    LegalDetails(e);
    TwoLegal("</detail>", "</event>");
    LegalPiecesAppend(Opening(e), Details(e) + ["</detail>", "</event>"]);
    LegalPiecesAppend(Details(e), ["</detail>", "</event>"]);
  }

  // ------------------------------------------------------------ reading an emitted event

  function SeenTrack(t: Track, r: Ranges): Track {
    if t == STILL then STILL
    else Track(Kept(Some(OrZero(t.course)), r.course), Kept(Some(OrZero(t.speed)), r.speed))
  }

  /** What a reader makes of the event: remarks with their line ends normalized, numbers where they are
      in range, and everything else as it was. */
  function Seen(e: Event, r: Ranges): Parsed {
    Parsed("event", e.kind, Some(e.uid), Some(e.stale),
           Point(Coordinate(Some(e.location.lat)), Coordinate(Some(e.location.lon))),
           e.callsign, LineEnds(e.remarks), SeenTrack(e.track, r))
  }

  /** An attribute whose key no earlier one has is read as it was. */
  lemma ElementValue(name: string, attributes: seq<Attribute>, slash: string, i: nat)
    requires Plain(name) && '"' !in slash && '>' !in slash
    requires i < |attributes| && forall j | 0 <= j < i :: attributes[j].key != attributes[i].key
    ensures ValueOf(Element(name, attributes, slash), attributes[i].key) == Some(attributes[i].value)
  {
    hide ValueOf, Element, Lookup, Name, Plain;
    TagRead(name, attributes, slash, attributes[i].key);
    LookupAt(attributes, i);
  }

  lemma EventValues(e: Event)
    ensures ValueOf(EventTag(e), Type) == Some(e.kind) && ValueOf(EventTag(e), Uid) == Some(e.uid)
    ensures ValueOf(EventTag(e), Time) == Some(e.time) && ValueOf(EventTag(e), Start) == Some(e.time)
    ensures ValueOf(EventTag(e), Stale) == Some(e.stale)
    ensures ValueOf(EventTag(e), Version) == Some("2.0") && ValueOf(EventTag(e), How) == Some("m-g")
  {
    PlainNames();
    hide ValueOf, Element, Plain;
    ElementValue("event", EventAttrs(e), "", 0);
    ElementValue("event", EventAttrs(e), "", 1);
    ElementValue("event", EventAttrs(e), "", 2);
    ElementValue("event", EventAttrs(e), "", 3);
    ElementValue("event", EventAttrs(e), "", 4);
    ElementValue("event", EventAttrs(e), "", 5);
    ElementValue("event", EventAttrs(e), "", 6);
  }

  lemma PointValues(e: Event)
    ensures ValueOf(PointTag(e), Lat) == Some(e.location.lat) && ValueOf(PointTag(e), Lon) == Some(e.location.lon)
  {
    PlainNames();
    hide ValueOf, Element, Plain;
    ElementValue("point", PointAttrs(e.location), " /", 0);
    ElementValue("point", PointAttrs(e.location), " /", 1);
  }

  lemma DetailValues(e: Event)
    ensures ValueOf(ContactTag(e), Callsign) == Some(e.callsign)
    ensures ValueOf(TrackTag(e), Course) == Some(OrZero(e.track.course))
    ensures ValueOf(TrackTag(e), Speed) == Some(OrZero(e.track.speed))
  {
    PlainNames();
    hide ValueOf, Element, Plain, OrZero;
    ElementValue("contact", [Attribute(Callsign, e.callsign)], " /", 0);
    ElementValue("track", TrackAttrs(e.track), " /", 0);
    ElementValue("track", TrackAttrs(e.track), " /", 1);
  }

  lemma FirstPiece(e: Event)
    ensures AllOf(e) != [] && AllOf(e)[0] == EventTag(e)
  {
    hide Opening, Details, EventTag, PointTag;
    OpeningParts(e);
  }

  lemma PointSeen(e: Event)
    ensures ReadPoint(FirstNamed(AllOf(e), "point"))
            == Point(Coordinate(Some(e.location.lat)), Coordinate(Some(e.location.lon)))
  {
    PiecesSought(e, "point");
    PointValues(e);
    hide AllOf, FirstNamed, ValueOf, PointTag, Coordinate;
  }

  lemma TrackSeen(e: Event, r: Ranges)
    ensures ReadTrack(FirstNamed(AllOf(e), "track"), r) == SeenTrack(e.track, r)
  {
    PiecesSought(e, "track");
    DetailsSought(e, "track");
    DetailValues(e);
    hide AllOf, Details, FirstNamed, ValueOf, TrackTag, OrZero, Kept;
  }

  lemma ContactSeen(e: Event)
    ensures var contact := FirstNamed(AllOf(e), "contact");
            (if contact.None? then "" else OrElse(ValueOf(contact.value, Callsign), "")) == e.callsign
  {
    PiecesSought(e, "contact");
    DetailsSought(e, "contact");
    DetailValues(e);
    hide AllOf, Details, FirstNamed, ValueOf, ContactTag;
  }

  lemma RemarksSeen(e: Event)
    ensures var remarks := FirstNamed(AllOf(e), "remarks");
            (if remarks.None? then "" else Text(remarks.value)) == LineEnds(e.remarks)
  {
    PiecesSought(e, "remarks");
    DetailsSought(e, "remarks");
    RemarksTagRead(e);
    LineEndsChange(e.remarks);
    hide AllOf, Details, FirstNamed, Text, RemarksTag, LineEnds;
  }

  lemma PiecesSeen(e: Event, r: Ranges)
    ensures AllOf(e) != [] && ReadPieces(AllOf(e), r) == Seen(e, r)
  {
    FirstPiece(e);
    TagNames(e);
    EventValues(e);
    PointSeen(e);
    TrackSeen(e, r);
    ContactSeen(e);
    RemarksSeen(e);
    hide AllOf, FirstNamed, ValueOf, Name, Text, EventTag, LineEnds, OrZero, ReadPoint, ReadTrack, OrElse, Kept, Coordinate;
    assert OrElse(ValueOf(EventTag(e), Type), "") == e.kind by { OrElseSome(e.kind, ""); }
  }

  lemma OrElseSome(text: string, otherwise: string)
    ensures OrElse(Some(text), otherwise) == text
  {
  }

  /** An emitted event is parsed exactly when XML can hold its texts, and then this is what is seen. */
  lemma ReadRender(e: Event, r: Ranges)
    ensures Read(Render(e), r) == if LegalEvent(e) then Some(Seen(e, r)) else None
  {
    RenderCut(e);
    RenderLegal(e);
    PiecesSeen(e, r);
    hide Render, Cut, AllOf, AllLegal, LegalEvent, ReadPieces, Seen;
  }

  // ------------------------------------------------------------ there and back

  /** Numbers have texts, and the remarks hold no carriage return. */
  predicate Legible(e: Event) {
    LegalEvent(e) && '\r' !in e.remarks && e.location.lat != "" && e.location.lon != ""
  }

  /** No course and speed, or both and in range. */
  predicate WholeTrack(t: Track, r: Ranges) {
    t == STILL || (t.course.Some? && t.speed.Some? && r.course(t.course.value) && r.speed(t.speed.value))
  }

  /** The bodies CoT has room for: named presences, described contacts of the four identities with a
      letter of their own that is not the friend's, one urgent casualty, overlays of one labelled graphic,
      and chat. */
  predicate FitsCot(b: Body, r: Ranges) {
    match b
    case Presence(_, callsign, track) => callsign != "" && WholeTrack(track, r)
    case Contact(_, identity, description, track) =>
      identity in {Hostile, Neutral, Pending, Unknown} && description != "" && WholeTrack(track, r)
    case Casevac(_, urgent) => urgent == 1
    case Overlay(name, graphics) => name != "" && |graphics| == 1 && graphics[0].text != ""
    case Chat(_) => true
    case _ => false
  }

  function Back(p: Option<Parsed>): Option<Body> {
    if p.None? then None else FromCot(p.value)
  }

  lemma LetterReadBack(identity: Identity)
    ensures UpTo(("a-" + Letter(identity) + "-G")[2..], '-') == Letter(identity)
    ensures Letter(identity) == "f" <==> identity == Friend
    ensures IdentityOf(Letter(identity)) == identity <==> identity !in {AssumedFriend, Suspect}
  {
    var letter := Letter(identity);
    assert ("a-" + letter + "-G")[2..] == letter + ['-'] + "G";
    SplitAtFirst(letter, '-', "G");
  }

  lemma KindsApart(kind: string, a: char, b: char)
    requires |kind| >= 2 && kind[0] == a && kind[1] == b
    ensures StartsWith(kind, "b-t-f") || StartsWith(kind, "b-r-f-h-c") || StartsWith(kind, "b-m-p") ==> a == 'b'
    ensures StartsWith(kind, "u-d") ==> a == 'u'
    ensures StartsWith(kind, "a-") <==> a == 'a' && b == '-'
  {
  }

  lemma ContactBack(m: Report, p: Parsed)
    requires m.body.Contact? && p.tag == "event" && p.kind == "a-" + Letter(m.body.identity) + "-G"
    ensures FromCot(p) == Some(if m.body.identity == Friend then Presence(p.location, Relay.Or(p.callsign, "ATAK"), p.track)
                               else Contact(p.location, IdentityOf(Letter(m.body.identity)),
                                            Relay.Or(Relay.Or(p.remarks, p.callsign), "CoT track"), p.track))
  {
    hide UpTo;
    KindsApart(p.kind, 'a', '-');
    LetterReadBack(m.body.identity);
  }

  lemma PresenceBack(p: Parsed)
    requires p.tag == "event" && p.kind == "a-f-G-U-C"
    ensures FromCot(p) == Some(Presence(p.location, Relay.Or(p.callsign, "ATAK"), p.track))
  {
    hide UpTo;
    KindsApart(p.kind, 'a', '-');
    assert p.kind[2..] == "f" + ['-'] + "G-U-C";
    SplitAtFirst("f", '-', "G-U-C");
  }

  lemma OthersBack(p: Parsed)
    requires p.tag == "event"
    ensures p.kind == "b-r-f-h-c" ==> FromCot(p) == Some(Casevac(p.location, 1))
    ensures p.kind == "b-t-f" ==> FromCot(p) == Some(Chat(Relay.Or(p.remarks, p.callsign)))
    ensures p.kind == "u-d-p" ==>
              FromCot(p) == Some(Overlay(Relay.Or(p.callsign, "ATAK marker"),
                                         [Graphic(p.location, Relay.Or(Relay.Or(p.remarks, p.callsign), "marker"))]))
  {
    assert p.kind == "b-r-f-h-c" ==> p.kind[2] != "b-t-f"[2];
    assert p.kind == "u-d-p" ==> p.kind[0] != 'b';
  }

  lemma SeenBack(m: Report, r: Ranges)
    requires EventOf(m).Some? && r.course("0.0") && r.speed("0.0")
    ensures var e := EventOf(m).value;
            FromCot(Seen(e, r)) == Some(m.body)
            <==> FitsCot(m.body, r) && '\r' !in e.remarks && e.location.lat != "" && e.location.lon != ""
  {
    var e := EventOf(m).value;
    LineEndsChange(e.remarks);
    TrackBack(e.track, r);
    LocationBack(e.location);
    hide FromCot, LineEnds, WholeTrack, Coordinate, SeenTrack;
    match m.body
    case Contact(_, _, _, _) => ContactFits(m, r);
    case Presence(_, _, _) => PresenceBack(Seen(e, r));
    case Overlay(_, graphics) =>
      OthersBack(Seen(e, r));
      assert |graphics| == 1 ==> graphics == [graphics[0]];
    case _ => OthersBack(Seen(e, r));
  }

  lemma ContactFits(m: Report, r: Ranges)
    requires m.body.Contact? && r.course("0.0") && r.speed("0.0")
    ensures var e := EventOf(m).value;
            FromCot(Seen(e, r)) == Some(m.body)
            <==> FitsCot(m.body, r) && '\r' !in e.remarks && e.location.lat != "" && e.location.lon != ""
  {
    var e := EventOf(m).value;
    LineEndsChange(e.remarks);
    TrackBack(e.track, r);
    LocationBack(e.location);
    hide FromCot, LineEnds, WholeTrack, Coordinate, SeenTrack;
    ContactBack(m, Seen(e, r));
    LetterReadBack(m.body.identity);
    hide Letter, IdentityOf;
  }

  lemma TrackBack(t: Track, r: Ranges)
    requires r.course("0.0") && r.speed("0.0")
    ensures SeenTrack(t, r) == t <==> WholeTrack(t, r)
    ensures WholeTrack(STILL, r)
  {
  }

  lemma LocationBack(p: Point)
    ensures Point(Coordinate(Some(p.lat)), Coordinate(Some(p.lon))) == p <==> p.lat != "" && p.lon != ""
  {
  }

  /** A body sent as CoT, read by an XML reader and translated back is the same body exactly when it fits
      and its texts are legible. 0.0 is a course and a speed in range. */
  lemma ComesBackExactlyWhenItFits(m: Report, r: Ranges)
    requires EventOf(m).Some? && r.course("0.0") && r.speed("0.0")
    ensures Back(Read(MessageToCot(m).value, r)) == Some(m.body)
            <==> FitsCot(m.body, r) && Legible(EventOf(m).value)
  {
    ReadRender(EventOf(m).value, r);
    SeenBack(m, r);
    hide Read, Render, Seen, FromCot, FitsCot, LegalEvent;
  }

  // ------------------------------------------------------------ what an emitted event says

  /** The callsign, remarks and place a body is shown with. */
  datatype Shown = Shown(kind: string, callsign: string, remarks: string, at: Point)

  function ShownAs(b: Body): Option<Shown> {
    match b
    case Presence(at, callsign, _) => Some(Shown("a-f-G-U-C", callsign, "", at))
    case Contact(at, identity, description, _) =>
      var letter :=
        if identity == Friend then "f" else if identity == Hostile then "h" else if identity == Neutral then "n"
        else if identity == Pending then "p" else "u";
      Some(Shown("a-" + letter + "-G", "", description, at))
    case Casevac(at, urgent) => Some(Shown("b-r-f-h-c", "", "CASEVAC urgent=" + Decimal.Int(urgent), at))
    case Overlay(name, graphics) =>
      if graphics == [] then None else Some(Shown("u-d-p", name, graphics[0].text, graphics[0].location))
    case Chat(text) => Some(Shown("b-t-f", "", text, Point("0.0", "0.0")))
    case GeneralInfo(subject, text, at) =>
      Some(Shown("b-t-f", "", (if subject == "" then "" else subject + ": ") + text,
                 match at case None => Point("0.0", "0.0") case Some(p) => p))
    case Identification(_) => None
    case Unmapped(_) => None
  }

  /** The stable uid of a node's track, and the uid of any other event. */
  function UidFor(m: Report): string {
    "JDSS." + m.originator
    + if m.body.Presence? then "" else "." + if |m.messageId| <= 8 then m.messageId else m.messageId[..8]
  }

  /** What the event emitted for a message says to a reader: its header attributes, the times where they belong,
      and its kind, place, callsign and remarks. Messages without a CoT form have no event. */
  lemma EmittedSays(m: Report, r: Ranges)
    ensures MessageToCot(m).Some? <==> ShownAs(m.body).Some?
    ensures MessageToCot(m).Some? ==>
              var tag := Cut(MessageToCot(m).value)[0];
              && ValueOf(tag, Uid) == Some(UidFor(m)) && ValueOf(tag, Type) == Some(ShownAs(m.body).value.kind)
              && ValueOf(tag, Time) == Some(m.time) && ValueOf(tag, Start) == Some(m.time)
              && ValueOf(tag, Stale) == Some(m.stale)
              && ValueOf(tag, Version) == Some("2.0") && ValueOf(tag, How) == Some("m-g")
    ensures MessageToCot(m).Some? && Read(MessageToCot(m).value, r).Some? ==>
              var p, shown := Read(MessageToCot(m).value, r).value, ShownAs(m.body).value;
              && p.tag == "event" && p.uid == Some(UidFor(m)) && p.kind == shown.kind && p.staleAt == Some(m.stale)
              && p.callsign == shown.callsign && p.remarks == LineEnds(shown.remarks)
              && (shown.at.lat != "" && shown.at.lon != "" ==> p.location == shown.at)
  {
    EventOfShown(m);
    if EventOf(m).Some? {
      var e := EventOf(m).value;
      RenderCut(e);
      FirstPiece(e);
      EventValues(e);
      ReadRender(e, r);
      LocationBack(e.location);
    }
    hide EventOf, Render, Cut, AllOf, Read, ValueOf, ShownAs, EventTag, LineEnds, UidFor, LegalEvent, Coordinate;
    hide SeenTrack;
  }

  lemma EventOfShown(m: Report)
    ensures EventOf(m).Some? <==> ShownAs(m.body).Some?
    ensures EventOf(m).Some? ==>
              var e, shown := EventOf(m).value, ShownAs(m.body).value;
              && e.uid == UidFor(m) && e.kind == shown.kind && e.time == m.time && e.stale == m.stale
              && e.callsign == shown.callsign && e.remarks == shown.remarks && e.location == shown.at
  {
  }
}
