/** The frame format of the exchange engine and the authentication tag inside it. */
module Wire {
  import opened Wrappers
  import opened Sequences

  type byte = b: int | 0 <= b < 256

  datatype Frame = Frame(codecName: string, securityName: string, payload: seq<byte>)

  datatype WireError = BadMagic | BadVersion | NonAscii | NameTooLong | PayloadTooLong | Truncated | BadTag

  /** "JDSS" */
  const MAGIC: seq<byte> := [74, 68, 83, 83]
  const VERSION: byte := 1
  const TAG_LEN := 32

  // ------------------------------------------------------------ names and lengths

  predicate Ascii(s: string) {
    forall i | 0 <= i < |s| :: s[i] as int < 128
  }

  function AsciiBytes(s: string): seq<byte>
    requires Ascii(s)
  {
    seq(|s|, i requires 0 <= i < |s| => s[i] as byte)
  }

  predicate AllAscii(bs: seq<byte>) {
    forall i | 0 <= i < |bs| :: bs[i] < 128
  }

  function AsciiText(bs: seq<byte>): string
    requires AllAscii(bs)
  {
    seq(|bs|, i requires 0 <= i < |bs| => bs[i] as char)
  }

  lemma AsciiInverse(s: string, bs: seq<byte>)
    ensures Ascii(s) ==> AllAscii(AsciiBytes(s)) && AsciiText(AsciiBytes(s)) == s
    ensures AllAscii(bs) ==> Ascii(AsciiText(bs)) && AsciiBytes(AsciiText(bs)) == bs
  {
  }

  /** struct.pack(">I", n) */
  function U32(n: nat): (bs: seq<byte>)
    requires n < 0x1_0000_0000
    ensures |bs| == 4
  {
    [n / 0x100_0000, n / 0x1_0000 % 0x100, n / 0x100 % 0x100, n % 0x100]
  }

  function ReadU32(bs: seq<byte>): (n: nat)
    requires |bs| == 4
    ensures n < 0x1_0000_0000
  {
    (bs[0] as int) * 0x100_0000 + (bs[1] as int) * 0x1_0000 + (bs[2] as int) * 0x100 + bs[3] as int
  }

  lemma U32Inverse(n: nat, bs: seq<byte>)
    ensures n < 0x1_0000_0000 ==> ReadU32(U32(n)) == n
    ensures |bs| == 4 ==> U32(ReadU32(bs)) == bs
  {
    if n < 0x1_0000_0000 {
      assert n / 0x100 == n / 0x1_0000 * 0x100 + n / 0x100 % 0x100;
      assert n / 0x1_0000 == n / 0x100_0000 * 0x100 + n / 0x1_0000 % 0x100;
    }
    if |bs| == 4 {
      var m := ReadU32(bs);
      assert m / 0x100 == (bs[0] as int) * 0x1_0000 + (bs[1] as int) * 0x100 + bs[2] as int;
      assert m / 0x1_0000 == (bs[0] as int) * 0x100 + bs[1] as int;
      assert m / 0x100_0000 == bs[0];
    }
  }

  /** Python's bs[a:b], clamped to the end. */
  function Slice(bs: seq<byte>, a: nat, b: nat): seq<byte>
    requires a <= b
  {
    if a >= |bs| then [] else if b >= |bs| then bs[a..] else bs[a..b]
  }

  // ------------------------------------------------------------ encoding

  predicate NameFits(s: string) {
    Ascii(s) && |s| < 256
  }

  predicate Encodable(f: Frame) {
    NameFits(f.codecName) && NameFits(f.securityName) && |f.payload| < 0x1_0000_0000
  }

  function NameBytes(s: string): seq<byte>
    requires NameFits(s)
  {
    [|s|] + AsciiBytes(s)
  }

  /** A frame up to its names, then body. */
  function Header(codec: string, sec: string, body: seq<byte>): seq<byte>
    requires NameFits(codec) && NameFits(sec)
  {
    MAGIC + ([VERSION] + (NameBytes(codec) + (NameBytes(sec) + body)))
  }

  function Layout(f: Frame): seq<byte>
    requires Encodable(f)
  {
    Header(f.codecName, f.securityName, U32(|f.payload|) + f.payload)
  }

  /** Frame.to_bytes; encode, bytes() and struct.pack raise on what does not fit. */
  function ToBytes(f: Frame): (r: Result<seq<byte>, WireError>)
    ensures r.Success? <==> Encodable(f)
  {
    if !Ascii(f.codecName) || !Ascii(f.securityName) then Failure(NonAscii)
    else if |f.codecName| >= 256 || |f.securityName| >= 256 then Failure(NameTooLong)
    else if |f.payload| >= 0x1_0000_0000 then Failure(PayloadTooLong)
    else Success(Layout(f))
  }

  // ------------------------------------------------------------ decoding

  function Drop(bs: seq<byte>, n: nat): seq<byte> {
    if n <= |bs| then bs[n..] else []
  }

  /** A length-prefixed name off the front of bs, and what is left. */
  function ReadName(bs: seq<byte>): Result<(string, seq<byte>), WireError> {
    if bs == [] then Failure(Truncated)
    else
      var end := 1 + bs[0] as int;
      var name := Slice(bs, 1, end);
      if !AllAscii(name) then Failure(NonAscii) else Success((AsciiText(name), Drop(bs, end)))
  }

  function FromBytes(raw: seq<byte>): Result<Frame, WireError> {
    if Slice(raw, 0, 4) != MAGIC then Failure(BadMagic)
    else if |raw| < 5 then Failure(Truncated)
    else if raw[4] != VERSION then Failure(BadVersion)
    else ReadFields(Drop(raw, 5))
  }

  /** Everything after the version byte. */
  function ReadFields(bs: seq<byte>): Result<Frame, WireError> {
    match ReadName(bs)
    case Failure(e) => Failure(e)
    case Success((codec, rest)) =>
      match ReadName(rest)
      case Failure(e) => Failure(e)
      case Success((sec, body)) => ReadBody(codec, sec, body)
  }

  function ReadBody(codec: string, sec: string, body: seq<byte>): Result<Frame, WireError> {
    if |body| < 4 then Failure(Truncated)
    else Success(Frame(codec, sec, Slice(body, 4, 4 + ReadU32(body[..4]))))
  }

  lemma ReadNameAt(raw: seq<byte>, pos: nat)
    requires pos < |raw|
    ensures var end := pos + 1 + raw[pos] as int;
            var name := Slice(raw, pos + 1, end);
            ReadName(raw[pos..]) == if !AllAscii(name) then Failure(NonAscii)
                                    else Success((AsciiText(name), Drop(raw, end)))
  {
    var end := 1 + raw[pos] as int;
    assert Slice(raw[pos..], 1, end) == Slice(raw, pos + 1, pos + end);
    assert Drop(raw[pos..], end) == Drop(raw, pos + end);
  }

  lemma ReadBodyAt(codec: string, sec: string, raw: seq<byte>, pos: nat)
    ensures var length := Slice(raw, pos, pos + 4);
            ReadBody(codec, sec, Drop(raw, pos)) ==
              if |length| < 4 then Failure(Truncated)
              else Success(Frame(codec, sec, Slice(raw, pos + 4, pos + 4 + ReadU32(length))))
  {
    var body := Drop(raw, pos);
    if pos <= |raw| { assert body == raw[pos..]; }
    if |body| >= 4 {
      assert body[..4] == Slice(raw, pos, pos + 4);
      SliceOfDrop(raw, pos, 4, 4 + ReadU32(body[..4]));
    }
  }

  lemma SliceOfDrop(raw: seq<byte>, pos: nat, a: nat, b: nat)
    requires pos <= |raw| && a <= b
    ensures Slice(raw[pos..], a, b) == Slice(raw, pos + a, pos + b)
  {
    var body := raw[pos..];
    if a <= |body| {
      var end := if b <= |body| then b else |body|;
      assert body[a..end] == raw[pos + a..pos + end];
    }
  }

  /** One length-prefixed name at the cursor; the cursor moves past it. */
  method TakeName(raw: seq<byte>, pos: nat) returns (r: Result<string, WireError>, next: nat)
    ensures match ReadName(Drop(raw, pos))
            case Failure(e) => r == Failure(e)
            case Success((name, rest)) => r == Success(name) && rest == Drop(raw, next)
  {
    hide AllAscii, AsciiText, Slice;
    next := pos;
    if pos >= |raw| { return Failure(Truncated), next; }
    ReadNameAt(raw, pos);
    var length := raw[pos] as int;
    var name := Slice(raw, pos + 1, pos + 1 + length);
    if !AllAscii(name) { return Failure(NonAscii), next; }
    return Success(AsciiText(name)), pos + 1 + length;
  }

  /** Frame.from_bytes, with its cursor. */
  method ParseFrame(raw: seq<byte>) returns (r: Result<Frame, WireError>)
    ensures r == FromBytes(raw)
  {
    if Slice(raw, 0, 4) != MAGIC { return Failure(BadMagic); }
    if |raw| <= 4 { return Failure(Truncated); }
    if raw[4] != VERSION { return Failure(BadVersion); }
    r := ParseFields(raw, 5);
  }

  method ParseFields(raw: seq<byte>, start: nat) returns (r: Result<Frame, WireError>)
    ensures r == ReadFields(Drop(raw, start))
  {
    var codecName, pos := TakeName(raw, start);
    if codecName.Failure? { return Failure(codecName.error); }
    var securityName;
    securityName, pos := TakeName(raw, pos);
    if securityName.Failure? { return Failure(securityName.error); }
    r := ParseBody(codecName.value, securityName.value, raw, pos);
  }

  method ParseBody(codecName: string, securityName: string, raw: seq<byte>, start: nat)
    returns (r: Result<Frame, WireError>)
    ensures r == ReadBody(codecName, securityName, Drop(raw, start))
  {
    ReadBodyAt(codecName, securityName, raw, start);
    var pos := start;
    var length := Slice(raw, pos, pos + 4);
    if |length| < 4 { return Failure(Truncated); }
    pos := pos + 4;
    var payload := Slice(raw, pos, pos + ReadU32(length));
    r := Success(Frame(codecName, securityName, payload));
  }

  // ------------------------------------------------------------ inverses

  lemma ReadNameInverse(s: string, tail: seq<byte>)
    requires NameFits(s)
    ensures ReadName(NameBytes(s) + tail) == Success((s, tail))
  {
    var bs := NameBytes(s) + tail;
    AsciiInverse(s, []);
    assert Slice(bs, 1, 1 + |s|) == AsciiBytes(s);
    assert Drop(bs, 1 + |s|) == tail;
  }

  /** The payload length a frame's header announces. */
  function DeclaredLength(raw: seq<byte>): Option<nat> {
    if |raw| < 5 then None
    else match ReadName(raw[5..])
      case Failure(_) => None
      case Success((_, rest)) =>
        match ReadName(rest)
        case Failure(_) => None
        case Success((_, rest)) => if |rest| < 4 then None else Some(ReadU32(rest[..4]))
  }

  lemma HeaderParses(codec: string, sec: string, body: seq<byte>)
    requires NameFits(codec) && NameFits(sec) && |body| >= 4
    ensures var n := ReadU32(body[..4]);
            && FromBytes(Header(codec, sec, body)) == Success(Frame(codec, sec, Slice(body, 4, 4 + n)))
            && DeclaredLength(Header(codec, sec, body)) == Some(n)
  {
    var raw := Header(codec, sec, body);
    assert Slice(raw, 0, 4) == MAGIC && raw[4] == VERSION;
    assert raw[5..] == NameBytes(codec) + (NameBytes(sec) + body);
    ReadNameInverse(codec, NameBytes(sec) + body);
    ReadNameInverse(sec, body);
  }

  lemma HeaderAppend(codec: string, sec: string, body: seq<byte>, tail: seq<byte>)
    requires NameFits(codec) && NameFits(sec)
    ensures Header(codec, sec, body) + tail == Header(codec, sec, body + tail)
  {
    Assoc(NameBytes(sec), body, tail);
    Assoc(NameBytes(codec), NameBytes(sec) + body, tail);
    Assoc([VERSION], NameBytes(codec) + (NameBytes(sec) + body), tail);
    Assoc(MAGIC, [VERSION] + (NameBytes(codec) + (NameBytes(sec) + body)), tail);
  }

  lemma PayloadBack(p: seq<byte>, tail: seq<byte>)
    requires |p| < 0x1_0000_0000
    ensures var body := U32(|p|) + p + tail;
            |body| >= 4 && ReadU32(body[..4]) == |p| && Slice(body, 4, 4 + |p|) == p
  {
    var body := U32(|p|) + p + tail;
    assert body[..4] == U32(|p|);
    U32Inverse(|p|, []);
    assert Slice(body, 4, 4 + |p|) == p;
  }

  /** Whatever follows a frame is ignored, and the frame comes back. */
  lemma FrameRoundTrip(f: Frame, tail: seq<byte>)
    requires Encodable(f)
    ensures FromBytes(ToBytes(f).value + tail) == Success(f)
  {
    var body := U32(|f.payload|) + f.payload;
    HeaderAppend(f.codecName, f.securityName, body, tail);
    PayloadBack(f.payload, tail);
    HeaderParses(f.codecName, f.securityName, body + tail);
  }

  lemma ReadNameExact(bs: seq<byte>, s: string, rest: seq<byte>)
    requires ReadName(bs) == Success((s, rest)) && rest != []
    ensures NameFits(s) && bs == NameBytes(s) + rest
  {
    var name := Slice(bs, 1, 1 + bs[0] as int);
    AsciiInverse("", name);
    assert bs == [bs[0]] + name + rest;
  }

  /** What a successful parse says about the bytes. */
  lemma ParsedLayout(raw: seq<byte>, f: Frame) returns (body: seq<byte>)
    requires FromBytes(raw) == Success(f)
    ensures NameFits(f.codecName) && NameFits(f.securityName) && |body| >= 4
    ensures raw == Header(f.codecName, f.securityName, body)
    ensures f.payload == Slice(body, 4, 4 + ReadU32(body[..4]))
  {
    assert raw == MAGIC + ([VERSION] + raw[5..]);
    var (codec, rest) := ReadName(raw[5..]).value;
    var (sec, b) := ReadName(rest).value;
    body := b;
    ReadNameExact(rest, sec, body);
    ReadNameExact(raw[5..], codec, rest);
    hide NameBytes, AllAscii, AsciiText, ReadU32, Slice;
  }

  lemma PrefixUnder(head: seq<byte>, a: seq<byte>, b: seq<byte>)
    ensures head + a <= head + b <==> a <= b
  {
    if head + a <= head + b {
      assert forall i | 0 <= i < |a| :: a[i] == (head + a)[|head| + i] == (head + b)[|head| + i] == b[i];
    }
  }

  lemma HeaderPrefix(codec: string, sec: string, a: seq<byte>, b: seq<byte>)
    requires NameFits(codec) && NameFits(sec)
    ensures Header(codec, sec, a) <= Header(codec, sec, b) <==> a <= b
  {
    HeaderAppend(codec, sec, [], a);
    HeaderAppend(codec, sec, [], b);
    assert [] + a == a && [] + b == b;
    PrefixUnder(Header(codec, sec, []), a, b);
  }

  lemma SameLengthField(p: seq<byte>, body: seq<byte>)
    requires |p| < 0x1_0000_0000 && |body| >= 4
    requires p == Slice(body, 4, 4 + ReadU32(body[..4]))
    ensures U32(|p|) + p <= body <==> |p| == ReadU32(body[..4])
  {
    U32Inverse(|p|, body[..4]);
    if U32(|p|) + p <= body {
      assert U32(|p|) == body[..4];
    }
    if |p| == ReadU32(body[..4]) {
      assert U32(|p|) + p == body[..4 + |p|];
    }
  }

  /** A parsed frame re-encodes to a prefix of what it was parsed from exactly when the bytes held the
      whole declared payload; a frame cut inside its payload is accepted all the same. */
  lemma ReencodeIsPrefixExactlyWhenWhole(raw: seq<byte>, f: Frame)
    requires FromBytes(raw) == Success(f)
    ensures Encodable(f)
    ensures ToBytes(f).value <= raw <==> DeclaredLength(raw) == Some(|f.payload|)
  {
    hide Header, FromBytes, DeclaredLength, NameFits;
    var body := ParsedLayout(raw, f);
    HeaderParses(f.codecName, f.securityName, body);
    HeaderPrefix(f.codecName, f.securityName, U32(|f.payload|) + f.payload, body);
    SameLengthField(f.payload, body);
  }

  // ------------------------------------------------------------ the bytes themselves

  /** The name at pos: one byte of length, then the characters. */
  predicate NameAt(raw: seq<byte>, pos: nat, name: string) {
    && pos + 1 + |name| <= |raw| && raw[pos] as int == |name|
    && forall i | 0 <= i < |name| :: raw[pos + 1 + i] as int == name[i] as int
  }

  /** Where every byte of an encoded frame is: "JDSS", version 1, the codec's name, the security provider's
      name, the payload's length most significant byte first, and the payload. */
  lemma EncodedBytes(f: Frame)
    requires Encodable(f)
    ensures var raw := ToBytes(f).value;
            var c, s, n := |f.codecName|, |f.securityName|, |f.payload|;
            && |raw| == 11 + c + s + n
            && raw[..5] == [74, 68, 83, 83, 1]
            && NameAt(raw, 5, f.codecName) && NameAt(raw, 6 + c, f.securityName)
            && n == raw[7 + c + s] as int * 16777216 + raw[8 + c + s] as int * 65536
                    + raw[9 + c + s] as int * 256 + raw[10 + c + s] as int
            && raw[11 + c + s..] == f.payload
  {
    var body := U32(|f.payload|) + f.payload;
    var tail := NameBytes(f.securityName) + body;
    var raw := ToBytes(f).value;
    var c, s := |f.codecName|, |f.securityName|;
    assert raw[5..] == NameBytes(f.codecName) + tail;
    assert raw[6 + c..] == tail;
    assert raw[7 + c + s..] == body;
    U32Inverse(|f.payload|, body[..4]);
    assert body[..4] == U32(|f.payload|);
    NamePlaced(raw, 5, f.codecName, tail);
    NamePlaced(raw, 6 + c, f.securityName, body);
    assert raw[11 + c + s..] == body[4..];
  }

  lemma NamePlaced(raw: seq<byte>, pos: nat, name: string, tail: seq<byte>)
    requires NameFits(name) && pos <= |raw| && raw[pos..] == NameBytes(name) + tail
    ensures NameAt(raw, pos, name)
  {
    var rest := raw[pos..];
    assert rest[0] as int == |name|;
    forall i | 0 <= i < |name| ensures raw[pos + 1 + i] as int == name[i] as int {
      assert rest[1 + i] == AsciiBytes(name)[i];
    }
  }

  /** Bytes parse exactly when they are a header with ASCII names and at least four more bytes. */
  lemma ParsesExactlyWhen(raw: seq<byte>)
    ensures FromBytes(raw).Success? <==>
              exists codec, sec, body ::
                NameFits(codec) && NameFits(sec) && |body| >= 4 && raw == Header(codec, sec, body)
  {
    hide FromBytes, Header, NameFits;
    if FromBytes(raw).Success? {
      var f := FromBytes(raw).value;
      var body := ParsedLayout(raw, f);
    }
    if codec, sec, body :| NameFits(codec) && NameFits(sec) && |body| >= 4 && raw == Header(codec, sec, body) {
      HeaderParses(codec, sec, body);
    }
  }

  // ------------------------------------------------------------ authentication

  /** PreSharedKeySecurity over any 32-byte tag function of the payload, and NullSecurity. */
  datatype Provider = Null | Psk(tag: seq<byte> -> seq<byte>) {
    ghost predicate Valid() {
      Psk? ==> forall p :: |tag(p)| == TAG_LEN
    }

    function Protect(payload: seq<byte>): seq<byte> {
      if Null? then payload else payload + tag(payload)
    }

    function Verify(wire: seq<byte>): Result<seq<byte>, WireError> {
      if Null? then Success(wire)
      else if |wire| < TAG_LEN then Failure(Truncated)
      else
        var payload := wire[..|wire| - TAG_LEN];
        if wire[|wire| - TAG_LEN..] != tag(payload) then Failure(BadTag) else Success(payload)
    }

    /** The payload goes out in the clear, followed by its 32-byte tag. */
    lemma ProtectedBytes(payload: seq<byte>)
      requires Valid()
      ensures var wire := Protect(payload);
              if Null? then wire == payload
              else |wire| == |payload| + 32 && payload <= wire && wire[|payload|..] == tag(payload)
    {
    }

    /** Verification accepts exactly the protected form of the payload it returns. */
    lemma VerifyExactly(wire: seq<byte>, payload: seq<byte>)
      requires Valid()
      ensures Verify(wire) == Success(payload) <==> wire == Protect(payload)
    {
      if Psk? {
        assert Protect(payload)[..|payload|] == payload;
        if |wire| >= TAG_LEN {
          assert wire == wire[..|wire| - TAG_LEN] + wire[|wire| - TAG_LEN..];
        }
      }
    }
  }
}
