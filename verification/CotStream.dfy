/** Splitting a TCP byte stream into CoT events. Bytes are written as characters, one each. */
module CotStream {
  import opened Sequences

  const EVENT_START := "<event"
  const EVENT_END := "</event>"

  predicate At(s: string, p: string, i: nat) {
    i + |p| <= |s| && s[i..i + |p|] == p
  }

  /** bytes.find from position i on; -1 when absent. */
  function FindFrom(s: string, p: string, i: nat): (r: int)
    requires i <= |s|
    ensures r == -1 || (i <= r && r + |p| <= |s|)
    decreases |s| - i
  {
    if At(s, p, i) then i else if i == |s| then -1 else FindFrom(s, p, i + 1)
  }

  function Find(s: string, p: string): (r: int)
    ensures r == -1 || (0 <= r && r + |p| <= |s|)
  {
    FindFrom(s, p, 0)
  }

  lemma {:induction false} FindFromFirst(s: string, p: string, i: nat)
    requires i <= |s|
    ensures var r := FindFrom(s, p, i);
            && (r != -1 ==> At(s, p, r))
            && forall k: nat | i <= k && (r == -1 || k < r) :: !At(s, p, k)
    decreases |s| - i
  {
    if !At(s, p, i) && i < |s| {
      FindFromFirst(s, p, i + 1);
    }
  }

  /** The first occurrence, or none at all. */
  lemma FindFirst(s: string, p: string)
    ensures Find(s, p) != -1 ==> At(s, p, Find(s, p))
    ensures forall k: nat | Find(s, p) == -1 || k < Find(s, p) :: !At(s, p, k)
  {
    FindFromFirst(s, p, 0);
  }

  lemma FindIs(s: string, p: string, i: nat)
    requires At(s, p, i) && forall k: nat | k < i :: !At(s, p, k)
    ensures Find(s, p) == i
  {
    FindFirst(s, p);
  }

  lemma FindNone(s: string, p: string)
    requires forall k: nat :: !At(s, p, k)
    ensures Find(s, p) == -1
  {
    FindFirst(s, p);
  }

  // ------------------------------------------------------------ the specification

  datatype Split = Split(docs: seq<string>, rest: string)

  /** The part of the stream up to and including the first end tag yields the bytes from the first
      start tag in it, or nothing. */
  function DocOf(segment: string): seq<string> {
    var start := Find(segment, EVENT_START);
    if start == -1 then [] else [segment[start..]]
  }

  /** The events of a whole stream, and what follows the last end tag. */
  function Events(s: string): Split
    decreases |s|
  {
    var end := Find(s, EVENT_END);
    if end == -1 then Split([], s)
    else
      var n := end + |EVENT_END|;
      var later := Events(s[n..]);
      Split(DocOf(s[..n]) + later.docs, later.rest)
  }

  // ------------------------------------------------------------ the inner loop of the reader

  predicate NonEmptyDoc(d: string) {
    d != ""
  }

  function NonEmpty(docs: seq<string>): seq<string> {
    if docs == [] then []
    else NonEmpty(docs[..|docs| - 1]) + if NonEmptyDoc(docs[|docs| - 1]) then [docs[|docs| - 1]] else []
  }

  /** What one iteration on a buffer whose first end tag ends at n hands to the handler. */
  function Emitted(buf: string, n: nat): seq<string>
    requires n <= |buf|
  {
    var start := Find(buf, EVENT_START);
    if start == -1 || start > n then [] else [buf[start..n]]
  }

  lemma AtIndex(s: string, p: string, i: nat, k: nat)
    requires At(s, p, i) && k < |p|
    ensures s[i + k] == p[k]
  {
    assert s[i..i + |p|][k] == s[i + k];
  }

  /** Neither tag has "<" after its first character. */
  lemma OneBracket(k: nat)
    ensures 0 < k < |EVENT_START| ==> EVENT_START[k] != '<'
    ensures 0 < k < |EVENT_END| ==> EVENT_END[k] != '<'
  {
  }

  /** A start tag that begins before the end tag's end lies wholly before the end tag. */
  lemma StartBeforeEnd(buf: string, end: nat, start: nat)
    requires At(buf, EVENT_END, end) && At(buf, EVENT_START, start) && start < end + |EVENT_END|
    ensures start + |EVENT_START| <= end
  {
    AtIndex(buf, EVENT_END, end, 0);
    AtIndex(buf, EVENT_END, end, 1);
    AtIndex(buf, EVENT_START, start, 0);
    AtIndex(buf, EVENT_START, start, 1);
    assert start != end;
    if start > end {
      AtIndex(buf, EVENT_END, end, start - end);
      OneBracket(start - end);
    } else if end < start + |EVENT_START| {
      AtIndex(buf, EVENT_START, start, end - start);
      OneBracket(end - start);
    }
  }

  lemma AtPrefix(s: string, n: nat, p: string, i: nat)
    requires n <= |s|
    ensures At(s[..n], p, i) <==> At(s, p, i) && i + |p| <= n
  {
    if i + |p| <= n {
      assert s[..n][i..i + |p|] == s[i..i + |p|];
    }
  }

  /** The iteration emits the event the specification names; failing that, an empty document exactly
      when the next start tag follows the stray end tag at once in the same buffer. */
  lemma EmittedIsDoc(buf: string, end: nat)
    requires Find(buf, EVENT_END) == end
    ensures var n := end + |EVENT_END|;
            Emitted(buf, n) == if DocOf(buf[..n]) == [] && Find(buf, EVENT_START) == n then [""]
                               else DocOf(buf[..n])
  {
    var n := end + |EVENT_END|;
    var start := Find(buf, EVENT_START);
    FindFirst(buf, EVENT_END);
    FindFirst(buf, EVENT_START);
    forall k: nat ensures At(buf[..n], EVENT_START, k) <==> At(buf, EVENT_START, k) && k < n {
      AtPrefix(buf, n, EVENT_START, k);
      if At(buf, EVENT_START, k) && k < n {
        StartBeforeEnd(buf, end, k);
      }
    }
    if start != -1 && start < n {
      FindIs(buf[..n], EVENT_START, start);
      assert buf[..n][start..] == buf[start..n];
    } else {
      FindNone(buf[..n], EVENT_START);
      if start == n { assert buf[start..n] == ""; }
    }
  }

  /** Everything handed over for one buffer, empty documents included. */
  function HandedOver(buf: string): seq<string>
    decreases |buf|
  {
    var end := Find(buf, EVENT_END);
    if end == -1 then []
    else
      var n := end + |EVENT_END|;
      Emitted(buf, n) + HandedOver(buf[n..])
  }

  /** The inner loop of _read_loop and of _on_client: hands over what is complete, keeps the rest. */
  method Drain(buffer: string) returns (docs: seq<string>, buf: string)
    ensures Split(NonEmpty(docs), buf) == Events(buffer) && docs == HandedOver(buffer)
    ensures Find(buf, EVENT_END) == -1
  {
    docs, buf := [], buffer;
    while true
      invariant docs + HandedOver(buf) == HandedOver(buffer)
      invariant NonEmpty(docs) + Events(buf).docs == Events(buffer).docs
      invariant Events(buf).rest == Events(buffer).rest
      decreases |buf|
    {
      var end := Find(buf, EVENT_END);
      if end == -1 { break; }
      IterationKeepsEvents(docs, buf, end);
      IterationHandsOver(docs, buf, end);
      end := end + |EVENT_END|;
      var start := Find(buf, EVENT_START);
      if start == -1 || start > end {
        buf := buf[end..];
        continue;
      }
      docs, buf := docs + [buf[start..end]], buf[end..];
    }
  }

  lemma IterationHandsOver(docs: seq<string>, buf: string, end: nat)
    requires Find(buf, EVENT_END) == end
    ensures var n := end + |EVENT_END|;
            (docs + Emitted(buf, n)) + HandedOver(buf[n..]) == docs + HandedOver(buf)
  {
    var n := end + |EVENT_END|;
    Assoc(docs, Emitted(buf, n), HandedOver(buf[n..]));
  }

  lemma EventsUnfold(buf: string, end: nat)
    requires Find(buf, EVENT_END) == end
    ensures var n := end + |EVENT_END|;
            && Events(buf).docs == DocOf(buf[..n]) + Events(buf[n..]).docs
            && Events(buf).rest == Events(buf[n..]).rest
  {
  }

  lemma EmittedNonEmpty(buf: string, end: nat)
    requires Find(buf, EVENT_END) == end
    ensures NonEmpty(Emitted(buf, end + |EVENT_END|)) == DocOf(buf[..end + |EVENT_END|])
  {
    EmittedIsDoc(buf, end);
    assert NonEmpty([""]) == [];
    var docs := DocOf(buf[..end + |EVENT_END|]);
    assert docs != [] ==> docs[..|docs| - 1] == [] && NonEmptyDoc(docs[0]);
  }

  /** What one iteration emits, empty documents aside, is what the specification takes off the front. */
  lemma IterationKeepsEvents(docs: seq<string>, buf: string, end: nat)
    requires Find(buf, EVENT_END) == end
    ensures var n := end + |EVENT_END|;
            && NonEmpty(docs + Emitted(buf, n)) + Events(buf[n..]).docs == NonEmpty(docs) + Events(buf).docs
            && Events(buf[n..]).rest == Events(buf).rest
            && docs + [] == docs
  {
    var n := end + |EVENT_END|;
    EventsUnfold(buf, end);
    EmittedNonEmpty(buf, end);
    NonEmptyAppend(docs, Emitted(buf, n));
    Assoc(NonEmpty(docs), DocOf(buf[..n]), Events(buf[n..]).docs);
  }

  function Concat(chunks: seq<string>): string {
    if chunks == [] then "" else Concat(chunks[..|chunks| - 1]) + chunks[|chunks| - 1]
  }

  /** The chunks read before the first empty one, which means end of stream. */
  function UntilEof(chunks: seq<string>): seq<string> {
    if chunks == [] || chunks[0] == "" then [] else [chunks[0]] + UntilEof(chunks[1..])
  }

  /** An empty read ends the stream, and nothing else does. */
  lemma {:induction false} UntilEofExact(chunks: seq<string>) returns (n: nat)
    ensures n <= |chunks| && UntilEof(chunks) == chunks[..n]
    ensures forall i | 0 <= i < n :: chunks[i] != ""
    ensures n == |chunks| || chunks[n] == ""
  {
    n := 0;
    if chunks != [] && chunks[0] != "" {
      var later := UntilEofExact(chunks[1..]);
      n := later + 1;
      assert chunks == [chunks[0]] + chunks[1..];
    }
  }

  lemma ReadStep(seen: seq<string>, chunk: string, docs: seq<string>, buf: string, more: seq<string>, buf': string)
    requires Split(NonEmpty(docs), buf) == Events(Concat(seen))
    requires Split(NonEmpty(more), buf') == Events(buf + chunk)
    ensures Split(NonEmpty(docs + more), buf') == Events(Concat(seen + [chunk]))
  {
    EventsAppend(Concat(seen), chunk);
    assert (seen + [chunk])[..|seen|] == seen;
    NonEmptyAppend(docs, more);
  }

  lemma EofStep(chunks: seq<string>, next: nat, seen: seq<string>)
    requires next < |chunks| && UntilEof(chunks) == seen + UntilEof(chunks[next..])
    ensures UntilEof(chunks) == if chunks[next] == "" then seen
                                else seen + [chunks[next]] + UntilEof(chunks[next + 1..])
  {
    hide UntilEof;
    var left := chunks[next..];
    assert left[0] == chunks[next] && left[1..] == chunks[next + 1..];
    UntilEofUnfold(left);
    assert seen + [] == seen;
    Assoc(seen, [chunks[next]], UntilEof(chunks[next + 1..]));
  }

  lemma UntilEofUnfold(chunks: seq<string>)
    requires chunks != []
    ensures UntilEof(chunks) == if chunks[0] == "" then [] else [chunks[0]] + UntilEof(chunks[1..])
  {
  }

  /** The reader: whatever the chunks, the non-empty documents and the buffer are those of the stream. */
  method ReadLoop(chunks: seq<string>) returns (docs: seq<string>, buf: string)
    ensures Split(NonEmpty(docs), buf) == Events(Concat(UntilEof(chunks)))
  {
    docs, buf := [], "";
    ghost var seen: seq<string> := [];
    var next := 0;
    assert chunks[0..] == chunks;
    while next < |chunks|
      invariant next <= |chunks| && UntilEof(chunks) == seen + UntilEof(chunks[next..])
      invariant Split(NonEmpty(docs), buf) == Events(Concat(seen))
    {
      EofStep(chunks, next, seen);
      var chunk := chunks[next];
      if chunk == "" { return; }
      var more, kept := Drain(buf + chunk);
      ReadStep(seen, chunk, docs, buf, more, kept);
      seen := seen + [chunk];
      docs, buf := docs + more, kept;
      next := next + 1;
    }
    assert seen + [] == seen;
  }

  lemma {:induction false} NonEmptyAppend(a: seq<string>, b: seq<string>)
    ensures NonEmpty(a + b) == NonEmpty(a) + NonEmpty(b)
  {
    if b == [] {
      assert a + b == a;
    } else {
      NonEmptyAppend(a, b[..|b| - 1]);
      assert (a + b)[..|a + b| - 1] == a + b[..|b| - 1];
    }
  }

  // ------------------------------------------------------------ chunk independence

  /** Events found in a first part stay found, and the rest carries over. */
  lemma {:induction false} EventsAppend(a: string, b: string)
    ensures var x := Events(a);
            var y := Events(x.rest + b);
            Events(a + b) == Split(x.docs + y.docs, y.rest)
    decreases |a|
  {
    var end := Find(a, EVENT_END);
    if end != -1 {
      var n := end + |EVENT_END|;
      FindFirst(a, EVENT_END);
      forall k: nat | k <= end ensures At(a + b, EVENT_END, k) <==> At(a, EVENT_END, k) {
        assert (a + b)[..|a|] == a;
        AtPrefix(a + b, |a|, EVENT_END, k);
      }
      FindIs(a + b, EVENT_END, end);
      assert (a + b)[..n] == a[..n] && (a + b)[n..] == a[n..] + b;
      EventsAppend(a[n..], b);
      Assoc(DocOf(a[..n]), Events(a[n..]).docs, Events(Events(a[n..]).rest + b).docs);
    }
  }

  /** Reading chunk by chunk, keeping only the leftover buffer in between. */
  function ReadChunks(chunks: seq<string>): Split {
    if chunks == [] then Split([], "")
    else
      var before := ReadChunks(chunks[..|chunks| - 1]);
      var now := Events(before.rest + chunks[|chunks| - 1]);
      Split(before.docs + now.docs, now.rest)
  }

  lemma {:induction false} ReadChunksIsEvents(chunks: seq<string>)
    ensures ReadChunks(chunks) == Events(Concat(chunks))
  {
    if chunks != [] {
      ReadChunksIsEvents(chunks[..|chunks| - 1]);
      EventsAppend(Concat(chunks[..|chunks| - 1]), chunks[|chunks| - 1]);
    }
  }

  /** Any two ways of cutting the same stream give the same events and the same leftover. */
  lemma ChunkingIrrelevant(cs: seq<string>, ds: seq<string>)
    requires Concat(cs) == Concat(ds)
    ensures ReadChunks(cs) == ReadChunks(ds)
  {
    ReadChunksIsEvents(cs);
    ReadChunksIsEvents(ds);
  }

  /** Empty documents are not covered: a stray end tag followed by a start tag yields one only when
      both lie in one buffer. */
  lemma EmptyDocDependsOnChunking()
    ensures Emitted("</event><event", 8) == [""]
    ensures Emitted("</event>", 8) == []
  {
    var s := "</event><event";
    assert s[8..14] == EVENT_START;
    forall k: nat | k < 8 ensures !At(s, EVENT_START, k) { StartChars(s, k); }
    FindIs(s, EVENT_START, 8);
    assert s[8..8] == "";
    var t := "</event>";
    forall k: nat ensures !At(t, EVENT_START, k) { StartChars(t, k); }
    FindNone(t, EVENT_START);
  }

  lemma StartChars(s: string, k: nat)
    ensures At(s, EVENT_START, k) ==> k + 1 < |s| && s[k] == '<' && s[k + 1] == 'e'
  {
    if At(s, EVENT_START, k) {
      AtIndex(s, EVENT_START, k, 0);
      AtIndex(s, EVENT_START, k, 1);
    }
  }

  // ------------------------------------------------------------ what an event looks like

  /** Starts with the start tag, ends with the end tag, no end tag before. */
  predicate IsFrame(d: string) {
    At(d, EVENT_START, 0) && |d| >= |EVENT_END| && Find(d, EVENT_END) == |d| - |EVENT_END|
  }

  lemma AtShift(s: string, m: nat, p: string, i: nat)
    requires m <= |s|
    ensures At(s[m..], p, i) <==> At(s, p, m + i)
  {
    if m + i + |p| <= |s| {
      assert s[m..][i..i + |p|] == s[m + i..m + i + |p|];
    }
  }

  lemma SegmentYieldsFrame(s: string, end: nat)
    requires Find(s, EVENT_END) == end
    ensures forall d | d in DocOf(s[..end + |EVENT_END|]) :: IsFrame(d)
  {
    hide At, Find;
    var seg := s[..end + |EVENT_END|];
    var start := Find(seg, EVENT_START);
    if start != -1 {
      FindFirst(s, EVENT_END);
      FindFirst(seg, EVENT_START);
      var d := seg[start..];
      AtPrefix(s, |seg|, EVENT_START, start);
      StartBeforeEnd(s, end, start);
      AtShift(seg, start, EVENT_START, 0);
      forall k: nat ensures At(d, EVENT_END, k) <==> At(s, EVENT_END, start + k) && start + k <= end {
        AtShift(seg, start, EVENT_END, k);
        AtPrefix(s, |seg|, EVENT_END, start + k);
      }
      FindIs(d, EVENT_END, end - start);
    }
  }

  /** Every event is a frame; the leftover holds no end tag. */
  lemma {:induction false} EventsAreFrames(s: string)
    ensures forall d | d in Events(s).docs :: IsFrame(d)
    ensures Find(Events(s).rest, EVENT_END) == -1
    decreases |s|
  {
    hide IsFrame, DocOf, Events, Find;
    var end := Find(s, EVENT_END);
    if end != -1 {
      SegmentYieldsFrame(s, end);
      EventsAreFrames(s[end + |EVENT_END|..]);
      EventsUnfold(s, end);
    } else {
      NoEvents(s);
    }
  }

  // ------------------------------------------------------------ exactly which documents

  /** s[a..b] runs from the first start tag after the previous end tag to the next end tag. */
  predicate IsDocument(s: string, a: nat, b: nat) {
    && a + |"<event"| <= b - |"</event>"| && b <= |s|
    && At(s, "<event", a) && At(s, "</event>", b - |"</event>"|)
    && (forall k: nat | a <= k < b - |"</event>"| :: !At(s, "</event>", k))
    && (forall k: nat | k < a && At(s, "<event", k) :: exists e: nat :: k < e < a && At(s, "</event>", e))
  }

  datatype Span = Span(from: nat, to: nat)

  /** The spans are in order and apart, and the documents are what they cut out of s. */
  ghost predicate CutOut(s: string, spans: seq<Span>, docs: seq<string>) {
    && |spans| == |docs|
    && (forall i | 0 <= i < |spans| :: spans[i].from <= spans[i].to <= |s| && docs[i] == s[spans[i].from..spans[i].to])
    && (forall i, k | 0 <= i < k < |spans| :: spans[i].to <= spans[k].from)
  }

  function Shifted(spans: seq<Span>, n: nat): seq<Span> {
    seq(|spans|, i requires 0 <= i < |spans| => Span(spans[i].from + n, spans[i].to + n))
  }

  /** The documents of a stream are exactly those, in order: one for each end tag with a start tag between it
      and the end tag before, and no others, whatever else the stream holds. */
  lemma {:induction false} EventsExact(s: string) returns (spans: seq<Span>)
    ensures CutOut(s, spans, Events(s).docs)
    ensures forall a: nat, b: nat :: Span(a, b) in spans <==> IsDocument(s, a, b)
    decreases |s|
  {
    hide IsDocument, At, Events, DocOf, Shifted, CutOut, Find;
    var end := Find(s, EVENT_END);
    if end == -1 {
      spans := [];
      NoEvents(s);
      NothingCut(s);
      forall a: nat, b: nat ensures !IsDocument(s, a, b) { NoEndNoDocument(s, a, b); }
    } else {
      var n := end + |EVENT_END|;
      var later := EventsExact(s[n..]);
      var first := FirstSpan(s, end);
      spans := first + Shifted(later, n);
      EventsUnfold(s, end);
      JoinedCut(s, n, first, DocOf(s[..n]), later, Events(s[n..]).docs);
      forall a: nat, b: nat ensures Span(a, b) in spans <==> IsDocument(s, a, b) {
        InShifted(later, n, a, b);
        DocumentSplits(s, end, a, b);
      }
    }
  }

  lemma NothingCut(s: string)
    ensures CutOut(s, [], [])
  {
  }

  lemma NoEndNoDocument(s: string, a: nat, b: nat)
    requires Find(s, EVENT_END) == -1
    ensures !IsDocument(s, a, b)
  {
    FindFirst(s, EVENT_END);
  }

  /** The document that ends with the first end tag, if there is one. */
  lemma FirstSpan(s: string, end: nat) returns (spans: seq<Span>)
    requires Find(s, EVENT_END) == end
    ensures CutOut(s, spans, DocOf(s[..end + |EVENT_END|]))
    ensures forall i | 0 <= i < |spans| :: spans[i].to <= end + |EVENT_END|
    ensures forall a: nat, b: nat | b <= end + |EVENT_END| :: Span(a, b) in spans <==> IsDocument(s, a, b)
  {
    var n := end + |EVENT_END|;
    var seg := s[..n];
    var start := Find(seg, EVENT_START);
    FindFirst(s, EVENT_END);
    FindFirst(seg, EVENT_START);
    forall k: nat ensures At(seg, EVENT_START, k) <==> At(s, EVENT_START, k) && k + |EVENT_START| <= n {
      AtPrefix(s, n, EVENT_START, k);
    }
    spans := if start == -1 then [] else [Span(start, n)];
    if start != -1 {
      assert seg[start..] == s[start..n];
      StartBeforeEnd(s, end, start);
    }
    hide At, IsDocument;
    forall a: nat, b: nat | b <= n ensures Span(a, b) in spans <==> IsDocument(s, a, b) {
      FirstDocument(s, end, start, a, b);
    }
  }

  lemma FirstDocument(s: string, end: nat, start: int, a: nat, b: nat)
    requires At(s, EVENT_END, end) && (forall k: nat | k < end :: !At(s, EVENT_END, k)) && b <= end + |EVENT_END|
    requires start >= 0 ==> At(s, EVENT_START, start) && start + |EVENT_START| <= end
    requires forall k: nat | k + |EVENT_START| <= end + |EVENT_END| && (start == -1 || k < start) :: !At(s, EVENT_START, k)
    requires start >= -1
    ensures IsDocument(s, a, b) <==> a == start && b == end + |EVENT_END|
  {
    hide At;
    if a == start && b == end + |EVENT_END| {
      AtFits(s, EVENT_END, end);
    }
  }

  lemma AtFits(s: string, p: string, i: nat)
    requires At(s, p, i)
    ensures i + |p| <= |s|
  {
  }

  /** The leftover is what follows the last end tag. */
  lemma {:induction false} RestExact(s: string) returns (n: nat)
    ensures n <= |s| && Events(s).rest == s[n..]
    ensures n == 0 || (n >= |"</event>"| && At(s, "</event>", n - |"</event>"|))
    ensures forall k: nat | k >= n :: !At(s, "</event>", k)
    decreases |s|
  {
    hide Events, At, Find;
    var end := Find(s, EVENT_END);
    FindFirst(s, EVENT_END);
    if end == -1 {
      n := 0;
      NoEvents(s);
    } else {
      var m := end + |EVENT_END|;
      var later := RestExact(s[m..]);
      n := m + later;
      EventsUnfold(s, end);
      EndsShift(s, m);
      assert s[m..][later..] == s[n..];
    }
  }

  lemma NoEvents(s: string)
    requires Find(s, EVENT_END) == -1
    ensures Events(s) == Split([], s) && s[0..] == s
  {
  }

  lemma EndsShift(s: string, m: nat)
    requires m <= |s|
    ensures forall k: nat | k >= m :: At(s, EVENT_END, k) <==> At(s[m..], EVENT_END, k - m)
  {
    forall k: nat | k >= m ensures At(s, EVENT_END, k) <==> At(s[m..], EVENT_END, k - m) {
      AtShift(s, m, EVENT_END, k - m);
    }
  }

  lemma InShifted(later: seq<Span>, n: nat, a: nat, b: nat)
    ensures Span(a, b) in Shifted(later, n) <==> a >= n && b >= n && Span(a - n, b - n) in later
  {
    if a >= n && b >= n && Span(a - n, b - n) in later {
      var i :| 0 <= i < |later| && later[i] == Span(a - n, b - n);
      assert Shifted(later, n)[i] == Span(a, b);
    }
  }

  lemma JoinedCut(s: string, n: nat, first: seq<Span>, docs: seq<string>, later: seq<Span>, more: seq<string>)
    requires n <= |s| && CutOut(s, first, docs) && CutOut(s[n..], later, more)
    requires forall i | 0 <= i < |first| :: first[i].to <= n
    ensures CutOut(s, first + Shifted(later, n), docs + more)
  {
    ShiftedCut(s, n, later, more);
    hide Shifted, CutOut;
    CutAppend(s, n, first, docs, Shifted(later, n), more);
  }

  lemma CutAppend(s: string, n: nat, xs: seq<Span>, ds: seq<string>, ys: seq<Span>, es: seq<string>)
    requires CutOut(s, xs, ds) && CutOut(s, ys, es)
    requires (forall i | 0 <= i < |xs| :: xs[i].to <= n) && (forall i | 0 <= i < |ys| :: n <= ys[i].from)
    ensures CutOut(s, xs + ys, ds + es)
  {
    var zs := xs + ys;
    forall i | 0 <= i < |zs| ensures zs[i].from <= zs[i].to <= |s| && (ds + es)[i] == s[zs[i].from..zs[i].to] {
      if i >= |xs| {
        assert zs[i] == ys[i - |xs|] && (ds + es)[i] == es[i - |xs|];
      } else {
        assert zs[i] == xs[i] && (ds + es)[i] == ds[i];
      }
    }
    forall i, k | 0 <= i < k < |zs| ensures zs[i].to <= zs[k].from {
      assert if i >= |xs| then zs[i] == ys[i - |xs|] else zs[i] == xs[i];
      assert if k >= |xs| then zs[k] == ys[k - |xs|] else zs[k] == xs[k];
    }
  }

  lemma ShiftedCut(s: string, n: nat, later: seq<Span>, more: seq<string>)
    requires n <= |s| && CutOut(s[n..], later, more)
    ensures CutOut(s, Shifted(later, n), more)
    ensures forall i | 0 <= i < |Shifted(later, n)| :: n <= Shifted(later, n)[i].from
  {
    forall i | 0 <= i < |later| ensures more[i] == s[later[i].from + n..later[i].to + n] {
      SliceOfRest(s, n, later[i].from, later[i].to);
    }
  }

  lemma SliceOfRest(s: string, n: nat, a: nat, b: nat)
    requires a <= b && n + b <= |s|
    ensures s[n..][a..b] == s[a + n..b + n]
  {
  }

  /** A document ends with the first end tag, or lies wholly after it. */
  lemma DocumentSplits(s: string, end: nat, a: nat, b: nat)
    requires Find(s, EVENT_END) == end
    ensures var n := end + |EVENT_END|;
            && (IsDocument(s, a, b) && b > n ==> a >= n)
            && (a >= n && b >= n ==> (IsDocument(s, a, b) <==> IsDocument(s[n..], a - n, b - n)))
  {
    var n := end + |EVENT_END|;
    FindFirst(s, EVENT_END);
    if IsDocument(s, a, b) && b > n && a < n {
      StartBeforeEnd(s, end, a);
    }
    if a >= n && b >= n {
      DocumentShifts(s, end, a, b);
    }
  }

  lemma DocumentShifts(s: string, end: nat, a: nat, b: nat)
    requires At(s, EVENT_END, end) && a >= end + |EVENT_END| && b >= end + |EVENT_END|
    ensures IsDocument(s, a, b) <==> IsDocument(s[end + |EVENT_END|..], a - end - |EVENT_END|, b - end - |EVENT_END|)
  {
    var n := end + |EVENT_END|;
    var t := s[n..];
    forall k: nat ensures At(t, EVENT_START, k) <==> At(s, EVENT_START, n + k) {
      AtShift(s, n, EVENT_START, k);
    }
    forall k: nat ensures At(t, EVENT_END, k) <==> At(s, EVENT_END, n + k) {
      AtShift(s, n, EVENT_END, k);
    }
    hide At;
    if IsDocument(s, a, b) {
      ShiftedIsDocument(s, n, a, b);
    }
    if IsDocument(t, a - n, b - n) {
      UnshiftedIsDocument(s, end, n, a, b);
    }
  }

  lemma ShiftedIsDocument(s: string, n: nat, a: nat, b: nat)
    requires n <= |s| && a >= n && b >= n && IsDocument(s, a, b)
    requires forall k: nat :: At(s[n..], EVENT_START, k) <==> At(s, EVENT_START, n + k)
    requires forall k: nat :: At(s[n..], EVENT_END, k) <==> At(s, EVENT_END, n + k)
    ensures IsDocument(s[n..], a - n, b - n)
  {
    hide At;
    var t := s[n..];
    forall k: nat | k < a - n && At(t, EVENT_START, k) ensures exists e: nat :: k < e < a - n && At(t, EVENT_END, e) {
      var e: nat :| k + n < e < a && At(s, EVENT_END, e);
      assert At(t, EVENT_END, e - n);
    }
  }

  lemma UnshiftedIsDocument(s: string, end: nat, n: nat, a: nat, b: nat)
    requires At(s, EVENT_END, end) && n == end + |EVENT_END| <= |s| && a >= n && b >= n
    requires IsDocument(s[n..], a - n, b - n)
    requires forall k: nat :: At(s[n..], EVENT_START, k) <==> At(s, EVENT_START, n + k)
    requires forall k: nat :: At(s[n..], EVENT_END, k) <==> At(s, EVENT_END, n + k)
    ensures IsDocument(s, a, b)
  {
    hide At;
    var t := s[n..];
    forall k: nat | a <= k < b - |EVENT_END| ensures !At(s, EVENT_END, k) {
      assert At(t, EVENT_END, k - n) <==> At(s, EVENT_END, n + (k - n));
    }
    assert At(t, EVENT_START, a - n) && At(t, EVENT_END, b - n - |EVENT_END|);
    forall k: nat | k < a && At(s, EVENT_START, k) ensures exists e: nat :: k < e < a && At(s, EVENT_END, e) {
      if k < n {
        StartBeforeEnd(s, end, k);
      } else {
        assert At(t, EVENT_START, k - n);
        var e: nat :| k - n < e < a - n && At(t, EVENT_END, e);
        assert At(s, EVENT_END, n + e);
      }
    }
  }

  // ------------------------------------------------------------ writer and reader

  /** The bytes _write puts on the stream for one frame. */
  function Line(frame: string): string {
    if frame != "" && frame[|frame| - 1] == '\n' then frame else frame + "\n"
  }

  /** A line is the frame with a newline at its end, added only where there is none. */
  lemma LineExact(frame: string)
    ensures var line := Line(frame);
            && frame <= line && |line| <= |frame| + 1 && line != "" && line[|line| - 1] == '\n'
            && (line == frame <==> EndsWith(frame, "\n"))
            && Line(line) == line
  {
    if frame != "" {
      assert frame[|frame| - 1..] == [frame[|frame| - 1]];
    }
  }

  function Lines(frames: seq<string>): string {
    if frames == [] then "" else Line(frames[0]) + Lines(frames[1..])
  }

  lemma FrameIsLine(f: string)
    requires IsFrame(f)
    ensures |f| >= |EVENT_START| + |EVENT_END| && Line(f) == f + "\n"
  {
    FindFirst(f, EVENT_END);
    StartBeforeEnd(f, |f| - |EVENT_END|, 0);
    AtIndex(f, EVENT_END, |f| - |EVENT_END|, 7);
  }

  lemma AfterJunk(junk: string, f: string, p: string, k: nat)
    requires (junk == "" || junk == "\n") && p != "" && p[0] == '<'
    ensures At(junk + f, p, k) <==> k >= |junk| && At(f, p, k - |junk|)
  {
    var seg := junk + f;
    if k >= |junk| {
      assert seg[|junk|..] == f;
      AtShift(seg, |junk|, p, k - |junk|);
    } else if At(seg, p, k) {
      AtIndex(seg, p, k, 0);
    }
  }

  lemma FrameDoc(junk: string, f: string)
    requires IsFrame(f) && (junk == "" || junk == "\n")
    ensures DocOf(junk + f) == [f]
  {
    var seg := junk + f;
    forall k: nat ensures At(seg, EVENT_START, k) <==> k >= |junk| && At(f, EVENT_START, k - |junk|) {
      AfterJunk(junk, f, EVENT_START, k);
    }
    FindIs(seg, EVENT_START, |junk|);
    assert seg[|junk|..] == f;
  }

  lemma FrameEnd(junk: string, f: string, tail: string)
    requires IsFrame(f) && (junk == "" || junk == "\n")
    ensures Find(junk + f + tail, EVENT_END) == |junk| + |f| - |EVENT_END|
  {
    var s, n := junk + f + tail, |junk| + |f|;
    assert s[..n] == junk + f;
    FindFirst(f, EVENT_END);
    forall k: nat | k <= n - |EVENT_END|
      ensures At(s, EVENT_END, k) <==> k >= |junk| && At(f, EVENT_END, k - |junk|)
    {
      AtPrefix(s, n, EVENT_END, k);
      AfterJunk(junk, f, EVENT_END, k);
    }
    FindIs(s, EVENT_END, n - |EVENT_END|);
  }

  lemma NoEventInJunk(junk: string)
    requires junk == "" || junk == "\n"
    ensures Events(junk) == Split([], junk)
  {
    FindNone(junk, EVENT_END);
  }

  lemma FirstEvent(junk: string, f: string, tail: string)
    requires IsFrame(f) && (junk == "" || junk == "\n")
    ensures Events(junk + f + tail) == Split([f] + Events(tail).docs, Events(tail).rest)
  {
    var s, n := junk + f + tail, |junk| + |f|;
    assert s[..n] == junk + f && s[n..] == tail;
    FrameEnd(junk, f, tail);
    FrameDoc(junk, f);
    EventsUnfold(s, n - |EVENT_END|);
  }

  lemma LinesCons(junk: string, frames: seq<string>)
    requires frames != [] && IsFrame(frames[0])
    ensures junk + Lines(frames) == junk + frames[0] + ("\n" + Lines(frames[1..]))
  {
    hide IsFrame;
    var f, later := frames[0], Lines(frames[1..]);
    FrameIsLine(f);
    Assoc(f, "\n", later);
    Assoc(junk, f, "\n" + later);
  }

  lemma {:induction false} LinesReadBackAfter(junk: string, frames: seq<string>)
    requires (junk == "" || junk == "\n") && forall i | 0 <= i < |frames| :: IsFrame(frames[i])
    ensures Events(junk + Lines(frames)) == Split(frames, if frames == [] then junk else "\n")
    decreases |frames|
  {
    hide Events, IsFrame;
    if frames == [] {
      NoEventInJunk(junk);
      assert junk + Lines(frames) == junk;
    } else {
      var f, later := frames[0], Lines(frames[1..]);
      LinesCons(junk, frames);
      FirstEvent(junk, f, "\n" + later);
      LinesReadBackAfter("\n", frames[1..]);
      assert frames == [f] + frames[1..];
    }
  }

  /** Frames written with the newline rule and read back under any chunking are the same frames. */
  lemma WrittenFramesReadBack(frames: seq<string>, chunks: seq<string>)
    requires forall i | 0 <= i < |frames| :: IsFrame(frames[i])
    requires Concat(chunks) == Lines(frames)
    ensures ReadChunks(chunks).docs == frames
  {
    ReadChunksIsEvents(chunks);
    LinesReadBackAfter("", frames);
    assert "" + Lines(frames) == Lines(frames);
  }
}
