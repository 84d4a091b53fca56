/** TakServerConnector's outbound side: a drop-oldest buffer flushed on reconnect, and the backoff.

    _enqueue, one direct write and one flush iteration are atomic steps here; FlushRace lets a flush write
    be suspended. */
module OutboundQueue {
  import opened CotStream
  import opened Sequences

  /** up: the connector holds a writer. streams: what each connection's socket was handed, direct sends and
      flushes together, the present connection last. */
  datatype Queue = Queue(frames: seq<string>, dropped: nat, up: bool, streams: seq<seq<string>>)

  /** ok: the write, if there is one, succeeds. successes: how many writes of a flush succeed before one
      fails. reached: a failing write had already put its frame in the socket's buffer. */
  datatype Op =
    | Send(frame: string, ok: bool, reached: bool)
    | Flush(successes: nat, reached: bool)
    | Connect
    | Lose

  const EMPTY := Queue([], 0, false, [])

  predicate Buffers(q: Queue, op: Op) {
    op.Send? && !(q.up && op.ok)
  }

  function Sent(q: Queue, successes: nat): nat {
    if successes < |q.frames| then successes else |q.frames|
  }

  /** Frames handed to the socket of the present connection. */
  function Handed(streams: seq<seq<string>>, fs: seq<string>): seq<seq<string>> {
    if streams == [] then [] else streams[|streams| - 1 := streams[|streams| - 1] + fs]
  }

  function Step(maxlen: nat, q: Queue, op: Op): Queue {
    match op
    case Send(f, ok, reached) =>
      if q.up && ok then q.(streams := Handed(q.streams, [f]))
      else q.(frames := LastN(q.frames + [f], maxlen),
              dropped := q.dropped + (if |q.frames| >= maxlen then 1 else 0),
              streams := if q.up && reached then Handed(q.streams, [f]) else q.streams)
    case Flush(successes, reached) =>
      var n := Sent(q, successes);
      q.(frames := q.frames[n..],
         streams := Handed(q.streams, q.frames[..n] + if n < |q.frames| && reached then [q.frames[n]] else []))
    case Connect => q.(up := true, streams := q.streams + [[]])
    case Lose => q.(up := false)
  }

  /** The supervisor connects, flushes over that connection, and loses it. */
  predicate Enabled(q: Queue, op: Op) {
    match op
    case Send(_, _, _) => true
    case Connect => !q.up
    case _ => q.up
  }

  ghost predicate Run(maxlen: nat, qs: seq<Queue>, ops: seq<Op>) {
    && maxlen >= 1 && |qs| == |ops| + 1 && qs[0] == EMPTY
    && forall i | 0 <= i < |ops| :: Enabled(qs[i], ops[i]) && qs[i + 1] == Step(maxlen, qs[i], ops[i])
  }

  // ------------------------------------------------------------ conservation

  /** What became of a buffered frame that is no longer queued. */
  datatype Fate = Flushed(frame: string) | Evicted(frame: string)

  function Frames(fates: seq<Fate>): seq<string> {
    seq(|fates|, i requires 0 <= i < |fates| => fates[i].frame)
  }

  function OnlyFlushed(fates: seq<Fate>): seq<string> {
    if fates == [] then []
    else
      var last := fates[|fates| - 1];
      OnlyFlushed(fates[..|fates| - 1]) + if last.Flushed? then [last.frame] else []
  }

  /** The buffered frames of the first k operations, in order. */
  function Buffered(qs: seq<Queue>, ops: seq<Op>, k: nat): seq<string>
    requires k <= |ops| && k <= |qs|
  {
    if k == 0 then [] else Buffered(qs, ops, k - 1) + if Buffers(qs[k - 1], ops[k - 1]) then [ops[k - 1].frame] else []
  }

  /** The frames flushed by the first k operations, in order. */
  function FlushedBy(qs: seq<Queue>, ops: seq<Op>, k: nat): seq<string>
    requires k <= |ops| && k <= |qs|
  {
    if k == 0 then []
    else FlushedBy(qs, ops, k - 1)
         + match ops[k - 1]
           case Flush(successes, _) => qs[k - 1].frames[..Sent(qs[k - 1], successes)]
           case _ => []
  }

  function AllFlushed(s: seq<string>): seq<Fate> {
    seq(|s|, i requires 0 <= i < |s| => Flushed(s[i]))
  }

  /** The fates decided by one step. */
  function Decided(maxlen: nat, q: Queue, op: Op): seq<Fate>
    requires maxlen >= 1
  {
    match op
    case Send(_, _, _) => if Buffers(q, op) && |q.frames| >= maxlen then [Evicted(q.frames[0])] else []
    case Flush(successes, _) => AllFlushed(q.frames[..Sent(q, successes)])
    case _ => []
  }

  function Fates(maxlen: nat, qs: seq<Queue>, ops: seq<Op>, k: nat): seq<Fate>
    requires maxlen >= 1 && k <= |ops| && k <= |qs|
  {
    if k == 0 then [] else Fates(maxlen, qs, ops, k - 1) + Decided(maxlen, qs[k - 1], ops[k - 1])
  }

  lemma {:induction false} OnlyFlushedAppend(a: seq<Fate>, b: seq<Fate>)
    ensures OnlyFlushed(a + b) == OnlyFlushed(a) + OnlyFlushed(b)
  {
    if b == [] {
      assert a + b == a;
    } else {
      OnlyFlushedAppend(a, b[..|b| - 1]);
      assert (a + b)[..|a + b| - 1] == a + b[..|b| - 1];
    }
  }

  lemma {:induction false} OnlyFlushedAll(s: seq<string>)
    ensures OnlyFlushed(AllFlushed(s)) == s
  {
    if s != [] {
      OnlyFlushedAll(s[..|s| - 1]);
      assert AllFlushed(s)[..|s| - 1] == AllFlushed(s[..|s| - 1]);
    }
  }

  lemma FramesAppend(a: seq<Fate>, b: seq<Fate>)
    ensures Frames(a + b) == Frames(a) + Frames(b)
  {
  }

  lemma StepConserves(maxlen: nat, q: Queue, op: Op)
    requires maxlen >= 1 && |q.frames| <= maxlen
    ensures var q' := Step(maxlen, q, op);
            var d := Decided(maxlen, q, op);
            && |q'.frames| <= maxlen
            && Frames(d) + q'.frames == q.frames + (if Buffers(q, op) then [op.frame] else [])
            && |d| == |OnlyFlushed(d)| + (q'.dropped - q.dropped)
            && OnlyFlushed(d) == if op.Flush? then q.frames[..Sent(q, op.successes)] else []
  {
    if op.Flush? {
      OnlyFlushedAll(q.frames[..Sent(q, op.successes)]);
      FramesOfFlushed(q.frames[..Sent(q, op.successes)]);
      hide OnlyFlushed, Frames, AllFlushed;
    } else if Buffers(q, op) && |q.frames| >= maxlen {
      FullQueueEvicts(q.frames, op.frame, maxlen);
      hide LastN;
    }
  }

  lemma FramesOfFlushed(s: seq<string>)
    ensures Frames(AllFlushed(s)) == s && |AllFlushed(s)| == |s|
  {
  }

  lemma FullQueueEvicts(frames: seq<string>, f: string, maxlen: nat)
    requires |frames| == maxlen >= 1
    ensures Frames([Evicted(frames[0])]) == [frames[0]] && OnlyFlushed([Evicted(frames[0])]) == []
    ensures LastN(frames + [f], maxlen) == frames[1..] + [f]
    ensures [frames[0]] + (frames[1..] + [f]) == frames + [f]
  {
    assert [Evicted(frames[0])][..0] == [];
  }

  lemma Reassemble(a: seq<string>, d: seq<string>, q': seq<string>, q: seq<string>, b: seq<string>, x: seq<string>)
    requires a + q == b && d + q' == q + x
    ensures (a + d) + q' == b + x
  {
    Assoc(a, d, q');
    Assoc(a, q, x);
  }

  /** In every run: each buffered frame was flushed, was evicted, or is queued, and the order in which
      frames were buffered is the order of their fates and then of the queue; the bound holds; and
      buffered = flushed + dropped + queued. */
  lemma {:induction false} QueueConserves(maxlen: nat, qs: seq<Queue>, ops: seq<Op>, k: nat)
    requires Run(maxlen, qs, ops) && k <= |ops|
    ensures var fates := Fates(maxlen, qs, ops, k);
            && Frames(fates) + qs[k].frames == Buffered(qs, ops, k)
            && OnlyFlushed(fates) == FlushedBy(qs, ops, k)
            && |qs[k].frames| <= maxlen
            && |Buffered(qs, ops, k)| == |FlushedBy(qs, ops, k)| + qs[k].dropped + |qs[k].frames|
    decreases k
  {
    hide OnlyFlushed, Frames, Step, Decided, Fates, Buffered, FlushedBy, Buffers, Sent;
    if k == 0 {
      NothingYet(maxlen, qs, ops);
    } else {
      RunStep(maxlen, qs, ops, k - 1);
      LastOp(maxlen, qs, ops, k);
      QueueConserves(maxlen, qs, ops, k - 1);
      OneMoreOp(maxlen, Fates(maxlen, qs, ops, k - 1), qs[k - 1], ops[k - 1], Buffered(qs, ops, k - 1));
    }
  }

  lemma NothingYet(maxlen: nat, qs: seq<Queue>, ops: seq<Op>)
    requires maxlen >= 1
    ensures Fates(maxlen, qs, ops, 0) == [] && Buffered(qs, ops, 0) == [] && FlushedBy(qs, ops, 0) == []
    ensures Frames([]) == [] && OnlyFlushed([]) == []
  {
  }

  lemma RunStep(maxlen: nat, qs: seq<Queue>, ops: seq<Op>, i: nat)
    requires Run(maxlen, qs, ops) && i < |ops|
    ensures maxlen >= 1 && |qs| == |ops| + 1 && qs[i + 1] == Step(maxlen, qs[i], ops[i])
  {
    hide Step;
  }

  lemma LastOp(maxlen: nat, qs: seq<Queue>, ops: seq<Op>, k: nat)
    requires maxlen >= 1 && 0 < k <= |ops| && k <= |qs|
    ensures var q, op := qs[k - 1], ops[k - 1];
            && Fates(maxlen, qs, ops, k) == Fates(maxlen, qs, ops, k - 1) + Decided(maxlen, q, op)
            && Buffered(qs, ops, k) == Buffered(qs, ops, k - 1) + (if Buffers(q, op) then [op.frame] else [])
            && FlushedBy(qs, ops, k)
               == FlushedBy(qs, ops, k - 1) + (if op.Flush? then q.frames[..Sent(q, op.successes)] else [])
  {
    hide Decided, Sent;
  }

  lemma OneMoreOp(maxlen: nat, before: seq<Fate>, q: Queue, op: Op, buffered: seq<string>)
    requires maxlen >= 1 && |q.frames| <= maxlen && Frames(before) + q.frames == buffered
    requires |buffered| == |OnlyFlushed(before)| + q.dropped + |q.frames|
    ensures var q', fates := Step(maxlen, q, op), before + Decided(maxlen, q, op);
            var now := buffered + if Buffers(q, op) then [op.frame] else [];
            && Frames(fates) + q'.frames == now
            && OnlyFlushed(fates) == OnlyFlushed(before) + (if op.Flush? then q.frames[..Sent(q, op.successes)] else [])
            && |q'.frames| <= maxlen
            && |now| == |OnlyFlushed(fates)| + q'.dropped + |q'.frames|
  {
    var q', d := Step(maxlen, q, op), Decided(maxlen, q, op);
    StepConserves(maxlen, q, op);
    FramesLength(before);
    FramesLength(d);
    hide OnlyFlushed, Frames, Step, Decided;
    OnlyFlushedAppend(before, d);
    FramesAppend(before, d);
    Reassemble(Frames(before), Frames(d), q'.frames, q.frames, buffered, if Buffers(q, op) then [op.frame] else []);
  }

  lemma FramesLength(fates: seq<Fate>)
    ensures |Frames(fates)| == |fates|
  {
  }

  /** The queue is always the tail of what was buffered. */
  lemma QueueIsSuffix(maxlen: nat, qs: seq<Queue>, ops: seq<Op>, k: nat)
    requires Run(maxlen, qs, ops) && k <= |ops|
    ensures qs[k].frames == LastN(Buffered(qs, ops, k), |qs[k].frames|)
  {
    QueueConserves(maxlen, qs, ops, k);
  }

  lemma SendKeepsNewest(maxlen: nat, q: Queue, op: Op, buffered: seq<string>)
    requires op.Send? && q.frames == LastN(buffered, maxlen)
    ensures Step(maxlen, q, op).frames == LastN(buffered + (if Buffers(q, op) then [op.frame] else []), maxlen)
  {
    LastNOfLastN(buffered, op.frame, maxlen);
    hide LastN;
    assert buffered + [] == buffered;
  }

  lemma LastNOfLastN(s: seq<string>, f: string, n: nat)
    ensures LastN(LastN(s, n) + [f], n) == LastN(s + [f], n)
  {
  }

  /** While nothing is flushed the queue holds exactly the newest frames. */
  lemma {:induction false} OutageKeepsNewest(maxlen: nat, qs: seq<Queue>, ops: seq<Op>, k: nat)
    requires Run(maxlen, qs, ops) && k <= |ops| && forall i | 0 <= i < k :: !ops[i].Flush?
    ensures qs[k].frames == LastN(Buffered(qs, ops, k), maxlen)
    decreases k
  {
    hide Step, Buffers, Buffered, LastN, Enabled;
    if k == 0 {
      NothingYet(maxlen, qs, ops);
      NothingHeld(maxlen);
    } else {
      OutageKeepsNewest(maxlen, qs, ops, k - 1);
      RunStep(maxlen, qs, ops, k - 1);
      LastOp(maxlen, qs, ops, k);
      hide Run;
      if ops[k - 1].Send? {
        SendKeepsNewest(maxlen, qs[k - 1], ops[k - 1], Buffered(qs, ops, k - 1));
      } else {
        LinkKeepsFrames(maxlen, qs[k - 1], ops[k - 1], Buffered(qs, ops, k - 1));
      }
    }
  }

  lemma NothingHeld(maxlen: nat)
    ensures LastN<string>([], maxlen) == []
  {
  }

  lemma LinkKeepsFrames(maxlen: nat, q: Queue, op: Op, buffered: seq<string>)
    requires !op.Send? && !op.Flush?
    ensures Step(maxlen, q, op).frames == q.frames
    ensures buffered + (if Buffers(q, op) then [op.frame] else []) == buffered
  {
  }

  /** A flush writes from the head in order; the frame whose write failed is the new head, and is sent again
      even where it had reached the socket. */
  lemma FlushKeepsFailedFrame(maxlen: nat, q: Queue, successes: nat, reached: bool)
    requires q.streams != []
    ensures var q' := Step(maxlen, q, Flush(successes, reached));
            var again := if successes < |q.frames| && reached then [q.frames[successes]] else [];
            && |q'.streams| == |q.streams| && (forall c | 0 <= c < |q.streams| - 1 :: q'.streams[c] == q.streams[c])
            && q'.streams[|q.streams| - 1] + q'.frames
               == q.streams[|q.streams| - 1] + q.frames[..Sent(q, successes)] + again + q.frames[Sent(q, successes)..]
            && (successes < |q.frames| ==> q'.frames != [] && q'.frames[0] == q.frames[successes])
            && (successes >= |q.frames| ==> q'.frames == [])
            && q'.dropped == q.dropped
  {
  }

  // ------------------------------------------------------------ what is written

  /** Whether the first k operations leave the connector connected, and how many connections they opened. */
  predicate UpAfter(ops: seq<Op>, k: nat)
    requires k <= |ops|
  {
    k > 0 && (ops[k - 1].Connect? || (!ops[k - 1].Lose? && UpAfter(ops, k - 1)))
  }

  function Connections(ops: seq<Op>, k: nat): nat
    requires k <= |ops|
  {
    if k == 0 then 0 else Connections(ops, k - 1) + if ops[k - 1].Connect? then 1 else 0
  }

  /** The frames the j-th operation puts on the connection that is up: a sent frame whose write succeeds or
      fails late, or the head of the buffer as far as a flush gets. */
  function WrittenBy(qs: seq<Queue>, ops: seq<Op>, j: nat): seq<string>
    requires j < |ops| && j < |qs|
  {
    match ops[j]
    case Send(f, ok, reached) => if UpAfter(ops, j) && (ok || reached) then [f] else []
    case Flush(successes, reached) =>
      var fs := qs[j].frames;
      if successes >= |fs| then fs else if reached then fs[..successes + 1] else fs[..successes]
    case _ => []
  }

  /** What the first k operations put on the c-th connection, in order. */
  function StreamOf(qs: seq<Queue>, ops: seq<Op>, c: nat, k: nat): seq<string>
    requires k <= |ops| && k <= |qs|
  {
    if k == 0 then []
    else StreamOf(qs, ops, c, k - 1)
         + if Connections(ops, k - 1) == c + 1 && UpAfter(ops, k - 1) then WrittenBy(qs, ops, k - 1) else []
  }

  /** In every run the stream of each connection is exactly what the operations put on it while it was up. */
  lemma {:induction false} StreamsAreWhatWasWritten(maxlen: nat, qs: seq<Queue>, ops: seq<Op>, k: nat, c: nat)
    requires Run(maxlen, qs, ops) && k <= |ops|
    ensures qs[k].up == UpAfter(ops, k) && |qs[k].streams| == Connections(ops, k)
    ensures qs[k].up ==> qs[k].streams != []
    ensures if c < Connections(ops, k) then qs[k].streams[c] == StreamOf(qs, ops, c, k) else StreamOf(qs, ops, c, k) == []
    decreases k
  {
    hide LastN, Buffers;
    if k > 0 {
      StreamsAreWhatWasWritten(maxlen, qs, ops, k - 1, c);
      RunStep(maxlen, qs, ops, k - 1);
      assert Enabled(qs[k - 1], ops[k - 1]);
      hide Run;
      OpWrites(maxlen, qs, ops, k - 1, c);
    }
  }

  /** One operation appends what it writes to the stream of the connection that is up, and to no other. */
  lemma OpWrites(maxlen: nat, qs: seq<Queue>, ops: seq<Op>, j: nat, c: nat)
    requires j < |ops| && j < |qs| && qs[j].up == UpAfter(ops, j) && Enabled(qs[j], ops[j])
    requires qs[j].up ==> qs[j].streams != []
    ensures var q, q' := qs[j], Step(maxlen, qs[j], ops[j]);
            && q'.up == UpAfter(ops, j + 1)
            && |q'.streams| == |q.streams| + (if ops[j].Connect? then 1 else 0)
            && (c < |q.streams| ==>
                  q'.streams[c] == q.streams[c] + if q.up && c + 1 == |q.streams| then WrittenBy(qs, ops, j) else [])
            && (ops[j].Connect? ==> q'.streams[|q.streams|] == [])
            && (!q.up ==> WrittenBy(qs, ops, j) == [])
  {
    var q := qs[j];
    if ops[j].Flush? && ops[j].successes < |q.frames| {
      var n := ops[j].successes;
      assert q.frames[..n] + [q.frames[n]] == q.frames[..n + 1] && q.frames[..n] + [] == q.frames[..n];
    } else if ops[j].Flush? {
      assert q.frames[..|q.frames|] + [] == q.frames;
    }
    if c < |q.streams| {
      assert q.streams[c] + [] == q.streams[c];
    }
  }

  /** The frames sent by the first k operations, and those of them written directly. */
  function SendsOf(ops: seq<Op>, k: nat): nat
    requires k <= |ops|
  {
    if k == 0 then 0 else SendsOf(ops, k - 1) + if ops[k - 1].Send? then 1 else 0
  }

  function DirectOf(ops: seq<Op>, k: nat): nat
    requires k <= |ops|
  {
    if k == 0 then 0
    else DirectOf(ops, k - 1) + if ops[k - 1].Send? && ops[k - 1].ok && UpAfter(ops, k - 1) then 1 else 0
  }

  /** In every run each frame sent was written directly, flushed, dropped or is queued. */
  lemma EverySendAccountedFor(maxlen: nat, qs: seq<Queue>, ops: seq<Op>, k: nat)
    requires Run(maxlen, qs, ops) && k <= |ops|
    ensures SendsOf(ops, k) == DirectOf(ops, k) + |FlushedBy(qs, ops, k)| + qs[k].dropped + |qs[k].frames|
  {
    QueueConserves(maxlen, qs, ops, k);
    SentIsDirectOrBuffered(maxlen, qs, ops, k);
  }

  lemma {:induction false} SentIsDirectOrBuffered(maxlen: nat, qs: seq<Queue>, ops: seq<Op>, k: nat)
    requires Run(maxlen, qs, ops) && k <= |ops|
    ensures SendsOf(ops, k) == DirectOf(ops, k) + |Buffered(qs, ops, k)|
    decreases k
  {
    if k > 0 {
      SentIsDirectOrBuffered(maxlen, qs, ops, k - 1);
      StreamsAreWhatWasWritten(maxlen, qs, ops, k - 1, 0);
      hide Run, Step, StreamOf;
    }
  }

  /** For one: a frame sent while the link is down, to a buffer of one, is the first on the next connection, and
      the frame it drove out is counted. */
  lemma OutageThenFlush(f: string, g: string, h: string)
    ensures var ops := [Send(f, true, false), Send(g, true, false), Connect, Flush(1, false), Send(h, true, false), Lose];
            var qs := [EMPTY, Queue([f], 0, false, []), Queue([g], 1, false, []), Queue([g], 1, true, [[]]),
                       Queue([], 1, true, [[g]]), Queue([], 1, true, [[g, h]]), Queue([], 1, false, [[g, h]])];
            Run(1, qs, ops)
  {
    assert [] + [f] == [f] && [f] + [g] == [f, g] && [f, g][1..] == [g] && [g] + [h] == [g, h];
    assert [g][..1] + [] == [g] && [] + [g] == [g] && [g][1..] == [];
    hide LastN;
    Kept(f, g);
  }

  lemma Kept(f: string, g: string)
    ensures LastN([f], 1) == [f] && LastN([f, g], 1) == [g]
  {
    assert [f, g][1..] == [g];
  }

  // ------------------------------------------------------------ what the far end reads

  predicate AllFrames(fs: seq<string>) {
    forall i | 0 <= i < |fs| :: IsFrame(fs[i])
  }

  predicate FramesSent(ops: seq<Op>) {
    forall i | 0 <= i < |ops| && ops[i].Send? :: IsFrame(ops[i].frame)
  }

  /** The reader at the far end of any one connection, whatever part of the bytes arrives before it breaks and
      however that part is cut: it reads a prefix of the frames the operations put on that connection, every
      frame whose line arrived whole among them, and all of them when all bytes arrived. */
  lemma PeerReadsWhatWasWritten(maxlen: nat, qs: seq<Queue>, ops: seq<Op>, k: nat, c: nat, chunks: seq<string>)
    requires Run(maxlen, qs, ops) && k <= |ops| && FramesSent(ops) && c < Connections(ops, k)
    requires Concat(chunks) <= Lines(StreamOf(qs, ops, c, k))
    ensures var docs, handed := ReadChunks(chunks).docs, StreamOf(qs, ops, c, k);
            && docs <= handed
            && (forall n: nat | n <= |handed| && |Lines(handed[..n])| <= |Concat(chunks)| :: n <= |docs|)
            && (Concat(chunks) == Lines(handed) ==> docs == handed)
  {
    StreamsAreWhatWasWritten(maxlen, qs, ops, k, c);
    OnlyFrames(maxlen, qs, ops, k);
    hide Run, IsFrame, Lines, ReadChunks, Concat, StreamOf, Connections;
    var handed := StreamOf(qs, ops, c, k);
    assert AllFrames(handed);
    ReadsPrefix(handed, chunks);
    forall n: nat | n <= |handed| && |Lines(handed[..n])| <= |Concat(chunks)|
      ensures n <= |ReadChunks(chunks).docs|
    {
      ReadsWholeLines(handed, n, chunks);
    }
    if Concat(chunks) == Lines(handed) {
      WrittenFramesReadBack(handed, chunks);
    }
  }

  lemma PrefixEvents(a: string, b: string)
    requires a <= b
    ensures Events(a).docs <= Events(b).docs
  {
    EventsAppend(a, b[|a|..]);
    hide Events;
    assert a + b[|a|..] == b;
  }

  lemma ReadsPrefix(handed: seq<string>, chunks: seq<string>)
    requires AllFrames(handed) && Concat(chunks) <= Lines(handed)
    ensures ReadChunks(chunks).docs <= handed
  {
    ReadChunksIsEvents(chunks);
    PrefixEvents(Concat(chunks), Lines(handed));
    WholeReadsBack(handed);
    hide Events, ReadChunks, Concat, Lines, IsFrame;
  }

  lemma WholeReadsBack(handed: seq<string>)
    requires AllFrames(handed)
    ensures Events(Lines(handed)).docs == handed
  {
    LinesReadBackAfter("", handed);
    hide Events, Lines, IsFrame;
    assert "" + Lines(handed) == Lines(handed);
  }

  lemma ReadsWholeLines(handed: seq<string>, n: nat, chunks: seq<string>)
    requires AllFrames(handed) && Concat(chunks) <= Lines(handed)
    requires n <= |handed| && |Lines(handed[..n])| <= |Concat(chunks)|
    ensures n <= |ReadChunks(chunks).docs|
  {
    LinesPrefix(handed, n);
    ReadChunksIsEvents(chunks);
    WholeReadsBack(handed[..n]);
    hide Events, ReadChunks, Concat, Lines, IsFrame;
    assert Lines(handed[..n]) <= Concat(chunks);
    PrefixEvents(Lines(handed[..n]), Concat(chunks));
  }

  lemma {:induction false} LinesPrefix(frames: seq<string>, n: nat)
    requires n <= |frames|
    ensures Lines(frames[..n]) <= Lines(frames)
  {
    if n > 0 {
      LinesPrefix(frames[1..], n - 1);
      assert frames[..n][1..] == frames[1..][..n - 1];
    }
  }

  lemma {:induction false} OnlyFrames(maxlen: nat, qs: seq<Queue>, ops: seq<Op>, k: nat)
    requires Run(maxlen, qs, ops) && k <= |ops| && FramesSent(ops)
    ensures AllFrames(qs[k].frames) && forall c | 0 <= c < |qs[k].streams| :: AllFrames(qs[k].streams[c])
    decreases k
  {
    hide IsFrame;
    if k > 0 {
      OnlyFrames(maxlen, qs, ops, k - 1);
      assert qs[k] == Step(maxlen, qs[k - 1], ops[k - 1]);
    }
  }

  // ------------------------------------------------------------ the object

  class TakServerConnector {
    const maxlen: nat
    var queue: seq<string>
    var dropped: nat
    var connected: bool
    /** The frames handed to the socket of each connection, and the bytes on the present one. */
    var streams: seq<seq<string>>
    var wire: string

    ghost function State(): Queue reads this {
      Queue(queue, dropped, connected, streams)
    }

    ghost predicate Valid() reads this {
      && maxlen >= 1 && |queue| <= maxlen
      && (connected ==> streams != [] && wire == Lines(streams[|streams| - 1]))
    }

    constructor (queueMax: int)
      ensures Valid() && State() == EMPTY && maxlen == if queueMax > 1 then queueMax else 1
    {
      maxlen := if queueMax > 1 then queueMax else 1;
      queue, dropped, connected, streams, wire := [], 0, false, [], "";
    }

    method Opened()
      requires Valid() && !connected
      modifies this`connected, this`streams, this`wire
      ensures Valid() && State() == Step(maxlen, old(State()), Connect)
    {
      connected, streams, wire := true, streams + [[]], "";
    }

    method Closed()
      requires Valid() && connected
      modifies this`connected
      ensures Valid() && State() == Step(maxlen, old(State()), Lose)
    {
      connected := false;
    }

    method Enqueue(frame: string)
      requires Valid()
      modifies this`queue, this`dropped
      ensures Valid() && queue == LastN(old(queue) + [frame], maxlen)
      ensures dropped == old(dropped) + if |old(queue)| >= maxlen then 1 else 0
    {
      if |queue| >= maxlen {
        dropped := dropped + 1;
        queue := queue[1..];
      }
      queue := queue + [frame];
    }

    method Write(frame: string)
      requires Valid() && connected
      modifies this`streams, this`wire
      ensures Valid() && streams == Handed(old(streams), [frame]) && wire == old(wire) + Line(frame)
    {
      var last := |streams| - 1;
      LinesAppend(streams[last], frame);
      streams := streams[last := streams[last] + [frame]];
      wire := wire + if frame != "" && frame[|frame| - 1] == '\n' then frame else frame + "\n";
    }

    /** ok: whether the write, if there is one, succeeds; reached: whether a failing one got to the socket. */
    method Send(frame: string, ok: bool, reached: bool)
      requires Valid()
      modifies this
      ensures Valid() && State() == Step(maxlen, old(State()), Op.Send(frame, ok, reached))
      ensures connected == old(connected)
      ensures connected && ok ==>
                queue == old(queue) && dropped == old(dropped) && wire == old(wire) + Line(frame)
      ensures !(connected && ok) ==> |queue| > 0 && queue[|queue| - 1] == frame
    {
      if !connected {
        Enqueue(frame);
        return;
      }
      if ok || reached {
        Write(frame);
      }
      if !ok {
        Enqueue(frame);
      }
    }

    /** successes: how many writes succeed before one fails. */
    method FlushQueue(successes: nat, reached: bool)
      requires Valid() && connected
      modifies this`queue, this`streams, this`wire
      ensures Valid() && State() == Step(maxlen, old(State()), Flush(successes, reached))
    {
      ghost var q, was := queue, streams;
      var i := 0;
      HandedNothing(was, q);
      while queue != []
        invariant Valid() && connected && i <= successes && i <= |q|
        invariant queue == q[i..] && streams == Handed(was, q[..i])
        decreases |queue|
      {
        var frame := queue[0];
        OneMore(was, q, i);
        if i == successes {
          if reached { Write(frame); }
          return;
        }
        Write(frame);
        queue := queue[1..];
        i := i + 1;
      }
      assert q[..i] + [] == q[..i];
    }
  }

  lemma HandedNothing(streams: seq<seq<string>>, q: seq<string>)
    ensures Handed(streams, q[..0]) == streams && Handed(streams, []) == streams
  {
    assert streams != [] ==> streams[|streams| - 1] + [] == streams[|streams| - 1];
  }

  lemma OneMore(was: seq<seq<string>>, q: seq<string>, i: nat)
    requires i < |q|
    ensures q[i..][1..] == q[i + 1..] && q[i..][0] == q[i]
    ensures q[..i] + [q[i]] == q[..i + 1] && q[..i] + [] == q[..i]
    ensures Handed(Handed(was, q[..i]), [q[i]]) == Handed(was, q[..i + 1])
  {
    if was != [] {
      Assoc(was[|was| - 1], q[..i], [q[i]]);
    }
  }

  lemma {:induction false} LinesAppend(frames: seq<string>, f: string)
    ensures Lines(frames + [f]) == Lines(frames) + Line(f)
  {
    if frames == [] {
      assert frames + [f] == [f];
    } else {
      assert (frames + [f])[1..] == frames[1..] + [f];
      LinesAppend(frames[1..], f);
    }
  }

  // ------------------------------------------------------------ reconnect backoff

  function Min(a: real, b: real): real {
    if a < b then a else b
  }

  function Doubled(base: real, n: nat): real {
    if n == 0 then base else 2.0 * Doubled(base, n - 1)
  }

  /** The delay before the next attempt: the base once, then doubled up to the ceiling. */
  function Delay(base: real, ceiling: real, n: nat): real {
    if n == 0 then base else Min(ceiling, Doubled(base, n))
  }

  /** Attempts since the backoff was last at its base, which a good connection restores. */
  function SinceReset(connected: seq<bool>, i: nat): nat
    requires i < |connected|
  {
    if connected[i] || i == 0 then 0 else SinceReset(connected, i - 1) + 1
  }

  /** Since the last connection, or since the start, there was none. */
  lemma {:induction false} SinceResetExact(connected: seq<bool>, i: nat)
    requires i < |connected|
    ensures var n := SinceReset(connected, i);
            && n <= i && (forall j | i - n < j <= i :: !connected[j]) && (connected[i - n] || n == i)
    decreases i
  {
    if i > 0 && !connected[i] {
      SinceResetExact(connected, i - 1);
    }
  }

  lemma FirstDelay(base: real, ceiling: real)
    ensures Delay(base, ceiling, 0) == base
  {
  }

  lemma DelayDoubles(base: real, ceiling: real, n: nat)
    requires ceiling >= 0.0
    ensures Min(ceiling, Delay(base, ceiling, n) * 2.0) == Delay(base, ceiling, n + 1)
  {
    var d := Doubled(base, n);
    assert Delay(base, ceiling, n + 1) == Min(ceiling, 2.0 * d);
    assert Delay(base, ceiling, n) == if n == 0 then d else Min(ceiling, d);
  }

  lemma DelayRecurs(base: real, ceiling: real, connected: seq<bool>, i: nat)
    requires ceiling >= 0.0 && 0 < i < |connected| && !connected[i]
    ensures Delay(base, ceiling, SinceReset(connected, i))
            == var before := Delay(base, ceiling, SinceReset(connected, i - 1));
               if 2.0 * before < ceiling then 2.0 * before else ceiling
  {
    DelayDoubles(base, ceiling, SinceReset(connected, i - 1));
    hide Delay;
  }

  lemma DelaysRecur(base: real, ceiling: real, connected: seq<bool>, delays: seq<real>)
    requires ceiling >= 0.0 && |delays| == |connected|
    requires forall i | 0 <= i < |delays| :: delays[i] == Delay(base, ceiling, SinceReset(connected, i))
    ensures forall i | 0 <= i < |delays| ::
              delays[i] == if i == 0 || connected[i] then base
                           else if 2.0 * delays[i - 1] < ceiling then 2.0 * delays[i - 1] else ceiling
  {
    FirstDelay(base, ceiling);
    hide Delay;
    forall i | 0 < i < |delays| && !connected[i]
      ensures delays[i] == if 2.0 * delays[i - 1] < ceiling then 2.0 * delays[i - 1] else ceiling
    {
      DelayRecurs(base, ceiling, connected, i);
    }
  }

  /** The supervisor's sleeps: connected[i] says whether the i-th attempt got a connection. */
  method Backoffs(base: real, ceiling: real, connected: seq<bool>) returns (delays: seq<real>)
    requires ceiling >= 0.0
    ensures |delays| == |connected|
    ensures forall i | 0 <= i < |delays| :: delays[i] == Delay(base, ceiling, SinceReset(connected, i))
    ensures forall i | 0 <= i < |delays| ::
              delays[i] == if i == 0 || connected[i] then base
                           else if 2.0 * delays[i - 1] < ceiling then 2.0 * delays[i - 1] else ceiling
  {
    delays := [];
    var backoff := base;
    for i := 0 to |connected|
      invariant |delays| == i
      invariant backoff == if i == 0 then base else Delay(base, ceiling, SinceReset(connected, i - 1) + 1)
      invariant forall k | 0 <= k < i :: delays[k] == Delay(base, ceiling, SinceReset(connected, k))
    {
      if connected[i] {
        backoff := base;
      }
      delays := delays + [backoff];
      DelayDoubles(base, ceiling, SinceReset(connected, i));
      backoff := Min(ceiling, backoff * 2.0);
    }
    DelaysRecur(base, ceiling, connected, delays);
  }

  /** Only the first delay after a reset can exceed the ceiling, and only when the base does. */
  lemma DelayWithinCeiling(base: real, ceiling: real, n: nat)
    ensures Delay(base, ceiling, n) <= ceiling <==> n > 0 || base <= ceiling
  {
  }
}
