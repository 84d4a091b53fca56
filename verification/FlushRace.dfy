/** TakServerConnector's buffer while a flush write may be suspended: _flush_queue looks at the head, writes
    it, and takes the head off when the write returns; frames can be buffered in between. */
module FlushRace {
  import opened Wrappers
  import OutboundQueue

  /** A buffered frame and how many were buffered before it. */
  datatype Buffered = Buffered(index: nat, frame: string)

  /** next: how many frames have been buffered. flight: the frame a suspended flush write is sending.
      flushed: frames whose flush write succeeded; evicted: frames a full queue dropped. */
  datatype Buffer = Buffer(queue: seq<Buffered>, next: nat, flight: Option<Buffered>,
                           flushed: seq<Buffered>, evicted: seq<Buffered>)

  datatype Event = Enqueue(frame: string) | Begin | End(ok: bool)

  const EMPTY := Buffer([], 0, None, [], [])

  predicate Full(maxlen: nat, b: Buffer) {
    |b.queue| >= maxlen
  }

  predicate Enabled(b: Buffer, e: Event) {
    match e
    case Enqueue(_) => true
    case Begin => b.flight.None? && b.queue != []
    case End(_) => b.flight.Some?
  }

  function Step(maxlen: nat, b: Buffer, e: Event): Buffer
    requires maxlen >= 1 && Enabled(b, e)
  {
    match e
    case Enqueue(f) =>
      var full := Full(maxlen, b);
      b.(queue := (if full then b.queue[1..] else b.queue) + [Buffered(b.next, f)],
         next := b.next + 1,
         evicted := b.evicted + if full then [b.queue[0]] else [])
    case Begin => b.(flight := Some(b.queue[0]))
    case End(ok) =>
      if !ok then b.(flight := None)
      else b.(flight := None, flushed := b.flushed + [b.flight.value],
              queue := if b.queue == [] then [] else b.queue[1..])
  }

  ghost predicate Run(maxlen: nat, bs: seq<Buffer>, es: seq<Event>) {
    && maxlen >= 1 && |bs| == |es| + 1 && bs[0] == EMPTY
    && forall i | 0 <= i < |es| :: Enabled(bs[i], es[i]) && bs[i + 1] == Step(maxlen, bs[i], es[i])
  }

  // ------------------------------------------------------------ what becomes of a frame

  predicate Holds(s: seq<Buffered>, x: nat) {
    exists i :: 0 <= i < |s| && s[i].index == x
  }

  /** The x-th frame was flushed, was evicted, or is queued: one of the three. */
  predicate HasOneFate(b: Buffer, x: nat) {
    || (Holds(b.flushed, x) && !Holds(b.evicted, x) && !Holds(b.queue, x))
    || (!Holds(b.flushed, x) && Holds(b.evicted, x) && !Holds(b.queue, x))
    || (!Holds(b.flushed, x) && !Holds(b.evicted, x) && Holds(b.queue, x))
  }

  ghost predicate Conserved(b: Buffer) {
    forall x: nat | x < b.next :: HasOneFate(b, x)
  }

  /** Nothing is known of the x-th frame any more. */
  predicate Lost(b: Buffer, x: nat) {
    x < b.next && !Holds(b.flushed, x) && !Holds(b.evicted, x) && !Holds(b.queue, x)
  }

  /** Among the events before the j-th, since the last Begin, a frame was buffered into a full queue. */
  predicate FilledSinceBegin(maxlen: nat, bs: seq<Buffer>, es: seq<Event>, j: nat)
    requires j <= |es| && j <= |bs|
  {
    && j > 0 && !es[j - 1].Begin?
    && ((es[j - 1].Enqueue? && Full(maxlen, bs[j - 1])) || FilledSinceBegin(maxlen, bs, es, j - 1))
  }

  /** The j-th event ends a successful flush write during which a frame was buffered into a full queue. */
  predicate Overtaken(maxlen: nat, bs: seq<Buffer>, es: seq<Event>, j: nat)
    requires j < |es| && j <= |bs|
  {
    es[j] == End(true) && FilledSinceBegin(maxlen, bs, es, j)
  }

  // ------------------------------------------------------------ the invariant

  /** How many frames have left the queue. */
  function Gone(b: Buffer): int {
    b.next - |b.queue|
  }

  ghost predicate Below(s: seq<Buffered>, x: int) {
    forall i | 0 <= i < |s| :: s[i].index < x
  }

  /** The queue is the last frames buffered, in order; a frame in flight is its head or has been evicted. */
  ghost predicate Inv(maxlen: nat, b: Buffer) {
    && |b.queue| <= maxlen && |b.flushed| + |b.evicted| + |b.queue| == b.next
    && (forall i | 0 <= i < |b.queue| :: b.queue[i].index == Gone(b) + i)
    && Below(b.flushed, Gone(b)) && Below(b.evicted, Gone(b))
    && (b.flight.Some? ==> b.queue != [] && b.flight.value.index <= Gone(b))
  }

  lemma StepKeepsInv(maxlen: nat, b: Buffer, e: Event)
    requires maxlen >= 1 && Inv(maxlen, b) && Enabled(b, e)
    ensures Inv(maxlen, Step(maxlen, b, e))
  {
  }

  lemma {:induction false} RunKeepsInv(maxlen: nat, bs: seq<Buffer>, es: seq<Event>, k: nat)
    requires Run(maxlen, bs, es) && k <= |es|
    ensures Inv(maxlen, bs[k])
    ensures bs[k].flight.Some? ==>
              (FilledSinceBegin(maxlen, bs, es, k) <==> bs[k].flight.value.index < Gone(bs[k]))
    decreases k
  {
    if k > 0 {
      RunKeepsInv(maxlen, bs, es, k - 1);
      StepKeepsInv(maxlen, bs[k - 1], es[k - 1]);
    }
  }

  // ------------------------------------------------------------ one step

  lemma HoldsAppend(s: seq<Buffered>, y: Buffered, x: nat)
    ensures Holds(s + [y], x) <==> Holds(s, x) || y.index == x
    ensures Holds(s + [], x) <==> Holds(s, x)
  {
    assert (s + [y])[|s|] == y;
    assert forall i | 0 <= i < |s| :: (s + [y])[i] == s[i];
    assert s + [] == s;
  }

  lemma QueueHolds(maxlen: nat, b: Buffer, x: nat)
    requires Inv(maxlen, b)
    ensures Holds(b.queue, x) <==> Gone(b) <= x < b.next
    ensures x >= Gone(b) ==> !Holds(b.flushed, x) && !Holds(b.evicted, x)
  {
    if Gone(b) <= x < b.next {
      assert b.queue[x - Gone(b)].index == x;
    }
  }

  /** A step changes the fate of the head it removes and of the frame it buffers. */
  lemma StepFates(maxlen: nat, b: Buffer, e: Event, x: nat)
    requires maxlen >= 1 && Inv(maxlen, b) && Enabled(b, e)
    ensures var b' := Step(maxlen, b, e);
            && b.next <= b'.next && Gone(b) <= Gone(b')
            && (Holds(b'.queue, x) <==> Gone(b') <= x < b'.next)
            && (Holds(b'.evicted, x) <==> Holds(b.evicted, x) || (e.Enqueue? && Full(maxlen, b) && x == Gone(b)))
            && (Holds(b'.flushed, x) <==> Holds(b.flushed, x) || (e == End(true) && x == b.flight.value.index))
  {
    var b' := Step(maxlen, b, e);
    StepKeepsInv(maxlen, b, e);
    QueueHolds(maxlen, b', x);
    if e.Enqueue? {
      HoldsAppend(b.evicted, if Full(maxlen, b) then b.queue[0] else Buffered(0, ""), x);
    } else if e == End(true) {
      HoldsAppend(b.flushed, b.flight.value, x);
    }
  }

  lemma FateKept(maxlen: nat, b: Buffer, e: Event, x: nat)
    requires maxlen >= 1 && Inv(maxlen, b) && Enabled(b, e)
    requires e == End(true) ==> b.flight.value.index == Gone(b)
    ensures var b' := Step(maxlen, b, e);
            && (x < b.next ==> (HasOneFate(b', x) <==> HasOneFate(b, x)))
            && (b.next <= x < b'.next ==> HasOneFate(b', x))
  {
    StepFates(maxlen, b, e, x);
    QueueHolds(maxlen, b, x);
    hide Holds, Inv;
  }

  /** A write that succeeds after its frame was evicted takes off a head that was never written. */
  lemma HeadIsLost(maxlen: nat, b: Buffer)
    requires maxlen >= 1 && Inv(maxlen, b) && b.flight.Some? && b.flight.value.index < Gone(b)
    ensures Gone(b) >= 0 && Lost(Step(maxlen, b, End(true)), Gone(b))
  {
    StepFates(maxlen, b, End(true), Gone(b));
    QueueHolds(maxlen, b, Gone(b));
  }

  /** A step breaks conservation exactly when it ends a successful write whose frame has left the queue,
      and never restores it. */
  lemma StepConserves(maxlen: nat, b: Buffer, e: Event)
    requires maxlen >= 1 && Inv(maxlen, b) && Enabled(b, e)
    ensures Conserved(Step(maxlen, b, e)) <==>
              Conserved(b) && !(e == End(true) && b.flight.value.index < Gone(b))
  {
    if e == End(true) && b.flight.value.index < Gone(b) {
      HeadIsLost(maxlen, b);
      assert !HasOneFate(Step(maxlen, b, e), Gone(b));
    } else {
      forall x: nat
        ensures x < b.next ==> (HasOneFate(Step(maxlen, b, e), x) <==> HasOneFate(b, x))
        ensures b.next <= x < Step(maxlen, b, e).next ==> HasOneFate(Step(maxlen, b, e), x)
      {
        FateKept(maxlen, b, e, x);
      }
      NextGrows(maxlen, b, e);
      hide HasOneFate, Step, Inv;
    }
  }

  lemma NextGrows(maxlen: nat, b: Buffer, e: Event)
    requires maxlen >= 1 && Enabled(b, e)
    ensures b.next <= Step(maxlen, b, e).next
  {
  }

  // ------------------------------------------------------------ runs

  /** Every frame has exactly one fate if and only if no flush write that succeeded was overtaken: buffering
      into a full queue while it was suspended is what loses a frame. */
  lemma {:induction false} ConservedExactlyWhen(maxlen: nat, bs: seq<Buffer>, es: seq<Event>, k: nat)
    requires Run(maxlen, bs, es) && k <= |es|
    ensures Conserved(bs[k]) <==> forall j | 0 <= j < k :: !Overtaken(maxlen, bs, es, j)
    decreases k
  {
    hide Step, Conserved, FilledSinceBegin;
    if k == 0 {
      NothingBuffered();
    } else {
      ConservedExactlyWhen(maxlen, bs, es, k - 1);
      RunKeepsInv(maxlen, bs, es, k - 1);
      hide Inv;
      StepConserves(maxlen, bs[k - 1], es[k - 1]);
      assert bs[k] == Step(maxlen, bs[k - 1], es[k - 1]);
      assert Overtaken(maxlen, bs, es, k - 1) <==>
             es[k - 1] == End(true) && bs[k - 1].flight.value.index < Gone(bs[k - 1]);
    }
  }

  lemma NothingBuffered()
    ensures Conserved(EMPTY)
  {
  }

  /** In every run the queue is the newest frames in buffering order, within the bound, and the counters add
      up: buffered = flushed + dropped + queued, so that they do not show a loss. */
  lemma CountersAddUp(maxlen: nat, bs: seq<Buffer>, es: seq<Event>, k: nat)
    requires Run(maxlen, bs, es) && k <= |es|
    ensures bs[k].next == |bs[k].flushed| + |bs[k].evicted| + |bs[k].queue|
    ensures |bs[k].queue| <= maxlen
    ensures forall i | 0 <= i < |bs[k].queue| :: bs[k].queue[i].index == bs[k].next - |bs[k].queue| + i
  {
    RunKeepsInv(maxlen, bs, es, k);
  }

  /** The frame in flight is queued or was evicted. */
  ghost predicate FlightKnown(b: Buffer) {
    b.flight.Some? ==> Holds(b.evicted, b.flight.value.index) || Holds(b.queue, b.flight.value.index)
  }

  lemma StepKeepsFlight(maxlen: nat, b: Buffer, e: Event)
    requires maxlen >= 1 && Inv(maxlen, b) && Enabled(b, e) && FlightKnown(b)
    ensures FlightKnown(Step(maxlen, b, e))
  {
    if e.Begin? {
      assert b.queue[0].index == Gone(b);
      StepFates(maxlen, b, e, Gone(b));
    } else if b.flight.Some? {
      StepFates(maxlen, b, e, b.flight.value.index);
      QueueHolds(maxlen, b, b.flight.value.index);
    }
  }

  lemma {:induction false} RunKeepsFlight(maxlen: nat, bs: seq<Buffer>, es: seq<Event>, k: nat)
    requires Run(maxlen, bs, es) && k <= |es|
    ensures FlightKnown(bs[k])
    decreases k
  {
    hide Step, FlightKnown;
    if k == 0 {
      NoFlight();
    } else {
      RunKeepsFlight(maxlen, bs, es, k - 1);
      RunKeepsInv(maxlen, bs, es, k - 1);
      StepKeepsFlight(maxlen, bs[k - 1], es[k - 1]);
    }
  }

  lemma NoFlight()
    ensures FlightKnown(EMPTY)
  {
  }

  /** An overtaken write loses exactly the head it takes off, which is then neither flushed, counted as
      dropped nor queued in any later state. */
  lemma {:induction false} OvertakenLosesHead(maxlen: nat, bs: seq<Buffer>, es: seq<Event>, j: nat, k: nat)
    requires Run(maxlen, bs, es) && j < k <= |es| && Overtaken(maxlen, bs, es, j)
    ensures bs[j].queue != [] && Lost(bs[k], bs[j].queue[0].index)
    decreases k
  {
    RunKeepsInv(maxlen, bs, es, j);
    var x := bs[j].queue[0].index;
    if k == j + 1 {
      HeadIsLost(maxlen, bs[j]);
    } else {
      OvertakenLosesHead(maxlen, bs, es, j, k - 1);
      RunKeepsInv(maxlen, bs, es, k - 1);
      RunKeepsFlight(maxlen, bs, es, k - 1);
      hide Step, Inv, Lost, FlightKnown;
      StaysLost(maxlen, bs[k - 1], es[k - 1], x);
      assert bs[k] == Step(maxlen, bs[k - 1], es[k - 1]);
    }
  }

  lemma StaysLost(maxlen: nat, b: Buffer, e: Event, x: nat)
    requires maxlen >= 1 && Inv(maxlen, b) && Enabled(b, e) && FlightKnown(b) && Lost(b, x)
    ensures Lost(Step(maxlen, b, e), x)
  {
    StepFates(maxlen, b, e, x);
    QueueHolds(maxlen, b, x);
    hide Step, Inv, Holds;
  }

  /** The shortest loss: a queue of one frame, and a second frame buffered while the first is being flushed. */
  lemma FlushCanLoseAFrame(f: string, g: string)
    ensures var es := [Enqueue(f), Begin, Enqueue(g), End(true)];
            var a, b := Buffered(0, f), Buffered(1, g);
            var bs := [EMPTY, Buffer([a], 1, None, [], []), Buffer([a], 1, Some(a), [], []),
                       Buffer([b], 2, Some(a), [], [a]), Buffer([], 2, None, [a], [a])];
            Run(1, bs, es) && Overtaken(1, bs, es, 3) && Lost(bs[4], 1)
  {
  }

  // ------------------------------------------------------------ the coarse model

  function Frames(s: seq<Buffered>): seq<string> {
    seq(|s|, i requires 0 <= i < |s| => s[i].frame)
  }

  /** Buffering a frame and a flush write in which nothing is buffered do to the queue what the atomic steps
      of OutboundQueue do. */
  lemma UndisturbedIsAtomic(maxlen: nat, b: Buffer, q: OutboundQueue.Queue, f: string, ok: bool)
    requires maxlen >= 1 && |b.queue| <= maxlen && b.flight.None?
    requires q.frames == Frames(b.queue) && q.dropped == |b.evicted|
    ensures var b' := Step(maxlen, b, Enqueue(f));
            var q' := OutboundQueue.Step(maxlen, q, OutboundQueue.Send(f, false, false));
            q'.frames == Frames(b'.queue) && q'.dropped == |b'.evicted|
    ensures b.queue != [] ==>
              var b' := Step(maxlen, Step(maxlen, b, Begin), End(ok));
              var q' := OutboundQueue.Step(maxlen, q, OutboundQueue.Flush(if ok then 1 else 0, false));
              && q'.frames == Frames(b'.queue)
              && b'.evicted == b.evicted && b'.flushed == b.flushed + (if ok then [b.queue[0]] else [])
  {
  }
}
