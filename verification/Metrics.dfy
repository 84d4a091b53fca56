/** Drop counters, peer counts and the bounded audit log, and what they say about the history. */
module Metrics {
  import opened Wrappers
  import opened Messages
  import opened Sequences

  datatype Entry = Entry(inbound: bool, accepted: bool, reason: string, message: Option<Message>)

  function Max(a: nat, b: nat): (m: nat)
    ensures m >= a && m >= b && (m == a || m == b)
  {
    if a < b then b else a
  }

  // ------------------------------------------------------------ reasons

  /** reason.split(":", 1)[0] */
  function FirstPart(s: string): (r: string)
    ensures ':' !in r
  {
    if s == "" || s[0] == ':' then "" else [s[0]] + FirstPart(s[1..])
  }

  /** Framing, security and codec failures share one counter. */
  function Label(reason: string): string {
    var first := FirstPart(reason);
    if first in {"framing", "security", "codec"} then "decode" else first
  }

  lemma {:induction false} FirstPartOf(first: string, rest: string)
    requires ':' !in first
    ensures FirstPart(first + ":" + rest) == first && FirstPart(first) == first
  {
    if first != "" {
      assert (first + ":" + rest)[1..] == first[1..] + ":" + rest;
      FirstPartOf(first[1..], rest);
    }
  }

  // ------------------------------------------------------------ the audit log

  function Matches(e: Entry, inbound: Option<bool>, accepted: Option<bool>): bool {
    (inbound.Some? ==> e.inbound == inbound.value) && (accepted.Some? ==> e.accepted == accepted.value)
  }

  function Filtered(s: seq<Entry>, inbound: Option<bool>, accepted: Option<bool>): seq<Entry> {
    if s == [] then []
    else (if Matches(s[0], inbound, accepted) then [s[0]] else []) + Filtered(s[1..], inbound, accepted)
  }

  /** Python's s[-limit:]; a limit of 0 keeps everything. */
  function Tail<T>(s: seq<T>, limit: int): seq<T> {
    if limit > 0 then LastN(s, limit)
    else if -limit <= |s| then s[-limit..] else []
  }

  function Count(s: seq<Entry>, inbound: Option<bool>, accepted: Option<bool>): nat {
    |Filtered(s, inbound, accepted)|
  }

  lemma {:induction false} FilteredSnoc(s: seq<Entry>, e: Entry, inbound: Option<bool>, accepted: Option<bool>)
    ensures Filtered(s + [e], inbound, accepted)
            == Filtered(s, inbound, accepted) + (if Matches(e, inbound, accepted) then [e] else [])
  {
    if s != [] {
      assert (s + [e])[1..] == s[1..] + [e];
      FilteredSnoc(s[1..], e, inbound, accepted);
    }
  }

  lemma {:induction false} FilteredAppend(s: seq<Entry>, t: seq<Entry>, inbound: Option<bool>, accepted: Option<bool>)
    ensures Filtered(s + t, inbound, accepted) == Filtered(s, inbound, accepted) + Filtered(t, inbound, accepted)
  {
    if s == [] {
      assert s + t == t;
    } else {
      assert (s + t)[1..] == s[1..] + t;
      FilteredAppend(s[1..], t, inbound, accepted);
      Assoc(if Matches(s[0], inbound, accepted) then [s[0]] else [], Filtered(s[1..], inbound, accepted),
            Filtered(t, inbound, accepted));
    }
  }

  /** e has the wanted direction and disposition, where one is wanted. */
  predicate Wanted(e: Entry, inbound: Option<bool>, accepted: Option<bool>) {
    && (match inbound case None => true case Some(b) => e.inbound == b)
    && (match accepted case None => true case Some(b) => e.accepted == b)
  }

  /** kept are exactly the wanted entries of s, in their order; picked are their positions. */
  ghost predicate Picks(s: seq<Entry>, inbound: Option<bool>, accepted: Option<bool>, kept: seq<Entry>, picked: seq<nat>)
  {
    && |picked| == |kept|
    && (forall j | 0 <= j < |picked| :: picked[j] < |s| && kept[j] == s[picked[j]])
    && (forall j, k | 0 <= j < k < |picked| :: picked[j] < picked[k])
    && (forall i: nat | i < |s| :: i in picked <==> Wanted(s[i], inbound, accepted))
  }

  /** A filter keeps the wanted entries in order, and no others. */
  lemma {:induction false} FilteredPicks(s: seq<Entry>, inbound: Option<bool>, accepted: Option<bool>)
    returns (picked: seq<nat>)
    ensures Picks(s, inbound, accepted, Filtered(s, inbound, accepted), picked)
  {
    hide Filtered;
    if s == [] {
      picked := [];
      NothingFiltered(inbound, accepted);
    } else {
      var front, last := s[..|s| - 1], s[|s| - 1];
      assert s == front + [last];
      picked := FilteredPicks(front, inbound, accepted);
      FilteredSnoc(front, last, inbound, accepted);
      var kept := Filtered(front, inbound, accepted);
      hide Picks;
      PickOne(front, last, inbound, accepted, kept, picked);
      assert kept + [] == kept;
      if Matches(last, inbound, accepted) {
        picked := picked + [|front|];
      }
    }
  }

  lemma NothingFiltered(inbound: Option<bool>, accepted: Option<bool>)
    ensures Filtered([], inbound, accepted) == []
  {
  }

  lemma PickOne(s: seq<Entry>, e: Entry, inbound: Option<bool>, accepted: Option<bool>, kept: seq<Entry>,
                picked: seq<nat>)
    requires Picks(s, inbound, accepted, kept, picked)
    ensures if Wanted(e, inbound, accepted) then Picks(s + [e], inbound, accepted, kept + [e], picked + [|s|])
            else Picks(s + [e], inbound, accepted, kept, picked)
  {
    hide Wanted;
    var t, more := s + [e], picked + [|s|];
    assert forall j | 0 <= j < |picked| :: picked[j] in picked;
    forall i: nat | i < |t|
      ensures Wanted(e, inbound, accepted) ==> (i in more <==> Wanted(t[i], inbound, accepted))
      ensures !Wanted(e, inbound, accepted) ==> (i in picked <==> Wanted(t[i], inbound, accepted))
    {
      assert i in more <==> i in picked || i == |s|;
      if i < |s| { assert t[i] == s[i]; }
    }
  }

  lemma TailOfAppend<T>(a: seq<T>, b: seq<T>, limit: int)
    ensures Tail(b, limit) == LastN(a + b, |Tail(b, limit)|)
    ensures |Tail(b, limit)| == (if limit > 0 then (if limit < |b| then limit else |b|)
                                 else if -limit <= |b| then |b| + limit else 0)
  {
    var r := Tail(b, limit);
    assert r == b[|b| - |r|..] == (a + b)[|a| + |b| - |r|..];
  }

  /** A query answers with the newest matching entries of everything recorded: at most limit of them for
      a positive limit, and, contrary to what a limit says, all that are held for a limit of 0. */
  lemma RecentIsNewest(all: seq<Entry>, capacity: nat, limit: int, inbound: Option<bool>, accepted: Option<bool>)
    ensures var held := Filtered(LastN(all, capacity), inbound, accepted);
            var r := Tail(held, limit);
            && r == LastN(Filtered(all, inbound, accepted), |r|)
            && |r| == (if limit > 0 then (if limit < |held| then limit else |held|)
                       else if -limit <= |held| then |held| + limit else 0)
            && (|all| <= capacity ==> held == Filtered(all, inbound, accepted))
  {
    var held := LastN(all, capacity);
    var gone := all[..|all| - |held|];
    assert all == gone + held;
    FilteredAppend(gone, held, inbound, accepted);
    TailOfAppend(Filtered(gone, inbound, accepted), Filtered(held, inbound, accepted), limit);
    hide Filtered, Tail;
    if |all| <= capacity { assert held == all; }
  }

  class MessageLog {
    const capacity: nat
    var buf: seq<Entry>

    constructor (capacity: nat)
      ensures this.capacity == capacity && buf == []
    {
      this.capacity := capacity;
      buf := [];
    }

    method Record(e: Entry)
      modifies this
      ensures buf == LastN(old(buf) + [e], capacity)
    {
      buf := buf + [e];
      if |buf| > capacity {
        buf := buf[|buf| - capacity..];
      }
    }

    method Recent(limit: int, inbound: Option<bool>, accepted: Option<bool>) returns (r: seq<Entry>)
      ensures r == Tail(Filtered(buf, inbound, accepted), limit)
    {
      var items := [];
      for i := 0 to |buf|
        invariant items == Filtered(buf[..i], inbound, accepted)
      {
        FilteredSnoc(buf[..i], buf[i], inbound, accepted);
        assert buf[..i + 1] == buf[..i] + [buf[i]];
        if Matches(buf[i], inbound, accepted) {
          items := items + [buf[i]];
        }
      }
      assert buf[..|buf|] == buf;
      r := Tail(items, limit);
    }

    /** in, out, accepted, rejected */
    method Counts() returns (ins: nat, outs: nat, accepts: nat, rejects: nat)
      ensures ins == Count(buf, Some(true), None) && outs == Count(buf, Some(false), None)
      ensures accepts == Count(buf, None, Some(true)) && rejects == Count(buf, None, Some(false))
      ensures ins + outs == accepts + rejects == |buf|
    {
      ins, outs, accepts, rejects := 0, 0, 0, 0;
      for i := 0 to |buf|
        invariant ins == Count(buf[..i], Some(true), None) && outs == Count(buf[..i], Some(false), None)
        invariant accepts == Count(buf[..i], None, Some(true)) && rejects == Count(buf[..i], None, Some(false))
        invariant ins + outs == accepts + rejects == i
      {
        var e := buf[i];
        FilteredSnoc(buf[..i], e, Some(true), None);
        FilteredSnoc(buf[..i], e, Some(false), None);
        FilteredSnoc(buf[..i], e, None, Some(true));
        FilteredSnoc(buf[..i], e, None, Some(false));
        assert buf[..i + 1] == buf[..i] + [e];
        if e.inbound { ins := ins + 1; } else { outs := outs + 1; }
        if e.accepted { accepts := accepts + 1; } else { rejects := rejects + 1; }
      }
      assert buf[..|buf|] == buf;
    }

    method Clear() returns (n: nat)
      modifies this
      ensures buf == [] && n == |old(buf)|
    {
      n := |buf|;
      buf := [];
    }
  }

  // ------------------------------------------------------------ what the engine reports

  datatype Record =
    | Sent(message: Message)
    | Received(message: Message)
    | Dropped(reason: string, context: Option<Message>)
    | Seen(node: string)

  function EntryOf(r: Record): seq<Entry> {
    match r
    case Sent(m) => [Entry(false, true, "", Some(m))]
    case Received(m) => [Entry(true, true, "", Some(m))]
    case Dropped(reason, context) => [Entry(true, false, reason, context)]
    case Seen(_) => []
  }

  function Last<T>(s: seq<T>): T requires s != [] { s[|s| - 1] }
  function Front<T>(s: seq<T>): seq<T> requires s != [] { s[..|s| - 1] }

  function Entries(log: seq<Record>): seq<Entry> {
    if log == [] then [] else Entries(Front(log)) + EntryOf(Last(log))
  }

  /** The records of these kinds. */
  function Recorded(log: seq<Record>, sent: bool, received: bool, dropped: bool): nat {
    if log == [] then 0
    else
      var r := Last(log);
      Recorded(Front(log), sent, received, dropped)
      + if (sent && r.Sent?) || (received && r.Received?) || (dropped && r.Dropped?) then 1 else 0
  }

  /** What the audit log says of what was reported: sent messages went out and were accepted, received ones came
      in and were accepted, dropped ones came in and were rejected, and sightings are not logged. */
  lemma {:induction false} EntriesSay(log: seq<Record>)
    ensures Count(Entries(log), Some(true), Some(true)) == Recorded(log, false, true, false)
    ensures Count(Entries(log), Some(true), Some(false)) == Recorded(log, false, false, true)
    ensures Count(Entries(log), Some(false), Some(true)) == Recorded(log, true, false, false)
    ensures |Entries(log)| == Recorded(log, true, true, true)
  {
    if log != [] {
      EntriesSay(Front(log));
      var es, e := Entries(Front(log)), EntryOf(Last(log));
      FilteredAppend(es, e, Some(true), Some(true));
      FilteredAppend(es, e, Some(true), Some(false));
      FilteredAppend(es, e, Some(false), Some(true));
      OneEntry(Last(log), Some(true), Some(true));
      OneEntry(Last(log), Some(true), Some(false));
      OneEntry(Last(log), Some(false), Some(true));
      hide Filtered, Entries;
      assert Entries(log) == es + e by { EntriesLast(log); }
    }
  }

  lemma EntriesLast(log: seq<Record>)
    requires log != []
    ensures Entries(log) == Entries(Front(log)) + EntryOf(Last(log))
  {
  }

  lemma OneEntry(r: Record, inbound: Option<bool>, accepted: Option<bool>)
    ensures |EntryOf(r)| <= 1
    ensures EntryOf(r) != [] ==>
              Filtered(EntryOf(r), inbound, accepted)
              == if Matches(EntryOf(r)[0], inbound, accepted) then EntryOf(r) else []
    ensures EntryOf(r) == [] ==> Filtered(EntryOf(r), inbound, accepted) == []
  {
    if |EntryOf(r)| == 1 {
      assert EntryOf(r)[1..] == [];
    }
  }

  /** The highest classification seen: no received message has a higher one, and some has it. */
  lemma {:induction false} MaxClassExact(log: seq<Record>)
    ensures forall r | r in log && r.Received? :: r.message.classification <= MaxClass(log)
    ensures MaxClass(log) == 0 || exists r :: r in log && r.Received? && r.message.classification == MaxClass(log)
  {
    if log != [] {
      MaxClassExact(Front(log));
      assert log == Front(log) + [Last(log)];
      assert forall r :: r in log <==> r in Front(log) || r == Last(log);
    }
  }

  predicate IsDrop(r: Record, coarse: string) {
    r.Dropped? && Label(r.reason) == coarse
  }

  function DropCount(log: seq<Record>, coarse: string): nat {
    if log == [] then 0 else DropCount(Front(log), coarse) + if IsDrop(Last(log), coarse) then 1 else 0
  }

  predicate IsFrom(r: Record, peer: string) {
    r.Received? && r.message.originator == peer
  }

  function PeerCount(log: seq<Record>, peer: string): nat {
    if log == [] then 0 else PeerCount(Front(log), peer) + if IsFrom(Last(log), peer) then 1 else 0
  }

  function Peers(log: seq<Record>): set<string> {
    (set r | r in log && r.Seen? :: r.node) + (set r | r in log && r.Received? :: r.message.originator)
  }

  function MaxClass(log: seq<Record>): nat {
    if log == [] then 0
    else if Last(log).Received? then Max(MaxClass(Front(log)), Last(log).message.classification)
    else MaxClass(Front(log))
  }

  function RejectedWith(ring: seq<Entry>, coarse: string): nat {
    if ring == [] then 0
    else RejectedWith(Front(ring), coarse)
         + if !Last(ring).accepted && Label(Last(ring).reason) == coarse then 1 else 0
  }

  lemma {:induction false} RejectedAppend(a: seq<Entry>, b: seq<Entry>, coarse: string)
    ensures RejectedWith(a + b, coarse) == RejectedWith(a, coarse) + RejectedWith(b, coarse)
  {
    hide Label;
    if b == [] {
      assert a + b == a;
    } else {
      assert Front(a + b) == a + Front(b);
      RejectedAppend(a, Front(b), coarse);
    }
  }

  lemma OneRejected(r: Record, coarse: string)
    ensures RejectedWith(EntryOf(r), coarse) == if IsDrop(r, coarse) then 1 else 0
  {
    hide Label;
    if EntryOf(r) != [] {
      assert Front(EntryOf(r)) == [];
    }
  }

  lemma {:induction false} EntriesCountDrops(log: seq<Record>, coarse: string)
    ensures RejectedWith(Entries(log), coarse) == DropCount(log, coarse)
  {
    hide EntryOf, IsDrop;
    if log == [] {
      assert RejectedWith([], coarse) == 0;
    } else {
      EntriesCountDrops(Front(log), coarse);
      RejectedAppend(Entries(Front(log)), EntryOf(Last(log)), coarse);
      OneRejected(Last(log), coarse);
    }
  }

  lemma {:induction false} DropCountAppend(a: seq<Record>, b: seq<Record>, coarse: string)
    ensures DropCount(a + b, coarse) == DropCount(a, coarse) + DropCount(b, coarse)
  {
    if b == [] {
      assert a + b == a;
    } else {
      assert Front(a + b) == a + Front(b);
      DropCountAppend(a, Front(b), coarse);
    }
  }

  /** While nothing has been evicted since the last clear, the ring's rejected entries of each coarse
      reason are exactly the drops counted since that clear. */
  lemma RingAgreesWithDrops(log: seq<Record>, cleared: nat, capacity: nat, coarse: string)
    requires cleared <= |log| && |Entries(log[cleared..])| <= capacity
    ensures RejectedWith(LastN(Entries(log[cleared..]), capacity), coarse)
            == DropCount(log, coarse) - DropCount(log[..cleared], coarse)
  {
    EntriesCountDrops(log[cleared..], coarse);
    DropCountAppend(log[..cleared], log[cleared..], coarse);
    assert log == log[..cleared] + log[cleared..];
  }

  /** The counters agree with the history. */
  ghost predicate Tallied(log: seq<Record>, drops: map<string, nat>, counts: map<string, nat>, maxSeen: nat) {
    && (forall l :: l in drops <==> DropCount(log, l) > 0)
    && (forall l | l in drops :: drops[l] == DropCount(log, l))
    && counts.Keys == Peers(log)
    && (forall p | p in counts :: counts[p] == PeerCount(log, p))
    && maxSeen == MaxClass(log)
  }

  lemma SnocCounts(log: seq<Record>, r: Record)
    ensures forall l :: DropCount(log + [r], l) == DropCount(log, l) + if IsDrop(r, l) then 1 else 0
    ensures forall p :: PeerCount(log + [r], p) == PeerCount(log, p) + if IsFrom(r, p) then 1 else 0
    ensures MaxClass(log + [r])
            == if r.Received? then Max(MaxClass(log), r.message.classification) else MaxClass(log)
  {
    assert Front(log + [r]) == log;
  }

  lemma SnocPeers(log: seq<Record>, r: Record)
    ensures Peers(log + [r]) == Peers(log) + (if r.Seen? then {r.node} else {})
                                + (if r.Received? then {r.message.originator} else {})
  {
    assert forall q :: q in log + [r] <==> q in log || q == r;
  }

  lemma {:induction false} UnseenCountsZero(log: seq<Record>, p: string)
    requires p !in Peers(log)
    ensures PeerCount(log, p) == 0
  {
    if log != [] {
      assert log == Front(log) + [Last(log)];
      SnocPeers(Front(log), Last(log));
      UnseenCountsZero(Front(log), p);
    }
  }

  lemma LastNAppend<T>(s: seq<T>, t: seq<T>, n: nat)
    ensures LastN(LastN(s, n) + t, n) == LastN(s + t, n)
  {
    if |s| > n {
      assert LastN(s, n) + t == (s + t)[|s| - n..];
    }
  }

  lemma SnocRing(log: seq<Record>, r: Record, cleared: nat, capacity: nat)
    requires cleared <= |log|
    ensures LastN(Entries((log + [r])[cleared..]), capacity)
            == LastN(LastN(Entries(log[cleared..]), capacity) + EntryOf(r), capacity)
  {
    var recent := (log + [r])[cleared..];
    assert Front(recent) == log[cleared..] && Last(recent) == r;
    LastNAppend(Entries(log[cleared..]), EntryOf(r), capacity);
  }

  class GatewayMetrics {
    const audit: MessageLog
    var drops: map<string, nat>
    var counts: map<string, nat>
    var maxClassificationSeen: nat
    /** Everything reported, and how much of it had been when the audit log was last cleared. */
    ghost var log: seq<Record>
    ghost var cleared: nat

    /** The counters agree with the whole history, the ring with the history since the last clear. */
    ghost predicate Valid() reads this, audit {
      && Tallied(log, drops, counts, maxClassificationSeen)
      && cleared <= |log|
      && audit.buf == LastN(Entries(log[cleared..]), audit.capacity)
    }

    constructor (telemetryCapacity: nat)
      ensures Valid() && fresh(audit) && log == [] && cleared == 0
      ensures audit.capacity == Max(1000, telemetryCapacity)
    {
      audit := new MessageLog(Max(1000, telemetryCapacity));
      drops, counts, maxClassificationSeen := map[], map[], 0;
      log, cleared := [], 0;
    }

    method RecordSent(m: Message)
      requires Valid()
      modifies this, audit
      ensures Valid() && log == old(log) + [Sent(m)] && cleared == old(cleared)
      ensures audit.buf == LastN(old(audit.buf) + [Entry(false, true, "", Some(m))], audit.capacity)
    {
      audit.Record(Entry(false, true, "", Some(m)));
      Logged(Sent(m));
    }

    method RecordReceived(m: Message)
      requires Valid()
      modifies this, audit
      ensures Valid() && log == old(log) + [Received(m)] && cleared == old(cleared)
      ensures audit.buf == LastN(old(audit.buf) + [Entry(true, true, "", Some(m))], audit.capacity)
      ensures counts
              == old(counts)[m.originator := 1 + if m.originator in old(counts) then old(counts)[m.originator] else 0]
      ensures drops == old(drops)
    {
      hide Label, Entries, DropCount, Peers, LastN;
      if m.originator !in counts { UnseenCountsZero(log, m.originator); }
      var n := if m.originator in counts then counts[m.originator] else 0;
      counts := counts[m.originator := n + 1];
      maxClassificationSeen := Max(maxClassificationSeen, m.classification);
      audit.Record(Entry(true, true, "", Some(m)));
      Logged(Received(m));
    }

    method RecordDropped(reason: string, context: Option<Message>)
      requires Valid()
      modifies this, audit
      ensures Valid() && log == old(log) + [Dropped(reason, context)] && cleared == old(cleared)
      ensures audit.buf == LastN(old(audit.buf) + [Entry(true, false, reason, context)], audit.capacity)
      ensures drops
              == old(drops)[Label(reason) := 1 + if Label(reason) in old(drops) then old(drops)[Label(reason)] else 0]
      ensures counts == old(counts) && maxClassificationSeen == old(maxClassificationSeen)
    {
      hide Label, Entries, PeerCount, MaxClass, Peers, LastN;
      var coarse := Label(reason);
      drops := drops[coarse := (if coarse in drops then drops[coarse] else 0) + 1];
      audit.Record(Entry(true, false, reason, context));
      Logged(Dropped(reason, context));
    }

    method NodeSeen(node: string)
      requires Valid()
      modifies this
      ensures Valid() && log == old(log) + [Seen(node)] && cleared == old(cleared)
      ensures counts == if node in old(counts) then old(counts) else old(counts)[node := 0]
      ensures drops == old(drops) && audit.buf == old(audit.buf)
    {
      hide Label, Entries, DropCount, PeerCount, MaxClass, Peers;
      if node !in counts {
        UnseenCountsZero(log, node);
        counts := counts[node := 0];
      }
      assert audit.buf + [] == audit.buf;
      Logged(Seen(node));
    }

    method ClearAudit() returns (n: nat)
      requires Valid()
      modifies this, audit
      ensures Valid() && log == old(log) && cleared == |log| && audit.buf == []
    {
      n := audit.Clear();
      cleared := |log|;
    }

    ghost method Logged(r: Record)
      requires cleared <= |log|
      modifies this`log
      ensures log == old(log) + [r]
      ensures forall l :: DropCount(log, l) == DropCount(old(log), l) + if IsDrop(r, l) then 1 else 0
      ensures forall p :: PeerCount(log, p) == PeerCount(old(log), p) + if IsFrom(r, p) then 1 else 0
      ensures MaxClass(log) == if r.Received? then Max(MaxClass(old(log)), r.message.classification)
                               else MaxClass(old(log))
      ensures Peers(log) == Peers(old(log)) + (if r.Seen? then {r.node} else {})
                            + (if r.Received? then {r.message.originator} else {})
      ensures LastN(Entries(log[cleared..]), audit.capacity)
              == LastN(LastN(Entries(old(log)[cleared..]), audit.capacity) + EntryOf(r), audit.capacity)
    {
      SnocCounts(log, r);
      SnocPeers(log, r);
      SnocRing(log, r, cleared, audit.capacity);
      log := log + [r];
    }
  }
}
