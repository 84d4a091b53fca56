/** A run that ends in a stale pair block: the authority "a" blocks a pair and then allows it again; a
    receiver takes the block, and before it sees the second update a member replays that update with its
    pairs rewritten to null. */
module StaleBlock {
  import opened Wrappers
  import opened Json
  import opened Policy
  import opened Signing
  import opened PolicyUpdate
  import opened Distribution

  const DEPLOYED := Config("a", true, true)
  const OPEN := Matrix(true, map[])
  const BLOCKED: Pairs := map["b" := {"c"}]
  const ROWS := Obj([Field("b", Arr([Str("c")]))])

  function ByAuthority(version: int, pairs: Json): Update {
    var u := Update("a", version, Str("allow"), Obj([]), pairs, Junk(""));
    u.(sig := Over(Payload(u)))
  }

  function Replay(): Update {
    ByAuthority(3, Obj([])).(pairs := Null)
  }

  lemma SignatureHolds(version: int, pairs: Json)
    ensures ByAuthority(version, pairs).sig == Over(Payload(ByAuthority(version, pairs)))
  {
  }

  lemma ReplayHolds()
    ensures Replay().sig == Over(Payload(Replay())) && Payload(Replay()) == Payload(ByAuthority(3, Obj([])))
  {
    hide Dumps;
    assert OrEmpty(Null) == OrEmpty(Obj([]));
  }

  lemma RowsAnnounced(version: int)
    ensures Encodes(ByAuthority(version, ROWS), Coalition(OPEN, BLOCKED))
  {
    hide Payload;
    var fs := ROWS.fields;
    EntryAt(fs, 0);
    assert KeysOf(fs) == {"b"} by { assert fs[0] in fs; }
    assert NonEmpty(BLOCKED) == BLOCKED;
    assert Lists(fs[0].value, {"c"}) by { assert fs[0].value.elems[0] == Str("c"); }
    assert Entries([]) == map[];
  }

  lemma NoneAnnounced(version: int)
    ensures Encodes(ByAuthority(version, Obj([])), Coalition(OPEN, map[]))
  {
    hide Payload;
    assert Entries([]) == map[] && NonEmpty(map[]) == map[];
  }

  /** Receiving the authority's block installs it. */
  lemma BlockInstalled()
    ensures Parsed(ByAuthority(2, ROWS))
    ensures Receive(DEPLOYED, FRESH, ByAuthority(2, ROWS)) == Receiver(2, OPEN, BLOCKED)
  {
    hide Payload, Entries, ReadOverrides, ReadPairs, NonEmpty, Lists;
    SignatureHolds(2, ROWS);
    RowsAnnounced(2);
    EncodedCarries(ByAuthority(2, ROWS), Coalition(OPEN, BLOCKED));
    assert NonEmpty(BLOCKED) == BLOCKED by { BlockedNonEmpty(); }
  }

  lemma BlockedNonEmpty()
    ensures NonEmpty(BLOCKED) == BLOCKED
  {
  }

  lemma ReplayInstalled()
    ensures Parsed(Replay())
    ensures Receive(DEPLOYED, Receiver(2, OPEN, BLOCKED), Replay()) == Receiver(3, OPEN, BLOCKED)
  {
    hide Payload;
    ReplayHolds();
    assert ReadOverrides(Obj([])) == Some(map[]) by { assert Entries([]) == map[]; }
  }

  function Before(): World {
    World([Coalition(OPEN, map[])], map[], {}, {})
  }

  function AfterBlock(): World {
    var u := ByAuthority(2, ROWS);
    World([Coalition(OPEN, map[]), Coalition(OPEN, BLOCKED)], map[], {u}, {Payload(u)})
  }

  function AfterLift(): World {
    var u, v := ByAuthority(2, ROWS), ByAuthority(3, Obj([]));
    World([Coalition(OPEN, map[]), Coalition(OPEN, BLOCKED), Coalition(OPEN, map[])],
          map["r" := Receiver(2, OPEN, BLOCKED)], {u, v}, {Payload(u), Payload(v)})
  }

  lemma BlockStep()
    ensures Next(DEPLOYED, Before(), Commit(BlockPair("b", "c"), ByAuthority(2, ROWS)), AfterBlock())
  {
    var w, u := Before(), ByAuthority(2, ROWS);
    hide Payload, Encodes;
    RowsAnnounced(2);
    SignatureHolds(2, ROWS);
    var c := Apply(BlockPair("b", "c"), Current(w));
    assert c == Coalition(OPEN, BLOCKED) by { assert {} + {"c"} == {"c"}; }
    var edited := w.(history := w.history + [c]);
    assert Sent(DEPLOYED, edited, u) == AfterBlock();
    assert u.node == "a" && u.version == 2;
  }

  lemma LiftStep()
    ensures Next(DEPLOYED, AfterBlock().(receivers := AfterLift().receivers),
                 Commit(AllowPair("b", "c"), ByAuthority(3, Obj([]))), AfterLift())
  {
    var w, u := AfterBlock().(receivers := AfterLift().receivers), ByAuthority(3, Obj([]));
    hide Payload, Encodes;
    NoneAnnounced(3);
    SignatureHolds(3, Obj([]));
    var c := Apply(AllowPair("b", "c"), Current(w));
    assert c == Coalition(OPEN, map[]) by { assert BLOCKED - {"b"} == map[]; }
    var edited := w.(history := w.history + [c]);
    assert Sent(DEPLOYED, edited, u) == AfterLift();
  }

  lemma BlockDelivered(w: World)
    requires w == AfterBlock().(receivers := map["r" := FRESH])
    ensures Next(DEPLOYED, w, Deliver("r", ByAuthority(2, ROWS)), AfterBlock().(receivers := AfterLift().receivers))
  {
    BlockInstalled();
    hide Payload, Receive, ByAuthority, Parsed;
    assert map["r" := FRESH]["r" := Receiver(2, OPEN, BLOCKED)] == AfterLift().receivers;
  }

  lemma ReplayInjected()
    ensures Next(DEPLOYED, AfterLift(), Inject(Replay()), AfterLift().(wire := AfterLift().wire + {Replay()}))
  {
    ReplayInstalled();
    ReplayHolds();
    hide Payload, Receive, ByAuthority, Replay, Parsed;
  }

  lemma ReplayDelivered(w: World)
    requires w == AfterLift().(wire := AfterLift().wire + {Replay()})
    ensures Next(DEPLOYED, w, Deliver("r", Replay()), w.(receivers := map["r" := Receiver(3, OPEN, BLOCKED)]))
  {
    ReplayInstalled();
    hide Payload, Receive, ByAuthority, Replay, Parsed;
  }

  lemma SixSteps(ws: seq<World>, steps: seq<Step>)
    requires |ws| == 7 && |steps| == 6 && Init(ws[0])
    requires forall i | 0 <= i < 6 :: ws[i].history != []
    requires Next(DEPLOYED, ws[0], steps[0], ws[1]) && Next(DEPLOYED, ws[1], steps[1], ws[2])
    requires Next(DEPLOYED, ws[2], steps[2], ws[3]) && Next(DEPLOYED, ws[3], steps[3], ws[4])
    requires Next(DEPLOYED, ws[4], steps[4], ws[5]) && Next(DEPLOYED, ws[5], steps[5], ws[6])
    ensures Run(DEPLOYED, ws, steps)
  {
    hide Next;
  }

  lemma Joined()
    ensures Next(DEPLOYED, AfterBlock(), Join("r"), AfterBlock().(receivers := map["r" := FRESH]))
  {
    hide Payload, ByAuthority;
  }

  /** The receiver is at the authority's version, where nothing is blocked, and still blocks the pair. */
  lemma StaleBlockIsReachable() returns (ws: seq<World>, steps: seq<Step>)
    ensures Run(DEPLOYED, ws, steps) && |ws| == 7 && "r" in ws[6].receivers
    ensures var r := ws[6].receivers["r"];
            && r.version == 3 == |ws[6].history|
            && PairAllows(ws[6].history[2].pairs, "b", "c") && !PairAllows(r.pairs, "b", "c")
  {
    hide Next, Payload, ByAuthority, Replay, Run;
    var w2 := AfterBlock().(receivers := map["r" := FRESH]);
    var w3 := AfterBlock().(receivers := AfterLift().receivers);
    var w5 := AfterLift().(wire := AfterLift().wire + {Replay()});
    var w6 := w5.(receivers := map["r" := Receiver(3, OPEN, BLOCKED)]);
    ws := [Before(), AfterBlock(), w2, w3, AfterLift(), w5, w6];
    steps := [Commit(BlockPair("b", "c"), ByAuthority(2, ROWS)), Join("r"), Deliver("r", ByAuthority(2, ROWS)),
              Commit(AllowPair("b", "c"), ByAuthority(3, Obj([]))), Inject(Replay()), Deliver("r", Replay())];
    BlockStep();
    Joined();
    BlockDelivered(w2);
    LiftStep();
    ReplayInjected();
    ReplayDelivered(w5);
    SixSteps(ws, steps);
  }
}
