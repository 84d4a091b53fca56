/** The receive pipeline of the exchange engine as a step function, and what holds over its runs. */
module Exchange {
  import opened Wrappers
  import opened Messages
  import opened Wire
  import opened Policy
  import opened PolicyUpdate
  import Distribution
  import opened Dedup
  import opened Metrics
  import opened Sequences
  import opened Sets

  /** Codec name reserved for out-of-band control frames. */
  const CONTROL_CODEC := "__ctl__"

  /** What a node is built from. The message codec and the control-message reader are abstract. */
  datatype Stack = Stack(
    nodeId: string,
    cfg: Distribution.Config,
    provider: Provider,
    securityName: string,
    codecName: string,
    encode: Message -> seq<byte>,
    decode: seq<byte> -> Result<Message, string>,
    readUpdate: seq<byte> -> Option<Update>,
    window: nat)

  /** The state the receive pipeline consults: local and coalition policy, receive capabilities, and
      every key remembered since the dedup index was last cleared. */
  datatype Node = Node(local: Matrix, coalition: Distribution.Receiver, receive: map<string, bool>,
                       history: seq<string>)

  function KeyOf(m: Message): string {
    Key(m.originator, m.messageId)
  }

  predicate Permits(st: Stack, n: Node, originator: string) {
    && n.local.AllowsPeer(originator)
    && n.coalition.matrix.AllowsPeer(originator)
    && PairAllows(n.coalition.pairs, st.nodeId, originator)
  }

  predicate CanReceive(n: Node, kind: string) {
    kind in n.receive ==> n.receive[kind]
  }

  datatype Outcome =
    | Rejected(reason: string, context: Option<Message>)
    | Duplicate(message: Message)
    | Control(payload: seq<byte>)
    | Accepted(message: Message)

  function Describe(e: WireError): string {
    match e
    case BadMagic => "bad magic"
    case BadVersion => "unsupported frame version"
    case NonAscii => "ordinal not in range"
    case NameTooLong => "bytes must be in range"
    case PayloadTooLong => "argument out of range"
    case Truncated => "index out of range"
    case BadTag => "HMAC verification failed"
  }

  /** The gates a decoded message meets, in order. */
  function Gate(st: Stack, n: Node, m: Message): Outcome {
    if !Permits(st, n, m.originator) then
      Rejected("policy" + ":" + (" sender " + m.originator + " not permitted"), Some(m))
    else if !CanReceive(n, m.kind) then
      Rejected("capability" + ":" + (" receive of " + m.kind + " disabled"), Some(m))
    else if KeyOf(m) in LastN(n.history, st.window) then Duplicate(m)
    else Accepted(m)
  }

  /** ExchangeEngine._on_frame up to what it does with the verdict. */
  function Judge(st: Stack, n: Node, raw: seq<byte>): Outcome {
    match FromBytes(raw)
    case Failure(e) => Rejected("framing" + ":" + (" " + Describe(e)), None)
    case Success(f) =>
      match st.provider.Verify(f.payload)
      case Failure(e) => Rejected("security" + ":" + (" " + Describe(e)), None)
      case Success(payload) =>
        if f.codecName == CONTROL_CODEC then Control(payload)
        else if f.codecName != st.codecName then Rejected("codec" + ":" + (" no codec for " + f.codecName), None)
        else match st.decode(payload)
          case Failure(text) => Rejected("codec" + ":" + (" " + text), None)
          case Success(m) => Gate(st, n, m)
  }

  datatype Event =
    | Arrives(raw: seq<byte>)
    | Transmitted(message: Message)  // _transmit has ended
    | EditLocal(matrix: Matrix)
    | SetCapability(kind: string, allowed: bool)
    | CommitCoalition(edit: Distribution.Edit)
    | ClearDedup

  function Remembering(st: Stack, n: Node, m: Message): Node {
    n.(history := Remembered(n.history, st.window, KeyOf(m)))
  }

  function ApplyControl(st: Stack, n: Node, payload: seq<byte>): Node {
    match st.readUpdate(payload)
    case None => n
    case Some(u) =>
      if st.nodeId == st.cfg.authority || !Parsed(u) then n
      else n.(coalition := Distribution.Receive(st.cfg, n.coalition, u))
  }

  function Step(st: Stack, n: Node, e: Event): Node {
    match e
    case Arrives(raw) => (
      match Judge(st, n, raw)
      case Accepted(m) => Remembering(st, n, m)
      case Control(payload) => ApplyControl(st, n, payload)
      case _ => n)
    case Transmitted(m) => Remembering(st, n, m)
    case EditLocal(matrix) => n.(local := matrix)
    case SetCapability(kind, allowed) => n.(receive := n.receive[kind := allowed])
    case CommitCoalition(edit) =>
      if st.nodeId != st.cfg.authority then n
      else
        var c := Distribution.Apply(edit, Coalition(n.coalition.matrix, n.coalition.pairs));
        n.(coalition := Distribution.Receiver(n.coalition.version + 1, c.matrix, c.pairs))
    case ClearDedup => n.(history := [])
  }

  ghost predicate Run(st: Stack, ns: seq<Node>, es: seq<Event>) {
    && |ns| == |es| + 1 && ns[0].history == []
    && forall i | 0 <= i < |es| :: ns[i + 1] == Step(st, ns[i], es[i])
  }

  // ------------------------------------------------------------ enforcement

  /** The i-th event makes _on_frame dispatch m. */
  predicate Dispatches(st: Stack, ns: seq<Node>, es: seq<Event>, i: nat, m: Message) {
    i < |es| && i < |ns| && es[i].Arrives? && Judge(st, ns[i], es[i].raw) == Accepted(m)
  }

  lemma StepMovesByVersion(st: Stack, n: Node, e: Event)
    ensures n.coalition.version <= Step(st, n, e).coalition.version
    ensures n.coalition.version == Step(st, n, e).coalition.version ==> n.coalition == Step(st, n, e).coalition
  {
    hide Judge, Remembered, KeyOf, Distribution.Apply;
    if e.Arrives? && Judge(st, n, e.raw).Control? {
      var u := st.readUpdate(Judge(st, n, e.raw).payload);
      assert u.Some? && Parsed(u.value) ==>
        Distribution.Receive(st.cfg, n.coalition, u.value) == n.coalition
        || Distribution.Receive(st.cfg, n.coalition, u.value).version > n.coalition.version;
    }
  }

  lemma {:induction false} CoalitionMovesByVersion(st: Stack, ns: seq<Node>, es: seq<Event>, i: nat, k: nat)
    requires Run(st, ns, es) && i <= k < |ns|
    ensures ns[i].coalition.version <= ns[k].coalition.version
    ensures ns[i].coalition.version == ns[k].coalition.version ==> ns[i].coalition == ns[k].coalition
    decreases k
  {
    hide Step;
    if i < k {
      CoalitionMovesByVersion(st, ns, es, i, k - 1);
      StepMovesByVersion(st, ns[k - 1], es[k - 1]);
      assert ns[k] == Step(st, ns[k - 1], es[k - 1]);
    }
  }

  /** Every dispatch _on_frame makes was permitted at that moment by the local, coalition and pair policies
      and by the receive capability, and its key was not in the dedup window. */
  lemma EveryDispatchPermitted(st: Stack, ns: seq<Node>, es: seq<Event>, k: nat, m: Message)
    requires Dispatches(st, ns, es, k, m)
    ensures Permits(st, ns[k], m.originator) && CanReceive(ns[k], m.kind)
    ensures KeyOf(m) !in LastN(ns[k].history, st.window)
  {
    AcceptedMeetsGates(st, ns[k], es[k].raw, m);
  }

  lemma AcceptedMeetsGates(st: Stack, n: Node, raw: seq<byte>, m: Message)
    requires Judge(st, n, raw) == Accepted(m)
    ensures Permits(st, n, m.originator) && CanReceive(n, m.kind) && KeyOf(m) !in LastN(n.history, st.window)
  {
    hide FromBytes, Describe, Permits, CanReceive, LastN, KeyOf;
  }

  /** Once the coalition policy a node holds refuses a peer, nothing from that peer is dispatched
      through _on_frame before a newer policy version is in force, one that permits it. */
  lemma BlockedPeerIsSilenced(st: Stack, ns: seq<Node>, es: seq<Event>, i: nat, k: nat, m: Message)
    requires Run(st, ns, es) && i <= k && Dispatches(st, ns, es, k, m)
    requires !ns[i].coalition.matrix.AllowsPeer(m.originator)
             || !PairAllows(ns[i].coalition.pairs, st.nodeId, m.originator)
    ensures ns[k].coalition.version > ns[i].coalition.version
    ensures Permits(st, ns[k], m.originator) && CanReceive(ns[k], m.kind)
    ensures KeyOf(m) !in LastN(ns[k].history, st.window)
  {
    EveryDispatchPermitted(st, ns, es, k, m);
    hide Dispatches, KeyOf, LastN, Run;
    CoalitionMovesByVersion(st, ns, es, i, k);
  }

  /** The local matrix is edited at event i and not again before event k. */
  predicate LocalStands(es: seq<Event>, i: nat, k: nat, matrix: Matrix) {
    i < |es| && es[i] == EditLocal(matrix) && forall j | i < j < k && j < |es| :: !es[j].EditLocal?
  }

  /** A kind of message is switched at event i and not again before event k. */
  predicate CapabilityStands(es: seq<Event>, i: nat, k: nat, kind: string, allowed: bool) {
    && i < |es| && es[i] == SetCapability(kind, allowed)
    && forall j | i < j < k && j < |es| && es[j].SetCapability? :: es[j].kind != kind
  }

  lemma StepKeepsSettings(st: Stack, n: Node, e: Event)
    ensures Step(st, n, e).local == if e.EditLocal? then e.matrix else n.local
    ensures forall kind | !(e.SetCapability? && e.kind == kind) ::
              CanReceive(Step(st, n, e), kind) == CanReceive(n, kind)
    ensures e.SetCapability? ==> CanReceive(Step(st, n, e), e.kind) == e.allowed
  {
    hide Judge, Remembered, KeyOf, LastN;
  }

  lemma {:induction false} SettingsStand(st: Stack, ns: seq<Node>, es: seq<Event>, i: nat, k: nat)
    requires Run(st, ns, es) && i < k < |ns|
    ensures forall matrix | LocalStands(es, i, k, matrix) :: ns[k].local == matrix
    ensures forall kind, allowed | CapabilityStands(es, i, k, kind, allowed) :: CanReceive(ns[k], kind) == allowed
    decreases k
  {
    hide Step, CanReceive;
    StepKeepsSettings(st, ns[k - 1], es[k - 1]);
    assert ns[k] == Step(st, ns[k - 1], es[k - 1]);
    if i < k - 1 {
      SettingsStand(st, ns, es, i, k - 1);
      assert forall matrix | LocalStands(es, i, k, matrix) :: LocalStands(es, i, k - 1, matrix);
      assert forall kind, allowed | CapabilityStands(es, i, k, kind, allowed) ::
               CapabilityStands(es, i, k - 1, kind, allowed);
    }
  }

  /** What the node itself refuses stays out: once its local matrix refuses a peer, or a kind of message is
      switched off, nothing from that peer and nothing of that kind is dispatched before the next such edit. */
  lemma OwnRefusalsTakeHold(st: Stack, ns: seq<Node>, es: seq<Event>, i: nat, k: nat, m: Message)
    requires Run(st, ns, es) && i < k < |ns|
    requires (es[i].EditLocal? && LocalStands(es, i, k, es[i].matrix) && !es[i].matrix.AllowsPeer(m.originator))
             || CapabilityStands(es, i, k, m.kind, false)
    ensures !Dispatches(st, ns, es, k, m)
  {
    SettingsStand(st, ns, es, i, k);
    if Dispatches(st, ns, es, k, m) {
      EveryDispatchPermitted(st, ns, es, k, m);
    }
  }

  /** The authority blocks p at event i and neither allows nor resets it before event k. */
  predicate OwnBlock(es: seq<Event>, i: nat, k: nat, p: string) {
    && i < |es| && es[i] == CommitCoalition(Distribution.Block(p))
    && forall j | i < j < k && j < |es| ::
         es[j] != CommitCoalition(Distribution.Allow(p)) && es[j] != CommitCoalition(Distribution.Reset(p))
  }

  lemma {:induction false} OwnBlockStands(st: Stack, ns: seq<Node>, es: seq<Event>, i: nat, k: nat, p: string)
    requires Run(st, ns, es) && i < k < |ns| && st.nodeId == st.cfg.authority && OwnBlock(es, i, k, p)
    ensures p in ns[k].coalition.matrix.overrides && !ns[k].coalition.matrix.AllowsPeer(p)
    decreases k
  {
    hide Step, Distribution.Apply;
    var n, e := ns[k - 1], es[k - 1];
    if i < k - 1 {
      OwnBlockStands(st, ns, es, i, k - 1, p);
    }
    AuthorityStep(st, n, e);
    assert ns[k] == Step(st, n, e);
    if e.CommitCoalition? {
      Distribution.EditMeans(e.edit, Coalition(n.coalition.matrix, n.coalition.pairs));
    }
  }

  /** At the authority itself a block is in force from its commit until the peer is allowed or reset. */
  lemma OwnBlockTakesHold(st: Stack, ns: seq<Node>, es: seq<Event>, i: nat, k: nat, m: Message)
    requires Run(st, ns, es) && i < k < |ns| && st.nodeId == st.cfg.authority && OwnBlock(es, i, k, m.originator)
    ensures !Dispatches(st, ns, es, k, m)
  {
    OwnBlockStands(st, ns, es, i, k, m.originator);
    if Dispatches(st, ns, es, k, m) {
      EveryDispatchPermitted(st, ns, es, k, m);
    }
  }

  lemma AuthorityStep(st: Stack, n: Node, e: Event)
    requires st.nodeId == st.cfg.authority
    ensures if e.CommitCoalition? then
              var c := Distribution.Apply(e.edit, Coalition(n.coalition.matrix, n.coalition.pairs));
              Step(st, n, e).coalition == Distribution.Receiver(n.coalition.version + 1, c.matrix, c.pairs)
            else Step(st, n, e).coalition == n.coalition
  {
    hide Judge, Remembered, Distribution.Apply;
  }

  // ------------------------------------------------------------ dedup over runs

  ghost predicate NoClear(es: seq<Event>, i: nat, k: nat) {
    forall j | i <= j < k && j < |es| :: !es[j].ClearDedup?
  }

  lemma NothingSpaced(w: nat)
    ensures Spaced([], w)
  {
  }

  lemma {:induction false} HistorySpaced(st: Stack, ns: seq<Node>, es: seq<Event>, i: nat)
    requires Run(st, ns, es) && i < |ns|
    ensures Spaced(ns[i].history, st.window)
    decreases i
  {
    hide Judge, KeyOf, Spaced, Remembered;
    NothingSpaced(st.window);
    if i > 0 {
      HistorySpaced(st, ns, es, i - 1);
      var n, e := ns[i - 1], es[i - 1];
      assert ns[i] == Step(st, n, e);
      if e.Transmitted? {
        RememberedSpaced(n.history, st.window, KeyOf(e.message));
      } else if e.Arrives? && Judge(st, n, e.raw).Accepted? {
        RememberedSpaced(n.history, st.window, KeyOf(Judge(st, n, e.raw).message));
      }
    }
  }

  lemma StepGrows(st: Stack, n: Node, e: Event)
    requires !e.ClearDedup?
    ensures n.history <= Step(st, n, e).history
  {
    hide Judge, KeyOf;
  }

  lemma {:induction false} HistoryGrows(st: Stack, ns: seq<Node>, es: seq<Event>, i: nat, k: nat)
    requires Run(st, ns, es) && i <= k < |ns| && NoClear(es, i, k)
    ensures ns[i].history <= ns[k].history
    decreases k
  {
    hide Step;
    if i < k {
      HistoryGrows(st, ns, es, i, k - 1);
      StepGrows(st, ns[k - 1], es[k - 1]);
    }
  }

  /** The i-th event puts key into the index. */
  ghost predicate Enters(ns: seq<Node>, i: nat, key: string) {
    i + 1 < |ns| && ns[i + 1].history == ns[i].history + [key]
  }

  lemma DispatchEnters(st: Stack, ns: seq<Node>, es: seq<Event>, i: nat, m: Message)
    requires Run(st, ns, es) && Dispatches(st, ns, es, i, m)
    ensures Enters(ns, i, KeyOf(m))
  {
    EveryDispatchPermitted(st, ns, es, i, m);
    hide Judge, LastN, KeyOf;
    assert ns[i + 1] == Step(st, ns[i], es[i]);
  }

  /** The other keys remembered after event i and before event k. */
  function OtherKeys(ns: seq<Node>, i: nat, k: nat, key: string): set<string>
    requires i + 1 < |ns| && k < |ns|
  {
    if |ns[i + 1].history| > |ns[k].history| then {}
    else Keys(ns[k].history[|ns[i + 1].history|..]) - {key}
  }

  /** A key comes back only after a full window of other keys. */
  lemma ReentryNeedsFullWindow(st: Stack, ns: seq<Node>, es: seq<Event>, i: nat, k: nat, key: string)
    requires Run(st, ns, es) && i < k && Enters(ns, i, key) && Enters(ns, k, key) && NoClear(es, i, k)
    ensures |OtherKeys(ns, i, k, key)| >= st.window
  {
    HistorySpaced(st, ns, es, k + 1);
    HistoryGrows(st, ns, es, i + 1, k);
    var h := ns[k + 1].history;
    var a, b := |ns[i].history|, |ns[k].history|;
    assert h[a] == ns[i + 1].history[a] == key && h[b] == key;
    RepeatsAreFarApart(h, st.window, a, b);
    assert h[a + 1..b] == ns[k].history[|ns[i + 1].history|..];
  }

  /** Repetition, duplication and reordering: while fewer than a window of other keys is remembered in
      between, a key is dispatched at most once. */
  lemma DispatchedAtMostOnce(st: Stack, ns: seq<Node>, es: seq<Event>, i: nat, k: nat, m: Message, m': Message)
    requires Run(st, ns, es) && Dispatches(st, ns, es, i, m) && Dispatches(st, ns, es, k, m')
    requires KeyOf(m) == KeyOf(m') && i <= k && NoClear(es, i, k)
    requires |OtherKeys(ns, i, k, KeyOf(m))| < st.window
    ensures i == k
  {
    DispatchEnters(st, ns, es, i, m);
    DispatchEnters(st, ns, es, k, m');
    if i < k {
      ReentryNeedsFullWindow(st, ns, es, i, k, KeyOf(m));
    }
  }

  /** The i-th event is a frame whose message has this key and passes policy and capability. */
  predicate Offered(st: Stack, ns: seq<Node>, es: seq<Event>, i: nat, key: string) {
    && i < |es| && i < |ns| && es[i].Arrives?
    && match Judge(st, ns[i], es[i].raw)
       case Accepted(m) => KeyOf(m) == key
       case Duplicate(m) => KeyOf(m) == key
       case _ => false
  }

  ghost predicate DispatchesKey(st: Stack, ns: seq<Node>, es: seq<Event>, i: nat, key: string) {
    Offered(st, ns, es, i, key) && Judge(st, ns[i], es[i].raw).Accepted?
  }

  /** This node transmits nothing under the key. */
  ghost predicate NotOurs(es: seq<Event>, key: string) {
    forall j | 0 <= j < |es| && es[j].Transmitted? :: KeyOf(es[j].message) != key
  }

  /** A step clears the history, leaves it alone or appends one key: this one only by a dispatch. */
  lemma NewKeyWasDispatched(st: Stack, ns: seq<Node>, es: seq<Event>, i: nat, key: string) returns (gained: seq<string>)
    requires Run(st, ns, es) && i + 1 < |ns| && NotOurs(es, key)
    ensures i < |es| && (es[i].ClearDedup? ==> ns[i + 1].history == [])
    ensures !es[i].ClearDedup? ==> ns[i + 1].history == ns[i].history + gained
    ensures key in gained ==> DispatchesKey(st, ns, es, i, key)
  {
    gained := StepGains(st, ns[i], es[i]);
    assert ns[i + 1] == Step(st, ns[i], es[i]);
    hide Step, KeyOf, Judge, LastN;
  }

  lemma StepGains(st: Stack, n: Node, e: Event) returns (gained: seq<string>)
    ensures e.ClearDedup? ==> Step(st, n, e).history == [] && gained == []
    ensures !e.ClearDedup? ==> Step(st, n, e).history == n.history + gained
    ensures match e
            case Arrives(raw) => gained == [] || (Judge(st, n, raw).Accepted? && gained == [KeyOf(Judge(st, n, raw).message)])
            case Transmitted(m) => gained == [] || gained == [KeyOf(m)]
            case _ => gained == []
  {
    hide Judge, KeyOf, LastN, ApplyControl;
    gained := [];
    if e.Transmitted? && Step(st, n, e).history != n.history {
      gained := [KeyOf(e.message)];
    } else if e.Arrives? && Judge(st, n, e.raw).Accepted? && Step(st, n, e).history != n.history {
      gained := [KeyOf(Judge(st, n, e.raw).message)];
    }
    assert n.history + [] == n.history;
    ControlKeepsHistory(st, n, if e.Arrives? && Judge(st, n, e.raw).Control? then Judge(st, n, e.raw).payload else []);
  }

  lemma ControlKeepsHistory(st: Stack, n: Node, payload: seq<byte>)
    ensures ApplyControl(st, n, payload).history == n.history
  {
  }

  /** A key got into the history by a dispatch in between. */
  lemma {:induction false} RememberedWasDispatched(st: Stack, ns: seq<Node>, es: seq<Event>, j: nat, k: nat, key: string)
    requires Run(st, ns, es) && j <= k < |ns| && key !in ns[j].history && key in ns[k].history && NotOurs(es, key)
    ensures exists i: nat :: j <= i < k && DispatchesKey(st, ns, es, i, key)
    decreases k
  {
    var gained := NewKeyWasDispatched(st, ns, es, k - 1, key);
    hide DispatchesKey, Run;
    if key in ns[k - 1].history {
      RememberedWasDispatched(st, ns, es, j, k - 1, key);
    }
  }

  lemma NoClearLess(es: seq<Event>, j: nat, k: nat)
    requires NoClear(es, j, k) && j < k
    ensures NoClear(es, j, k - 1) && (k <= |es| ==> !es[k - 1].ClearDedup?)
  {
  }

  /** key is among what h has gained over h0. */
  ghost predicate Gained(h0: seq<string>, h: seq<string>, key: string) {
    h0 <= h && key in h[|h0|..]
  }

  lemma GainedStep(h0: seq<string>, h: seq<string>, more: seq<string>, key: string)
    requires h0 <= h
    ensures Gained(h0, h + more, key) ==> Gained(h0, h, key) || key in more
    ensures !Gained(h, h, key)
  {
    assert (h + more)[|h0|..] == h[|h0|..] + more;
  }

  /** The same for a key among what the history has gained. */
  lemma {:induction false} GainedWasDispatched(st: Stack, ns: seq<Node>, es: seq<Event>, j: nat, k: nat, key: string)
    returns (i: nat)
    requires Run(st, ns, es) && j <= k < |ns| && NoClear(es, j, k) && NotOurs(es, key)
    requires Gained(ns[j].history, ns[k].history, key)
    ensures j <= i < k && DispatchesKey(st, ns, es, i, key)
    decreases k
  {
    hide Gained, DispatchesKey, NotOurs, Run, NoClear;
    GainedStep(ns[j].history, ns[j].history, [], key);
    NoClearLess(es, j, k);
    var gained := NewKeyWasDispatched(st, ns, es, k - 1, key);
    HistoryGrows(st, ns, es, j, k - 1);
    GainedStep(ns[j].history, ns[k - 1].history, gained, key);
    i := k - 1;
    if key !in gained {
      i := GainedWasDispatched(st, ns, es, j, k - 1, key);
    }
  }

  lemma WindowInHistory(h: seq<string>, w: nat, key: string)
    requires key in LastN(h, w)
    ensures key in h
  {
  }

  lemma {:induction false} KeysAtMost(s: seq<string>)
    ensures |Keys(s)| <= |s|
  {
    if s != [] {
      KeysAtMost(s[..|s| - 1]);
      assert s == s[..|s| - 1] + [s[|s| - 1]];
      assert Keys(s) == Keys(s[..|s| - 1]) + {s[|s| - 1]};
    }
  }

  /** No clear, and fewer than a window of other keys, between a dispatch and a later copy. */
  ghost predicate WithinWindow(st: Stack, ns: seq<Node>, es: seq<Event>, a: nat, b: nat, key: string)
    requires a < b < |ns|
  {
    NoClear(es, a, b) && |OtherKeys(ns, a, b, key)| < st.window
  }

  /** Where the last w of a spaced history still hold the key at position p and none came after it, fewer
      than w entries came after it. */
  lemma FewAfter(h: seq<string>, w: nat, p: nat, key: string)
    requires Spaced(h, w) && p < |h| && h[p] == key && key in LastN(h, w) && key !in h[p + 1..]
    ensures |Keys(h[p + 1..]) - {key}| < w
  {
    forall q | p < q < |h| ensures h[q] != key {
      assert h[p + 1..][q - p - 1] == h[q];
    }
    var x :| 0 <= x < |LastN(h, w)| && LastN(h, w)[x] == key;
    assert h[|h| - |LastN(h, w)| + x] == key;
    KeysAtMost(h[p + 1..]);
    SubsetSize(Keys(h[p + 1..]) - {key}, Keys(h[p + 1..]));
  }

  /** A copy that is a duplicate of the one dispatch so far is within its window. */
  lemma DuplicateWithinWindow(st: Stack, ns: seq<Node>, es: seq<Event>, a: nat, b: nat, key: string)
    requires Run(st, ns, es) && NotOurs(es, key) && a < b && DispatchesKey(st, ns, es, a, key)
    requires b < |ns| && key in LastN(ns[b].history, st.window)
    requires forall i: nat | a < i < b :: !DispatchesKey(st, ns, es, i, key)
    ensures WithinWindow(st, ns, es, a, b, key)
  {
    KeyEnters(st, ns, es, a, key);
    HistorySpaced(st, ns, es, b);
    WindowInHistory(ns[b].history, st.window, key);
    NoClearBetween(st, ns, es, a, b, key);
    HistoryGrows(st, ns, es, a + 1, b);
    NotGained(st, ns, es, a + 1, b, key);
    hide DispatchesKey, Run, NoClear, NotOurs;
    CloseInHistory(ns[a].history, ns[a + 1].history, ns[b].history, st.window, key);
    hide LastN, Spaced;
  }

  lemma NotGained(st: Stack, ns: seq<Node>, es: seq<Event>, j: nat, k: nat, key: string)
    requires Run(st, ns, es) && j <= k < |ns| && NoClear(es, j, k) && NotOurs(es, key)
    requires ns[j].history <= ns[k].history && forall i: nat | j <= i < k :: !DispatchesKey(st, ns, es, i, key)
    ensures key !in ns[k].history[|ns[j].history|..]
  {
    hide DispatchesKey, Run, NoClear, NotOurs;
    if key in ns[k].history[|ns[j].history|..] {
      var i := GainedWasDispatched(st, ns, es, j, k, key);
    }
  }

  lemma CloseInHistory(h0: seq<string>, h1: seq<string>, h: seq<string>, w: nat, key: string)
    requires h1 == h0 + [key] && h1 <= h && Spaced(h, w) && key in LastN(h, w) && key !in h[|h1|..]
    ensures |Keys(h[|h1|..]) - {key}| < w
  {
    hide LastN, Spaced;
    assert h[|h0|] == h1[|h0|] == key;
    FewAfter(h, w, |h0|, key);
  }

  lemma KeyEnters(st: Stack, ns: seq<Node>, es: seq<Event>, a: nat, key: string)
    requires Run(st, ns, es) && DispatchesKey(st, ns, es, a, key)
    ensures Enters(ns, a, key) && !es[a].ClearDedup?
  {
    DispatchEnters(st, ns, es, a, Judge(st, ns[a], es[a].raw).message);
  }

  lemma NoClearBetween(st: Stack, ns: seq<Node>, es: seq<Event>, a: nat, b: nat, key: string)
    requires Run(st, ns, es) && NotOurs(es, key) && a < b < |ns| && DispatchesKey(st, ns, es, a, key)
    requires key in ns[b].history
    requires forall i: nat | a < i < b :: !DispatchesKey(st, ns, es, i, key)
    ensures NoClear(es, a, b)
  {
    KeyEnters(st, ns, es, a, key);
    hide DispatchesKey, Run;
    forall j | a <= j < b && j < |es| ensures !es[j].ClearDedup? {
      var gained := NewKeyWasDispatched(st, ns, es, j, key);
      if key !in ns[j + 1].history {
        RememberedWasDispatched(st, ns, es, j + 1, b, key);
      }
    }
  }

  ghost predicate DispatchedOnce(st: Stack, ns: seq<Node>, es: seq<Event>, key: string) {
    exists d: nat :: DispatchesKey(st, ns, es, d, key)
      && forall d': nat | DispatchesKey(st, ns, es, d', key) :: d' == d
  }

  /** The i-th event is the first copy under the key that policy and capability let through. */
  ghost predicate FirstCopy(st: Stack, ns: seq<Node>, es: seq<Event>, i: nat, key: string) {
    Offered(st, ns, es, i, key) && forall j: nat | j < i :: !Offered(st, ns, es, j, key)
  }

  /** Every later copy let through is within the window of the i-th. */
  ghost predicate CopiesClose(st: Stack, ns: seq<Node>, es: seq<Event>, i: nat, key: string)
    requires |ns| == |es| + 1
  {
    forall b: nat | i < b && Offered(st, ns, es, b, key) :: WithinWindow(st, ns, es, i, b, key)
  }

  lemma DispatchedIsOffered(st: Stack, ns: seq<Node>, es: seq<Event>, i: nat, key: string)
    ensures DispatchesKey(st, ns, es, i, key) ==> Offered(st, ns, es, i, key)
    ensures Offered(st, ns, es, i, key) && !DispatchesKey(st, ns, es, i, key) ==>
              i < |ns| && key in LastN(ns[i].history, st.window)
  {
    hide LastN, KeyOf;
  }

  /** The first copy let through is dispatched. */
  lemma FirstCopyDispatched(st: Stack, ns: seq<Node>, es: seq<Event>, i: nat, key: string)
    requires Run(st, ns, es) && NotOurs(es, key) && FirstCopy(st, ns, es, i, key)
    ensures DispatchesKey(st, ns, es, i, key)
  {
    DispatchedIsOffered(st, ns, es, i, key);
    forall d: nat | d < i ensures !DispatchesKey(st, ns, es, d, key) {
      DispatchedIsOffered(st, ns, es, d, key);
    }
    hide DispatchesKey, Offered, Run, LastN;
    if !DispatchesKey(st, ns, es, i, key) {
      WindowInHistory(ns[i].history, st.window, key);
      RememberedWasDispatched(st, ns, es, 0, i, key);
    }
  }

  lemma OnceMeansClose(st: Stack, ns: seq<Node>, es: seq<Event>, i: nat, key: string)
    requires Run(st, ns, es) && NotOurs(es, key) && FirstCopy(st, ns, es, i, key) && DispatchedOnce(st, ns, es, key)
    ensures CopiesClose(st, ns, es, i, key)
  {
    FirstCopyDispatched(st, ns, es, i, key);
    hide DispatchesKey, Offered, Run, WithinWindow, FirstCopy;
    forall b: nat | i < b && Offered(st, ns, es, b, key) ensures WithinWindow(st, ns, es, i, b, key) {
      DispatchedIsOffered(st, ns, es, b, key);
      DuplicateWithinWindow(st, ns, es, i, b, key);
    }
  }

  lemma CloseMeansOnce(st: Stack, ns: seq<Node>, es: seq<Event>, i: nat, key: string)
    requires Run(st, ns, es) && NotOurs(es, key) && FirstCopy(st, ns, es, i, key) && CopiesClose(st, ns, es, i, key)
    ensures DispatchedOnce(st, ns, es, key)
  {
    FirstCopyDispatched(st, ns, es, i, key);
    forall d: nat | DispatchesKey(st, ns, es, d, key) ensures d == i {
      DispatchedIsOffered(st, ns, es, d, key);
      CloseDispatches(st, ns, es, i, d, key);
    }
  }

  lemma CloseDispatches(st: Stack, ns: seq<Node>, es: seq<Event>, a: nat, b: nat, key: string)
    requires Run(st, ns, es) && DispatchesKey(st, ns, es, a, key) && DispatchesKey(st, ns, es, b, key)
    ensures a < b ==> !WithinWindow(st, ns, es, a, b, key)
  {
    if a < b && WithinWindow(st, ns, es, a, b, key) {
      DispatchedAtMostOnce(st, ns, es, a, b, Judge(st, ns[a], es[a].raw).message,
                           Judge(st, ns[b], es[b].raw).message);
    }
  }

  /** Loss, duplication and reordering, in any run: a key this node did not transmit is dispatched exactly
      once if and only if some copy arrives when policy and capability permit it and every later such copy
      arrives within the window of the first. */
  lemma DispatchedExactlyOnceWhen(st: Stack, ns: seq<Node>, es: seq<Event>, key: string)
    requires Run(st, ns, es) && NotOurs(es, key)
    ensures DispatchedOnce(st, ns, es, key)
            <==> exists i: nat :: FirstCopy(st, ns, es, i, key) && CopiesClose(st, ns, es, i, key)
  {
    if DispatchedOnce(st, ns, es, key) {
      var d: nat :| DispatchesKey(st, ns, es, d, key);
      DispatchedIsOffered(st, ns, es, d, key);
      var i := FirstOf(st, ns, es, d, key);
      OnceMeansClose(st, ns, es, i, key);
    }
    if i: nat :| FirstCopy(st, ns, es, i, key) && CopiesClose(st, ns, es, i, key) {
      CloseMeansOnce(st, ns, es, i, key);
    }
  }

  lemma {:induction false} FirstOf(st: Stack, ns: seq<Node>, es: seq<Event>, k: nat, key: string) returns (i: nat)
    requires Offered(st, ns, es, k, key)
    ensures i <= k && FirstCopy(st, ns, es, i, key)
    decreases k
  {
    hide Offered;
    i := k;
    if j: nat :| j < k && Offered(st, ns, es, j, key) {
      i := FirstOf(st, ns, es, j, key);
    }
  }

  // ------------------------------------------------------------ end to end

  function FrameOf(st: Stack, m: Message): Frame {
    Frame(st.codecName, st.securityName, st.provider.Protect(st.encode(m)))
  }

  /** What _transmit puts on the bearer, once for each repetition. */
  function WireForm(st: Stack, m: Message): seq<byte>
    requires Encodable(FrameOf(st, m))
  {
    ToBytes(FrameOf(st, m)).value
  }

  /** The receiver shares the key and the codec, and the codec reads back what it writes. */
  ghost predicate Interoperates(sender: Stack, st: Stack, m: Message) {
    && Encodable(FrameOf(sender, m))
    && st.provider.Valid() && sender.provider == st.provider
    && sender.codecName == st.codecName != CONTROL_CODEC
    && st.decode(sender.encode(m)) == Success(m)
  }

  /** An honest copy never fails framing, security or decoding: it meets the gates as the message sent. */
  lemma HonestCopyMeetsGates(sender: Stack, st: Stack, n: Node, m: Message)
    requires Interoperates(sender, st, m)
    ensures Judge(st, n, WireForm(sender, m)) == Gate(st, n, m)
  {
    var raw := WireForm(sender, m);
    FrameRoundTrip(FrameOf(sender, m), []);
    assert raw + [] == raw;
    st.provider.VerifyExactly(FrameOf(sender, m).payload, sender.encode(m));
  }

  /** The copies let through under m's key all carry m. */
  ghost predicate CarryOnly(st: Stack, ns: seq<Node>, es: seq<Event>, m: Message)
    requires |ns| == |es| + 1
  {
    forall b: nat | Offered(st, ns, es, b, KeyOf(m)) :: Judge(st, ns[b], es[b].raw).message == m
  }

  /** However the channel loses, duplicates and reorders the copies: when a copy arrives while policy and
      capability permit it, the message's key is dispatched exactly once if and only if every copy let
      through after the first is within its window; and what is dispatched is the message, where no other
      one bears its key. */
  lemma MessageDispatchedExactlyOnce(sender: Stack, st: Stack, ns: seq<Node>, es: seq<Event>, k: nat, m: Message)
    returns (i: nat)
    requires Run(st, ns, es) && k < |es| && Interoperates(sender, st, m)
    requires es[k] == Arrives(WireForm(sender, m))
    requires Permits(st, ns[k], m.originator) && CanReceive(ns[k], m.kind)
    requires NotOurs(es, KeyOf(m))
    ensures i <= k && FirstCopy(st, ns, es, i, KeyOf(m))
    ensures DispatchedOnce(st, ns, es, KeyOf(m)) <==> CopiesClose(st, ns, es, i, KeyOf(m))
    ensures CarryOnly(st, ns, es, m) ==>
              forall d: nat :: DispatchesKey(st, ns, es, d, KeyOf(m)) <==> Dispatches(st, ns, es, d, m)
  {
    CopyIsOffered(sender, st, ns, es, k, m);
    i := FirstOf(st, ns, es, k, KeyOf(m));
    if DispatchedOnce(st, ns, es, KeyOf(m)) {
      OnceMeansClose(st, ns, es, i, KeyOf(m));
    }
    if CopiesClose(st, ns, es, i, KeyOf(m)) {
      CloseMeansOnce(st, ns, es, i, KeyOf(m));
    }
    if CarryOnly(st, ns, es, m) {
      forall d: nat ensures DispatchesKey(st, ns, es, d, KeyOf(m)) <==> Dispatches(st, ns, es, d, m) {
        KeyDispatchCarries(st, ns, es, d, m);
      }
    }
  }

  lemma CopyIsOffered(sender: Stack, st: Stack, ns: seq<Node>, es: seq<Event>, k: nat, m: Message)
    requires |ns| == |es| + 1 && k < |es| && Interoperates(sender, st, m) && es[k] == Arrives(WireForm(sender, m))
    requires Permits(st, ns[k], m.originator) && CanReceive(ns[k], m.kind)
    ensures Offered(st, ns, es, k, KeyOf(m))
  {
    hide Judge, WireForm, Interoperates, LastN, KeyOf, Permits, CanReceive, FrameOf;
    HonestCopyMeetsGates(sender, st, ns[k], m);
  }

  lemma KeyDispatchCarries(st: Stack, ns: seq<Node>, es: seq<Event>, d: nat, m: Message)
    requires |ns| == |es| + 1 && CarryOnly(st, ns, es, m)
    ensures DispatchesKey(st, ns, es, d, KeyOf(m)) <==> Dispatches(st, ns, es, d, m)
  {
    hide Judge, KeyOf;
  }

  /** What is dispatched carries the tag of its own payload, and is what the codec reads in it. */
  lemma AcceptedIsAuthentic(st: Stack, n: Node, raw: seq<byte>, m: Message)
    requires st.provider.Valid() && Judge(st, n, raw) == Accepted(m)
    ensures FromBytes(raw).Success? && FromBytes(raw).value.codecName == st.codecName
    ensures exists p :: FromBytes(raw).value.payload == st.provider.Protect(p) && st.decode(p) == Success(m)
  {
    var f := FromBytes(raw).value;
    var p := st.provider.Verify(f.payload).value;
    st.provider.VerifyExactly(f.payload, p);
  }

  /** After _transmit of a new id has ended, the node's own looped-back copies are not dispatched. */
  lemma OwnLoopbackIsDropped(st: Stack, ns: seq<Node>, es: seq<Event>, i: nat, k: nat, m: Message, m': Message)
    requires Run(st, ns, es) && i < k < |es| && es[i] == Transmitted(m)
    requires KeyOf(m) !in LastN(ns[i].history, st.window) && KeyOf(m') == KeyOf(m)
    requires NoClear(es, i, k) && |OtherKeys(ns, i, k, KeyOf(m))| < st.window
    ensures !Dispatches(st, ns, es, k, m')
  {
    assert ns[i + 1] == Step(st, ns[i], es[i]);
    assert Enters(ns, i, KeyOf(m));
    if Dispatches(st, ns, es, k, m') {
      DispatchEnters(st, ns, es, k, m');
      ReentryNeedsFullWindow(st, ns, es, i, k, KeyOf(m));
    }
  }

  /** On a bearer that can hand a node its own copy while its send is suspended: a copy of a new id, let
      through by policy and capability, is dispatched exactly when it arrives before _transmit has ended. */
  lemma LoopbackDispatchedExactlyWhenEarly(st: Stack, ns: seq<Node>, es: seq<Event>, i: nat, k: nat, m: Message)
    requires Run(st, ns, es) && i < |es| && k < |es|
    requires es[i] == Transmitted(m) && Interoperates(st, st, m) && es[k] == Arrives(WireForm(st, m))
    requires Permits(st, ns[k], m.originator) && CanReceive(ns[k], m.kind)
    requires KeyOf(m) !in LastN(ns[if k < i then k else i].history, st.window)
    requires i < k ==> WithinWindow(st, ns, es, i, k, KeyOf(m))
    requires st.window >= 1
    ensures Dispatches(st, ns, es, k, m) <==> k < i
    ensures k < i ==> Judge(st, ns[k + 1], es[k].raw) == Duplicate(m)
  {
    hide Judge, WireForm, Interoperates, LastN, Step, KeyOf, Permits, CanReceive;
    if i < k {
      OwnLoopbackIsDropped(st, ns, es, i, k, m, m);
    } else {
      EarlyCopyThenDuplicate(st, ns[k], m);
    }
  }

  lemma EarlyCopyThenDuplicate(st: Stack, n: Node, m: Message)
    requires Interoperates(st, st, m) && Permits(st, n, m.originator) && CanReceive(n, m.kind)
    requires KeyOf(m) !in LastN(n.history, st.window) && st.window >= 1
    ensures Judge(st, n, WireForm(st, m)) == Accepted(m)
    ensures Judge(st, Step(st, n, Arrives(WireForm(st, m))), WireForm(st, m)) == Duplicate(m)
  {
    HonestCopyMeetsGates(st, st, n, m);
    var n' := Step(st, n, Arrives(WireForm(st, m)));
    HonestCopyMeetsGates(st, st, n', m);
    InWindow(n'.history, st.window, |n.history|);
  }

  // ------------------------------------------------------------ accounting

  /** What one inbound frame reports to the metrics sink. */
  function Reports(o: Outcome): seq<Record> {
    match o
    case Rejected(reason, context) => [Dropped(reason, context)]
    case Duplicate(m) => [Dropped("duplicate", Some(m))]
    case Control(_) => []
    case Accepted(m) => [Seen(m.originator), Received(m)]
  }

  function AllReports(os: seq<Outcome>): seq<Record> {
    if os == [] then [] else AllReports(Front(os)) + Reports(Last(os))
  }

  function NonControl(os: seq<Outcome>): nat {
    if os == [] then 0 else NonControl(Front(os)) + if Last(os).Control? then 0 else 1
  }

  function AcceptedFrom(os: seq<Outcome>, peer: string): nat {
    if os == [] then 0
    else AcceptedFrom(Front(os), peer)
         + if Last(os).Accepted? && Last(os).message.originator == peer then 1 else 0
  }

  function AcceptedCount(os: seq<Outcome>): nat {
    if os == [] then 0 else AcceptedCount(Front(os)) + if Last(os).Accepted? then 1 else 0
  }

  /** The counter an outcome lands in; "" for those that are not drops. */
  function Counter(o: Outcome): string {
    match o
    case Rejected(reason, _) => Label(reason)
    case Duplicate(_) => "duplicate"
    case _ => ""
  }

  predicate IsCounter(l: string) {
    l == "decode" || l == "policy" || l == "capability" || l == "duplicate"
  }

  predicate FourCounters(os: seq<Outcome>) {
    forall i | 0 <= i < |os| && (os[i].Rejected? || os[i].Duplicate?) :: IsCounter(Counter(os[i]))
  }

  // ------------------------------------------------------------ the verdict on a frame

  lemma LabelOf(gate: string, detail: string)
    requires gate in {"framing", "security", "codec", "policy", "capability"}
    ensures Label(gate + ":" + detail) == if gate == "policy" || gate == "capability" then gate else "decode"
  {
    assert ':' !in gate;
    FirstPartOf(gate, detail);
  }

  /** The local, the coalition and the pair policy all let node hear originator. */
  predicate AllThreeAllow(local: Matrix, coalition: Matrix, pairs: Pairs, node: string, originator: string) {
    && (if originator in local.overrides then local.overrides[originator] else local.defaultAllow)
    && (if originator in coalition.overrides then coalition.overrides[originator] else coalition.defaultAllow)
    && !(node in pairs && originator in pairs[node])
  }

  /** What the engine makes of a frame that carries p under the receiver's key: a control frame is handed to
      the control handlers; of the others those in another codec or undecodable count as decode failures; and a
      decoded message is counted under the first thing that stops it, or accepted. */
  lemma FrameVerdict(st: Stack, n: Node, raw: seq<byte>, codec: string, sec: string, p: seq<byte>)
    requires st.provider.Valid() && FromBytes(raw) == Success(Frame(codec, sec, st.provider.Protect(p)))
    ensures var o := Judge(st, n, raw);
            if codec == "__ctl__" then o == Control(p)
            else if codec != st.codecName || st.decode(p).Failure? then
              o.Rejected? && o.context == None && Label(o.reason) == "decode"
            else
              var m := st.decode(p).value;
              if !AllThreeAllow(n.local, n.coalition.matrix, n.coalition.pairs, st.nodeId, m.originator) then
                o.Rejected? && o.context == Some(m) && Label(o.reason) == "policy"
              else if m.kind in n.receive && !n.receive[m.kind] then
                o.Rejected? && o.context == Some(m) && Label(o.reason) == "capability"
              else if m.originator + ":" + m.messageId in LastN(n.history, st.window) then o == Duplicate(m)
              else o == Accepted(m)
  {
    hide FromBytes, Label, Provider.Verify, Provider.Protect, LastN;
    st.provider.VerifyExactly(st.provider.Protect(p), p);
    LabelOf("codec", " no codec for " + codec);
    if st.decode(p).Failure? {
      LabelOf("codec", " " + st.decode(p).error);
    } else {
      var m := st.decode(p).value;
      LabelOf("policy", " sender " + m.originator + " not permitted");
      LabelOf("capability", " receive of " + m.kind + " disabled");
    }
  }

  /** Everything that is not a frame carrying the protected form of some payload is a decode failure. */
  lemma UnprotectedIsRejected(st: Stack, n: Node, raw: seq<byte>)
    requires st.provider.Valid()
    requires FromBytes(raw).Success? ==> forall p :: FromBytes(raw).value.payload != st.provider.Protect(p)
    ensures var o := Judge(st, n, raw);
            o.Rejected? && o.context == None && Label(o.reason) == "decode"
  {
    hide FromBytes, Label, Provider.Verify, Provider.Protect;
    if FromBytes(raw).Failure? {
      LabelOf("framing", " " + Describe(FromBytes(raw).error));
    } else {
      var wire := FromBytes(raw).value.payload;
      if st.provider.Verify(wire).Success? {
        st.provider.VerifyExactly(wire, st.provider.Verify(wire).value);
      } else {
        LabelOf("security", " " + Describe(st.provider.Verify(wire).error));
      }
    }
  }

  function ControlFrame(st: Stack, sec: string, p: seq<byte>): Frame {
    Frame("__ctl__", sec, st.provider.Protect(p))
  }

  /** A control frame is never dropped, counted, dispatched or remembered, in any state of the node; a policy
      update in it is what the receiver of the distribution protocol takes. */
  lemma ControlFrameIsApplied(st: Stack, n: Node, sec: string, p: seq<byte>)
    requires st.provider.Valid() && Encodable(ControlFrame(st, sec, p))
    ensures var raw := ToBytes(ControlFrame(st, sec, p)).value;
            var n' := Step(st, n, Arrives(raw));
            && Judge(st, n, raw) == Control(p) && Reports(Judge(st, n, raw)) == []
            && n'.local == n.local && n'.receive == n.receive && n'.history == n.history
            && n'.coalition ==
                 if st.nodeId != st.cfg.authority && st.readUpdate(p).Some? && Parsed(st.readUpdate(p).value)
                 then Distribution.Receive(st.cfg, n.coalition, st.readUpdate(p).value) else n.coalition
  {
    var raw := ToBytes(ControlFrame(st, sec, p)).value;
    FrameRoundTrip(ControlFrame(st, sec, p), []);
    assert raw + [] == raw;
    FrameVerdict(st, n, raw, "__ctl__", sec, p);
    hide Judge, Distribution.Receive, ToBytes;
  }

  /** Every reason the pipeline gives starts with the name of the gate and a colon. */
  lemma ReasonNamesGate(st: Stack, n: Node, raw: seq<byte>) returns (gate: string, detail: string)
    requires Judge(st, n, raw).Rejected?
    ensures Judge(st, n, raw).reason == gate + ":" + detail
    ensures gate in {"framing", "security", "codec", "policy", "capability"}
  {
    var reason := Judge(st, n, raw).reason;
    if FromBytes(raw).Failure? {
      return "framing", " " + Describe(FromBytes(raw).error);
    }
    var f := FromBytes(raw).value;
    if st.provider.Verify(f.payload).Failure? {
      return "security", " " + Describe(st.provider.Verify(f.payload).error);
    }
    var payload := st.provider.Verify(f.payload).value;
    if f.codecName != st.codecName {
      return "codec", " no codec for " + f.codecName;
    }
    if st.decode(payload).Failure? {
      return "codec", " " + st.decode(payload).error;
    }
    var m := st.decode(payload).value;
    if !Permits(st, n, m.originator) {
      return "policy", " sender " + m.originator + " not permitted";
    }
    return "capability", " receive of " + m.kind + " disabled";
  }

  lemma JudgeCounter(st: Stack, n: Node, raw: seq<byte>)
    ensures Judge(st, n, raw).Rejected? || Judge(st, n, raw).Duplicate? ==> IsCounter(Counter(Judge(st, n, raw)))
  {
    if Judge(st, n, raw).Rejected? {
      var gate, detail := ReasonNamesGate(st, n, raw);
      LabelOf(gate, detail);
    }
  }

  lemma {:induction false} PeerCountAppend(a: seq<Record>, b: seq<Record>, peer: string)
    ensures PeerCount(a + b, peer) == PeerCount(a, peer) + PeerCount(b, peer)
  {
    if b == [] {
      assert a + b == a;
    } else {
      assert Front(a + b) == a + Front(b);
      PeerCountAppend(a, Front(b), peer);
    }
  }

  lemma DuplicateLabel()
    ensures Label("duplicate") == "duplicate"
  {
    assert ':' !in "duplicate";
    FirstPartOf("duplicate", "");
  }

  lemma OneReport(o: Outcome, l: string, peer: string)
    ensures DropCount(Reports(o), l) == if (o.Rejected? || o.Duplicate?) && Counter(o) == l then 1 else 0
    ensures PeerCount(Reports(o), peer) == if o.Accepted? && o.message.originator == peer then 1 else 0
  {
    DuplicateLabel();
    if o.Accepted? {
      var seen, received := [Seen(o.message.originator)], [Received(o.message)];
      assert Reports(o) == seen + received;
      DropCountAppend(seen, received, l);
      PeerCountAppend(seen, received, peer);
    }
  }

  /** The frames a counter got. */
  function CountedUnder(os: seq<Outcome>, l: string): nat {
    if os == [] then 0
    else CountedUnder(Front(os), l)
         + if (Last(os).Rejected? || Last(os).Duplicate?) && Counter(Last(os)) == l then 1 else 0
  }

  lemma {:induction false} ReportsAgree(os: seq<Outcome>, l: string, peer: string)
    ensures DropCount(AllReports(os), l) == CountedUnder(os, l)
    ensures PeerCount(AllReports(os), peer) == AcceptedFrom(os, peer)
  {
    if os != [] {
      ReportsAgree(Front(os), l, peer);
      OneReport(Last(os), l, peer);
      DropCountAppend(AllReports(Front(os)), Reports(Last(os)), l);
      PeerCountAppend(AllReports(Front(os)), Reports(Last(os)), peer);
    }
  }

  lemma {:induction false} CountersPartition(os: seq<Outcome>)
    requires FourCounters(os)
    ensures NonControl(os) == AcceptedCount(os) + CountedUnder(os, "decode") + CountedUnder(os, "policy")
                              + CountedUnder(os, "capability") + CountedUnder(os, "duplicate")
  {
    if os != [] {
      assert FourCounters(Front(os));
      CountersPartition(Front(os));
      assert os[|os| - 1] == Last(os);
    }
  }

  /** The verdicts on the frames among the first k events. */
  function Verdicts(st: Stack, ns: seq<Node>, es: seq<Event>, k: nat): seq<Outcome>
    requires k <= |es| && k <= |ns|
  {
    if k == 0 then []
    else Verdicts(st, ns, es, k - 1) + if es[k - 1].Arrives? then [Judge(st, ns[k - 1], es[k - 1].raw)] else []
  }

  lemma {:induction false} VerdictsUseFourCounters(st: Stack, ns: seq<Node>, es: seq<Event>, k: nat)
    requires k <= |es| && k <= |ns|
    ensures FourCounters(Verdicts(st, ns, es, k))
    decreases k
  {
    hide Judge, Counter, IsCounter;
    if k > 0 {
      VerdictsUseFourCounters(st, ns, es, k - 1);
      if es[k - 1].Arrives? {
        JudgeCounter(st, ns[k - 1], es[k - 1].raw);
      }
    }
  }

  /** In every run, each inbound frame that is not a control frame is counted exactly once: as accepted
      or under exactly one of four drop counters; and each peer's count is its accepted messages. */
  lemma EveryFrameCountedOnce(st: Stack, ns: seq<Node>, es: seq<Event>, peer: string)
    requires Run(st, ns, es)
    ensures var os := Verdicts(st, ns, es, |es|);
            var log := AllReports(os);
            && NonControl(os) == AcceptedCount(os) + DropCount(log, "decode") + DropCount(log, "policy")
                                 + DropCount(log, "capability") + DropCount(log, "duplicate")
            && PeerCount(log, peer) == AcceptedFrom(os, peer)
  {
    var os := Verdicts(st, ns, es, |es|);
    VerdictsUseFourCounters(st, ns, es, |es|);
    CountersPartition(os);
    ReportsAgree(os, "decode", peer);
    ReportsAgree(os, "policy", peer);
    ReportsAgree(os, "capability", peer);
    ReportsAgree(os, "duplicate", peer);
  }
}
