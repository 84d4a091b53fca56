/** ServerConnectionManager: reconciling the live connectors with the configured servers, and the relay
    through them. A connector's start does not raise, and calls of Reconcile do not overlap. */
module ServerManager {
  import opened Wrappers
  import opened Servers
  import opened Cot
  import opened Relay

  // ------------------------------------------------------------ certificates

  /** A path handed to the TLS library: one the user gave, or a temporary file. */
  datatype Path = Given(path: string) | Temp(file: nat)

  const PEM_START := "-----BEGIN"

  /** str.isspace on one character. */
  predicate IsSpace(c: char) {
    var n := c as int;
    9 <= n <= 13 || 28 <= n <= 32 || n == 133 || n == 160 || n == 5760 || 8192 <= n <= 8202
    || n == 8232 || n == 8233 || n == 8239 || n == 8287 || n == 12288
  }

  function LStrip(s: string): string {
    if s != "" && IsSpace(s[0]) then LStrip(s[1..]) else s
  }

  predicate IsPem(value: string) {
    PEM_START <= LStrip(value)
  }

  /** A value is PEM text exactly when "-----BEGIN" comes first after any white space. */
  lemma {:induction false} IsPemExact(value: string)
    ensures IsPem(value) <==>
              exists k: nat :: k <= |value| && "-----BEGIN" <= value[k..] && forall i | 0 <= i < k :: IsSpace(value[i])
  {
    var k := Stripped(value);
    assert IsPem(value) ==> "-----BEGIN" <= value[k..];
    if j: nat :| j <= |value| && "-----BEGIN" <= value[j..] && forall i | 0 <= i < j :: IsSpace(value[i]) {
      assert value[j..][0] == value[j] == '-';
    }
  }

  lemma {:induction false} Stripped(s: string) returns (k: nat)
    ensures k <= |s| && LStrip(s) == s[k..] && forall i | 0 <= i < k :: IsSpace(s[i])
    ensures k < |s| ==> !IsSpace(s[k])
  {
    if s != "" && IsSpace(s[0]) {
      var n := Stripped(s[1..]);
      k := n + 1;
      assert s[1..][n..] == s[k..];
      assert forall i | 0 < i < k :: s[i] == s[1..][i - 1];
      assert k < |s| ==> s[k] == s[1..][n];
    } else {
      k := 0;
      assert s[0..] == s;
    }
  }

  /** What a certificate field holds: nothing, PEM text, or a path. */
  datatype Field = Blank | Pem(text: string) | File(path: string)

  function FieldOf(value: Option<string>): Field {
    if value.None? || value.value == "" then Blank
    else if IsPem(value.value) then Pem(value.value)
    else File(value.value)
  }

  /** Nothing for an absent or empty value, the path itself for a path, a file with the text for PEM text. */
  lemma ResolvesExact(value: Option<string>, path: Option<Path>, d: Disk)
    requires ResolvesTo(FieldOf(value), path, d)
    ensures path.None? <==> value.None? || value.value == ""
    ensures path.Some? && !IsPem(value.value) ==> path == Some(Given(value.value))
    ensures path.Some? && IsPem(value.value) ==>
              path.value.Temp? && path.value.file in d.files && d.files[path.value.file].text == value.value
  {
    hide IsPem;
  }

  /** The temporary directory: each file's text and the server it was written for. next is a name no
      file has had. */
  datatype Disk = Disk(files: map<nat, TempFile>, next: nat)

  datatype TempFile = TempFile(text: string, owner: string)

  ghost predicate NamesFree(d: Disk) {
    forall f | f in d.files :: f < d.next
  }

  ghost predicate ResolvesTo(field: Field, path: Option<Path>, d: Disk) {
    match field
    case Blank => path == None
    case Pem(text) => path.Some? && path.value.Temp? && path.value.file in d.files && d.files[path.value.file].text == text
    case File(name) => path == Some(Given(name))
  }

  /** From d to e, only files of sid were written, and they are the ones in temps. */
  ghost predicate Wrote(d: Disk, e: Disk, temps: set<nat>, sid: string) {
    && NamesFree(d) && NamesFree(e) && d.next <= e.next
    && e.files.Keys == d.files.Keys + temps
    && (forall f | f in temps :: d.next <= f && e.files[f].owner == sid)
    && (forall f | f in d.files :: e.files[f] == d.files[f])
  }

  lemma WroteMore(d: Disk, e: Disk, e': Disk, temps: set<nat>, more: set<nat>, sid: string)
    requires Wrote(d, e, temps, sid) && Wrote(e, e', more, sid)
    ensures Wrote(d, e', temps + more, sid)
  {
  }

  lemma StillResolves(field: Field, path: Option<Path>, d: Disk, e: Disk, temps: set<nat>, sid: string)
    requires ResolvesTo(field, path, d) && Wrote(d, e, temps, sid)
    ensures ResolvesTo(field, path, e)
  {
  }

  function TempOf(path: Option<Path>): set<nat> {
    if path.Some? && path.value.Temp? then {path.value.file} else {}
  }

  // ------------------------------------------------------------ connectors

  /** rx is the server id its receive handler books documents under. */
  class Connector {
    const rx: string
    const host: string
    const port: int
    const tls: bool
    const verify: bool
    const cert: Option<Path>
    const key: Option<Path>
    const ca: Option<Path>
    var running: bool

    constructor (rx: string, host: string, port: int, tls: bool, verify: bool, cert: Option<Path>,
                 key: Option<Path>, ca: Option<Path>)
      ensures this.rx == rx && this.host == host && this.port == port && this.tls == tls && this.verify == verify
      ensures this.cert == cert && this.key == key && this.ca == ca && !running
    {
      this.rx, this.host, this.port, this.tls, this.verify := rx, host, port, tls, verify;
      this.cert, this.key, this.ca := cert, key, ca;
      running := false;
    }

    method Start()
      modifies this
      ensures running
    {
      running := true;
    }

    method Stop()
      modifies this
      ensures !running
    {
      running := false;
    }

    function Temps(): set<nat> {
      TempOf(cert) + TempOf(key) + TempOf(ca)
    }
  }

  ghost predicate BuiltFrom(c: Connector, e: Endpoint, d: Disk) {
    && c.host == e.host && c.port == e.port && c.tls == e.tls && c.verify == e.verify
    && ResolvesTo(FieldOf(e.clientCert), c.cert, d)
    && ResolvesTo(FieldOf(e.clientKey), c.key, d)
    && ResolvesTo(FieldOf(e.cacert), c.ca, d)
  }

  type Live = map<string, Connector>

  type Temps = map<string, set<nat>>

  ghost predicate TmpKnown(conns: Live, tmp: Temps) {
    tmp.Keys == conns.Keys && forall sid | sid in conns :: tmp[sid] == conns[sid].Temps()
  }

  ghost predicate Homed(tmp: Temps, d: Disk, f: nat)
    requires f in d.files
  {
    d.files[f].owner in tmp && f in tmp[d.files[f].owner]
  }

  ghost predicate Holds(files: set<nat>, d: Disk, sid: string) {
    forall f | f in files :: f in d.files && d.files[f].owner == sid
  }

  /** Every temporary file is booked under the one server it was written for, and no booked file is missing. */
  ghost predicate Owned(tmp: Temps, d: Disk) {
    && NamesFree(d)
    && (forall f | f in d.files :: Homed(tmp, d, f))
    && (forall sid | sid in tmp :: Holds(tmp[sid], d, sid))
  }

  type Defs = map<string, ServerConnection>

  /** {s.id: s for s in servers}: of servers with one id the last wins. */
  function Desired(servers: seq<ServerConnection>): (d: Defs)
    ensures forall sid | sid in d :: d[sid].id == sid
  {
    if servers == [] then map[]
    else
      var last := servers[|servers| - 1];
      Desired(servers[..|servers| - 1])[last.id := last]
  }

  /** servers[i] is the last one with its id. */
  predicate LastWithId(servers: seq<ServerConnection>, i: nat) {
    i < |servers| && forall k | i < k < |servers| :: servers[k].id != servers[i].id
  }

  /** Every configured id is desired, with the last server that has it, and no other id is. */
  lemma {:induction false} DesiredExact(servers: seq<ServerConnection>, sid: string) returns (i: nat)
    ensures sid in Desired(servers) <==> exists s :: s in servers && s.id == sid
    ensures sid in Desired(servers) ==> LastWithId(servers, i) && Desired(servers)[sid] == servers[i]
  {
    i := 0;
    if servers != [] {
      var front, last := servers[..|servers| - 1], servers[|servers| - 1];
      assert servers == front + [last];
      i := DesiredExact(front, sid);
      if last.id == sid {
        i := |front|;
      }
    }
  }

  predicate ConnectChanged(before: Option<ServerConnection>, now: ServerConnection) {
    match before
    case None => true
    case Some(s) =>
      var a, b := s.settings.endpoint, now.settings.endpoint;
      a.host != b.host || a.port != b.port || a.tls != b.tls || a.verify != b.verify
      || a.clientCert != b.clientCert || a.clientKey != b.clientKey || a.cacert != b.cacert
  }

  /** A new connector is due exactly where there was no definition or any connection field differs; a new name
      or a toggle of the other settings alone is not a change. */
  lemma ConnectChangedExact(before: Option<ServerConnection>, now: ServerConnection)
    ensures ConnectChanged(before, now) <==>
              before.None? || before.value.settings.endpoint != now.settings.endpoint
  {
  }

  function Get<V>(m: map<string, V>, k: string): Option<V> {
    if k in m then Some(m[k]) else None
  }

  predicate Wanted(desired: Defs, sid: string) {
    sid in desired && desired[sid].settings.enabled
  }

  /** A live connector that reconciling leaves alone. */
  predicate Kept(defs: Defs, desired: Defs, sid: string) {
    Wanted(desired, sid) && !ConnectChanged(Get(defs, sid), desired[sid])
  }

  lemma KeptExact(defs: Defs, desired: Defs)
    ensures forall sid :: Wanted(desired, sid) <==> sid in desired && desired[sid].settings.enabled
    ensures forall sid | Kept(defs, desired, sid) :: Wanted(desired, sid)
    ensures forall sid | Wanted(desired, sid) ::
              Kept(defs, desired, sid) <==>
                sid in defs && defs[sid].settings.endpoint == desired[sid].settings.endpoint
  {
  }

  /** The live connectors are those of some enabled servers of defs, built from their present definition. */
  ghost predicate Serves(conns: Live, defs: Defs, d: Disk) {
    forall sid | sid in conns :: Wanted(defs, sid) && BuiltFrom(conns[sid], defs[sid].settings.endpoint, d)
  }

  lemma BuiltStays(c: Connector, p: Endpoint, d: Disk, e: Disk)
    requires BuiltFrom(c, p, d)
    requires forall f | f in c.Temps() && f in d.files :: f in e.files && e.files[f] == d.files[f]
    ensures BuiltFrom(c, p, e)
  {
  }

  lemma StartedOwned(tmp: Temps, d: Disk, e: Disk, sid: string, files: set<nat>)
    requires Owned(tmp, d) && Wrote(d, e, files, sid) && sid !in tmp
    ensures Owned(tmp[sid := files], e)
  {
    var tmp' := tmp[sid := files];
    forall f | f in e.files ensures Homed(tmp', e, f) {
      if f in d.files { assert Homed(tmp, d, f); }
    }
    forall s | s in tmp' ensures Holds(tmp'[s], e, s) {
      if s != sid { assert Holds(tmp[s], d, s); }
    }
  }

  lemma StartedKnown(conns: Live, tmp: Temps, sid: string, c: Connector)
    requires TmpKnown(conns, tmp)
    ensures TmpKnown(conns[sid := c], tmp[sid := c.Temps()])
  {
  }

  lemma StartedServes(conns: Live, defs: Defs, d: Disk, e: Disk, temps: set<nat>, sid: string, c: Connector)
    requires Serves(conns, defs, d) && Wrote(d, e, temps, sid) && Wanted(defs, sid)
    requires BuiltFrom(c, defs[sid].settings.endpoint, e)
    ensures Serves(conns[sid := c], defs, e)
  {
    forall s | s in conns && s != sid ensures BuiltFrom(conns[s], defs[s].settings.endpoint, e) {
      BuiltStays(conns[s], defs[s].settings.endpoint, d, e);
    }
  }

  function Unlinked(d: Disk, files: set<nat>): Disk {
    Disk(d.files - files, d.next)
  }

  /** self._tmp.pop(sid, []) */
  function FilesOf(tmp: Temps, sid: string): set<nat> {
    if sid in tmp then tmp[sid] else {}
  }

  lemma StoppedOwned(tmp: Temps, d: Disk, sid: string)
    requires Owned(tmp, d)
    ensures Owned(tmp - {sid}, Unlinked(d, FilesOf(tmp, sid)))
  {
    var tmp', d' := tmp - {sid}, Unlinked(d, FilesOf(tmp, sid));
    forall f | f in d'.files ensures Homed(tmp', d', f) {
      assert Homed(tmp, d, f);
    }
    forall s | s in tmp' ensures Holds(tmp'[s], d', s) {
      assert Holds(tmp[s], d, s) && (sid in tmp ==> Holds(tmp[sid], d, sid));
    }
  }

  lemma StoppedKnown(conns: Live, tmp: Temps, sid: string)
    requires TmpKnown(conns, tmp)
    ensures TmpKnown(conns - {sid}, tmp - {sid})
  {
  }

  lemma StoppedServes(conns: Live, tmp: Temps, defs: Defs, d: Disk, sid: string)
    requires TmpKnown(conns, tmp) && Owned(tmp, d) && sid in conns && Serves(conns, defs, d)
    ensures Serves(conns - {sid}, defs, Unlinked(d, tmp[sid]))
  {
    var d' := Unlinked(d, tmp[sid]);
    forall s | s in conns && s != sid ensures BuiltFrom(conns[s], defs[s].settings.endpoint, d') {
      assert Holds(tmp[s], d, s) && Holds(tmp[sid], d, sid);
      BuiltStays(conns[s], defs[s].settings.endpoint, d, d');
    }
  }

  /** What every reachable state keeps, whatever the definitions. */
  ghost predicate Good(conns: Live, tmp: Temps, d: Disk, defs: Defs) {
    TmpKnown(conns, tmp) && Owned(tmp, d) && Serves(conns, defs, d)
  }

  lemma GoodNames(conns: Live, tmp: Temps, d: Disk, defs: Defs)
    requires Good(conns, tmp, d, defs)
    ensures NamesFree(d)
  {
  }

  lemma NobodysFiles(conns: Live, tmp: Temps, d: Disk, defs: Defs)
    requires Good(conns, tmp, d, defs) && conns.Keys == {}
    ensures d.files == map[]
  {
    assert forall f | f in d.files :: Homed(tmp, d, f);
  }

  lemma StartedGood(conns: Live, tmp: Temps, d: Disk, e: Disk, defs: Defs, sid: string, c: Connector)
    requires Good(conns, tmp, d, defs) && sid !in conns && Wanted(defs, sid)
    requires BuiltFrom(c, defs[sid].settings.endpoint, e) && Wrote(d, e, c.Temps(), sid)
    ensures Good(conns[sid := c], tmp[sid := c.Temps()], e, defs)
  {
    StartedKnown(conns, tmp, sid, c);
    StartedOwned(tmp, d, e, sid, c.Temps());
    StartedServes(conns, defs, d, e, c.Temps(), sid, c);
  }

  lemma StoppedGood(conns: Live, tmp: Temps, d: Disk, defs: Defs, sid: string)
    requires Good(conns, tmp, d, defs) && sid in conns
    ensures Good(conns - {sid}, tmp - {sid}, Unlinked(d, FilesOf(tmp, sid)), defs)
  {
    StoppedKnown(conns, tmp, sid);
    StoppedOwned(tmp, d, sid);
    StoppedServes(conns, tmp, defs, d, sid);
  }

  lemma KeptGood(conns: Live, tmp: Temps, d: Disk, defs: Defs, desired: Defs)
    requires Good(conns, tmp, d, defs) && forall sid | sid in conns :: Kept(defs, desired, sid)
    ensures Good(conns, tmp, d, desired)
  {
    forall sid | sid in conns ensures Wanted(desired, sid) && BuiltFrom(conns[sid], desired[sid].settings.endpoint, d) {
      assert Kept(defs, desired, sid);
      assert defs[sid].settings.endpoint == desired[sid].settings.endpoint;
    }
  }

  /** What is left of was once all but the live ids in todo have been looked at. */
  ghost function Surviving<V>(was: map<string, V>, live: set<string>, defs: Defs, desired: Defs, todo: set<string>)
    : map<string, V>
  {
    map sid | sid in was && (sid !in live || sid in todo || Kept(defs, desired, sid)) :: was[sid]
  }

  lemma SurvivingStart<V>(was: map<string, V>, live: set<string>, defs: Defs, desired: Defs)
    ensures Surviving(was, live, defs, desired, live) == was
  {
  }

  lemma SurvivorsKept<V>(was: map<string, V>, live: set<string>, defs: Defs, desired: Defs)
    ensures forall sid :: sid in Surviving(was, live, defs, desired, {})
                          <==> sid in was && (sid in live ==> Kept(defs, desired, sid))
    ensures forall sid | sid in Surviving(was, live, defs, desired, {}) ::
              sid in was && Surviving(was, live, defs, desired, {})[sid] == was[sid]
  {
  }

  lemma SurvivorsWanted<V>(was: map<string, V>, live: set<string>, defs: Defs, desired: Defs)
    requires was.Keys <= live
    ensures forall sid | sid in Surviving(was, live, defs, desired, {}) :: Wanted(desired, sid)
  {
  }

  lemma NothingRemoved<V>(was: map<string, V>, live: set<string>)
    ensures was - (live - live) == was
  {
  }

  lemma AllRemoved<V>(was: map<string, V>)
    ensures was - (was.Keys - {}) == map[] && was.Keys - {} == was.Keys
  {
  }

  lemma OneRemoved<V>(was: map<string, V>, live: set<string>, todo: set<string>, sid: string)
    requires sid in todo && todo <= live
    ensures was - (live - todo) - {sid} == was - (live - (todo - {sid}))
  {
  }

  lemma SettledKept(was: Live, now: Live, defs: Defs)
    requires forall sid :: sid in was <==> Wanted(defs, sid)
    requires forall sid :: sid in now <==> Wanted(defs, sid)
    requires forall sid | sid in now && sid in was && Kept(defs, defs, sid) :: now[sid] == was[sid]
    ensures now == was
  {
  }

  lemma SettledSurvives<V>(m: map<string, V>, live: set<string>, defs: Defs)
    requires forall sid | sid in live :: Wanted(defs, sid)
    ensures Surviving(m, live, defs, defs, {}) == m
  {
  }

  lemma SurvivingStep<V>(was: map<string, V>, live: set<string>, defs: Defs, desired: Defs, todo: set<string>, sid: string)
    requires sid in todo && sid in live
    ensures Surviving(was, live, defs, desired, todo - {sid})
            == if Kept(defs, desired, sid) then Surviving(was, live, defs, desired, todo)
               else Surviving(was, live, defs, desired, todo) - {sid}
  {
  }

  // ------------------------------------------------------------ the manager

  class ServerConnectionManager {
    var defs: Defs
    var conns: map<string, Connector>
    var tmp: Temps
    var origins: map<string, set<string>>
    var identified: set<string>
    var disk: Disk
    /** The id of the node the manager is attached to. */
    var node: Option<string>

    ghost predicate AllRunning()
      reads this`conns, conns.Values
    {
      forall sid | sid in conns :: conns[sid].running && conns[sid].rx == sid
    }

    ghost predicate Valid()
      reads this, conns.Values
    {
      Good(conns, tmp, disk, defs) && AllRunning()
    }

    /** The desired state: the live ids are exactly the enabled ones. */
    ghost predicate Settled(servers: seq<ServerConnection>)
      reads this, conns.Values
    {
      && Valid() && defs == Desired(servers)
      && forall sid :: sid in conns <==> Wanted(defs, sid)
    }

    constructor ()
      ensures Valid() && defs == map[] && conns == map[] && origins == map[] && identified == {}
    {
      defs, conns, tmp, origins, identified := map[], map[], map[], map[], {};
      disk, node := Disk(map[], 0), None;
    }

    method Resolve(value: Option<string>, sid: string) returns (path: Option<Path>)
      requires NamesFree(disk)
      modifies this`disk
      ensures ResolvesTo(FieldOf(value), path, disk) && Wrote(old(disk), disk, TempOf(path), sid)
    {
      if value.None? || value.value == "" {
        return None;
      }
      if IsPem(value.value) {
        path := Some(Temp(disk.next));
        disk := Disk(disk.files[disk.next := TempFile(value.value, sid)], disk.next + 1);
        return;
      }
      return Some(Given(value.value));
    }

    method MaterializeCerts(e: Endpoint, sid: string)
      returns (cert: Option<Path>, key: Option<Path>, ca: Option<Path>)
      requires NamesFree(disk)
      modifies this`disk
      ensures Wrote(old(disk), disk, TempOf(cert) + TempOf(key) + TempOf(ca), sid)
      ensures ResolvesTo(FieldOf(e.clientCert), cert, disk)
      ensures ResolvesTo(FieldOf(e.clientKey), key, disk)
      ensures ResolvesTo(FieldOf(e.cacert), ca, disk)
    {
      ghost var d0 := disk;
      cert := Resolve(e.clientCert, sid);
      ghost var d1 := disk;
      key := Resolve(e.clientKey, sid);
      ghost var d2 := disk;
      StillResolves(FieldOf(e.clientCert), cert, d1, d2, TempOf(key), sid);
      WroteMore(d0, d1, d2, TempOf(cert), TempOf(key), sid);
      ca := Resolve(e.cacert, sid);
      StillResolves(FieldOf(e.clientCert), cert, d2, disk, TempOf(ca), sid);
      StillResolves(FieldOf(e.clientKey), key, d2, disk, TempOf(ca), sid);
      WroteMore(d0, d2, disk, TempOf(cert) + TempOf(key), TempOf(ca), sid);
    }

    method Build(s: ServerConnection) returns (conn: Connector)
      requires NamesFree(disk)
      modifies this`disk
      ensures fresh(conn) && conn.rx == s.id && BuiltFrom(conn, s.settings.endpoint, disk)
      ensures var e := s.settings.endpoint;
              && conn.host == e.host && conn.port == e.port && conn.tls == e.tls && conn.verify == e.verify
              && ResolvesTo(FieldOf(e.clientCert), conn.cert, disk)
              && ResolvesTo(FieldOf(e.clientKey), conn.key, disk)
              && ResolvesTo(FieldOf(e.cacert), conn.ca, disk)
      ensures Wrote(old(disk), disk, conn.Temps(), s.id)
    {
      var e := s.settings.endpoint;
      var cert, key, ca := MaterializeCerts(e, s.id);
      conn := new Connector(s.id, e.host, e.port, e.tls, e.verify, cert, key, ca);
    }

    method StartOne(s: ServerConnection) returns (ghost started: Connector)
      requires NamesFree(disk)
      modifies this`conns, this`tmp, this`disk
      ensures fresh(started) && started.running && started.rx == s.id
      ensures BuiltFrom(started, s.settings.endpoint, disk) && Wrote(old(disk), disk, started.Temps(), s.id)
      ensures conns == old(conns)[s.id := started] && tmp == old(tmp)[s.id := started.Temps()]
    {
      var conn := Build(s);
      tmp := tmp[s.id := conn.Temps()];
      conns := conns[s.id := conn];
      conn.Start();
      started := conn;
    }

    method CleanupTemp(paths: set<nat>)
      modifies this`disk
      ensures disk == Unlinked(old(disk), paths)
    {
      var todo := paths;
      while todo != {}
        invariant todo <= paths && disk == Unlinked(old(disk), paths - todo)
        decreases |todo|
      {
        var path :| path in todo;
        todo := todo - {path};
        disk := disk.(files := disk.files - {path});
      }
    }

    method StopOne(sid: string)
      modifies this`conns, this`tmp, this`disk, this`origins
      modifies if sid in conns then {conns[sid]} else {}
      ensures conns == old(conns) - {sid} && tmp == old(tmp) - {sid} && origins == old(origins) - {sid}
      ensures sid in old(conns) ==> !old(conns)[sid].running
      ensures disk == Unlinked(old(disk), FilesOf(old(tmp), sid))
    {
      var conn := Get(conns, sid);
      conns := conns - {sid};
      if conn.Some? {
        conn.value.Stop();
      }
      origins := origins - {sid};
      var files := FilesOf(tmp, sid);
      tmp := tmp - {sid};
      CleanupTemp(files);
    }

    method StopLive(sid: string)
      requires Valid() && sid in conns
      modifies this`conns, this`tmp, this`disk, this`origins, conns[sid]
      ensures Valid()
      ensures conns == old(conns) - {sid} && origins == old(origins) - {sid} && !old(conns)[sid].running
    {
      hide Good;
      StoppedGood(conns, tmp, disk, defs, sid);
      StopOne(sid);
    }

    /** One pass of the loop that stops connectors. */
    method StopUnlessKept(desired: Defs, sid: string)
      requires Valid() && sid in conns
      modifies this`conns, this`tmp, this`disk, this`origins
      modifies if Kept(defs, desired, sid) then {} else {conns[sid]}
      ensures Valid()
      ensures if Kept(defs, desired, sid) then conns == old(conns) && origins == old(origins)
              else conns == old(conns) - {sid} && origins == old(origins) - {sid} && !old(conns)[sid].running
    {
      hide Good, ConnectChanged;
      var wanted := Get(desired, sid);
      if wanted.None? || !wanted.value.settings.enabled || ConnectChanged(Get(defs, sid), wanted.value) {
        StopLive(sid);
      }
    }

    method StopUnwanted(desired: Defs)
      requires Valid()
      modifies this`conns, this`tmp, this`disk, this`origins, conns.Values
      ensures Good(conns, tmp, disk, desired) && AllRunning()
      ensures conns == Surviving(old(conns), old(conns).Keys, defs, desired, {})
      ensures origins == Surviving(old(origins), old(conns).Keys, defs, desired, {})
      ensures forall sid | sid in old(conns) && sid !in conns :: !old(conns)[sid].running
    {
      hide Good, Surviving, Kept, Wanted, AllRunning;
      ghost var was, live := conns, conns.Keys;
      var todo := conns.Keys;
      SurvivingStart(conns, live, defs, desired);
      SurvivingStart(origins, live, defs, desired);
      while todo != {}
        invariant todo <= conns.Keys && conns.Keys <= live
        invariant Valid()
        invariant conns == Surviving(was, live, defs, desired, todo)
        invariant origins == Surviving(old(origins), live, defs, desired, todo)
        invariant forall sid | sid in conns :: conns[sid] == was[sid]
        invariant forall sid | sid in live && sid !in conns :: !was[sid].running
        decreases |todo|
      {
        var sid :| sid in todo;
        SurvivingStep(was, live, defs, desired, todo, sid);
        SurvivingStep(old(origins), live, defs, desired, todo, sid);
        todo := todo - {sid};
        StopUnlessKept(desired, sid);
      }
      SurvivorsKept(was, live, defs, desired);
      KeptGood(conns, tmp, disk, defs, desired);
    }

    /** One pass of the loop that starts connectors. */
    method StartIfMissing(desired: Defs, sid: string)
      requires Good(conns, tmp, disk, desired) && AllRunning() && sid in desired && desired[sid].id == sid
      modifies this`conns, this`tmp, this`disk
      ensures Good(conns, tmp, disk, desired) && AllRunning()
      ensures conns.Keys == old(conns).Keys + if Wanted(desired, sid) then {sid} else {}
      ensures forall s | s in old(conns) :: conns[s] == old(conns)[s]
      ensures sid in conns && sid !in old(conns) ==> fresh(conns[sid])
    {
      hide Good, Wrote, BuiltFrom;
      if desired[sid].settings.enabled && sid !in conns {
        GoodNames(conns, tmp, disk, desired);
        ghost var d, live, temps := disk, conns, tmp;
        ghost var conn := StartOne(desired[sid]);
        StartedGood(live, temps, d, disk, desired, sid, conn);
      }
    }

    method StartWanted(desired: Defs)
      requires Good(conns, tmp, disk, desired) && AllRunning()
      requires forall sid | sid in desired :: desired[sid].id == sid
      modifies this`conns, this`tmp, this`disk
      ensures Good(conns, tmp, disk, desired) && AllRunning()
      ensures forall sid :: sid in conns <==> sid in old(conns) || Wanted(desired, sid)
      ensures forall sid | sid in conns :: if sid in old(conns) then conns[sid] == old(conns)[sid] else fresh(conns[sid])
    {
      hide Good;
      ghost var was := conns;
      var todo := desired.Keys;
      while todo != {}
        invariant todo <= desired.Keys
        invariant Good(conns, tmp, disk, desired) && AllRunning()
        invariant forall sid :: sid in conns <==> sid in was || (Wanted(desired, sid) && sid !in todo)
        invariant forall sid | sid in was :: sid in conns && conns[sid] == was[sid]
        invariant forall sid | sid in conns && sid !in was :: fresh(conns[sid])
        decreases |todo|
      {
        var sid :| sid in todo;
        todo := todo - {sid};
        StartIfMissing(desired, sid);
      }
    }

    method StopAndStart(desired: Defs)
      requires Valid() && forall sid | sid in desired :: desired[sid].id == sid
      modifies this`conns, this`tmp, this`disk, this`origins, conns.Values
      ensures Good(conns, tmp, disk, desired) && AllRunning()
      ensures forall sid :: sid in conns <==> Wanted(desired, sid)
      ensures forall sid | sid in conns ::
                if sid in old(conns) && Kept(defs, desired, sid) then conns[sid] == old(conns)[sid] else fresh(conns[sid])
      ensures forall sid | sid in old(conns) && !Kept(defs, desired, sid) :: !old(conns)[sid].running
      ensures origins == Surviving(old(origins), old(conns).Keys, defs, desired, {})
    {
      ghost var was := conns;
      hide Good, Kept, Wanted, Surviving;
      StopUnwanted(desired);
      SurvivorsKept(was, was.Keys, defs, desired);
      SurvivorsWanted(was, was.Keys, defs, desired);
      StartWanted(desired);
    }

    /** The desired state is reached from every reachable one: connectors whose connection fields did not
        change are the same objects, the others are new, everything replaced or no longer wanted was
        stopped, and a second call starts and stops nothing. */
    method Reconcile(servers: seq<ServerConnection>)
      requires Valid()
      modifies this`defs, this`conns, this`tmp, this`disk, this`origins, conns.Values
      ensures Settled(servers)
      ensures forall sid | sid in conns ::
                if sid in old(conns) && Kept(old(defs), Desired(servers), sid) then conns[sid] == old(conns)[sid]
                else fresh(conns[sid])
      ensures forall sid | sid in old(conns) && !Kept(old(defs), Desired(servers), sid) :: !old(conns)[sid].running
      ensures origins == Surviving(old(origins), old(conns).Keys, old(defs), Desired(servers), {})
      ensures old(Settled(servers)) ==> conns == old(conns) && origins == old(origins)
      ensures forall sid :: sid in conns <==> sid in Desired(servers) && Desired(servers)[sid].settings.enabled
      ensures forall sid | sid in conns ::
                if sid in old(conns) && sid in old(defs)
                   && old(defs)[sid].settings.endpoint == Desired(servers)[sid].settings.endpoint
                then conns[sid] == old(conns)[sid] else fresh(conns[sid])
      ensures forall sid ::
                sid in origins <==>
                  sid in old(origins) && (sid in old(conns) ==> sid in conns && conns[sid] == old(conns)[sid])
      ensures forall sid | sid in origins :: origins[sid] == old(origins)[sid]
    {
      var desired := Desired(servers);
      KeptExact(defs, desired);
      ghost var was, booked, before := conns, origins, defs;
      hide Good, Kept, Wanted, Surviving, Desired;
      StopAndStart(desired);
      defs := desired;
      SurvivorsKept(booked, was.Keys, before, desired);
      if before == desired && forall sid :: sid in was <==> Wanted(before, sid) {
        SettledSurvives(booked, was.Keys, before);
        SettledKept(was, conns, before);
      }
    }

    method Stop()
      requires Valid()
      modifies this`conns, this`tmp, this`disk, this`origins, conns.Values
      ensures Valid() && conns == map[] && disk.files == map[]
      ensures forall sid | sid in old(conns) :: !old(conns)[sid].running
      ensures origins == old(origins) - old(conns).Keys
    {
      hide Valid;
      ghost var was, booked := conns, origins;
      var todo := conns.Keys;
      NothingRemoved(booked, todo);
      NothingRemoved(was, todo);
      while todo != {}
        invariant todo <= was.Keys && Valid()
        invariant conns == was - (was.Keys - todo) && origins == booked - (was.Keys - todo)
        invariant forall sid | sid in was && sid !in todo :: !was[sid].running
        decreases |todo|
      {
        var sid :| sid in todo;
        OneRemoved(was, was.Keys, todo, sid);
        OneRemoved(booked, was.Keys, todo, sid);
        StopLive(sid);
        todo := todo - {sid};
      }
      AllRemoved(was);
      NobodysLeft();
    }

    lemma NobodysLeft()
      requires Valid() && conns.Keys == {}
      ensures disk.files == map[]
    {
      NobodysFiles(conns, tmp, disk, defs);
    }

    // ---------------------------------------------------------- bridging

    /** The part of the relay's state this manager holds. */
    ghost function State(): Gateway
      reads this
    {
      Gateway(if node.Some? then node.value else "", map[], conns.Keys, origins, identified)
    }

    method Attach(nodeId: string)
      modifies this`node
      ensures State() == old(State()).(nodeId := nodeId)
    {
      node := Some(nodeId);
    }

    /** A document from a server; returns what is handed to the gateway, in order. Nothing is when no
        gateway is attached. */
    method OnCot(parse: string -> Option<Parsed>, sid: string, raw: string, arrival: Arrival)
      returns (ingested: seq<Report>)
      modifies this`origins, this`identified
      ensures if node.Some? then Reaction(State(), ingested, false) == OnServer(parse, old(State()), sid, raw, arrival)
              else State() == old(State()) && ingested == []
    {
      ingested := [];
      if Marked(raw) || node.None? {
        return;
      }
      var root := parse(raw);
      if root.None? || Dead(root.value, arrival.past) || Control(root.value.kind) {
        return;
      }
      var uid := if root.value.uid.Some? && root.value.uid.value != "" then root.value.uid.value else "track";
      var originator := "tak-" + sid + "-" + uid;
      var message := FromCot(root.value);
      if message.None? {
        return;
      }
      var sourced := if sid in origins then origins[sid] else {};
      origins := origins[sid := sourced + {originator}];
      var callsign := CallsignOf(message.value);
      if callsign != "" && originator !in identified {
        identified := identified + {originator};
        ingested := ingested + [Header(originator, arrival.announcement, Identification(callsign))];
      }
      ingested := ingested + [Header(originator, arrival.message, message.value)];
      assert callsign != "" ==> old(identified) + {originator} == identified;
    }

    /** The servers a message is sent to, with the bytes. */
    method Emit(m: Report) returns (sends: map<string, string>)
      ensures forall sid :: sid in sends <==> EmitsTo(State(), m, Server(sid))
      ensures forall sid :: sid in sends <==>
                && sid in conns && !(sid in origins && m.originator in origins[sid])
                && m.originator != (match node case None => "" case Some(n) => n) && MessageToCot(m).Some?
      ensures forall sid | sid in sends :: MessageToCot(m) == Some(sends[sid])
    {
      sends := map[];
      if conns.Keys == {} || m.originator == (if node.Some? then node.value else "") {
        return;
      }
      var cot := MessageToCot(m);
      if cot.None? {
        return;
      }
      var todo := conns.Keys;
      while todo != {}
        invariant todo <= conns.Keys
        invariant forall sid :: sid in sends <==> sid in conns && sid !in todo && m.originator !in Sourced(State(), Server(sid))
        invariant forall sid | sid in sends :: cot == Some(sends[sid])
        decreases |todo|
      {
        var sid :| sid in todo;
        todo := todo - {sid};
        var sourced := if sid in origins then origins[sid] else {};
        if m.originator !in sourced {
          sends := sends[sid := cot.value];
        }
      }
    }
  }
}
