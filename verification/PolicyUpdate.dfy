/** A coalition policy update on the wire: how the authority writes it and how a receiver reads it. */
module PolicyUpdate {
  import opened Wrappers
  import opened Json
  import opened Policy
  import opened Signing

  datatype Coalition = Coalition(matrix: Matrix, pairs: Pairs)

  /** A control message of kind "policyupdate" after json.loads, absent fields defaulted. */
  datatype Update = Update(node: string, version: int, defaultAction: Json, overrides: Json,
                           pairs: Json, sig: Signature)

  predicate Parsed(u: Update) {
    WellFormed(u.defaultAction) && WellFormed(u.overrides) && WellFormed(u.pairs)
  }

  function Payload(u: Update): string {
    CanonicalPayload(u.version, u.defaultAction, u.overrides, u.pairs)
  }

  function KeysOf(fs: seq<Field>): set<string> {
    set f | f in fs :: f.key
  }

  /** The mapping an object stands for. */
  function Entries(fs: seq<Field>): (m: map<string, Json>)
    requires DistinctKeys(fs)
    ensures m.Keys == KeysOf(fs)
  {
    if fs == [] then map[]
    else
      var last := fs[|fs| - 1];
      assert fs == fs[..|fs| - 1] + [last];
      Entries(fs[..|fs| - 1])[last.key := last.value]
  }

  lemma {:induction false} EntryAt(fs: seq<Field>, i: nat)
    requires DistinctKeys(fs) && i < |fs|
    ensures fs[i].key in Entries(fs) && Entries(fs)[fs[i].key] == fs[i].value
  {
    if i < |fs| - 1 {
      EntryAt(fs[..|fs| - 1], i);
    }
  }

  function Allowed(m: map<string, Json>): map<string, bool> {
    map k | k in m :: m[k] == Str("allow")
  }

  /** MatrixConnectionPolicy.replace on the overrides field; a non-object has no items() and raises. */
  function ReadOverrides(j: Json): Option<map<string, bool>>
    requires WellFormed(j)
  {
    if j.Obj? then Some(Allowed(Entries(j.fields))) else None
  }

  /** set(v): the strings in it. Other members never equal an originator; None where set(v) raises. */
  function SetOf(v: Json): Option<set<string>> {
    match v
    case Arr(es) =>
      if exists i | 0 <= i < |es| :: es[i].Arr? || es[i].Obj? then None
      else Some(set e | e in es && e.Str? :: e.s)
    case Str(s) => Some(set c | c in s :: [c])
    case Obj(fs) => Some(KeysOf(fs))
    case _ => None
  }

  function ReadRows(m: map<string, Json>): Option<Pairs> {
    if forall k | k in m && Truthy(m[k]) :: SetOf(m[k]).Some?
    then Some(map k | k in m && Truthy(m[k]) :: SetOf(m[k]).value) else None
  }

  /** PairBlockPolicy.replace: falsy rows are skipped; a non-object has no items() and raises. */
  function ReadPairs(j: Json): Option<Pairs>
    requires WellFormed(j)
  {
    if j.Obj? then ReadRows(Entries(j.fields)) else None
  }

  ghost predicate Lists(j: Json, s: set<string>) {
    && j.Arr?
    && (forall e | e in j.elems :: e.Str? && e.s in s)
    && (forall x | x in s :: Str(x) in j.elems)
  }

  /** u carries the snapshot of c, its objects and lists written in any order. */
  ghost predicate Encodes(u: Update, c: Coalition) {
    && Parsed(u) && u.overrides.Obj? && u.pairs.Obj?
    && u.defaultAction == Str(SnapshotOf(c.matrix).defaultAction)
    && Entries(u.overrides.fields)
       == (map p | p in c.matrix.overrides :: Str(SnapshotOf(c.matrix).overrides[p]))
    && Entries(u.pairs.fields).Keys == NonEmpty(c.pairs).Keys
    && (forall o | o in NonEmpty(c.pairs) :: Lists(Entries(u.pairs.fields)[o], c.pairs[o]))
  }

  /** What a receiver reads back from u is the content of c. */
  predicate Carries(u: Update, c: Coalition)
    requires Parsed(u)
  {
    && (u.defaultAction != Str("deny")) == c.matrix.defaultAllow
    && ReadOverrides(u.overrides) == Some(c.matrix.overrides)
    && if u.pairs.Obj? then ReadPairs(u.pairs) == Some(NonEmpty(c.pairs)) else NonEmpty(c.pairs) == map[]
  }

  lemma ListIsSet(j: Json, s: set<string>)
    requires Lists(j, s) && s != {}
    ensures Truthy(j) && SetOf(j) == Some(s)
  {
    assert forall i | 0 <= i < |j.elems| :: j.elems[i] in j.elems;
    var x :| x in s;
    assert SetOf(j).value == s;
  }

  lemma RowsRead(m: map<string, Json>, pairs: Pairs)
    requires m.Keys == NonEmpty(pairs).Keys
    requires forall o | o in m :: Lists(m[o], pairs[o])
    ensures ReadRows(m) == Some(NonEmpty(pairs))
  {
    forall o | o in m ensures Truthy(m[o]) == true && SetOf(m[o]) == Some(pairs[o]) {
      ListIsSet(m[o], pairs[o]);
    }
    assert ReadRows(m).value == NonEmpty(pairs);
  }

  lemma WordsAllowed(m: Matrix)
    ensures Allowed(map p | p in m.overrides :: Str(SnapshotOf(m).overrides[p])) == m.overrides
  {
  }

  lemma EncodedCarries(u: Update, c: Coalition)
    requires Encodes(u, c)
    ensures Carries(u, c)
  {
    WordsAllowed(c.matrix);
    RowsRead(Entries(u.pairs.fields), c.pairs);
    hide Entries, Lists, NonEmpty, ReadRows, Allowed, WellFormed;
  }

  // ------------------------------------------------------------ reading respects dict equality

  lemma KeysSame(fs: seq<Field>, gs: seq<Field>)
    requires Same(Obj(fs), Obj(gs))
    ensures KeysOf(fs) == KeysOf(gs)
  {
    forall k ensures k in KeysOf(fs) <==> k in KeysOf(gs) {
      if k in KeysOf(fs) {
        var i :| 0 <= i < |fs| && fs[i].key == k;
        var l :| 0 <= l < |gs| && gs[l].key == fs[i].key;
        assert gs[l] in gs;
      }
      if k in KeysOf(gs) {
        var l :| 0 <= l < |gs| && gs[l].key == k;
        var i :| 0 <= i < |fs| && fs[i].key == gs[l].key;
        assert fs[i] in fs;
      }
    }
  }

  lemma EntriesSame(fs: seq<Field>, gs: seq<Field>)
    requires DistinctKeys(fs) && DistinctKeys(gs) && Same(Obj(fs), Obj(gs))
    ensures Entries(fs).Keys == Entries(gs).Keys
    ensures forall k | k in Entries(fs) :: Same(Entries(fs)[k], Entries(gs)[k])
  {
    KeysSame(fs, gs);
    forall k | k in Entries(fs) ensures Same(Entries(fs)[k], Entries(gs)[k]) {
      EntrySame(fs, gs, k);
    }
  }

  lemma EntrySame(fs: seq<Field>, gs: seq<Field>, k: string)
    requires DistinctKeys(fs) && DistinctKeys(gs) && Same(Obj(fs), Obj(gs))
    requires k in Entries(fs) && k in Entries(gs)
    ensures Same(Entries(fs)[k], Entries(gs)[k])
  {
    var f :| f in fs && f.key == k;
    var g :| g in gs && g.key == k;
    var i :| 0 <= i < |fs| && fs[i] == f;
    var l :| 0 <= l < |gs| && gs[l] == g;
    assert Same(fs[i].value, gs[l].value);
    hide Same;
    EntryAt(fs, i);
    EntryAt(gs, l);
  }

  lemma SameElems(es: seq<Json>, gs: seq<Json>)
    requires Same(Arr(es), Arr(gs))
    ensures SetOf(Arr(es)) == SetOf(Arr(gs))
  {
    assert forall i | 0 <= i < |es| :: Same(es[i], gs[i]);
    if SetOf(Arr(es)).Some? {
      forall s ensures Str(s) in es <==> Str(s) in gs {
        if Str(s) in es {
          var i :| 0 <= i < |es| && es[i] == Str(s);
          assert Same(es[i], gs[i]);
        }
        if Str(s) in gs {
          var i :| 0 <= i < |gs| && gs[i] == Str(s);
          assert Same(es[i], gs[i]);
        }
      }
      assert SetOf(Arr(es)).value == SetOf(Arr(gs)).value;
    }
  }

  lemma SameSetOf(a: Json, b: Json)
    requires WellFormed(a) && WellFormed(b) && Same(a, b)
    ensures Truthy(a) == Truthy(b) && SetOf(a) == SetOf(b)
  {
    match (a, b)
    case (Arr(es), Arr(gs)) => SameElems(es, gs);
    case (Obj(fs), Obj(gs)) => SameKeys(fs, gs);
    case _ =>
  }

  lemma SameKeys(fs: seq<Field>, gs: seq<Field>)
    requires DistinctKeys(fs) && DistinctKeys(gs) && Same(Obj(fs), Obj(gs))
    ensures SetOf(Obj(fs)) == SetOf(Obj(gs)) && (fs == [] <==> gs == [])
  {
    KeysSame(fs, gs);
    hide Same;
    assert SetOf(Obj(fs)).value == KeysOf(fs) && SetOf(Obj(gs)).value == KeysOf(gs);
    assert fs != [] ==> fs[0].key in KeysOf(fs);
    assert gs != [] ==> gs[0].key in KeysOf(gs);
  }

  lemma SameAllowed(m: map<string, Json>, n: map<string, Json>)
    requires m.Keys == n.Keys && forall k | k in m :: m[k] == Str("allow") <==> n[k] == Str("allow")
    ensures Allowed(m) == Allowed(n)
  {
  }

  lemma SameText(j: Json, k: Json, s: string)
    requires Same(j, k)
    ensures j == Str(s) <==> k == Str(s)
  {
  }

  lemma SameOverrides(a: Json, b: Json)
    requires WellFormed(a) && WellFormed(b) && Same(a, b)
    ensures ReadOverrides(a) == ReadOverrides(b)
  {
    if a.Obj? {
      EntriesSame(a.fields, b.fields);
      var m, n := Entries(a.fields), Entries(b.fields);
      forall k | k in m ensures m[k] == Str("allow") <==> n[k] == Str("allow") {
        SameText(m[k], n[k], "allow");
      }
      hide Same, WellFormed, Entries, Allowed;
      SameAllowed(m, n);
    }
  }

  lemma EntriesWellFormed(fs: seq<Field>)
    requires WellFormed(Obj(fs))
    ensures forall k | k in Entries(fs) :: WellFormed(Entries(fs)[k])
  {
    forall k | k in Entries(fs) ensures WellFormed(Entries(fs)[k]) {
      var i :| 0 <= i < |fs| && fs[i].key == k;
      EntryAt(fs, i);
    }
  }

  lemma SamePairs(a: Json, b: Json)
    requires WellFormed(a) && WellFormed(b) && Same(a, b) && a.Obj?
    ensures ReadPairs(a) == ReadPairs(b)
  {
    EntriesSame(a.fields, b.fields);
    EntriesWellFormed(a.fields);
    EntriesWellFormed(b.fields);
    var m, n := Entries(a.fields), Entries(b.fields);
    forall k | k in m ensures Truthy(m[k]) == Truthy(n[k]) && SetOf(m[k]) == SetOf(n[k]) {
      SameSetOf(m[k], n[k]);
    }
    SameRows(m, n);
  }

  lemma SameRows(m: map<string, Json>, n: map<string, Json>)
    requires m.Keys == n.Keys
    requires forall k | k in m :: Truthy(m[k]) == Truthy(n[k]) && SetOf(m[k]) == SetOf(n[k])
    ensures ReadRows(m) == ReadRows(n)
  {
    if ReadRows(m).Some? {
      assert ReadRows(m).value == ReadRows(n).value;
    }
  }

  lemma SignedPairs(p: Json, q: Json)
    requires WellFormed(p) && WellFormed(q) && q.Obj? && Same(OrEmpty(p), OrEmpty(q))
    ensures if p.Obj? then ReadPairs(p) == ReadPairs(q) else q.fields == []
  {
    if p.Obj? {
      SamePairs(p, q);
    } else {
      assert q.fields != [] ==> HasKey([], q.fields[0].key);
    }
  }

  /** A genuine signature fixes what an update installs, whatever else about it was altered. */
  lemma SignedContent(u: Update, u0: Update, c: Coalition)
    requires Parsed(u) && Encodes(u0, c) && Payload(u) == Payload(u0)
    ensures u.version == u0.version && Carries(u, c)
  {
    EncodedCarries(u0, c);
    PayloadDecides(u.version, u.defaultAction, u.overrides, u.pairs,
                   u0.version, u0.defaultAction, u0.overrides, u0.pairs);
    SameOverrides(u.overrides, u0.overrides);
    SignedPairs(u.pairs, u0.pairs);
    if !u.pairs.Obj? {
      assert NonEmpty(c.pairs).Keys == {};
    }
  }
}
