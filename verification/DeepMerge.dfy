/** Merging a partial configuration into the current one. */
module DeepMerge {
  /** A parsed configuration value: a dict, or anything else (a scalar, null or a list). */
  datatype Config = Leaf(value: string) | Section(entries: map<string, Config>)

  /** p laid over b: dicts merge key by key, anything else in p replaces. */
  function Over(b: Config, p: Config): Config
    decreases p
  {
    if b.Section? && p.Section? then
      Section(map k | k in b.entries.Keys + p.entries.Keys ::
                if k !in p.entries then b.entries[k]
                else if k in b.entries then Over(b.entries[k], p.entries[k]) else p.entries[k])
    else p
  }

  /** What key holds once the loop has come to it. */
  function Settled(base: map<string, Config>, key: string, value: Config): Config {
    if key in base then Over(base[key], value) else value
  }

  lemma Replaces(base: map<string, Config>, key: string, value: Config)
    requires !(value.Section? && key in base && base[key].Section?)
    ensures Settled(base, key, value) == value
  {
  }

  lemma AllSettled(base: Config, patch: Config, out: map<string, Config>)
    requires base.Section? && patch.Section? && out.Keys == base.entries.Keys + patch.entries.Keys
    requires forall k | k in base.entries && k !in patch.entries :: out[k] == base.entries[k]
    requires forall k | k in patch.entries :: out[k] == Settled(base.entries, k, patch.entries[k])
    ensures Over(base, patch) == Section(out)
  {
    var merged := Over(base, patch).entries;
    forall k | k in out ensures k in merged && merged[k] == out[k] {
    }
    assert merged == out;
  }

  method Merge(base: Config, patch: Config) returns (merged: Config)
    requires base.Section? && patch.Section?
    ensures merged == Over(base, patch)
    decreases patch
  {
    hide Over;
    var out := base.entries;
    var todo := patch.entries.Keys;
    while todo != {}
      invariant todo <= patch.entries.Keys
      invariant forall k :: k in out <==> k in base.entries || (k in patch.entries && k !in todo)
      invariant forall k | k in base.entries && (k !in patch.entries || k in todo) :: out[k] == base.entries[k]
      invariant forall k | k in patch.entries && k !in todo :: out[k] == Settled(base.entries, k, patch.entries[k])
      decreases |todo|
    {
      var key :| key in todo;
      todo := todo - {key};
      var value := patch.entries[key];
      if value.Section? && key in out && out[key].Section? {
        var inner := Merge(out[key], value);
        out := out[key := inner];
      } else {
        Replaces(out, key, value);
        out := out[key := value];
      }
    }
    AllSettled(base, patch, out);
    merged := Section(out);
  }

  // ------------------------------------------------------------ what is at a path

  datatype Shape = Missing | IsLeaf(value: string) | IsSection

  function ShapeAt(c: Config, path: seq<string>): Shape {
    if path == [] then (if c.Leaf? then IsLeaf(c.value) else IsSection)
    else if c.Section? && path[0] in c.entries then ShapeAt(c.entries[path[0]], path[1..])
    else Missing
  }

  /** Some proper prefix of the path leads to a leaf. */
  predicate LeafAbove(c: Config, path: seq<string>) {
    path != [] && (c.Leaf? || (path[0] in c.entries && LeafAbove(c.entries[path[0]], path[1..])))
  }

  /** The merge, path by path: what the patch has there; else nothing below a leaf of the patch; else
      what the base has there. */
  lemma {:induction false} ShapeOfMerge(b: Config, p: Config, path: seq<string>)
    ensures ShapeAt(Over(b, p), path)
            == if ShapeAt(p, path) != Missing then ShapeAt(p, path)
               else if LeafAbove(p, path) then Missing
               else ShapeAt(b, path)
  {
    if path != [] && b.Section? && p.Section? && path[0] in b.entries && path[0] in p.entries {
      ShapeOfMerge(b.entries[path[0]], p.entries[path[0]], path[1..]);
    }
  }

  lemma {:induction false} LeafHasNothingBelow(c: Config, path: seq<string>)
    requires LeafAbove(c, path)
    ensures ShapeAt(c, path) == Missing
  {
    if c.Section? { LeafHasNothingBelow(c.entries[path[0]], path[1..]); }
  }

  /** Every leaf of the patch appears; a leaf of the base survives exactly when the patch has nothing at
      its path and no leaf above it, or has the same leaf; and there are no others. */
  lemma MergedLeaves(base: Config, patch: Config, path: seq<string>, v: string)
    ensures ShapeAt(Over(base, patch), path) == IsLeaf(v) <==>
              ShapeAt(patch, path) == IsLeaf(v)
              || (ShapeAt(base, path) == IsLeaf(v) && ShapeAt(patch, path) == Missing && !LeafAbove(patch, path))
  {
    ShapeOfMerge(base, patch, path);
  }

  lemma KeyShape(c: Config, k: string)
    requires c.Section?
    ensures ShapeAt(c, [k]) != Missing <==> k in c.entries
  {
    assert [k][1..] == [];
  }

  lemma ShapeUnder(c: Config, k: string, path: seq<string>)
    requires c.Section? && k in c.entries
    ensures ShapeAt(c, [k] + path) == ShapeAt(c.entries[k], path)
  {
    assert ([k] + path)[1..] == path;
  }

  /** What a configuration has at each path determines it. */
  lemma {:induction false} ShapesDetermine(a: Config, b: Config)
    requires forall path :: ShapeAt(a, path) == ShapeAt(b, path)
    ensures a == b
    decreases a
  {
    assert ShapeAt(a, []) == ShapeAt(b, []);
    if a.Section? {
      forall k ensures k in a.entries <==> k in b.entries {
        assert ShapeAt(a, [k]) == ShapeAt(b, [k]);
        KeyShape(a, k);
        KeyShape(b, k);
      }
      forall k | k in a.entries ensures a.entries[k] == b.entries[k] {
        forall path ensures ShapeAt(a.entries[k], path) == ShapeAt(b.entries[k], path) {
          assert ShapeAt(a, [k] + path) == ShapeAt(b, [k] + path);
          ShapeUnder(a, k, path);
          ShapeUnder(b, k, path);
        }
        ShapesDetermine(a.entries[k], b.entries[k]);
      }
      assert a.entries == b.entries;
    }
  }

  // ------------------------------------------------------------ laws

  const EMPTY := Section(map[])

  lemma MergeNothing(base: Config)
    requires base.Section?
    ensures Over(base, EMPTY) == base
  {
    forall path ensures ShapeAt(Over(base, EMPTY), path) == ShapeAt(base, path) {
      ShapeOfMerge(base, EMPTY, path);
    }
    ShapesDetermine(Over(base, EMPTY), base);
  }

  lemma MergeTwice(base: Config, patch: Config)
    ensures Over(Over(base, patch), patch) == Over(base, patch)
  {
    var once := Over(base, patch);
    forall path ensures ShapeAt(Over(once, patch), path) == ShapeAt(once, path) {
      ShapeOfMerge(base, patch, path);
      ShapeOfMerge(once, patch, path);
    }
    ShapesDetermine(Over(once, patch), once);
  }

  // ------------------------------------------------------------ two patches in a row

  /** A leaf of p where q has a dict. */
  ghost predicate Reopens(p: Config, q: Config, path: seq<string>) {
    ShapeAt(p, path).IsLeaf? && ShapeAt(q, path) == IsSection
  }

  lemma {:induction false} LeavesAboveMerge(p: Config, q: Config, path: seq<string>)
    requires forall prefix :: !Reopens(p, q, prefix)
    requires !LeafAbove(q, path)
    ensures LeafAbove(Over(p, q), path) <==> LeafAbove(p, path)
  {
    assert !Reopens(p, q, []);
    if path != [] && p.Section? && q.Section? && path[0] in p.entries && path[0] in q.entries {
      forall prefix ensures !Reopens(p.entries[path[0]], q.entries[path[0]], prefix) {
        assert !Reopens(p, q, [path[0]] + prefix);
      }
      LeavesAboveMerge(p.entries[path[0]], q.entries[path[0]], path[1..]);
    }
  }

  lemma {:induction false} LeafAboveStays(p: Config, q: Config, path: seq<string>)
    requires LeafAbove(q, path)
    ensures LeafAbove(Over(p, q), path)
  {
    if q.Section? && p.Section? && path[0] in p.entries {
      LeafAboveStays(p.entries[path[0]], q.entries[path[0]], path[1..]);
    }
  }

  lemma Associates(b: Config, p: Config, q: Config)
    requires forall path :: !Reopens(p, q, path)
    ensures Over(Over(b, p), q) == Over(b, Over(p, q))
  {
    forall path ensures ShapeAt(Over(Over(b, p), q), path) == ShapeAt(Over(b, Over(p, q)), path) {
      ShapeOfMerge(b, p, path);
      ShapeOfMerge(p, q, path);
      ShapeOfMerge(Over(b, p), q, path);
      ShapeOfMerge(b, Over(p, q), path);
      if LeafAbove(q, path) {
        LeafAboveStays(p, q, path);
        LeafHasNothingBelow(q, path);
      } else {
        LeavesAboveMerge(p, q, path);
      }
    }
    ShapesDetermine(Over(Over(b, p), q), Over(b, Over(p, q)));
  }

  /** The base that has one leaf, under key, in the dict at the path. */
  function Nest(path: seq<string>, key: string): Config {
    if path == [] then Section(map[key := Leaf("")]) else Section(map[path[0] := Nest(path[1..], key)])
  }

  function EntriesAt(c: Config, path: seq<string>): map<string, Config>
    requires ShapeAt(c, path) == IsSection
  {
    if path == [] then c.entries else EntriesAt(c.entries[path[0]], path[1..])
  }

  lemma {:induction false} ReopeningLosesKey(p: Config, q: Config, path: seq<string>, key: string)
    requires Reopens(p, q, path) && key !in EntriesAt(q, path)
    ensures ShapeAt(Over(Over(Nest(path, key), p), q), path + [key]) == Missing
    ensures ShapeAt(Over(Nest(path, key), Over(p, q)), path + [key]) == IsLeaf("")
  {
    var b := Nest(path, key);
    if path == [] {
      assert path + [key] == [key];
    } else {
      assert (path + [key])[1..] == path[1..] + [key];
      ReopeningLosesKey(p.entries[path[0]], q.entries[path[0]], path[1..], key);
    }
  }

  lemma {:induction false} Longer(keys: set<string>) returns (key: string)
    ensures key != "" && forall k | k in keys :: |k| < |key|
  {
    key := "a";
    if keys != {} {
      var k :| k in keys;
      var longer := Longer(keys - {k});
      key := longer + k;
    }
  }

  /** Two patches applied in turn always amount to their merge applied once exactly when the second has
      no dict where the first has a leaf. */
  lemma AssociativeExactlyWhen(p: Config, q: Config)
    ensures (forall b :: Over(Over(b, p), q) == Over(b, Over(p, q))) <==> forall path :: !Reopens(p, q, path)
  {
    if forall path :: !Reopens(p, q, path) {
      forall b ensures Over(Over(b, p), q) == Over(b, Over(p, q)) {
        Associates(b, p, q);
      }
    } else {
      var path :| Reopens(p, q, path);
      var key := Longer(EntriesAt(q, path).Keys);
      ReopeningLosesKey(p, q, path, key);
      assert Over(Over(Nest(path, key), p), q) != Over(Nest(path, key), Over(p, q));
    }
  }
}
