/** The bytes the authority signs, over Ed25519 (section 5.1 of RFC 8032) kept ideal. */
module Signing {
  import opened Json

  /** An ideal signature: it either covers one payload or verifies nothing. */
  datatype Signature = Junk(text: string) | Over(payload: string)

  predicate Verify(payload: string, sig: Signature) {
    sig == Over(payload)
  }

  /** Python truthiness. */
  predicate Truthy(j: Json) {
    match j
    case Null => false
    case Bool(b) => b
    case Num(n) => n != 0
    case Str(s) => s != ""
    case Arr(es) => es != []
    case Obj(fs) => fs != []
  }

  function OrEmpty(pairs: Json): Json {
    if Truthy(pairs) then pairs else Obj([])
  }

  /** What counts as no pairs: null, false, 0 and everything empty. */
  lemma NoPairsAre(pairs: Json)
    ensures OrEmpty(pairs) == if pairs in {Null, Bool(false), Num(0), Str(""), Arr([]), Obj([])} then Obj([]) else pairs
  {
  }

  function PayloadObject(version: int, defaultAction: Json, overrides: Json, pairs: Json): Json {
    Obj([Field("version", Num(version)), Field("default_action", defaultAction),
         Field("overrides", overrides), Field("pairs", OrEmpty(pairs))])
  }

  function CanonicalPayload(version: int, defaultAction: Json, overrides: Json, pairs: Json): string {
    Dumps(PayloadObject(version, defaultAction, overrides, pairs))
  }

  lemma FourSorted(d: Field, o: Field, p: Field, v: Field)
    requires d.key == "default_action" && o.key == "overrides" && p.key == "pairs" && v.key == "version"
    ensures Sort([v, d, o, p]) == [d, o, p, v]
  {
    assert [v, d, o, p][1..] == [d, o, p] && [d, o, p][1..] == [o, p] && [o, p][1..] == [p];
    assert Sort([p]) == [p];
    assert Sort([o, p]) == [o, p];
    assert Sort([d, o, p]) == [d, o, p];
    assert Insert(v, [p]) == [p, v];
    assert Insert(v, [o, p]) == [o, p, v] by { assert [o, p][1..] == [p]; }
    assert Insert(v, [d, o, p]) == [d, o, p, v] by { assert [d, o, p][1..] == [o, p]; }
  }

  lemma FourPrinted(a: Field, b: Field, c: Field, d: Field)
    ensures Print(Obj([a, b, c, d]))
            == "{" + (PrintField(a) + ("," + (PrintField(b) + ("," + (PrintField(c) + ("," + (PrintField(d) + "}")))))))
  {
    assert [a, b, c, d][1..] == [b, c, d] && [b, c, d][1..] == [c, d] && [c, d][1..] == [d] && [d][1..] == [];
    assert PrintFields([]) == "}";
    assert PrintFields([d]) == "," + (PrintField(d) + "}");
    assert PrintFields([c, d]) == "," + (PrintField(c) + PrintFields([d]));
    assert PrintFields([b, c, d]) == "," + (PrintField(b) + PrintFields([c, d]));
  }

  /** "name":value, without blanks. */
  function Member(name: string, value: Json): string {
    "\"" + name + "\":" + Dumps(value)
  }

  lemma MemberPrinted(name: string, value: Json)
    requires PlainText(name)
    ensures PrintField(Field(name, Canon(value))) == Member(name, value)
  {
    hide PrintField, Print, Canon;
    PlainMember(name, Canon(value));
  }

  lemma PlainNames()
    ensures PlainText("version") && PlainText("default_action") && PlainText("overrides") && PlainText("pairs")
  {
  }

  /** The signed text, whatever the fields hold: the four members in alphabetical order. */
  lemma PayloadText(version: int, defaultAction: Json, overrides: Json, pairs: Json)
    ensures CanonicalPayload(version, defaultAction, overrides, pairs)
            == "{" + (Member("default_action", defaultAction) + ("," + (Member("overrides", overrides)
               + ("," + (Member("pairs", OrEmpty(pairs)) + ("," + (Member("version", Num(version)) + "}")))))))
  {
    var d, o := Field("default_action", Canon(defaultAction)), Field("overrides", Canon(overrides));
    var p, v := Field("pairs", Canon(OrEmpty(pairs))), Field("version", Canon(Num(version)));
    PlainNames();
    PayloadCanon(version, defaultAction, overrides, pairs, d, o, p, v);
    hide CanonicalPayload, Print, PrintField, Sort, OrEmpty, Member, PlainText, Canon;
    FourPrinted(d, o, p, v);
    MemberPrinted("default_action", defaultAction);
    MemberPrinted("overrides", overrides);
    MemberPrinted("pairs", OrEmpty(pairs));
    MemberPrinted("version", Num(version));
  }

  lemma PayloadCanon(version: int, defaultAction: Json, overrides: Json, pairs: Json,
                     d: Field, o: Field, p: Field, v: Field)
    requires d == Field("default_action", Canon(defaultAction)) && o == Field("overrides", Canon(overrides))
    requires p == Field("pairs", Canon(OrEmpty(pairs))) && v == Field("version", Canon(Num(version)))
    ensures CanonicalPayload(version, defaultAction, overrides, pairs) == Print(Obj([d, o, p, v]))
  {
    hide Print, Sort, OrEmpty;
    var fs := PayloadObject(version, defaultAction, overrides, pairs).fields;
    assert CanonFields(fs) == [v, d, o, p];
    FourSorted(d, o, p, v);
  }

  /** Objects listing the same distinct keys in the same order compare field by field. */
  lemma SameAligned(fs: seq<Field>, gs: seq<Field>)
    requires |fs| == |gs| && DistinctKeys(fs)
    requires forall i | 0 <= i < |fs| :: fs[i].key == gs[i].key
    ensures Same(Obj(fs), Obj(gs)) <==> forall i | 0 <= i < |fs| :: Same(fs[i].value, gs[i].value)
  {
  }

  lemma PayloadWellFormed(v: int, d: Json, o: Json, p: Json)
    requires WellFormed(d) && WellFormed(o) && WellFormed(p)
    ensures WellFormed(PayloadObject(v, d, o, p))
  {
    var fs := PayloadObject(v, d, o, p).fields;
    assert |fs[0].key| == 7 && |fs[1].key| == 14 && |fs[2].key| == 9 && |fs[3].key| == 5;
  }

  /** Two updates are signed with the same bytes exactly when version, default action, overrides
      and pairs agree as Python values, except that every falsy `pairs` stands for {}. */
  lemma PayloadDecides(v: int, d: Json, o: Json, p: Json, v': int, d': Json, o': Json, p': Json)
    requires WellFormed(d) && WellFormed(o) && WellFormed(p)
    requires WellFormed(d') && WellFormed(o') && WellFormed(p')
    ensures CanonicalPayload(v, d, o, p) == CanonicalPayload(v', d', o', p') <==>
            v == v' && Same(d, d') && Same(o, o') && Same(OrEmpty(p), OrEmpty(p'))
  {
    hide PayloadObject, Dumps, Same, WellFormed;
    PayloadWellFormed(v, d, o, p);
    PayloadWellFormed(v', d', o', p');
    DumpsDecidesSame(PayloadObject(v, d, o, p), PayloadObject(v', d', o', p'));
    PayloadSame(v, d, o, p, v', d', o', p');
  }

  lemma PayloadSame(v: int, d: Json, o: Json, p: Json, v': int, d': Json, o': Json, p': Json)
    ensures Same(PayloadObject(v, d, o, p), PayloadObject(v', d', o', p')) <==>
            v == v' && Same(d, d') && Same(o, o') && Same(OrEmpty(p), OrEmpty(p'))
  {
    var fs, gs := PayloadObject(v, d, o, p).fields, PayloadObject(v', d', o', p').fields;
    assert |fs[0].key| == 7 && |fs[1].key| == 14 && |fs[2].key| == 9 && |fs[3].key| == 5;
    FourFields(fs, gs);
  }

  lemma FourFields(fs: seq<Field>, gs: seq<Field>)
    requires |fs| == |gs| == 4 && DistinctKeys(fs)
    requires forall i | 0 <= i < 4 :: fs[i].key == gs[i].key
    ensures Same(Obj(fs), Obj(gs)) <==>
            && Same(fs[0].value, gs[0].value) && Same(fs[1].value, gs[1].value)
            && Same(fs[2].value, gs[2].value) && Same(fs[3].value, gs[3].value)
  {
    SameAligned(fs, gs);
  }
}
