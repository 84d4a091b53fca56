/** JSON values as json.loads delivers them and the canonical printer the authority signs.

    A Python dict keeps insertion order, so an object is a sequence of fields. Floats are left out. */
module Json {
  import Decimal
  import opened Sequences

  datatype Json =
    | Null
    | Bool(b: bool)
    | Num(n: int)
    | Str(s: string)
    | Arr(elems: seq<Json>)
    | Obj(fields: seq<Field>)

  datatype Field = Field(key: string, value: Json)

  /** Dict keys are distinct, at every depth. */
  predicate WellFormed(j: Json) {
    match j
    case Arr(es) => forall i | 0 <= i < |es| :: WellFormed(es[i])
    case Obj(fs) =>
      && (forall i, k | 0 <= i < k < |fs| :: fs[i].key != fs[k].key)
      && (forall i | 0 <= i < |fs| :: WellFormed(fs[i].value))
    case _ => true
  }

  ghost predicate HasKey(fs: seq<Field>, key: string) {
    exists i | 0 <= i < |fs| :: fs[i].key == key
  }

  /** Python's ==: objects are compared as mappings, whatever their insertion order. */
  ghost predicate Same(a: Json, b: Json)
    decreases a
  {
    match (a, b)
    case (Arr(es), Arr(gs)) =>
      |es| == |gs| && forall i | 0 <= i < |es| :: Same(es[i], gs[i])
    case (Obj(fs), Obj(gs)) =>
      && (forall i | 0 <= i < |fs| :: HasKey(gs, fs[i].key))
      && (forall k | 0 <= k < |gs| :: HasKey(fs, gs[k].key))
      && (forall i, k | 0 <= i < |fs| && 0 <= k < |gs| && fs[i].key == gs[k].key ::
            Same(fs[i].value, gs[k].value))
    case _ => a == b
  }

  // ------------------------------------------------------------ string order and sorting

  /** Python compares strings by code point. */
  predicate Less(a: string, b: string) {
    b != [] && (a == [] || a[0] < b[0] || (a[0] == b[0] && Less(a[1..], b[1..])))
  }

  lemma {:induction false} LessTrichotomy(a: string, b: string)
    ensures a == b || Less(a, b) || Less(b, a)
    ensures !(Less(a, b) && Less(b, a))
    ensures a == b ==> !Less(a, b)
  {
    if a != [] && b != [] {
      LessTrichotomy(a[1..], b[1..]);
      if a[0] == b[0] && a[1..] == b[1..] {
        assert a == [a[0]] + a[1..] && b == [b[0]] + b[1..];
      }
    }
  }

  lemma {:induction false} LessTransitive(a: string, b: string, c: string)
    requires Less(a, b) && Less(b, c)
    ensures Less(a, c)
  {
    if a != [] && a[0] == b[0] == c[0] {
      LessTransitive(a[1..], b[1..], c[1..]);
    }
  }

  ghost predicate Sorted(fs: seq<Field>) {
    forall i, k | 0 <= i < k < |fs| :: Less(fs[i].key, fs[k].key)
  }

  ghost predicate DistinctKeys(fs: seq<Field>) {
    forall i, k | 0 <= i < k < |fs| :: fs[i].key != fs[k].key
  }

  function Insert(f: Field, fs: seq<Field>): seq<Field> {
    if fs == [] || Less(f.key, fs[0].key) then [f] + fs else [fs[0]] + Insert(f, fs[1..])
  }

  function Sort(fs: seq<Field>): seq<Field> {
    if fs == [] then [] else Insert(fs[0], Sort(fs[1..]))
  }

  lemma {:induction false} InsertSorted(f: Field, fs: seq<Field>)
    requires Sorted(fs) && !HasKey(fs, f.key)
    ensures Sorted(Insert(f, fs))
    ensures forall g :: g in Insert(f, fs) <==> g == f || g in fs
  {
    if fs == [] {
    } else if Less(f.key, fs[0].key) {
      forall i | 0 <= i < |fs| ensures Less(f.key, fs[i].key) {
        if i > 0 { LessTransitive(f.key, fs[0].key, fs[i].key); }
      }
    } else {
      var rest := fs[1..];
      assert forall i | 0 <= i < |rest| :: rest[i] == fs[i + 1];
      InsertSorted(f, rest);
      assert fs[0].key != f.key;
      LessTrichotomy(f.key, fs[0].key);
      var tail := Insert(f, rest);
      forall i | 0 <= i < |tail| ensures Less(fs[0].key, tail[i].key) {
        assert tail[i] in tail;
      }
      assert fs == [fs[0]] + rest;
    }
  }

  lemma SameKeys(fs: seq<Field>, gs: seq<Field>, key: string)
    requires forall g :: g in fs <==> g in gs
    ensures HasKey(fs, key) <==> HasKey(gs, key)
  {
    if HasKey(fs, key) {
      var i :| 0 <= i < |fs| && fs[i].key == key;
      assert fs[i] in gs;
    }
    if HasKey(gs, key) {
      var i :| 0 <= i < |gs| && gs[i].key == key;
      assert gs[i] in fs;
    }
  }

  lemma {:induction false} SortSorted(fs: seq<Field>)
    requires DistinctKeys(fs)
    ensures Sorted(Sort(fs))
    ensures forall g :: g in Sort(fs) <==> g in fs
  {
    if fs != [] {
      SortSorted(fs[1..]);
      SameKeys(fs[1..], Sort(fs[1..]), fs[0].key);
      InsertSorted(fs[0], Sort(fs[1..]));
      assert fs == [fs[0]] + fs[1..];
    }
  }

  /** A strictly sorted listing is determined by what it lists. */
  lemma {:induction false} SortedUnique(a: seq<Field>, b: seq<Field>)
    requires Sorted(a) && Sorted(b)
    requires forall g :: g in a <==> g in b
    ensures a == b
  {
    assert a != [] ==> a[0] in b;
    assert b != [] ==> b[0] in a;
    if a != [] {
      FirstIsLeast(a, b);
      FirstIsLeast(b, a);
      LessTrichotomy(a[0].key, b[0].key);
      forall g ensures g in a[1..] <==> g in b[1..] {
        TailMembers(a, g);
        TailMembers(b, g);
      }
      SortedUnique(a[1..], b[1..]);
      assert a == [a[0]] + a[1..] && b == [b[0]] + b[1..];
    }
  }

  lemma FirstIsLeast(a: seq<Field>, b: seq<Field>)
    requires a != [] && b != [] && Sorted(b) && a[0] in b
    ensures a[0] == b[0] || Less(b[0].key, a[0].key)
  {
    var i :| 0 <= i < |b| && b[i] == a[0];
  }

  lemma TailMembers(a: seq<Field>, g: Field)
    requires a != [] && Sorted(a)
    ensures g in a[1..] <==> g in a && g != a[0]
  {
    if g in a[1..] {
      var i :| 0 <= i < |a[1..]| && a[1..][i] == g;
      assert Less(a[0].key, a[i + 1].key);
      LessTrichotomy(g.key, g.key);
    }
    if g in a && g != a[0] {
      var i :| 0 <= i < |a| && a[i] == g;
      assert a[1..][i - 1] == g;
    }
  }

  // ------------------------------------------------------------ canonical form

  /** json.dumps(sort_keys=True) prints every object with its keys in order. */
  function Canon(j: Json): Json {
    match j
    case Arr(es) => Arr(seq(|es|, i requires 0 <= i < |es| => Canon(es[i])))
    case Obj(fs) => Obj(Sort(CanonFields(fs)))
    case _ => j
  }

  function CanonFields(fs: seq<Field>): seq<Field> {
    seq(|fs|, i requires 0 <= i < |fs| => Field(fs[i].key, Canon(fs[i].value)))
  }

  lemma {:induction false} CanonDecidesSame(a: Json, b: Json)
    requires WellFormed(a) && WellFormed(b)
    ensures Canon(a) == Canon(b) <==> Same(a, b)
    decreases a
  {
    match (a, b)
    case (Arr(es), Arr(gs)) =>
      forall i | 0 <= i < |es| && i < |gs|
        ensures Canon(es[i]) == Canon(gs[i]) <==> Same(es[i], gs[i])
      {
        CanonDecidesSame(es[i], gs[i]);
      }
      if Canon(a) == Canon(b) {
        forall i | 0 <= i < |es| ensures Canon(es[i]) == Canon(gs[i]) {
          assert Canon(a).elems[i] == Canon(b).elems[i];
        }
      }
    case (Obj(fs), Obj(gs)) =>
      forall i, k | 0 <= i < |fs| && 0 <= k < |gs|
        ensures Canon(fs[i].value) == Canon(gs[k].value) <==> Same(fs[i].value, gs[k].value)
      {
        CanonDecidesSame(fs[i].value, gs[k].value);
      }
      CanonFieldsDecide(fs, gs);
    case _ =>
  }

  ghost predicate SameEntries(fs: seq<Field>, gs: seq<Field>) {
    && (forall i | 0 <= i < |fs| :: HasKey(gs, fs[i].key))
    && (forall k | 0 <= k < |gs| :: HasKey(fs, gs[k].key))
    && (forall i, k | 0 <= i < |fs| && 0 <= k < |gs| && fs[i].key == gs[k].key ::
          Canon(fs[i].value) == Canon(gs[k].value))
  }

  /** Two dicts sort to the same listing exactly when they have the same keys and values. */
  lemma CanonFieldsDecide(fs: seq<Field>, gs: seq<Field>)
    requires DistinctKeys(fs) && DistinctKeys(gs)
    ensures Sort(CanonFields(fs)) == Sort(CanonFields(gs)) <==> SameEntries(fs, gs)
  {
    var cf, cg := CanonFields(fs), CanonFields(gs);
    SortSorted(cf);
    SortSorted(cg);
    if Sort(cf) == Sort(cg) {
      assert forall g :: g in cf <==> g in cg;
      MembersGiveEntries(fs, gs);
    }
    if SameEntries(fs, gs) {
      EntriesGiveMembers(fs, gs);
      EntriesGiveMembers(gs, fs);
      SortedUnique(Sort(cf), Sort(cg));
    }
  }

  lemma MembersGiveEntries(fs: seq<Field>, gs: seq<Field>)
    requires DistinctKeys(fs) && DistinctKeys(gs)
    requires forall g :: g in CanonFields(fs) <==> g in CanonFields(gs)
    ensures SameEntries(fs, gs)
  {
    var cf, cg := CanonFields(fs), CanonFields(gs);
    forall i | 0 <= i < |fs| ensures HasKey(gs, fs[i].key) {
      assert cf[i] in cg;
      var m :| 0 <= m < |cg| && cg[m] == cf[i];
      assert gs[m].key == fs[i].key;
    }
    forall k | 0 <= k < |gs| ensures HasKey(fs, gs[k].key) {
      assert cg[k] in cf;
      var m :| 0 <= m < |cf| && cf[m] == cg[k];
      assert fs[m].key == gs[k].key;
    }
    forall i, k | 0 <= i < |fs| && 0 <= k < |gs| && fs[i].key == gs[k].key
      ensures Canon(fs[i].value) == Canon(gs[k].value)
    {
      assert cf[i] in cg;
      var m :| 0 <= m < |cg| && cg[m] == cf[i];
      assert gs[m].key == gs[k].key;
    }
  }

  lemma EntriesGiveMembers(fs: seq<Field>, gs: seq<Field>)
    requires SameEntries(fs, gs)
    ensures forall g :: g in CanonFields(fs) ==> g in CanonFields(gs)
  {
    var cf, cg := CanonFields(fs), CanonFields(gs);
    forall g | g in cf ensures g in cg {
      var i :| 0 <= i < |cf| && cf[i] == g;
      var k :| 0 <= k < |gs| && gs[k].key == fs[i].key;
      assert cg[k] == g;
    }
  }

  // ------------------------------------------------------------ printing

  function HexDigit(d: nat): (c: char)
    requires d < 16
    ensures forall e: nat | e < 16 && "0123456789abcdef"[e] == c :: e == d
  {
    "0123456789abcdef"[d]
  }

  function Hex4(n: nat): (s: string)
    requires n < 0x1_0000
    ensures |s| == 4
  {
    [HexDigit(n / 4096), HexDigit(n / 256 % 16), HexDigit(n / 16 % 16), HexDigit(n % 16)]
  }

  predicate NeedsUnicodeEscape(c: char) {
    !(' ' <= c <= '~') && c !in {'\n', '\r', '\t'} && c as int != 8 && c as int != 12
  }

  /** The first UTF-16 unit of a character, and what follows its escape. */
  function FirstUnit(c: char): (u: nat)
    ensures u < 0x1_0000
  {
    if c as int < 0x1_0000 then c as int else 0xD800 + (c as int - 0x1_0000) / 1024
  }

  function SecondUnit(c: char): string {
    if c as int < 0x1_0000 then "" else "\\u" + Hex4(0xDC00 + (c as int - 0x1_0000) % 1024)
  }

  function UnicodeEscape(c: char): (s: string)
    requires NeedsUnicodeEscape(c)
    ensures |s| > 1 && s[0] == '\\' && s[1] == 'u'
  {
    ("\\u" + Hex4(FirstUnit(c))) + SecondUnit(c)
  }

  /** One character as json.dumps(ensure_ascii=True) writes it inside quotes. */
  function EscChar(c: char): (s: string)
    ensures s != [] && s[0] != '"'
  {
    var n := c as int;
    if c == '"' then "\\\""
    else if c == '\\' then "\\\\"
    else if c == '\n' then "\\n"
    else if c == '\r' then "\\r"
    else if c == '\t' then "\\t"
    else if n == 8 then "\\b"
    else if n == 12 then "\\f"
    else if ' ' <= c <= '~' then [c]
    else UnicodeEscape(c)
  }

  lemma Hex4Injective(n: nat, m: nat)
    requires n < 0x1_0000 && m < 0x1_0000
    requires Hex4(n) == Hex4(m)
    ensures n == m
  {
    var a, b := Hex4(n), Hex4(m);
    assert a[0] == b[0] && a[1] == b[1] && a[2] == b[2] && a[3] == b[3];
    assert n / 4096 == m / 4096 && n / 256 % 16 == m / 256 % 16
        && n / 16 % 16 == m / 16 % 16 && n % 16 == m % 16;
    assert n / 256 == n / 256 / 16 * 16 + n / 256 % 16 && n / 256 / 16 == n / 4096;
    assert n / 16 == n / 16 / 16 * 16 + n / 16 % 16 && n / 16 / 16 == n / 256;
    assert m / 256 == m / 256 / 16 * 16 + m / 256 % 16 && m / 256 / 16 == m / 4096;
    assert m / 16 == m / 16 / 16 * 16 + m / 16 % 16 && m / 16 / 16 == m / 256;
  }

  lemma SecondUnitDelimited(c: char, d: char, s: string, t: string)
    requires c as int >= 0x1_0000 && d as int >= 0x1_0000
    requires SecondUnit(c) + s == SecondUnit(d) + t
    ensures (c as int - 0x1_0000) % 1024 == (d as int - 0x1_0000) % 1024
  {
    var u, v := 0xDC00 + (c as int - 0x1_0000) % 1024, 0xDC00 + (d as int - 0x1_0000) % 1024;
    Cancel(SecondUnit(c), s, SecondUnit(d), t);
    Cancel("\\u", Hex4(u), "\\u", Hex4(v));
    Hex4Injective(u, v);
  }

  lemma UnicodeEscapeDelimited(c: char, d: char, s: string, t: string)
    requires NeedsUnicodeEscape(c) && NeedsUnicodeEscape(d)
    requires UnicodeEscape(c) + s == UnicodeEscape(d) + t
    ensures c == d
  {
    hide SecondUnit, Hex4, FirstUnit, NeedsUnicodeEscape;
    var p, q := "\\u" + Hex4(FirstUnit(c)), "\\u" + Hex4(FirstUnit(d));
    Regroup(p, SecondUnit(c), s, q, SecondUnit(d), t);
    Cancel(p, SecondUnit(c) + s, q, SecondUnit(d) + t);
    Cancel("\\u", Hex4(FirstUnit(c)), "\\u", Hex4(FirstUnit(d)));
    Hex4Injective(FirstUnit(c), FirstUnit(d));
    SameFirstUnit(c, d);
    if c as int >= 0x1_0000 {
      SecondUnitDelimited(c, d, s, t);
    }
  }

  lemma SameFirstUnit(c: char, d: char)
    requires FirstUnit(c) == FirstUnit(d)
    ensures c as int < 0x1_0000 ==> c == d
    ensures c as int >= 0x1_0000 ==>
              d as int >= 0x1_0000 && (c as int - 0x1_0000) / 1024 == (d as int - 0x1_0000) / 1024
    ensures c as int >= 0x1_0000 && (c as int - 0x1_0000) % 1024 == (d as int - 0x1_0000) % 1024 ==> c == d
  {
  }

  /** No escape is a prefix of another: the first character of the text can be read back. */
  lemma EscCharDelimited(c: char, d: char, s: string, t: string)
    requires EscChar(c) + s == EscChar(d) + t
    ensures c == d && s == t
  {
    hide UnicodeEscape, Hex4;
    SameHead(EscChar(c), s, EscChar(d), t);
    if EscChar(c)[0] == '\\' {
      EscSecond(c, d, s, t);
      if NeedsUnicodeEscape(c) {
        UnicodeEscapeDelimited(c, d, s, t);
      }
    }
    Cancel(EscChar(c), s, EscChar(d), t);
  }

  lemma EscSecond(c: char, d: char, s: string, t: string)
    requires EscChar(c) + s == EscChar(d) + t
    requires |EscChar(c)| > 1 && |EscChar(d)| > 1
    ensures EscChar(c)[1] == EscChar(d)[1]
  {
    assert (EscChar(c) + s)[1] == EscChar(c)[1] && (EscChar(d) + t)[1] == EscChar(d)[1];
  }

  function QuoteTail(s: string): (r: string)
    ensures r != []
  {
    if s == [] then "\"" else EscChar(s[0]) + QuoteTail(s[1..])
  }

  lemma {:induction false} QuoteTailDelimited(a: string, b: string, s: string, t: string)
    requires QuoteTail(a) + s == QuoteTail(b) + t
    ensures a == b && s == t
  {
    SameHead(QuoteTail(a), s, QuoteTail(b), t);
    assert a != [] ==> QuoteTail(a)[0] == EscChar(a[0])[0];
    assert b != [] ==> QuoteTail(b)[0] == EscChar(b[0])[0];
    if a == [] {
      Cancel(QuoteTail(a), s, QuoteTail(b), t);
    } else {
      var u, v := QuoteTail(a[1..]), QuoteTail(b[1..]);
      Regroup(EscChar(a[0]), u, s, EscChar(b[0]), v, t);
      EscCharDelimited(a[0], b[0], u + s, v + t);
      QuoteTailDelimited(a[1..], b[1..], s, t);
      assert a == [a[0]] + a[1..] && b == [b[0]] + b[1..];
    }
  }

  function Print(j: Json): (r: string)
    ensures r != []
    decreases j, 1
  {
    match j
    case Null => "null"
    case Bool(b) => if b then "true" else "false"
    case Num(n) => Decimal.Int(n)
    case Str(s) => "\"" + QuoteTail(s)
    case Arr(es) => "[" + (if es == [] then "]" else Print(es[0]) + PrintElems(es[1..]))
    case Obj(fs) => "{" + (if fs == [] then "}" else PrintField(fs[0]) + PrintFields(fs[1..]))
  }

  function PrintElems(es: seq<Json>): (r: string)
    ensures Stop(r)
    decreases es, 0
  {
    if es == [] then "]" else "," + (Print(es[0]) + PrintElems(es[1..]))
  }

  function PrintField(f: Field): (r: string)
    ensures r != []
    decreases f, 1
  {
    "\"" + (QuoteTail(f.key) + (":" + Print(f.value)))
  }

  function PrintFields(fs: seq<Field>): (r: string)
    ensures Stop(r)
    decreases fs, 0
  {
    if fs == [] then "}" else "," + (PrintField(fs[0]) + PrintFields(fs[1..]))
  }

  /** What may follow a printed value: nothing, a separator or a closing bracket. */
  predicate Stop(s: string) {
    s == [] || s[0] in {',', ']', '}'}
  }

  lemma PrintHead(j: Json)
    ensures match j
      case Null => Print(j)[0] == 'n'
      case Bool(b) => Print(j)[0] == if b then 't' else 'f'
      case Num(_) => Print(j)[0] == '-' || Decimal.IsDigit(Print(j)[0])
      case Str(_) => Print(j)[0] == '"'
      case Arr(_) => Print(j)[0] == '['
      case Obj(_) => Print(j)[0] == '{'
  {
  }

  /** A value can be read back off the front of a text in which a separator, a closing bracket or nothing
      follows it. */
  lemma {:induction false} PrintDelimited(a: Json, b: Json, s: string, t: string)
    requires Print(a) + s == Print(b) + t && Stop(s) && Stop(t)
    ensures a == b && s == t
    decreases a, 1
  {
    PrintHead(a);
    PrintHead(b);
    SameHead(Print(a), s, Print(b), t);
    match a
    case Null => Cancel(Print(a), s, Print(b), t);
    case Bool(_) => Cancel(Print(a), s, Print(b), t);
    case Num(n) => Decimal.IntDelimited(n, b.n, s, t);
    case Str(x) =>
      Peel("\"", QuoteTail(x), s, QuoteTail(b.s), t);
      QuoteTailDelimited(x, b.s, s, t);
    case Arr(es) => ArrDelimited(es, b.elems, s, t);
    case Obj(fs) => ObjDelimited(fs, b.fields, s, t);
  }

  /** Dropping a shared first part from two texts. */
  lemma Peel(p: string, x: string, s: string, y: string, t: string)
    requires (p + x) + s == (p + y) + t
    ensures x + s == y + t
  {
    Regroup(p, x, s, p, y, t);
    Cancel(p, x + s, p, y + t);
  }

  lemma {:induction false} ArrDelimited(es: seq<Json>, gs: seq<Json>, s: string, t: string)
    requires Print(Arr(es)) + s == Print(Arr(gs)) + t && Stop(s) && Stop(t)
    ensures es == gs && s == t
    decreases es, 1
  {
    var x := if es == [] then "]" else Print(es[0]) + PrintElems(es[1..]);
    var y := if gs == [] then "]" else Print(gs[0]) + PrintElems(gs[1..]);
    Peel("[", x, s, y, t);
    SameHead(x, s, y, t);
    if es != [] { PrintHead(es[0]); }
    if gs != [] { PrintHead(gs[0]); }
    if es == [] {
      Cancel(x, s, y, t);
    } else {
      Regroup(Print(es[0]), PrintElems(es[1..]), s, Print(gs[0]), PrintElems(gs[1..]), t);
      PrintDelimited(es[0], gs[0], PrintElems(es[1..]) + s, PrintElems(gs[1..]) + t);
      ElemsDelimited(es[1..], gs[1..], s, t);
      assert es == [es[0]] + es[1..] && gs == [gs[0]] + gs[1..];
    }
  }

  lemma {:induction false} ElemsDelimited(es: seq<Json>, gs: seq<Json>, s: string, t: string)
    requires PrintElems(es) + s == PrintElems(gs) + t && Stop(s) && Stop(t)
    ensures es == gs && s == t
    decreases es, 0
  {
    SameHead(PrintElems(es), s, PrintElems(gs), t);
    if es == [] {
      Cancel("]", s, "]", t);
    } else {
      var u, v := PrintElems(es[1..]), PrintElems(gs[1..]);
      Peel(",", Print(es[0]) + u, s, Print(gs[0]) + v, t);
      Regroup(Print(es[0]), u, s, Print(gs[0]), v, t);
      PrintDelimited(es[0], gs[0], u + s, v + t);
      ElemsDelimited(es[1..], gs[1..], s, t);
      assert es == [es[0]] + es[1..] && gs == [gs[0]] + gs[1..];
    }
  }

  lemma {:induction false} FieldDelimited(f: Field, g: Field, s: string, t: string)
    requires PrintField(f) + s == PrintField(g) + t && Stop(s) && Stop(t)
    ensures f == g && s == t
    decreases f, 2
  {
    var u, v := ":" + Print(f.value), ":" + Print(g.value);
    Peel("\"", QuoteTail(f.key) + u, s, QuoteTail(g.key) + v, t);
    Regroup(QuoteTail(f.key), u, s, QuoteTail(g.key), v, t);
    QuoteTailDelimited(f.key, g.key, u + s, v + t);
    Peel(":", Print(f.value), s, Print(g.value), t);
    PrintDelimited(f.value, g.value, s, t);
  }

  lemma {:induction false} ObjDelimited(fs: seq<Field>, gs: seq<Field>, s: string, t: string)
    requires Print(Obj(fs)) + s == Print(Obj(gs)) + t && Stop(s) && Stop(t)
    ensures fs == gs && s == t
    decreases fs, 1
  {
    var x := if fs == [] then "}" else PrintField(fs[0]) + PrintFields(fs[1..]);
    var y := if gs == [] then "}" else PrintField(gs[0]) + PrintFields(gs[1..]);
    Peel("{", x, s, y, t);
    SameHead(x, s, y, t);
    if fs == [] {
      Cancel(x, s, y, t);
    } else {
      Regroup(PrintField(fs[0]), PrintFields(fs[1..]), s, PrintField(gs[0]), PrintFields(gs[1..]), t);
      FieldDelimited(fs[0], gs[0], PrintFields(fs[1..]) + s, PrintFields(gs[1..]) + t);
      FieldsDelimited(fs[1..], gs[1..], s, t);
      assert fs == [fs[0]] + fs[1..] && gs == [gs[0]] + gs[1..];
    }
  }

  lemma {:induction false} FieldsDelimited(fs: seq<Field>, gs: seq<Field>, s: string, t: string)
    requires PrintFields(fs) + s == PrintFields(gs) + t && Stop(s) && Stop(t)
    ensures fs == gs && s == t
    decreases fs, 0
  {
    SameHead(PrintFields(fs), s, PrintFields(gs), t);
    if fs == [] {
      Cancel("}", s, "}", t);
    } else {
      var u, v := PrintFields(fs[1..]), PrintFields(gs[1..]);
      Peel(",", PrintField(fs[0]) + u, s, PrintField(gs[0]) + v, t);
      Regroup(PrintField(fs[0]), u, s, PrintField(gs[0]), v, t);
      FieldDelimited(fs[0], gs[0], u + s, v + t);
      FieldsDelimited(fs[1..], gs[1..], s, t);
      assert fs == [fs[0]] + fs[1..] && gs == [gs[0]] + gs[1..];
    }
  }

  predicate PlainText(s: string) {
    forall i | 0 <= i < |s| :: ' ' <= s[i] <= '~' && s[i] != '"' && s[i] != '\\'
  }

  /** Printable ASCII other than the quote and the backslash stands for itself. */
  lemma {:induction false} PlainQuoted(s: string)
    requires PlainText(s)
    ensures QuoteTail(s) == s + "\""
  {
    if s != [] {
      PlainQuoted(s[1..]);
      assert EscChar(s[0]) == [s[0]];
      hide EscChar;
      assert s == [s[0]] + s[1..];
    }
  }

  /** A member as it is printed: quoted name, colon, value. */
  lemma PlainMember(key: string, value: Json)
    requires PlainText(key)
    ensures PrintField(Field(key, value)) == "\"" + key + "\":" + Print(value)
  {
    PlainQuoted(key);
    hide QuoteTail, Print, PlainText;
    MemberText(key, Print(value));
  }

  lemma MemberText(key: string, text: string)
    ensures "\"" + ((key + "\"") + (":" + text)) == "\"" + key + "\":" + text
  {
    Assoc(key, "\"", ":" + text);
    Assoc("\"", ":", text);
    assert "\"" + ":" == "\":";
    Assoc("\"" + key, "\":", text);
    Assoc("\"", key, "\":" + text);
  }

  /** json.dumps(j, sort_keys=True, separators=(",", ":")). */
  function Dumps(j: Json): string {
    Print(Canon(j))
  }

  /** The canonical text ignores insertion order and nothing else. */
  lemma DumpsDecidesSame(a: Json, b: Json)
    requires WellFormed(a) && WellFormed(b)
    ensures Dumps(a) == Dumps(b) <==> Same(a, b)
  {
    CanonDecidesSame(a, b);
    if Dumps(a) == Dumps(b) {
      assert Dumps(a) + "" == Dumps(b) + "";
      PrintDelimited(Canon(a), Canon(b), "", "");
    }
  }
}
