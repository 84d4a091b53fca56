/** The XML codec's tree layer: plain values to elements and back. */
module XmlTree {
  import opened Wrappers

  /** A plain value as model_dump(mode="json") gives it. A dict keeps its order and its keys are
      distinct. Scalar is any number or string, with the text str() gives it. */
  datatype Value =
    | VNull
    | VBool(b: bool)
    | Scalar(text: string)
    | VList(items: seq<Value>)
    | VDict(entries: seq<Entry>)

  datatype Entry = Entry(key: string, value: Value)

  /** An element as the XML library stores it; written and parsed, empty text comes back as None. */
  datatype Element = Element(tag: string, text: Option<string>, children: seq<Element>)

  const ITEM := "item"

  predicate DistinctKeys(es: seq<Entry>) {
    forall i, k | 0 <= i < k < |es| :: es[i].key != es[k].key
  }

  /** A Python value: dict keys distinct at every depth. */
  predicate WellFormed(v: Value) {
    match v
    case VList(items) => forall i | 0 <= i < |items| :: WellFormed(items[i])
    case VDict(es) => DistinctKeys(es) && forall i | 0 <= i < |es| :: WellFormed(es[i].value)
    case _ => true
  }

  function TextNode(tag: string, text: string): Element {
    Element(tag, if text == "" then None else Some(text), [])
  }

  /** _to_xml_value. repr stands for str() of a container. */
  function ToXmlValue(v: Value, repr: Value -> string): string {
    match v
    case VBool(b) => if b then "true" else "false"
    case VNull => "None"
    case Scalar(text) => text
    case _ => repr(v)
  }

  // ------------------------------------------------------------ encoding

  /** The children _dict_to_elements appends for a dict. */
  function Children(es: seq<Entry>, repr: Value -> string): (r: seq<Element>)
    ensures |r| == |es|
    decreases es, 0
  {
    seq(|es|, i requires 0 <= i < |es| => Encode(es[i].key, es[i].value, repr))
  }

  function Encode(key: string, v: Value, repr: Value -> string): (r: Element)
    ensures r.tag == key
    decreases v, 1
  {
    match v
    case VDict(es) => Element(key, None, Children(es, repr))
    case VList(items) =>
      Element(key, None, seq(|items|, i requires 0 <= i < |items| => EncodeItem(items[i], repr)))
    case VNull => Element(key, None, [])
    case _ => TextNode(key, ToXmlValue(v, repr))
  }

  /** A list entry: only dicts get structure, anything else is text. */
  function EncodeItem(v: Value, repr: Value -> string): (r: Element)
    ensures r.tag == ITEM
    decreases v, 1
  {
    if v.VDict? then Element(ITEM, None, Children(v.entries, repr)) else TextNode(ITEM, ToXmlValue(v, repr))
  }

  /** _dict_to_elements: appends one child per entry, and one per list item below it. */
  method DictToElements(data: seq<Entry>, repr: Value -> string) returns (children: seq<Element>)
    ensures children == Children(data, repr)
    decreases data, 0
  {
    children := [];
    for i := 0 to |data|
      invariant children == Children(data, repr)[..i]
    {
      var key, value := data[i].key, data[i].value;
      var child;
      match value {
        case VDict(es) =>
          var inner := DictToElements(es, repr);
          child := Element(key, None, inner);
        case VList(items) =>
          var entries := ListToElements(items, repr);
          child := Element(key, None, entries);
        case VNull => child := Element(key, None, []);
        case _ => child := TextNode(key, ToXmlValue(value, repr));
      }
      assert child == Children(data, repr)[i];
      children := children + [child];
    }
  }

  method ListToElements(items: seq<Value>, repr: Value -> string) returns (entries: seq<Element>)
    ensures |entries| == |items| && forall i | 0 <= i < |items| :: entries[i] == EncodeItem(items[i], repr)
    decreases items, 0
  {
    entries := [];
    for i := 0 to |items|
      invariant |entries| == i && forall k | 0 <= k < i :: entries[k] == EncodeItem(items[k], repr)
    {
      var item := items[i];
      var entry := TextNode(ITEM, "");
      if item.VDict? {
        var inner := DictToElements(item.entries, repr);
        entry := Element(ITEM, None, inner);
      } else {
        entry := TextNode(ITEM, ToXmlValue(item, repr));
      }
      entries := entries + [entry];
    }
  }

  // ------------------------------------------------------------ decoding

  /** dict[key] = value */
  function Put(es: seq<Entry>, e: Entry): seq<Entry> {
    if es == [] then [e]
    else if es[0].key == e.key then [e] + es[1..]
    else [es[0]] + Put(es[1..], e)
  }

  function DictOf(es: seq<Entry>): seq<Entry> {
    if es == [] then [] else Put(DictOf(es[..|es| - 1]), es[|es| - 1])
  }

  function Decode(e: Element): Value
    decreases e, 1
  {
    if e.children == [] then (match e.text case None => VNull case Some(t) => Scalar(t))
    else if forall i | 0 <= i < |e.children| :: e.children[i].tag == ITEM then
      VList(seq(|e.children|, i requires 0 <= i < |e.children| => Decode(e.children[i])))
    else VDict(DictOf(DecodedEntries(e)))
  }

  function DecodedEntries(e: Element): seq<Entry>
    decreases e, 0
  {
    seq(|e.children|, i requires 0 <= i < |e.children| => Entry(e.children[i].tag, Decode(e.children[i])))
  }

  lemma {:induction false} PutNew(es: seq<Entry>, e: Entry)
    requires forall i | 0 <= i < |es| :: es[i].key != e.key
    ensures Put(es, e) == es + [e]
  {
    if es != [] {
      PutNew(es[1..], e);
      assert es == [es[0]] + es[1..];
    }
  }

  lemma {:induction false} PutExact(es: seq<Entry>, e: Entry, x: Entry)
    requires DistinctKeys(es)
    ensures DistinctKeys(Put(es, e))
    ensures x in Put(es, e) <==> x == e || (x in es && x.key != e.key)
  {
    if es != [] {
      var tail := es[1..];
      assert es == [es[0]] + tail;
      forall i | 0 <= i < |tail| ensures tail[i].key != es[0].key {
        assert tail[i] == es[i + 1];
      }
      assert DistinctKeys(tail);
      hide DistinctKeys;
      if es[0].key == e.key {
        ReplacedDistinct(es[0], tail, e);
      } else {
        PutExact(tail, e, x);
        PutKeeps(tail, e, es[0]);
      }
    }
  }

  lemma ReplacedDistinct(first: Entry, tail: seq<Entry>, e: Entry)
    requires first.key == e.key && DistinctKeys(tail) && forall i | 0 <= i < |tail| :: tail[i].key != first.key
    ensures DistinctKeys([e] + tail) && e !in tail
  {
  }

  lemma {:induction false} PutKeeps(tail: seq<Entry>, e: Entry, first: Entry)
    requires first.key != e.key && DistinctKeys(tail) && DistinctKeys(Put(tail, e))
    requires forall i | 0 <= i < |tail| :: tail[i].key != first.key
    ensures DistinctKeys([first] + Put(tail, e))
  {
    forall i | 0 <= i < |Put(tail, e)| ensures Put(tail, e)[i].key != first.key {
      PutMembers(tail, e, Put(tail, e)[i]);
    }
  }

  lemma {:induction false} PutMembers(es: seq<Entry>, e: Entry, x: Entry)
    ensures x in Put(es, e) ==> x == e || x in es
  {
    if es != [] {
      PutMembers(es[1..], e, x);
    }
  }

  /** es[i] is x, and no later entry has its key. */
  predicate IsLast(es: seq<Entry>, i: nat, x: Entry) {
    i < |es| && es[i] == x && forall k | i < k < |es| :: es[k].key != x.key
  }

  lemma LastOfSnoc(front: seq<Entry>, last: Entry, x: Entry)
    ensures (exists i: nat :: IsLast(front + [last], i, x)) <==>
              x == last || (x.key != last.key && exists i: nat :: IsLast(front, i, x))
  {
    var es := front + [last];
    if x == last {
      assert IsLast(es, |front|, x);
    } else if i: nat :| x.key != last.key && IsLast(front, i, x) {
      assert IsLast(es, i, x);
    }
    if i: nat :| IsLast(es, i, x) && x != last {
      assert es[|front|] == last && forall k | 0 <= k < |front| :: front[k] == es[k];
      assert IsLast(front, i, x);
    }
  }

  /** A tag that occurs more than once is decoded to its last occurrence, as a dict assignment does. */
  lemma {:induction false} DictOfExact(es: seq<Entry>, x: Entry)
    ensures DistinctKeys(DictOf(es))
    ensures x in DictOf(es) <==> exists i: nat :: IsLast(es, i, x)
  {
    hide DistinctKeys, DictOf, IsLast, Put;
    if es == [] {
      EmptyDict(x);
    } else {
      var front, last := es[..|es| - 1], es[|es| - 1];
      DictOfExact(front, x);
      PutExact(DictOf(front), last, x);
      DictOfLast(es);
      LastOfSnoc(front, last, x);
      assert es == front + [last];
    }
  }

  lemma EmptyDict(x: Entry)
    ensures DistinctKeys(DictOf([])) && DictOf([]) == [] && forall i: nat :: !IsLast([], i, x)
  {
  }

  lemma DictOfLast(es: seq<Entry>)
    requires es != []
    ensures DictOf(es) == Put(DictOf(es[..|es| - 1]), es[|es| - 1])
  {
  }

  lemma {:induction false} DictOfDistinct(es: seq<Entry>)
    requires DistinctKeys(es)
    ensures DictOf(es) == es
  {
    if es != [] {
      DictOfDistinct(es[..|es| - 1]);
      PutNew(es[..|es| - 1], es[|es| - 1]);
    }
  }

  // ------------------------------------------------------------ the normal form

  /** What survives the trip: scalars as their text; null, "", [] and {} as null. */
  function Normal(v: Value): Value {
    match v
    case VNull => VNull
    case VBool(b) => Scalar(if b then "true" else "false")
    case Scalar(text) => if text == "" then VNull else v
    case VList(items) =>
      if items == [] then VNull
      else VList(seq(|items|, i requires 0 <= i < |items| => Normal(items[i])))
    case VDict(es) =>
      if es == [] then VNull
      else VDict(seq(|es|, i requires 0 <= i < |es| => Entry(es[i].key, Normal(es[i].value))))
  }

  /** No object's only key is "item"; lists hold only non-null scalars and objects. */
  predicate Representable(v: Value) {
    match v
    case VList(items) =>
      forall i | 0 <= i < |items| ::
        !items[i].VNull? && !items[i].VList? && Representable(items[i])
    case VDict(es) =>
      && !(|es| == 1 && es[0].key == ITEM)
      && forall i | 0 <= i < |es| :: Representable(es[i].value)
    case _ => true
  }

  /** str() of a list or dict is never empty. */
  ghost predicate ReprNonEmpty(repr: Value -> string) {
    forall v: Value :: v.VList? || v.VDict? ==> repr(v) != ""
  }

  predicate AllItems(es: seq<Entry>) {
    forall i | 0 <= i < |es| :: es[i].key == ITEM
  }

  lemma LoneItem(es: seq<Entry>)
    requires DistinctKeys(es) && es != []
    ensures AllItems(es) <==> |es| == 1 && es[0].key == ITEM
  {
    if |es| > 1 {
      assert es[0].key != es[1].key;
    }
  }

  function TrippedEntries(es: seq<Entry>, repr: Value -> string): (r: seq<Entry>)
    ensures |r| == |es|
  {
    seq(|es|, i requires 0 <= i < |es| => Entry(es[i].key, Decode(Encode(es[i].key, es[i].value, repr))))
  }

  /** Decoding the element of a dict. */
  lemma DecodeDict(tag: string, es: seq<Entry>, repr: Value -> string)
    requires DistinctKeys(es) && es != [] && !AllItems(es)
    ensures Decode(Element(tag, None, Children(es, repr))) == VDict(TrippedEntries(es, repr))
  {
    var e := Element(tag, None, Children(es, repr));
    var k :| 0 <= k < |es| && es[k].key != ITEM;
    assert e.children[k].tag != ITEM;
    assert DecodedEntries(e) == TrippedEntries(es, repr);
    DictOfDistinct(TrippedEntries(es, repr));
  }

  /** The round trip gives the normal form exactly for representable values. */
  lemma {:induction false} RoundTrip(key: string, v: Value, repr: Value -> string)
    requires WellFormed(v) && ReprNonEmpty(repr)
    ensures Decode(Encode(key, v, repr)) == Normal(v) <==> Representable(v)
    decreases v, 1
  {
    match v
    case VList(items) =>
      forall i | 0 <= i < |items|
        ensures Decode(EncodeItem(items[i], repr)) == Normal(items[i])
                <==> !items[i].VNull? && !items[i].VList? && Representable(items[i])
      {
        ItemRoundTrip(items[i], repr);
      }
      ListRoundTrip(key, items, repr);
    case VDict(es) => DictRoundTrip(key, es, repr);
    case _ =>
  }

  lemma {:induction false} ItemRoundTrip(v: Value, repr: Value -> string)
    requires WellFormed(v) && ReprNonEmpty(repr)
    ensures Decode(EncodeItem(v, repr)) == Normal(v) <==> !v.VNull? && !v.VList? && Representable(v)
    decreases v, 1
  {
    if v.VDict? {
      DictRoundTrip(ITEM, v.entries, repr);
    }
  }

  lemma ListRoundTrip(key: string, items: seq<Value>, repr: Value -> string)
    requires forall i | 0 <= i < |items| ::
               Decode(EncodeItem(items[i], repr)) == Normal(items[i])
               <==> !items[i].VNull? && !items[i].VList? && Representable(items[i])
    ensures Decode(Encode(key, VList(items), repr)) == Normal(VList(items)) <==> Representable(VList(items))
  {
    var e := Encode(key, VList(items), repr);
    if items != [] {
      var d, n := Decode(e), Normal(VList(items));
      assert forall i | 0 <= i < |items| :: e.children[i].tag == ITEM;
      assert forall i | 0 <= i < |items| :: d.items[i] == Decode(EncodeItem(items[i], repr));
      assert forall i | 0 <= i < |items| :: n.items[i] == Normal(items[i]);
      assert d == n <==> forall i | 0 <= i < |items| :: d.items[i] == n.items[i];
    }
  }

  lemma {:induction false} DictRoundTrip(key: string, es: seq<Entry>, repr: Value -> string)
    requires WellFormed(VDict(es)) && ReprNonEmpty(repr)
    ensures Decode(Element(key, None, Children(es, repr))) == Normal(VDict(es)) <==> Representable(VDict(es))
    decreases es, 0
  {
    if es != [] {
      LoneItem(es);
      forall i | 0 <= i < |es|
        ensures Decode(Encode(es[i].key, es[i].value, repr)) == Normal(es[i].value)
                <==> Representable(es[i].value)
      {
        RoundTrip(es[i].key, es[i].value, repr);
      }
      if !AllItems(es) {
        DecodeDict(key, es, repr);
        var d, n := Decode(Element(key, None, Children(es, repr))), Normal(VDict(es));
        assert forall i | 0 <= i < |es| :: n.entries[i] == Entry(es[i].key, Normal(es[i].value));
        assert d == n <==> forall i | 0 <= i < |es| :: d.entries[i] == n.entries[i];
      }
    }
  }

  /** The two failing families, by example: an object whose only key is "item" comes back as a list,
      and a null in a list comes back as text. */
  lemma NotEveryValueComesBack(repr: Value -> string)
    ensures Decode(Encode("k", VDict([Entry("item", Scalar("x"))]), repr)) == VList([Scalar("x")])
    ensures Decode(Encode("k", VList([VNull]), repr)) == VList([Scalar("None")])
  {
    var e := Encode("k", VDict([Entry(ITEM, Scalar("x"))]), repr);
    assert e.children[0] == Encode(ITEM, Scalar("x"), repr) == TextNode(ITEM, "x");
    var l := Encode("k", VList([VNull]), repr);
    assert l.children[0] == EncodeItem(VNull, repr) == TextNode(ITEM, "None");
  }
}
