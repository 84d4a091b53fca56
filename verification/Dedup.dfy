/** The bounded receive-dedup index: a set for membership and a FIFO deque for eviction. */
module Dedup {
  import opened Sequences
  import opened Sets

  function Key(originator: string, messageId: string): string {
    originator + ":" + messageId
  }

  ghost predicate KeysIdentify(ids: set<string>) {
    forall o, o', m, m' | m in ids && m' in ids && Key(o, m) == Key(o', m') :: o == o' && m == m'
  }

  /** Keys tell messages apart exactly when no message id ends in ":" and another one. */
  lemma KeysIdentifyExactlyWhen(ids: set<string>)
    ensures KeysIdentify(ids) <==> forall m, m' | m in ids && m' in ids :: !EndsWith(m', ":" + m)
  {
    if m, m' :| m in ids && m' in ids && EndsWith(m', ":" + m) {
      var front := m'[..|m'| - |m| - 1];
      assert Key("x:" + front, m) == Key("x", m') by {
        assert m' == front + (":" + m);
      }
    }
    if forall m, m' | m in ids && m' in ids :: !EndsWith(m', ":" + m) {
      forall o, o', m, m' | m in ids && m' in ids && Key(o, m) == Key(o', m') ensures o == o' && m == m' {
        if |m| < |m'| {
          SuffixOfLonger(o, m, o', m');
        } else if |m'| < |m| {
          SuffixOfLonger(o', m', o, m);
        } else {
          assert m == Key(o, m)[|o| + 1..] && o == Key(o, m)[..|o|];
          assert m' == Key(o', m')[|o'| + 1..] && o' == Key(o', m')[..|o'|];
        }
      }
    }
  }

  lemma SuffixOfLonger(o: string, m: string, o': string, m': string)
    requires Key(o, m) == Key(o', m') && |m| < |m'|
    ensures EndsWith(m', ":" + m)
  {
    var k := Key(o, m);
    assert m' == k[|k| - |m'|..];
    assert ":" + m == k[|k| - |m| - 1..];
  }

  lemma SuffixHasColon(s: string, m: string)
    ensures EndsWith(s, ":" + m) ==> ':' in s
  {
    if EndsWith(s, ":" + m) {
      assert s[|s| - |m| - 1] == (":" + m)[0];
    }
  }

  /** Ids without ":", such as the default uuid hex, meet the condition. */
  lemma ColonFreeIdsIdentify(ids: set<string>)
    requires forall m | m in ids :: ':' !in m
    ensures KeysIdentify(ids)
  {
    KeysIdentifyExactlyWhen(ids);
    forall m, m' | m in ids && m' in ids ensures !EndsWith(m', ":" + m) {
      SuffixHasColon(m', m);
    }
  }

  // ------------------------------------------------------------ the simple specification

  function Remembered(h: seq<string>, w: nat, key: string): seq<string> {
    if key in LastN(h, w) then h else h + [key]
  }

  /** No key comes back while it is still in the window. */
  ghost predicate Spaced(h: seq<string>, w: nat) {
    forall i, k | 0 <= i < k < |h| && h[i] == h[k] :: k - i > w
  }

  lemma RememberedSpaced(h: seq<string>, w: nat, key: string)
    requires Spaced(h, w)
    ensures Spaced(Remembered(h, w, key), w)
  {
    var h' := Remembered(h, w, key);
    forall i, k | 0 <= i < k < |h'| && h'[i] == h'[k] ensures k - i > w {
      if k == |h| {
        InWindow(h, w, i);
      }
    }
  }

  lemma InWindow(h: seq<string>, w: nat, i: nat)
    requires i < |h|
    ensures |h| - i <= w ==> h[i] in LastN(h, w)
  {
    if w < |h| <= i + w {
      assert LastN(h, w)[i - (|h| - w)] == h[i];
    }
  }

  ghost predicate Distinct(s: seq<string>) {
    forall i, k | 0 <= i < k < |s| :: s[i] != s[k]
  }

  function Keys(s: seq<string>): set<string> {
    set k | k in s
  }

  lemma WindowDistinct(h: seq<string>, w: nat)
    requires Spaced(h, w)
    ensures Distinct(LastN(h, w))
  {
  }

  lemma {:induction false} DistinctCount(s: seq<string>)
    requires Distinct(s)
    ensures |Keys(s)| == |s|
  {
    if s != [] {
      var front, last := s[..|s| - 1], s[|s| - 1];
      assert last !in front && Distinct(front);
      hide Distinct;
      DistinctCount(front);
      assert s == front + [last];
      assert Keys(s) == Keys(front) + {last};
    }
  }

  /** Between two deliveries of one key lie at least w distinct other keys. */
  lemma RepeatsAreFarApart(h: seq<string>, w: nat, i: nat, k: nat)
    requires Spaced(h, w) && i < k < |h| && h[i] == h[k]
    ensures |Keys(h[i + 1..k]) - {h[i]}| >= w
  {
    var between := h[k - w..k];
    assert forall x, y | k - w <= x < y < k :: h[x] == h[y] ==> y - x > w;
    assert Distinct(between);
    DistinctCount(between);
    forall key | key in Keys(between) ensures key in Keys(h[i + 1..k]) - {h[i]} {
      var x :| 0 <= x < |between| && between[x] == key;
      assert h[i + 1..k][k - w + x - (i + 1)] == key;
    }
    SubsetSize(Keys(between), Keys(h[i + 1..k]) - {h[i]});
  }

  // ------------------------------------------------------------ the index

  class DedupIndex {
    const maxlen: nat
    var seen: set<string>
    var order: seq<string>
    /** Every key remembered since the last clear, in order. */
    ghost var history: seq<string>

    ghost predicate Valid() reads this {
      && maxlen >= 1
      && Spaced(history, maxlen)
      && order == LastN(history, maxlen)
      && seen == Keys(order)
    }

    constructor (dedupWindow: nat)
      requires dedupWindow >= 1
      ensures Valid() && history == [] && maxlen == dedupWindow
    {
      maxlen := dedupWindow;
      seen := {};
      order := [];
      history := [];
    }

    method IsDuplicate(key: string) returns (r: bool)
      requires Valid()
      ensures r <==> key in LastN(history, maxlen)
    {
      r := key in seen;
    }

    method Remember(key: string)
      requires Valid()
      modifies this
      ensures Valid() && history == Remembered(old(history), maxlen, key)
    {
      RememberedSpaced(history, maxlen, key);
      WindowDistinct(history, maxlen);
      if key in seen { return; }
      history := history + [key];
      if |order| == maxlen {
        seen := seen - {order[0]};
        order := order[1..];
      }
      order := order + [key];
      seen := seen + {key};
    }

    method Clear() returns (n: nat)
      requires Valid()
      modifies this
      ensures Valid() && history == []
      ensures n == |LastN(old(history), maxlen)|
    {
      WindowDistinct(history, maxlen);
      DistinctCount(order);
      n := |seen|;
      seen, order, history := {}, [], [];
    }
  }
}
