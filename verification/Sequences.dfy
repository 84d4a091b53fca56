/** Laws of concatenation that the codec proofs share, and the tail a bounded deque holds. */
module Sequences {
  lemma Cancel<T>(p: seq<T>, s: seq<T>, q: seq<T>, t: seq<T>)
    requires p + s == q + t && |p| == |q|
    ensures p == q && s == t
  {
    assert p == (p + s)[..|p|] && q == (q + t)[..|q|];
    assert s == (p + s)[|p|..] && t == (q + t)[|q|..];
  }

  lemma Assoc<T>(a: seq<T>, b: seq<T>, c: seq<T>)
    ensures (a + b) + c == a + (b + c)
  {
  }

  lemma Regroup<T>(a: seq<T>, b: seq<T>, s: seq<T>, c: seq<T>, d: seq<T>, t: seq<T>)
    requires (a + b) + s == (c + d) + t
    ensures a + (b + s) == c + (d + t)
  {
    Assoc(a, b, s);
    Assoc(c, d, t);
  }

  /** What sits at the front of a concatenation is the front of its first non-empty part. */
  lemma SameHead<T>(p: seq<T>, s: seq<T>, q: seq<T>, t: seq<T>)
    requires p + s == q + t && p != [] && q != []
    ensures p[0] == q[0]
  {
    assert (p + s)[0] == p[0] && (q + t)[0] == q[0];
  }

  predicate EndsWith<T(==)>(s: seq<T>, t: seq<T>) {
    |t| <= |s| && s[|s| - |t|..] == t
  }

  /** The last n of s: what a deque(maxlen=n) holds after appending all of s. */
  function LastN<T>(s: seq<T>, n: nat): seq<T> {
    if |s| <= n then s else s[|s| - n..]
  }
}
