/** Decimal rendering of integers, as Python's str() and json.dumps print them. */
module Decimal {
  import opened Sequences

  const DIGITS := "0123456789"

  predicate IsDigit(c: char) {
    '0' <= c <= '9'
  }

  function DigitChar(d: nat): (c: char)
    requires d < 10
    ensures IsDigit(c) && c as int == '0' as int + d
  {
    DIGITS[d]
  }

  /** str(n) for n >= 0. */
  function Nat(n: nat): (s: string)
    ensures s != [] && forall i | 0 <= i < |s| :: IsDigit(s[i])
  {
    if n < 10 then [DigitChar(n)] else Nat(n / 10) + [DigitChar(n % 10)]
  }

  /** str(n). */
  function Int(n: int): (s: string)
    ensures s != []
  {
    if n < 0 then "-" + Nat(-n) else Nat(n)
  }

  /** The number a digit string stands for. */
  function Value(s: string): int {
    if s == "" then 0 else 10 * Value(s[..|s| - 1]) + (s[|s| - 1] as int - '0' as int)
  }

  /** The rendering is the decimal numeral: its digits stand for the number, without leading zeros. */
  lemma {:induction false} NatExact(n: nat)
    ensures Value(Nat(n)) == n && (Nat(n)[0] == '0' ==> n == 0)
  {
    var s := Nat(n);
    if n < 10 {
      assert s[..0] == "";
    } else {
      NatExact(n / 10);
      assert s[..|s| - 1] == Nat(n / 10);
    }
  }

  lemma IntExact(n: int)
    ensures if n < 0 then Int(n)[0] == '-' && Value(Int(n)[1..]) == -n else Value(Int(n)) == n && IsDigit(Int(n)[0])
  {
    hide Value, Nat;
    if n < 0 {
      NatExact(-n);
      assert Int(n)[1..] == Nat(-n);
    } else {
      NatExact(n);
    }
  }

  lemma {:induction false} NatInjective(n: nat, m: nat)
    requires Nat(n) == Nat(m)
    ensures n == m
  {
    var s, t := Nat(n), Nat(m);
    assert n < 10 ==> s[0] == DigitChar(n);
    assert m < 10 ==> t[0] == DigitChar(m);
    if n >= 10 && m >= 10 {
      assert s[..|s| - 1] == Nat(n / 10) && t[..|t| - 1] == Nat(m / 10);
      assert s[|s| - 1] == DigitChar(n % 10) && t[|t| - 1] == DigitChar(m % 10);
      NatInjective(n / 10, m / 10);
    }
  }

  lemma DigitRun(a: string, s: string, b: string, t: string)
    requires a + s == b + t
    requires forall i | 0 <= i < |b| :: IsDigit(b[i])
    requires s != [] ==> !IsDigit(s[0])
    ensures |b| <= |a|
  {
    assert forall i | 0 <= i < |b| :: (b + t)[i] == b[i];
    assert s != [] ==> (a + s)[|a|] == s[0];
  }

  /** A number's digits end where the next non-digit begins: the rendering is self-delimiting. */
  lemma NatDelimited(n: nat, m: nat, s: string, t: string)
    requires Nat(n) + s == Nat(m) + t
    requires s != [] ==> !IsDigit(s[0])
    requires t != [] ==> !IsDigit(t[0])
    ensures n == m && s == t
  {
    DigitRun(Nat(n), s, Nat(m), t);
    DigitRun(Nat(m), t, Nat(n), s);
    Cancel(Nat(n), s, Nat(m), t);
    NatInjective(n, m);
  }

  lemma IntDelimited(n: int, m: int, s: string, t: string)
    requires Int(n) + s == Int(m) + t
    requires s != [] ==> !IsDigit(s[0])
    requires t != [] ==> !IsDigit(t[0])
    ensures n == m && s == t
  {
    SameHead(Int(n), s, Int(m), t);
    assert n < 0 <==> Int(n)[0] == '-';
    assert m < 0 <==> Int(m)[0] == '-';
    if n < 0 {
      Regroup("-", Nat(-n), s, "-", Nat(-m), t);
      Cancel("-", Nat(-n) + s, "-", Nat(-m) + t);
      NatDelimited(-n, -m, s, t);
    } else {
      NatDelimited(n, m, s, t);
    }
  }
}
