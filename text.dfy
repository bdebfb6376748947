/** Decimal rendering of integers, as Rust's `Display` and `Debug` print them in error messages. */
module Text {

  predicate IsDigit(c: char) {
    '0' <= c <= '9'
  }

  predicate AllDigits(s: string) {
    forall i :: 0 <= i < |s| ==> IsDigit(s[i])
  }

  function DigitChar(d: nat): (c: char)
    requires d < 10
    ensures IsDigit(c)
  {
    "0123456789"[d]
  }

  /** `{n}` for an unsigned integer. */
  function NatToString(n: nat): (s: string)
    ensures 1 <= |s| && AllDigits(s)
    decreases n
  {
    if n < 10 then [DigitChar(n)] else NatToString(n / 10) + [DigitChar(n % 10)]
  }

  /** `{i}` for a signed integer: a leading minus sign for negative values. */
  function IntToString(i: int): (s: string)
    ensures 1 <= |s|
  {
    if i < 0 then "-" + NatToString(-i) else NatToString(i)
  }

  /** Reads back a string of decimal digits. */
  function ParseNat(s: string): nat
    requires AllDigits(s)
    decreases |s|
  {
    if s == [] then 0 else 10 * ParseNat(s[..|s| - 1]) + (s[|s| - 1] as int - '0' as int)
  }

  lemma {:induction false} ParseNatToString(n: nat)
    ensures ParseNat(NatToString(n)) == n
    decreases n
  {
    if n >= 10 {
      var s := NatToString(n);
      assert s[..|s| - 1] == NatToString(n / 10);
      ParseNatToString(n / 10);
    } else {
      assert "0123456789"[n] as int - '0' as int == n;
    }
  }

  /** Rendering is injective, so a message can be read back for the number it names. */
  lemma NatToStringInjective(m: nat, n: nat)
    requires NatToString(m) == NatToString(n)
    ensures m == n
  {
    ParseNatToString(m);
    ParseNatToString(n);
  }

  /** Two messages `digits + rest` agree only if their digit runs agree, when each rest starts
      with a character that is not a digit. */
  lemma {:induction false} DigitPrefixUnique(d1: string, r1: string, d2: string, r2: string)
    requires AllDigits(d1) && AllDigits(d2)
    requires |r1| > 0 && !IsDigit(r1[0]) && |r2| > 0 && !IsDigit(r2[0])
    requires d1 + r1 == d2 + r2
    ensures d1 == d2 && r1 == r2
  {
    if |d1| == |d2| {
      assert d1 == (d1 + r1)[..|d1|];
      assert d2 == (d2 + r2)[..|d2|];
      assert r1 == (d1 + r1)[|d1|..];
      assert r2 == (d2 + r2)[|d2|..];
    } else if |d1| < |d2| {
      ConcatAt(d1, r1, |d1|);
      ConcatAt(d2, r2, |d1|);
      assert false;
    } else {
      ConcatAt(d1, r1, |d2|);
      ConcatAt(d2, r2, |d2|);
      assert false;
    }
  }

  lemma ConcatAt(a: string, b: string, i: int)
    ensures 0 <= i < |a| + |b| ==> (a + b)[i] == if i < |a| then a[i] else b[i - |a|]
  {
  }

  /** `a, b, c`: the comma-separated list Rust's `Debug` prints inside brackets. */
  function JoinComma(items: seq<string>): string
    decreases |items|
  {
    if items == [] then ""
    else if |items| == 1 then items[0]
    else items[0] + ", " + JoinComma(items[1..])
  }
}
