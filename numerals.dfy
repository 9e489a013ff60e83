/**
 * `Number.prototype.toString(radix)` on non-negative integers (radix 10 for text,
 * 16 for colours, 36 for item ids), the signed decimal form, and their inverses.
 */
module Numerals {
  import opened Strings

  /** The lower-case digit of value `d`, as JavaScript writes it. */
  function DigitChar(d: nat): (c: char)
    requires d < 36
  {
    if d < 10 then (48 + d) as char else (97 + d - 10) as char
  }

  /** The value of a lower-case digit character; any other character reads as 36. */
  function DigitValue(c: char): nat {
    if '0' <= c <= '9' then c as int - 48
    else if 'a' <= c <= 'z' then c as int - 97 + 10
    else 36
  }

  predicate IsDigitIn(c: char, base: nat) {
    DigitValue(c) < base
  }

  lemma DigitRoundTrip(d: nat)
    requires d < 36
    ensures DigitValue(DigitChar(d)) == d
  {
  }

  /** `n.toString(base)`: digits most significant first, no leading zero. */
  function NatToString(n: nat, base: nat): (r: string)
    requires 2 <= base <= 36
    decreases n
    ensures |r| >= 1
    ensures forall k | 0 <= k < |r| :: IsDigitIn(r[k], base)
    ensures n < base <==> |r| == 1
  {
    if n < base then [DigitChar(n)]
    else
      DivShrinks(n, base);
      NatToString(n / base, base) + [DigitChar(n % base)]
  }

  lemma MulMono(a: nat, b: nat, c: nat)
    requires a <= b
    ensures a * c <= b * c
  {
  }

  lemma DivShrinks(n: nat, base: nat)
    requires 2 <= base <= n
    ensures n / base < n
  {
    var q := n / base;
    assert q * base + n % base == n;
    MulMono(2, base, q);
  }

  /** Reads digits most significant first. */
  function ParseNat(s: string, base: nat): nat
    decreases |s|
  {
    if |s| == 0 then 0
    else ParseNat(s[..|s| - 1], base) * base + (if DigitValue(s[|s| - 1]) < base then DigitValue(s[|s| - 1]) else 0)
  }

  lemma {:induction false} ParseNatToString(n: nat, base: nat)
    requires 2 <= base <= 36
    decreases n
    ensures ParseNat(NatToString(n, base), base) == n
  {
    if n < base {
      DigitRoundTrip(n);
    } else {
      var q, d := n / base, n % base;
      DivShrinks(n, base);
      ParseNatToString(q, base);
      DigitRoundTrip(d);
      ParseNatSnoc(NatToString(q, base), DigitChar(d), base);
      DivModSplit(n, base);
    }
  }

  lemma DivModSplit(n: nat, base: nat)
    requires base > 0
    ensures (n / base) * base + n % base == n
  {
  }

  lemma ParseNatSnoc(s: string, c: char, base: nat)
    requires DigitValue(c) < base
    ensures ParseNat(s + [c], base) == ParseNat(s, base) * base + DigitValue(c)
  {
    assert (s + [c])[..|s|] == s;
  }

  /** Different numbers are written differently, so counter-based ids never clash. */
  lemma NatToStringInjective(a: nat, b: nat, base: nat)
    requires 2 <= base <= 36
    ensures NatToString(a, base) == NatToString(b, base) ==> a == b
  {
    ParseNatToString(a, base);
    ParseNatToString(b, base);
  }

  /** A count in decimal, as string concatenation writes it (`'n' + k`, `idx + ","`). */
  function Decimal(n: nat): (r: string)
    ensures |r| >= 1 && CommaFree(r)
    ensures ParseNat(r, 10) == n
  {
    ParseNatToString(n, 10);
    NatToString(n, 10)
  }

  /** `i.toString()` for an integer: a minus sign, then the decimal digits of `|i|`. */
  function IntToString(i: int): (r: string)
    ensures forall k | 0 <= k < |r| :: r[k] == '-' || IsDigitIn(r[k], 10)
  {
    if i < 0 then "-" + NatToString(-i, 10) else NatToString(i, 10)
  }

  function ParseInt(s: string): int {
    if |s| > 0 && s[0] == '-' then 0 - ParseNat(s[1..], 10) else ParseNat(s, 10)
  }

  lemma IntRoundTrip(i: int)
    ensures ParseInt(IntToString(i)) == i
  {
    if i < 0 {
      assert IntToString(i)[1..] == NatToString(-i, 10);
      ParseNatToString(-i, 10);
    } else {
      ParseNatToString(i, 10);
    }
  }

  /** The `"x,y"` form of a position or a size. */
  function Coords(x: int, y: int): string {
    IntToString(x) + "," + IntToString(y)
  }

  /** Splits at the first comma and reads both halves. */
  function ParseCoords(s: string): (int, int) {
    var k := IndexOf(s, ",");
    if k < 0 then (ParseInt(s), 0) else (ParseInt(s[..k]), ParseInt(s[k + 1..]))
  }

  lemma CoordsRoundTrip(x: int, y: int)
    ensures ParseCoords(Coords(x, y)) == (x, y)
  {
    var a, b := IntToString(x), IntToString(y);
    var s := Coords(x, y);
    assert OccursAt(s, ",", |a|);
    forall i | i < |a| ensures !OccursAt(s, ",", i) {
      if 0 <= i {
        assert s[i] == a[i];
        assert s[i..i + 1] == [a[i]];
      }
    }
    assert IndexOf(s, ",") == |a|;
    assert s[..|a|] == a;
    assert s[|a| + 1..] == b;
    IntRoundTrip(x);
    IntRoundTrip(y);
  }
}
