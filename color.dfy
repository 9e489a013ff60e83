/**
 * Colour and opacity text: `convertToHtmlColor` (lib.js:705-723) and the `alpha`
 * attribute `(opacity / 255).toFixed(2)` (lib.js:677-679).
 */
module HtmlColor {
  import opened Wrappers
  import opened Numerals

  type byte = x: int | 0 <= x < 256

  /** `c.toString(16)`, with a `0` put in front when that gives a single digit. */
  function Hex2(c: byte): (r: string)
    ensures |r| == 2 && ParseNat(r, 16) == c
    ensures IsDigitIn(r[0], 16) && IsDigitIn(r[1], 16)
  {
    var s := NatToString(c, 16);
    ParseNatToString(c, 16);
    if |s| == 1 then
      ParseNatSnoc("0", s[0], 16);
      assert "0" + s == "0" + [s[0]];
      "0" + s
    else
      assert |s| == 2 by {
        assert c / 16 < 16;
        assert s == NatToString(c / 16, 16) + [DigitChar(c % 16)];
      }
      s
  }

  /**
   * `#`, then two lower-case hex digits per channel: alpha first when asked for,
   * then red, green and blue.
   */
  function ConvertToHtmlColor(rgba: seq<byte>, includingAlpha: bool): (r: string)
    requires |rgba| >= (if includingAlpha then 4 else 3)
    ensures |r| == (if includingAlpha then 9 else 7) && r[0] == '#'
    ensures forall k | 1 <= k < |r| :: IsDigitIn(r[k], 16)
    ensures includingAlpha ==> ParseNat(r[1..3], 16) == rgba[3]
    ensures ParseNat(r[|r| - 6..|r| - 4], 16) == rgba[0]
    ensures ParseNat(r[|r| - 4..|r| - 2], 16) == rgba[1]
    ensures ParseNat(r[|r| - 2..], 16) == rgba[2]
  {
    var a := if includingAlpha then Hex2(rgba[3]) else "";
    var red, green, blue := Hex2(rgba[0]), Hex2(rgba[1]), Hex2(rgba[2]);
    ColorLayout(a, red, green, blue);
    "#" + a + red + green + blue
  }

  /** Where each two-digit pair sits in `#` followed by the pairs. */
  lemma ColorLayout(a: string, red: string, green: string, blue: string)
    requires |a| == 0 || |a| == 2
    requires |red| == 2 && |green| == 2 && |blue| == 2
    requires forall k | 0 <= k < |a| :: IsDigitIn(a[k], 16)
    requires IsDigitIn(red[0], 16) && IsDigitIn(red[1], 16)
    requires IsDigitIn(green[0], 16) && IsDigitIn(green[1], 16)
    requires IsDigitIn(blue[0], 16) && IsDigitIn(blue[1], 16)
    ensures var r := "#" + a + red + green + blue;
            && |r| == |a| + 7 && r[0] == '#'
            && (forall k | 1 <= k < |r| :: IsDigitIn(r[k], 16))
            && r[1..1 + |a|] == a
            && r[|r| - 6..|r| - 4] == red && r[|r| - 4..|r| - 2] == green && r[|r| - 2..] == blue
  {
    var r := "#" + a + red + green + blue;
    var n := |a|;
    assert |r| == n + 7;
    assert r[n + 1] == red[0] && r[n + 2] == red[1];
    assert r[n + 3] == green[0] && r[n + 4] == green[1];
    assert r[n + 5] == blue[0] && r[n + 6] == blue[1];
    forall k | 1 <= k < |r| ensures IsDigitIn(r[k], 16) {
      if k <= n {
        assert r[k] == a[k - 1];
      }
    }
    if n == 2 {
      assert r[1] == a[0] && r[2] == a[1];
      PairAt(r, 1, a);
    }
    PairAt(r, n + 1, red);
    PairAt(r, n + 3, green);
    PairAt(r, n + 5, blue);
  }

  /** Two characters of `r` at `i` that match `p` make up the slice `r[i..i + 2]`. */
  lemma PairAt(r: string, i: nat, p: string)
    requires |p| == 2 && i + 2 <= |r| && r[i] == p[0] && r[i + 1] == p[1]
    ensures r[i..i + 2] == p
    ensures i + 2 == |r| ==> r[i..] == p
  {
    assert r[i..i + 2][0] == p[0] && r[i..i + 2][1] == p[1];
  }

  /** `(opacity / 255).toFixed(2)` as a count of hundredths: the nearest one. */
  function AlphaHundredths(opacity: byte): (n: nat)
    ensures n <= 100
    ensures -255 < 510 * n - 200 * opacity < 255
  {
    NearestHundredth(opacity);
    (200 * opacity + 255) / 510
  }

  /**
   * Adding half of 510 before dividing rounds to the nearest hundredth; the remainder is
   * odd, so no value lies exactly half-way.
   */
  lemma NearestHundredth(opacity: byte)
    ensures var n := (200 * opacity + 255) / 510;
            n <= 100 && -255 < 510 * n - 200 * opacity < 255
  {
    var x := 200 * opacity + 255;
    var q, rem := x / 510, x % 510;
    DivModSplit(x, 510);
    assert x == 510 * q + rem && 0 <= rem < 510;
    assert rem != 0;
    assert q <= 100;
  }

  /**
   * `toFixed(2)` of `n` hundredths, at most one whole: one digit, a point, two digits,
   * which read together give `n` back.
   */
  function TwoDecimals(n: nat): (r: string)
    requires n <= 100
    ensures |r| == 4 && r[1] == '.'
    ensures IsDigitIn(r[0], 10) && IsDigitIn(r[2], 10) && IsDigitIn(r[3], 10)
    ensures ParseNat([r[0], r[2], r[3]], 10) == n
  {
    var h, t, u := n / 100, (n / 10) % 10, n % 10;
    var whole := NatToString(h, 10);
    assert whole == [DigitChar(h)];
    DigitRoundTrip(h);
    DigitRoundTrip(t);
    DigitRoundTrip(u);
    ParseNatSnoc([], DigitChar(h), 10);
    assert [] + [DigitChar(h)] == [DigitChar(h)];
    ParseNatSnoc([DigitChar(h)], DigitChar(t), 10);
    ParseNatSnoc([DigitChar(h), DigitChar(t)], DigitChar(u), 10);
    var r := whole + "." + [DigitChar(t), DigitChar(u)];
    assert [r[0], r[2], r[3]] == [DigitChar(h), DigitChar(t)] + [DigitChar(u)];
    assert [DigitChar(h), DigitChar(t)] == [DigitChar(h)] + [DigitChar(t)];
    DigitsOfHundred(n);
    r
  }

  lemma DigitsOfHundred(n: nat)
    requires n <= 100
    ensures (n / 100 * 10 + (n / 10) % 10) * 10 + n % 10 == n
  {
    if n < 100 {
      assert n / 100 == 0 && (n / 10) % 10 == n / 10;
    }
  }

  /** The two-decimal text of the alpha value, the nearest hundredth of `opacity / 255`. */
  function AlphaText(opacity: byte): (r: string)
    ensures |r| == 4 && r[1] == '.'
    ensures IsDigitIn(r[0], 10) && IsDigitIn(r[2], 10) && IsDigitIn(r[3], 10)
    ensures ParseNat([r[0], r[2], r[3]], 10) == AlphaHundredths(opacity)
  {
    TwoDecimals(AlphaHundredths(opacity))
  }

  /** The `alpha` attribute: present only below full opacity. */
  function AlphaAttr(opacity: byte): (a: Option<string>)
    ensures a.Some? <==> opacity < 255
  {
    if opacity < 255 then Some(AlphaText(opacity)) else None
  }

  /** Opacity 128 gives `0.50`; full opacity gives no attribute. */
  lemma AlphaExamples()
    ensures AlphaAttr(128) == Some("0.50")
    ensures AlphaAttr(255) == None
  {
    var n := AlphaHundredths(128);
    assert n == 50;
    assert NatToString(0, 10) == "0";
    assert DigitChar(5) == '5' && DigitChar(0) == '0';
    assert AlphaText(128) == "0" + "." + ['5', '0'] == "0.50";
  }
}
