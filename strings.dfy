/**
 * The JavaScript string operations the converter relies on (`indexOf`, `lastIndexOf`,
 * `substr`) and the regular-expression character class `\w`, over `string` = `seq<char>`.
 */
module Strings {

  /** `t` occurs in `s` starting at offset `i`. */
  predicate OccursAt(s: string, t: string, i: int) {
    0 <= i && i + |t| <= |s| && s[i..i + |t|] == t
  }

  predicate StartsWith(s: string, t: string) {
    |t| <= |s| && s[..|t|] == t
  }

  predicate EndsWith(s: string, t: string) {
    |t| <= |s| && s[|s| - |t|..] == t
  }

  /** `String.prototype.indexOf`: the first offset at which `t` occurs in `s`, or -1. */
  function IndexOf(s: string, t: string): (r: int)
    ensures r == -1 || OccursAt(s, t, r)
    ensures r == -1 ==> forall i :: !OccursAt(s, t, i)
    ensures r != -1 ==> forall i | i < r :: !OccursAt(s, t, i)
  {
    IndexFrom(s, t, 0)
  }

  /** The first occurrence of `t` in `s` at an offset of at least `from`. */
  function IndexFrom(s: string, t: string, from: nat): (r: int)
    decreases |s| - from
    ensures r == -1 || (from <= r && OccursAt(s, t, r))
    ensures r == -1 ==> forall i | from <= i :: !OccursAt(s, t, i)
    ensures r != -1 ==> forall i | from <= i < r :: !OccursAt(s, t, i)
  {
    if from + |t| > |s| then -1
    else if s[from..from + |t|] == t then from
    else IndexFrom(s, t, from + 1)
  }

  /** `String.prototype.lastIndexOf`: the last offset at which `t` occurs in `s`, or -1. */
  function LastIndexOf(s: string, t: string): (r: int)
    ensures r == -1 || OccursAt(s, t, r)
    ensures r == -1 ==> forall i :: !OccursAt(s, t, i)
    ensures r != -1 ==> forall i | r < i :: !OccursAt(s, t, i)
  {
    if |t| > |s| then -1 else LastIndexAtMost(s, t, |s| - |t|)
  }

  /** The last occurrence of `t` in `s` at an offset of at most `upto`. */
  function LastIndexAtMost(s: string, t: string, upto: int): (r: int)
    requires upto <= |s| - |t|
    decreases upto + 1
    ensures r == -1 || (r <= upto && OccursAt(s, t, r))
    ensures r == -1 ==> forall i | i <= upto :: !OccursAt(s, t, i)
    ensures r != -1 ==> forall i | r < i <= upto :: !OccursAt(s, t, i)
  {
    if upto < 0 then -1
    else if s[upto..upto + |t|] == t then upto
    else LastIndexAtMost(s, t, upto - 1)
  }

  /** `s.indexOf(t) != -1`. */
  predicate Contains(s: string, t: string) {
    IndexOf(s, t) != -1
  }

  lemma ContainsAt(s: string, t: string, i: int)
    requires OccursAt(s, t, i)
    ensures Contains(s, t)
  {
  }

  /** `lastIndexOf` finds an occurrence exactly when `indexOf` does. */
  lemma LastIndexContains(s: string, t: string)
    ensures LastIndexOf(s, t) != -1 <==> Contains(s, t)
  {
    if Contains(s, t) {
      assert OccursAt(s, t, IndexOf(s, t));
    }
  }

  /** `s.indexOf(t) == 0` holds exactly when `s` starts with `t`. */
  lemma IndexOfZeroIsPrefix(s: string, t: string)
    ensures IndexOf(s, t) == 0 <==> StartsWith(s, t)
  {
    if StartsWith(s, t) {
      assert OccursAt(s, t, 0);
    }
  }

  /** JavaScript `s.substr(0, n)`: a negative length gives the empty string. */
  function Prefix(s: string, n: int): (r: string)
    ensures |r| <= |s| && r <= s
    ensures 0 <= n <= |s| ==> |r| == n
  {
    if n <= 0 then "" else if n >= |s| then s else s[..n]
  }

  /** JavaScript `s.substr(start)`: a negative start counts back from the end. */
  function SuffixFrom(s: string, start: int): (r: string)
    ensures |r| <= |s|
    ensures 0 <= start <= |s| ==> r == s[start..]
  {
    var st := if start < 0 then (if |s| + start < 0 then 0 else |s| + start) else start;
    if st >= |s| then "" else s[st..]
  }

  /** The character class `\w` of a JavaScript regular expression without the `u` flag. */
  predicate IsWordChar(c: char) {
    ('a' <= c <= 'z') || ('A' <= c <= 'Z') || ('0' <= c <= '9') || c == '_'
  }

  /** The length of the longest prefix of `s` made of word characters. */
  function WordRun(s: string): (k: nat)
    ensures k <= |s|
    ensures k < |s| ==> !IsWordChar(s[k])
  {
    if |s| == 0 || !IsWordChar(s[0]) then 0 else 1 + WordRun(s[1..])
  }

  /** Every character of the run is a word character. */
  lemma {:induction false} WordRunChars(s: string)
    ensures forall i | 0 <= i < WordRun(s) :: IsWordChar(s[i])
    decreases |s|
  {
    if |s| > 0 && IsWordChar(s[0]) {
      WordRunChars(s[1..]);
      assert forall i | 1 <= i < WordRun(s) :: s[i] == s[1..][i - 1];
    }
  }

  predicate CommaFree(t: string) {
    forall i | 0 <= i < |t| :: t[i] != ','
  }

  /** `Array.prototype.join(',')` on strings. */
  function JoinComma(ts: seq<string>): string {
    if |ts| == 0 then "" else if |ts| == 1 then ts[0] else ts[0] + "," + JoinComma(ts[1..])
  }

  /** `String.prototype.split(',')`. */
  function SplitComma(s: string): seq<string>
    decreases |s|
  {
    var k := IndexOf(s, ",");
    if k < 0 then [s] else [s[..k]] + SplitComma(s[k + 1..])
  }

  lemma NoCommaAt(t: string, i: int)
    requires CommaFree(t) && i < |t|
    ensures !OccursAt(t, ",", i)
  {
    if 0 <= i {
      assert t[i..i + 1][0] == t[i];
    }
  }

  lemma FirstComma(t: string, u: string)
    requires CommaFree(t)
    ensures IndexOf(t + "," + u, ",") == |t|
  {
    var s := t + "," + u;
    assert OccursAt(s, ",", |t|);
    forall i | i < |t| ensures !OccursAt(s, ",", i) {
      if 0 <= i {
        assert s[i..i + 1][0] == t[i];
      }
    }
  }

  lemma {:induction false} JoinSnoc(ts: seq<string>, t: string)
    requires |ts| > 0
    ensures JoinComma(ts + [t]) == JoinComma(ts) + "," + t
  {
    var ext := ts + [t];
    assert ext[0] == ts[0];
    if |ts| == 1 {
      assert ext[1..] == [t];
    } else {
      assert ext[1..] == ts[1..] + [t];
      JoinSnoc(ts[1..], t);
      assert JoinComma(ext) == ts[0] + "," + (JoinComma(ts[1..]) + "," + t);
    }
  }

  /** Appending two tokens extends the joined text by `,a,b` (or starts it with `a,b`). */
  lemma JoinSnocPair(ts: seq<string>, a: string, b: string)
    ensures JoinComma(ts + [a] + [b]) == if |ts| == 0 then a + "," + b else JoinComma(ts) + "," + a + "," + b
  {
    if |ts| == 0 {
      assert ts + [a] + [b] == [a, b];
      assert [a, b][1..] == [b];
    } else {
      JoinSnoc(ts, a);
      JoinSnoc(ts + [a], b);
    }
  }

  /** Splitting a joined list of comma-free strings gives the list back. */
  lemma {:induction false} SplitJoin(ts: seq<string>)
    requires |ts| > 0
    requires forall k | 0 <= k < |ts| :: CommaFree(ts[k])
    ensures SplitComma(JoinComma(ts)) == ts
  {
    if |ts| == 1 {
      forall i ensures !OccursAt(ts[0], ",", i) {
        if i < |ts[0]| { NoCommaAt(ts[0], i); }
      }
    } else {
      var rest := JoinComma(ts[1..]);
      FirstComma(ts[0], rest);
      var s := ts[0] + "," + rest;
      assert s[..|ts[0]|] == ts[0];
      assert s[|ts[0]| + 1..] == rest;
      SplitJoin(ts[1..]);
    }
  }
}
