/**
 * Layer-name conventions (lib.js:16-66 and the name tests inside parseNode and
 * createPackageItem): the suffix predicates, the special-usage markers, the `/\w+@/`
 * tag that names radio controllers and labels, and the decorator stripping applied to
 * resource names.
 */
module Naming {
  import opened Wrappers
  import opened Strings
  import opened Numerals

  const ComponentPrefix := "Com"
  const CommonButtonSuffix := "Btn"
  const CheckBtnSuffix := "CheckBtn"
  const RadioBtnSuffix := "@RadioBtn"
  const RadioGroupSuffix := "@RadioGroup"
  const SliderSuffix := "Slider"
  const ProgressBarSuffix := "ProBar"
  /** Status markers of button art, in page order: page 0 is `up`, page 1 is `down`. */
  const ButtonStatusSuffixes: seq<string> := ["@up", "@down"]

  /** The source's suffix test: the last occurrence of `suffix` exists and ends the name. */
  predicate SuffixTest(name: string, suffix: string) {
    var i := LastIndexOf(name, suffix);
    i != -1 && i == |name| - |suffix|
  }

  predicate IsBtn(name: string) { SuffixTest(name, CommonButtonSuffix) }
  predicate IsCheckBtn(name: string) { SuffixTest(name, CheckBtnSuffix) }
  predicate IsRadioBtn(name: string) { SuffixTest(name, RadioBtnSuffix) }
  predicate IsSlider(name: string) { SuffixTest(name, SliderSuffix) }
  predicate IsProgressBar(name: string) { SuffixTest(name, ProgressBarSuffix) }

  /** The `lastIndexOf` test is exactly "ends with". */
  lemma SuffixTestIsEndsWith(name: string, suffix: string)
    ensures SuffixTest(name, suffix) <==> EndsWith(name, suffix)
  {
    if EndsWith(name, suffix) {
      assert OccursAt(name, suffix, |name| - |suffix|);
    }
  }

  /** Each widget predicate holds exactly when the name ends with its suffix. */
  lemma SuffixPredicates(name: string)
    ensures IsBtn(name) <==> EndsWith(name, "Btn")
    ensures IsCheckBtn(name) <==> EndsWith(name, "CheckBtn")
    ensures IsRadioBtn(name) <==> EndsWith(name, "@RadioBtn")
    ensures IsSlider(name) <==> EndsWith(name, "Slider")
    ensures IsProgressBar(name) <==> EndsWith(name, "ProBar")
  {
    SuffixTestIsEndsWith(name, CommonButtonSuffix);
    SuffixTestIsEndsWith(name, CheckBtnSuffix);
    SuffixTestIsEndsWith(name, RadioBtnSuffix);
    SuffixTestIsEndsWith(name, SliderSuffix);
    SuffixTestIsEndsWith(name, ProgressBarSuffix);
  }

  /** Check and radio buttons are buttons, and no name is both. */
  lemma ButtonKinds(name: string)
    ensures IsCheckBtn(name) ==> IsBtn(name)
    ensures IsRadioBtn(name) ==> IsBtn(name)
    ensures !(IsCheckBtn(name) && IsRadioBtn(name))
  {
    SuffixPredicates(name);
    ButtonSuffixKinds(name);
  }

  /** The same facts stated on the suffixes themselves. */
  lemma ButtonSuffixKinds(name: string)
    ensures EndsWith(name, "CheckBtn") ==> EndsWith(name, "Btn")
    ensures EndsWith(name, "@RadioBtn") ==> EndsWith(name, "Btn")
    ensures !(EndsWith(name, "CheckBtn") && EndsWith(name, "@RadioBtn"))
  {
    var n := |name|;
    if EndsWith(name, "CheckBtn") {
      assert name[n - 3..] == name[n - 8..][5..];
      assert name[n - 4] == name[n - 8..][4] == 'k';
    }
    if EndsWith(name, "@RadioBtn") {
      assert name[n - 3..] == name[n - 9..][6..];
      assert name[n - 4] == name[n - 9..][5] == 'o';
    }
  }

  /**
   * The text-name test `lastIndexOf("Txt") == length - 3`, which lacks the `!= -1`
   * guard of the other suffix tests.
   */
  predicate TxtNameTest(name: string) {
    LastIndexOf(name, "Txt") == |name| - 3
  }

  /** The missing guard lets every two-character name through. */
  lemma TxtNameQuirk(name: string)
    ensures TxtNameTest(name) <==> EndsWith(name, "Txt") || |name| == 2
  {
    if EndsWith(name, "Txt") {
      assert OccursAt(name, "Txt", |name| - 3);
    }
  }

  /** The marker a layer name carries, tested in this order. */
  datatype Usage = TitleUsage | IconUsage | GripUsage | BarUsage

  function SpecialUsage(name: string): (u: Option<Usage>)
    ensures u == Some(TitleUsage) <==> Contains(name, "@title")
    ensures u == Some(IconUsage) <==> !Contains(name, "@title") && Contains(name, "@icon")
    ensures u == Some(GripUsage) <==>
              !Contains(name, "@title") && !Contains(name, "@icon") && Contains(name, "grip@")
    ensures u == Some(BarUsage) <==>
              !Contains(name, "@title") && !Contains(name, "@icon") && !Contains(name, "grip@")
              && Contains(name, "@bar")
    ensures u.None? <==>
              !Contains(name, "@title") && !Contains(name, "@icon") && !Contains(name, "grip@")
              && !Contains(name, "@bar")
  {
    if Contains(name, "@title") then Some(TitleUsage)
    else if Contains(name, "@icon") then Some(IconUsage)
    else if Contains(name, "grip@") then Some(GripUsage)
    else if Contains(name, "@bar") then Some(BarUsage)
    else None
  }

  /** The element name a marker gives. */
  function UsageName(u: Usage): string {
    match u
    case TitleUsage => "title"
    case IconUsage => "icon"
    case GripUsage => "grip"
    case BarUsage => "bar"
  }

  /** No word character is immediately followed by `@`: `/\w+@/` has no match. */
  predicate NoWordTag(s: string) {
    forall i, j | 0 <= i < |s| && 0 <= j < |s| && j == i + 1 :: !(IsWordChar(s[i]) && s[j] == '@')
  }

  /** No `@` is immediately followed by a word character: `/@\w+/` has no match. */
  predicate NoAtTag(s: string) {
    forall i | 0 <= i < |s| - 1 :: !(s[i] == '@' && IsWordChar(s[i + 1]))
  }

  lemma ContainsShift(s: string, k: nat, t: string)
    requires k <= |s| && Contains(s[k..], t)
    ensures Contains(s, t)
  {
    var r := IndexOf(s[k..], t);
    assert s[k + r..k + r + |t|] == s[k..][r..r + |t|];
    ContainsAt(s, t, k + r);
  }

  lemma NoWordTagFrom(s: string, k: nat)
    requires 0 < k <= |s|
    requires NoWordTag(s[k..])
    requires forall i | 0 <= i < k && i + 1 < |s| :: !(IsWordChar(s[i]) && s[i + 1] == '@')
    ensures NoWordTag(s)
  {
    forall i | k <= i < |s| - 1 ensures !(IsWordChar(s[i]) && s[i + 1] == '@') {
      assert s[k..][i - k] == s[i] && s[k..][i - k + 1] == s[i + 1];
    }
  }

  /**
   * `/\w+@/.exec(s)`: the word characters of the first match (without the `@`). The scan
   * skips each leading word run not followed by `@` (or one other character).
   */
  function FirstWordTag(s: string): Option<string>
    decreases |s|
  {
    if |s| == 0 then None
    else if TagAtHead(s) then Some(s[..WordRun(s)])
    else FirstWordTag(s[SkipEnd(s)..])
  }

  /** A match is a non-empty word run found in `s` followed by `@`; there is none exactly when no word character precedes an `@`. */
  lemma {:induction false} FirstWordTagFacts(s: string)
    decreases |s|
    ensures FirstWordTag(s).Some? ==> |FirstWordTag(s).value| > 0 && Contains(s, FirstWordTag(s).value + "@")
    ensures FirstWordTag(s).Some? ==> forall i | 0 <= i < |FirstWordTag(s).value| :: IsWordChar(FirstWordTag(s).value[i])
    ensures FirstWordTag(s).None? <==> NoWordTag(s)
  {
    if |s| == 0 {
      return;
    }
    WordRunChars(s);
    if TagAtHead(s) {
      var k := WordRun(s);
      assert s[..k + 1] == s[..k] + "@";
      ContainsAt(s, s[..k] + "@", 0);
      assert IsWordChar(s[k - 1]) && s[k] == '@';
      return;
    }
    var k := SkipEnd(s);
    FirstWordTagFacts(s[k..]);
    assert FirstWordTag(s) == FirstWordTag(s[k..]);
    var r := FirstWordTag(s[k..]);
    if r.Some? {
      ContainsShift(s, k, r.value + "@");
    } else {
      NoWordTagFrom(s, k);
    }
  }

  /**
   * `/\w+@/` matches at `p`: the run of word characters starting at `p` is non-empty and is
   * followed by `@` (`\w+` is greedy, and `@` is not a word character).
   */
  predicate TagAt(s: string, p: int) {
    0 <= p < |s| && IsWordChar(s[p]) && p + WordRun(s[p..]) < |s| && s[p + WordRun(s[p..])] == '@'
  }

  /** The run of word characters starting at `p`. */
  function RunAt(s: string, p: int): string
    requires 0 <= p <= |s|
  {
    s[p..p + WordRun(s[p..])]
  }

  /** No match starts before `p`. */
  predicate NoTagBefore(s: string, p: int) {
    forall q | 0 <= q < p :: !TagAt(s, q)
  }

  /**
   * `FirstWordTag` is what `exec` returns: without a match it is `None`; otherwise it is the
   * whole word-character run at the leftmost position where the pattern matches.
   */
  lemma FirstWordTagIsExec(s: string)
    ensures FirstWordTag(s).None? ==> NoTagBefore(s, |s|)
    ensures FirstWordTag(s).Some? ==>
              exists p | TagAt(s, p) :: NoTagBefore(s, p) && FirstWordTag(s).value == RunAt(s, p)
  {
    FirstWordTagAtStart(s);
    TagStartIsLeftmost(s);
    TagStartIsMatch(s);
  }

  /** `s` starts with a match: its leading word run is followed by `@`. */
  predicate TagAtHead(s: string) {
    |s| > 0 && IsWordChar(s[0]) && WordRun(s) < |s| && s[WordRun(s)] == '@'
  }

  /** Where the scan resumes when `s` does not start with a match: past its word run, or one character. */
  function SkipEnd(s: string): (k: nat)
    requires |s| > 0
    ensures 0 < k <= |s|
  {
    if IsWordChar(s[0]) then WordRun(s) else 1
  }

  /** Where `/\w+@/` first matches, or `|s|` when it does not: the recursion of `FirstWordTag`. */
  ghost function TagStart(s: string): (p: nat)
    decreases |s|
    ensures p <= |s|
  {
    if |s| == 0 || TagAtHead(s) then 0 else SkipEnd(s) + TagStart(s[SkipEnd(s)..])
  }

  /** `TagStart` is the leftmost match: none starts before it, and one starts there unless it is `|s|`. */
  lemma {:induction false} TagStartIsLeftmost(s: string)
    decreases |s|
    ensures TagStart(s) <= |s| && NoTagBefore(s, TagStart(s))
  {
    if |s| == 0 || TagAtHead(s) {
      return;
    }
    var k := SkipEnd(s);
    TagStartIsLeftmost(s[k..]);
    LeftmostStep(s, k, TagStart(s[k..]));
  }

  /** Where `TagStart` stops short of the end, the pattern matches. */
  lemma {:induction false} TagStartIsMatch(s: string)
    decreases |s|
    ensures TagStart(s) < |s| ==> TagAt(s, TagStart(s))
  {
    if |s| == 0 {
      return;
    }
    if TagAtHead(s) {
      TagAtStart(s);
      return;
    }
    var k := SkipEnd(s);
    var p' := TagStart(s[k..]);
    TagStartIsMatch(s[k..]);
    TagStartStep(s, k);
    if p' < |s| - k {
      TagAfter(s, k, p', TagStart(s));
    }
  }

  /** The step of `TagStartIsLeftmost` past a first run that is not a match: nothing before. */
  lemma LeftmostStep(s: string, k: nat, p': nat)
    requires |s| > 0 && k == SkipEnd(s) && !TagAtHead(s)
    requires p' == TagStart(s[k..]) && p' <= |s| - k && NoTagBefore(s[k..], p')
    ensures NoTagBefore(s, TagStart(s))
  {
    TagStartStep(s, k);
    NoTagInFirstRun(s, k);
    TagLifted(s, k, p');
  }

  /** A match after position `k` is a match of the whole string. */
  lemma TagAfter(s: string, k: nat, p': nat, t: nat)
    requires t == k + p' < |s| && TagAt(s[k..], p')
    ensures TagAt(s, t)
  {
    TagShift(s, k, t);
  }

  /** `FirstWordTag` returns the run at `TagStart`. */
  lemma {:induction false} FirstWordTagAtStart(s: string)
    decreases |s|
    ensures TagStart(s) < |s| ==> FirstWordTag(s) == Some(RunAt(s, TagStart(s)))
    ensures TagStart(s) == |s| ==> FirstWordTag(s) == None
  {
    if |s| == 0 {
      assert TagStart(s) == 0;
      return;
    }
    if TagAtHead(s) {
      TagAtStart(s);
      return;
    }
    var k := SkipEnd(s);
    var p' := TagStart(s[k..]);
    FirstWordTagAtStart(s[k..]);
    FirstWordTagStep(s, k, p');
  }

  /** The step of `FirstWordTagAtStart` past a first run that is not a match. */
  lemma FirstWordTagStep(s: string, k: nat, p': nat)
    requires |s| > 0 && k == SkipEnd(s) && !TagAtHead(s)
    requires p' == TagStart(s[k..]) && p' <= |s| - k
    requires p' < |s| - k ==> FirstWordTag(s[k..]) == Some(RunAt(s[k..], p'))
    requires p' == |s| - k ==> FirstWordTag(s[k..]) == None
    ensures TagStart(s) == k + p'
    ensures p' < |s| - k ==> FirstWordTag(s) == Some(RunAt(s, k + p'))
    ensures p' == |s| - k ==> FirstWordTag(s) == None
  {
    SkipFirstRun(s, k);
    TagStartStep(s, k);
    if p' < |s| - k {
      RunAtSlice(s, k, p');
    }
  }

  lemma RunAtSlice(s: string, k: nat, p': nat)
    requires k + p' <= |s|
    ensures RunAt(s, k + p') == RunAt(s[k..], p')
  {
    assert s[k + p'..] == s[k..][p'..];
  }

  lemma TagStartStep(s: string, k: nat)
    requires |s| > 0 && k == SkipEnd(s) && !TagAtHead(s)
    ensures TagStart(s) == k + TagStart(s[k..])
  {
  }

  lemma TagAtStart(s: string)
    requires TagAtHead(s)
    ensures TagStart(s) == 0 && TagAt(s, 0) && FirstWordTag(s) == Some(RunAt(s, 0))
  {
    assert s[0..] == s;
  }

  lemma SkipFirstRun(s: string, k: nat)
    requires |s| > 0 && k == SkipEnd(s) && !TagAtHead(s)
    ensures FirstWordTag(s) == FirstWordTag(s[k..])
  {
  }

  /** Before `k` (the end of the first run, or 1) no match starts when none starts at 0. */
  lemma NoTagInFirstRun(s: string, k: nat)
    requires |s| > 0 && k == SkipEnd(s) && !TagAtHead(s)
    ensures NoTagBefore(s, k)
  {
    forall q | 0 <= q < k ensures !TagAt(s, q) {
      if IsWordChar(s[0]) {
        WordRunFrom(s, q);
      }
    }
  }

  /** A leftmost match in `s[k..]` is a leftmost match in `s` when none starts before `k`. */
  lemma TagLifted(s: string, k: nat, p': nat)
    requires k <= |s| && k + p' <= |s| && NoTagBefore(s, k) && NoTagBefore(s[k..], p')
    ensures NoTagBefore(s, k + p')
    ensures p' < |s| - k && TagAt(s[k..], p') ==> TagAt(s, k + p')
  {
    forall q | k <= q < k + p' ensures !TagAt(s, q) {
      TagShift(s, k, q);
    }
    if p' < |s| - k {
      TagShift(s, k, k + p');
    }
  }

  lemma TagShift(s: string, k: nat, p: nat)
    requires k <= p < |s|
    ensures s[p..] == s[k..][p - k..]
    ensures TagAt(s, p) <==> TagAt(s[k..], p - k)
  {
    assert s[p..] == s[k..][p - k..];
  }

  /** Inside the first word run, the run from `q` ends where the whole run ends. */
  lemma WordRunFrom(s: string, q: nat)
    requires q < WordRun(s)
    ensures WordRun(s[q..]) == WordRun(s) - q
    decreases q
  {
    if q > 0 {
      assert s[1..][q - 1..] == s[q..];
      WordRunFrom(s[1..], q - 1);
    }
  }


  function RemoveFirstAt(s: string): (r: string)
    ensures Contains(s, "@") ==>
              exists k | 0 <= k < |s| :: s[k] == '@' && NoAt(s[..k]) && r == s[..k] + s[k + 1..]
    ensures !Contains(s, "@") ==> NoAt(s) && r == s
  {
    var k := IndexOf(s, "@");
    FirstAt(s);
    if k < 0 then s else s[..k] + s[k + 1..]
  }

  /** The first `@` of `s` is at `IndexOf(s, "@")`; there is none when that is -1. */
  lemma FirstAt(s: string)
    ensures var k := IndexOf(s, "@");
            && (k >= 0 ==> k < |s| && s[k] == '@' && NoAt(s[..k]))
            && (k < 0 ==> NoAt(s))
  {
    var k := IndexOf(s, "@");
    if k >= 0 {
      assert s[k..k + 1] == "@";
    }
    forall i | 0 <= i < |s| && (k < 0 || i < k) ensures s[i] != '@' {
      assert !OccursAt(s, "@", i);
      assert s[i..i + 1] == [s[i]];
    }
  }

  /**
   * The controller a radio group (or a radio button, from its parent's name) belongs
   * to: the name without its first `@` when it has a `\w+@` tag, else `c<count+1>`.
   */
  function ControllerName(groupName: string, controllerCount: nat): (r: string)
    ensures FirstWordTag(groupName).Some? ==> r == RemoveFirstAt(groupName)
    ensures FirstWordTag(groupName).None? ==>
              |r| >= 2 && r[0] == 'c' && ParseNat(r[1..], 10) == controllerCount + 1
  {
    if FirstWordTag(groupName).Some? then RemoveFirstAt(groupName)
    else
      assert ("c" + Decimal(controllerCount + 1))[1..] == Decimal(controllerCount + 1);
      "c" + Decimal(controllerCount + 1)
  }

  /** A radio button's page label: its `\w+@` tag, else its positional name `n<k>`. */
  function RadioLabel(name: string, displayCount: nat): (r: string)
    ensures |r| > 0 && CommaFree(r)
    ensures FirstWordTag(name).Some? ==> r == FirstWordTag(name).value
    ensures FirstWordTag(name).None? ==> r[0] == 'n' && ParseNat(r[1..], 10) == displayCount + 1
  {
    FirstWordTagFacts(name);
    match FirstWordTag(name)
    case Some(w) => w
    case None =>
      var d := Decimal(displayCount + 1);
      assert ("n" + d)[1..] == d;
      "n" + d
  }

  /** `s.replace(/@\w+/g, "")`. */
  function StripAtTags(s: string): string
    decreases |s|
  {
    if |s| == 0 then ""
    else if s[0] == '@' && |s| > 1 && IsWordChar(s[1]) then StripAtTags(s[1 + WordRun(s[1..])..])
    else [s[0]] + StripAtTags(s[1..])
  }

  /** `s.replace(/\w+@/g, "")`. */
  function StripWordTags(s: string): string
    decreases |s|
  {
    if |s| == 0 then ""
    else if IsWordChar(s[0]) then
      var k := WordRun(s);
      if k < |s| && s[k] == '@' then StripWordTags(s[k + 1..])
      else s[..k] + StripWordTags(s[k..])
    else [s[0]] + StripWordTags(s[1..])
  }

  /** The resource base name: `grip@` names lose their `\w+@` tags, others their `@\w+` tags. */
  function Basename(stem: string): string {
    if Contains(stem, "grip@") then StripWordTags(stem) else StripAtTags(stem)
  }

  predicate NoAt(s: string) {
    forall i | 0 <= i < |s| :: s[i] != '@'
  }

  lemma StartsNonWordAfterStrip(u: string)
    requires |u| == 0 || !IsWordChar(u[0])
    ensures var r := StripAtTags(u); |r| == 0 || !IsWordChar(r[0])
    decreases |u|
  {
    if |u| > 0 && u[0] == '@' && |u| > 1 && IsWordChar(u[1]) {
      var k := WordRun(u[1..]);
      assert u[1 + k..] == u[1..][k..];
      StartsNonWordAfterStrip(u[1 + k..]);
    }
  }

  /** After `replace(/@\w+/g, "")` no `@` is followed by a word character. */
  lemma {:induction false} StripAtTagsClean(s: string)
    ensures NoAtTag(StripAtTags(s))
    decreases |s|
  {
    if |s| == 0 {
    } else if s[0] == '@' && |s| > 1 && IsWordChar(s[1]) {
      StripAtTagsClean(s[1 + WordRun(s[1..])..]);
    } else {
      var rest := StripAtTags(s[1..]);
      StripAtTagsClean(s[1..]);
      if s[0] == '@' {
        StartsNonWordAfterStrip(s[1..]);
      }
      var r := [s[0]] + rest;
      forall i | 0 <= i < |r| - 1 ensures !(r[i] == '@' && IsWordChar(r[i + 1])) {
        if i > 0 {
          assert r[i] == rest[i - 1] && r[i + 1] == rest[i];
        }
      }
    }
  }

  lemma NoWordTagJoin(a: string, b: string)
    requires NoWordTag(a) && NoWordTag(b)
    requires |a| > 0 && |b| > 0 ==> !(IsWordChar(a[|a| - 1]) && b[0] == '@')
    ensures NoWordTag(a + b)
  {
    var r := a + b;
    forall i | 0 <= i < |r| - 1 ensures !(IsWordChar(r[i]) && r[i + 1] == '@') {
      if i >= |a| {
        assert r[i] == b[i - |a|] && r[i + 1] == b[i - |a| + 1];
      } else if i + 1 < |a| {
        assert r[i] == a[i] && r[i + 1] == a[i + 1];
      }
    }
  }

  /** After `replace(/\w+@/g, "")` no word character is followed by `@`. */
  lemma {:induction false} StripWordTagsClean(s: string)
    ensures NoWordTag(StripWordTags(s))
    decreases |s|
  {
    if |s| == 0 {
    } else if IsWordChar(s[0]) {
      var k := WordRun(s);
      WordRunChars(s);
      if k < |s| && s[k] == '@' {
        StripWordTagsClean(s[k + 1..]);
      } else {
        StripWordTagsClean(s[k..]);
        var rest := StripWordTags(s[k..]);
        if k < |s| {
          assert rest == [s[k]] + StripWordTags(s[k..][1..]);
        }
        NoWordTagJoin(s[..k], rest);
      }
    } else {
      StripWordTagsClean(s[1..]);
      NoWordTagJoin([s[0]], StripWordTags(s[1..]));
    }
  }

  /** Names without `@` keep their text under both strippings. */
  lemma {:induction false} UndecoratedUnchanged(s: string)
    requires NoAt(s)
    ensures StripAtTags(s) == s && StripWordTags(s) == s
    decreases |s|
  {
    if |s| > 0 {
      assert NoAt(s[1..]);
      UndecoratedUnchanged(s[1..]);
      if IsWordChar(s[0]) {
        var k := WordRun(s);
        assert NoAt(s[k..]);
        UndecoratedUnchanged(s[k..]);
        assert s[..k] + s[k..] == s;
      }
    }
  }

  /** The base name carries no decorator of the kind stripped, and plain names pass unchanged. */
  lemma BasenameClean(stem: string)
    ensures Contains(stem, "grip@") ==> NoWordTag(Basename(stem))
    ensures !Contains(stem, "grip@") ==> NoAtTag(Basename(stem))
    ensures NoAt(stem) ==> Basename(stem) == stem
  {
    StripWordTagsClean(stem);
    StripAtTagsClean(stem);
    if NoAt(stem) {
      UndecoratedUnchanged(stem);
    }
  }
}
