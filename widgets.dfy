/**
 * The widget synthesisers of the converter and the elements `parseNode` builds:
 * the state images and page lists of a button (`createButton`), the gear, title and
 * icon handling of its element callback and its `Button` extension, the grip/bar
 * callback of sliders and progress bars, the `pages` string of a radio-group
 * controller (`createComponent`), the display-list elements, and the order in which
 * `parseNode` tests a layer's name.
 */
module Widgets {
  import opened Wrappers
  import opened Strings
  import opened Numerals
  import opened Naming
  import opened HtmlColor
  import opened Xml
  import opened Design

  // ----- Button state images -----

  /** The index of the last node of `ds` whose name contains `suffix`, or -1. */
  function LastIndexWith(ds: seq<Node>, suffix: string): (k: int)
    ensures -1 <= k < |ds|
    ensures k >= 0 ==> Contains(ds[k].name, suffix)
    ensures forall m | k < m < |ds| :: !Contains(ds[m].name, suffix)
  {
    if |ds| == 0 then -1
    else if Contains(ds[|ds| - 1].name, suffix) then |ds| - 1
    else LastIndexWith(ds[..|ds| - 1], suffix)
  }

  /**
   * The image a button keeps for one state: a later match overwrites an earlier one, so
   * it is the last descendant whose name contains the suffix.
   */
  function StateImage(ds: seq<Node>, suffix: string): Option<Node> {
    var k := LastIndexWith(ds, suffix);
    if k >= 0 then Some(ds[k]) else None
  }

  /**
   * A state's image is a node of `ds` whose name contains the suffix, with no later node
   * matching; there is none exactly when no node matches.
   */
  lemma StateImageFacts(ds: seq<Node>, suffix: string)
    ensures var r := StateImage(ds, suffix);
            && (r.Some? ==> r.value in ds && Contains(r.value.name, suffix))
            && (r.Some? ==> exists k | 0 <= k < |ds| && ds[k] == r.value ::
                              forall m | k < m < |ds| :: !Contains(ds[m].name, suffix))
            && (r.None? <==> forall m | 0 <= m < |ds| :: !Contains(ds[m].name, suffix))
  {
    var k := LastIndexWith(ds, suffix);
    if k >= 0 {
      assert ds[k] in ds;
    }
  }

  /** How many nodes of `ds` have a name containing `suffix`. */
  function CountWith(ds: seq<Node>, suffix: string): (c: nat)
    ensures c == |MatchIndices(ds, suffix)|
    ensures c <= |ds|
    ensures c == 0 <==> forall m | 0 <= m < |ds| :: !Contains(ds[m].name, suffix)
  {
    if |ds| == 0 then
      assert MatchIndices(ds, suffix) == {};
      0
    else
      MatchIndicesSnoc(ds, suffix);
      CountWith(ds[..|ds| - 1], suffix) + (if Contains(ds[|ds| - 1].name, suffix) then 1 else 0)
  }

  /** The positions of the nodes of `ds` whose name contains `suffix`. */
  ghost function MatchIndices(ds: seq<Node>, suffix: string): set<int> {
    set m | 0 <= m < |ds| && Contains(ds[m].name, suffix)
  }

  lemma MatchIndicesSnoc(ds: seq<Node>, suffix: string)
    requires |ds| > 0
    ensures var n := |ds| - 1;
            && n !in MatchIndices(ds[..n], suffix)
            && MatchIndices(ds, suffix)
               == MatchIndices(ds[..n], suffix) + if Contains(ds[n].name, suffix) then {n} else {}
  {
    var n := |ds| - 1;
    forall m | 0 <= m < n ensures ds[..n][m] == ds[m] {
    }
  }

  lemma TakeOneMore<T>(s: seq<T>, d: nat)
    requires d < |s|
    ensures s[..d + 1] == s[..d] + [s[d]]
  {
  }

  /** Scanning one more node: it becomes the state's image when its name matches. */
  lemma StateImageSnoc(ds: seq<Node>, node: Node, suffix: string)
    ensures StateImage(ds + [node], suffix)
            == if Contains(node.name, suffix) then Some(node) else StateImage(ds, suffix)
  {
    assert (ds + [node])[..|ds|] == ds;
  }

  /** Scanning one more node: the count grows by one when its name matches. */
  lemma CountWithSnoc(ds: seq<Node>, node: Node, suffix: string)
    ensures CountWith(ds + [node], suffix)
            == CountWith(ds, suffix) + if Contains(node.name, suffix) then 1 else 0
  {
    assert (ds + [node])[..|ds|] == ds;
  }

  /** How many of the state suffixes a name contains. */
  function Matches(name: string): nat {
    (if Contains(name, "@up") then 1 else 0) + (if Contains(name, "@down") then 1 else 0)
  }

  /**
   * The inner loop of the descendant scan: the node becomes the image of every state
   * whose suffix its name contains, and each such match is counted.
   */
  method MatchStates(node: Node, images: seq<Option<Node>>, imageCnt: nat)
    returns (images': seq<Option<Node>>, imageCnt': nat)
    requires |images| == |ButtonStatusSuffixes|
    ensures |images'| == |images|
    ensures forall k | 0 <= k < |images| ::
      images'[k] == if Contains(node.name, ButtonStatusSuffixes[k]) then Some(node) else images[k]
    ensures imageCnt' == imageCnt + Matches(node.name)
  {
    images', imageCnt' := images, imageCnt;
    var i := 0;
    while i < |ButtonStatusSuffixes|
      invariant i <= 2 && |images'| == 2
      invariant forall k | 0 <= k < 2 ::
        images'[k] == if k < i && Contains(node.name, ButtonStatusSuffixes[k]) then Some(node) else images[k]
      invariant imageCnt' == imageCnt + (if 0 < i && Contains(node.name, "@up") then 1 else 0)
                                      + (if 1 < i && Contains(node.name, "@down") then 1 else 0)
    {
      if Contains(node.name, ButtonStatusSuffixes[i]) {
        images' := images'[i := Some(node)];
        imageCnt' := imageCnt' + 1;
      }
      i := i + 1;
    }
  }

  /**
   * The descendant scan of `createButton`: for each state suffix the image it keeps,
   * and `imageCnt`, the number of (descendant, suffix) matches.
   */
  method ScanStates(n: Node) returns (images: seq<Option<Node>>, imageCnt: nat)
    ensures |images| == |ButtonStatusSuffixes|
    ensures forall i | 0 <= i < |images| :: images[i] == StateImage(Descendants(n), ButtonStatusSuffixes[i])
    ensures imageCnt == CountWith(Descendants(n), "@up") + CountWith(Descendants(n), "@down")
  {
    var ds := Descendants(n);
    images := [None, None];
    imageCnt := 0;
    var d := 0;
    while d < |ds|
      invariant d <= |ds| && |images| == 2
      invariant forall i | 0 <= i < 2 :: images[i] == StateImage(ds[..d], ButtonStatusSuffixes[i])
      invariant imageCnt == CountWith(ds[..d], "@up") + CountWith(ds[..d], "@down")
    {
      var node, seen := ds[d], ds[..d];
      TakeOneMore(ds, d);
      StateImageSnoc(seen, node, "@up");
      StateImageSnoc(seen, node, "@down");
      CountWithSnoc(seen, node, "@up");
      CountWithSnoc(seen, node, "@down");
      images, imageCnt := MatchStates(node, images, imageCnt);
      d := d + 1;
    }
    assert ds[..d] == ds;
  }

  // ----- Button pages and gears -----

  /** The list a page is shown with: its own when its state has an image, else list 0 (up). */
  function PageOwner(images: seq<Option<Node>>, p: nat): nat
    requires p < |images|
  {
    if images[p].Some? then p else 0
  }

  /** The page lists of the two states, list `j` holding the pages the image of state `j` shows on. */
  function ButtonPages(images: seq<Option<Node>>): (pages: seq<seq<nat>>)
    requires |images| == |ButtonStatusSuffixes|
  {
    [if images[1].None? then [0, 1] else [0], if images[1].Some? then [1] else []]
  }

  /**
   * The page-list loop of `createButton`. Its `i == 3` test (a `selectedOver` state
   * borrowing the down image) can never hold, as there are only two state suffixes.
   */
  method AssignPages(images: seq<Option<Node>>) returns (pages: seq<seq<nat>>)
    requires |images| == |ButtonStatusSuffixes|
    ensures pages == ButtonPages(images)
  {
    pages := [[], []];
    var i := 0;
    while i < |ButtonStatusSuffixes|
      invariant 0 <= i <= 2 && |pages| == 2
      invariant i >= 1 ==> pages[0] == if i >= 2 && images[1].None? then [0, 1] else [0]
      invariant i >= 2 ==> pages[1] == (if images[1].Some? then [1] else [])
    {
      pages := pages[i := []];
      if images[i].None? {
        // `images[1]` is tested first here so that it is never read on the dead path.
        if images[1].Some? && i == 3 {
          assert false;
        } else {
          pages := pages[0 := pages[0] + [i]];
        }
      } else {
        pages := pages[i := pages[i] + [i]];
      }
      i := i + 1;
    }
    assert pages == [pages[0], pages[1]];
  }

  /** Each of pages 0 and 1 is in exactly the list of its owner, once, and in no other list. */
  lemma ButtonPagesOwnership(images: seq<Option<Node>>)
    requires |images| == |ButtonStatusSuffixes|
    ensures var pages := ButtonPages(images);
            forall j, p | 0 <= j < 2 && 0 <= p < 2 :: p in pages[j] <==> j == PageOwner(images, p)
    ensures var pages := ButtonPages(images);
            forall j | 0 <= j < 2 :: forall a, b | 0 <= a < b < |pages[j]| :: pages[j][a] < pages[j][b]
  {
  }

  /** The decimal forms of page numbers. */
  function Decimals(ps: seq<nat>): (r: seq<string>)
    ensures |r| == |ps|
    ensures forall k | 0 <= k < |ps| :: r[k] == Decimal(ps[k])
  {
    if |ps| == 0 then [] else [Decimal(ps[0])] + Decimals(ps[1..])
  }

  /** `imagePages[j].join(',')`. */
  function GearPages(ps: seq<nat>): string {
    JoinComma(Decimals(ps))
  }

  /** An up-only button gears its up image to "0,1"; with a down image, up gets "0" and down "1". */
  lemma ButtonGears(images: seq<Option<Node>>)
    requires |images| == |ButtonStatusSuffixes|
    ensures images[1].None? ==> GearPages(ButtonPages(images)[0]) == "0,1"
    ensures images[1].Some? ==> GearPages(ButtonPages(images)[0]) == "0" && GearPages(ButtonPages(images)[1]) == "1"
  {
    assert Decimal(0) == "0" && Decimal(1) == "1";
    assert Decimals([0, 1]) == ["0", "1"];
    assert Decimals([0]) == ["0"] && Decimals([1]) == ["1"];
  }

  function GearDisplay(pages: seq<nat>): Element {
    Element("gearDisplay", map[Controller := "button", Pages := GearPages(pages)], [])
  }

  /** `images.indexOf(node)`: the first state whose image is `node`, or -1. */
  function IndexOfImage(images: seq<Option<Node>>, node: Node): (j: int)
    ensures -1 <= j < |images|
    ensures j >= 0 ==> images[j] == Some(node)
    ensures forall m | 0 <= m < |images| && (j == -1 || m < j) :: images[m] != Some(node)
  {
    if |images| == 0 then -1
    else if images[0] == Some(node) then 0
    else
      var r := IndexOfImage(images[1..], node);
      if r < 0 then -1 else r + 1
  }

  // ----- The button's element callback -----

  /** What the button's callback closes over: the state images, their page lists and `instProps`. */
  datatype ButtonState = ButtonState(images: seq<Option<Node>>, pages: seq<seq<nat>>, props: map<Attr, string>)

  /**
   * One call of the button's element callback on the element `child` built for the layer
   * `node`. A state image gets a gear to the `button` controller. A `@title` layer's text
   * is copied into the instance properties and left on the element; otherwise an `@icon`
   * layer's url is moved from the element to the instance properties.
   */
  function ButtonStep(b: ButtonState, child: Element, node: Node): (r: (ButtonState, Element))
    requires |b.pages| == |b.images|
    ensures r.0.images == b.images && r.0.pages == b.pages && r.1.tag == child.tag
    ensures (exists j | 0 <= j < |b.images| :: b.images[j] == Some(node)) <==> |r.1.children| == |child.children| + 1
    ensures |r.1.children| >= |child.children| && r.1.children[..|child.children|] == child.children
    ensures var j := IndexOfImage(b.images, node);
            r.1.children == if j >= 0 then child.children + [GearDisplay(b.pages[j])] else child.children
    ensures Text in child.attrs ==> Text in r.1.attrs && r.1.attrs[Text] == child.attrs[Text]
    ensures Contains(node.name, "@title") ==>
              r.1.attrs == child.attrs
              && r.0.props == if Text in child.attrs then b.props[Title := child.attrs[Text]] else b.props
    ensures !Contains(node.name, "@title") && Contains(node.name, "@icon") && Url in child.attrs ==>
              r.0.props == b.props[Icon := child.attrs[Url]] && r.1.attrs == child.attrs - {Url}
    ensures !Contains(node.name, "@title") && !(Contains(node.name, "@icon") && Url in child.attrs) ==>
              r.0.props == b.props && r.1.attrs == child.attrs
  {
    var j := IndexOfImage(b.images, node);
    var c := if j >= 0 then AddChild(child, GearDisplay(b.pages[j])) else child;
    if Contains(node.name, "@title") then
      (if Text in c.attrs then b.(props := b.props[Title := c.attrs[Text]]) else b, c)
    else if Contains(node.name, "@icon") && Url in c.attrs then
      (b.(props := b.props[Icon := c.attrs[Url]]), WithoutAttr(c, Url))
    else
      (b, c)
  }

  /**
   * The `Button` extension element and the instance properties after it: mode `Check`
   * (and `checked`) for check buttons, else `Radio` for radio buttons; the press-scale
   * effect only for a single-image button that is not a check button.
   */
  function ButtonExtension(name: string, imageCnt: nat, props: map<Attr, string>): (r: (Element, map<Attr, string>))
    ensures r.0.tag == "Button" && r.0.children == []
    ensures Mode in r.0.attrs <==> EndsWith(name, "CheckBtn") || EndsWith(name, "@RadioBtn")
    ensures Mode in r.0.attrs ==> r.0.attrs[Mode] == if EndsWith(name, "CheckBtn") then "Check" else "Radio"
    ensures r.1 == if EndsWith(name, "CheckBtn") then props[Checked := "true"] else props
    ensures DownEffect in r.0.attrs <==> imageCnt == 1 && !EndsWith(name, "CheckBtn")
    ensures DownEffect in r.0.attrs ==>
              r.0.attrs[DownEffect] == "scale" && DownEffectValue in r.0.attrs && r.0.attrs[DownEffectValue] == "0.95"
  {
    SuffixPredicates(name);
    var e := Element("Button", map[], []);
    var (e1, p1) :=
      if IsCheckBtn(name) then (WithAttr(e, Mode, "Check"), props[Checked := "true"])
      else if IsRadioBtn(name) then (WithAttr(e, Mode, "Radio"), props)
      else (e, props);
    var e2 :=
      if imageCnt == 1 && !IsCheckBtn(name) then WithAttr(WithAttr(e1, DownEffect, "scale"), DownEffectValue, "0.95")
      else e1;
    (e2, p1)
  }

  // ----- The grip/bar callback of sliders and progress bars -----

  /** What the callback closes over: the bar's id once seen, and the grip held back for it. */
  datatype GripBar = GripBar(targetID: Option<string>, relation: Option<nat>)

  /** What one call does: nothing, a relation on the current element, or one on the held grip. */
  datatype Attach = NoAttach | AttachHere(target: string) | AttachHeld(pos: nat, target: string)

  function RelationTo(target: string): Element {
    Element("relation", map[Target := target, SidePair := "right-right"], [])
  }

  /**
   * One call of the callback on the element named `name` with id `id`, about to take
   * display position `pos`. A grip seen before any bar is held back; a grip seen after one
   * is related to it at once; a bar records its id and relates a held grip to it.
   */
  function GripBarStep(s: GripBar, name: string, id: string, pos: nat): (r: (GripBar, Attach))
    ensures name != "grip" && name != "bar" ==> r == (s, NoAttach)
    ensures name == "grip" ==> r.0 == if s.targetID.None? then s.(relation := Some(pos)) else s
    ensures name == "bar" ==> r.0 == s.(targetID := Some(id))
    ensures r.1 != NoAttach <==> (name == "grip" && s.targetID.Some?) || (name == "bar" && s.relation.Some?)
    ensures r.1.AttachHeld? ==> name == "bar" && s.relation == Some(r.1.pos) && r.1.target == id
    ensures r.1.AttachHere? ==> name == "grip" && s.targetID == Some(r.1.target)
  {
    if name == "grip" then
      if s.targetID.None? then (s.(relation := Some(pos)), NoAttach)
      else (s, AttachHere(s.targetID.value))
    else if name == "bar" then
      (s.(targetID := Some(id)), if s.relation.Some? then AttachHeld(s.relation.value, id) else NoAttach)
    else (s, NoAttach)
  }

  /** The (position, target) relation an attachment adds, given the current position. */
  function Attached(a: Attach, pos: nat): seq<(nat, string)> {
    match a
    case NoAttach => []
    case AttachHere(t) => [(pos, t)]
    case AttachHeld(p, t) => [(p, t)]
  }

  /**
   * The callback over a sequence of (name, id) elements at positions 0, 1, ...: the final
   * state and every relation attached, in order.
   */
  function Run(s0: GripBar, evs: seq<(string, string)>): (r: (GripBar, seq<(nat, string)>))
    decreases |evs|
  {
    if |evs| == 0 then (s0, [])
    else
      var (s, out) := Run(s0, evs[..|evs| - 1]);
      var (s', a) := GripBarStep(s, evs[|evs| - 1].0, evs[|evs| - 1].1, |evs| - 1);
      (s', out + Attached(a, |evs| - 1))
  }

  /**
   * Whatever the names and their order, starting from nothing, every relation the
   * callback attaches goes from a grip's position to a bar's id.
   */
  lemma {:induction false} RunSourced(evs: seq<(string, string)>)
    decreases |evs|
    ensures var (s, out) := Run(GripBar(None, None), evs);
            Sourced(evs, s, out)
  {
    if |evs| > 0 {
      var n := |evs| - 1;
      RunSourced(evs[..n]);
      var (s, out) := Run(GripBar(None, None), evs[..n]);
      SourcedSnoc(evs, s, out);
    }
  }

  /** Position `p` holds a grip. */
  predicate GripAt(evs: seq<(string, string)>, p: nat) {
    p < |evs| && evs[p].0 == "grip"
  }

  /** `t` is the id of a bar of `evs`. */
  predicate BarId(evs: seq<(string, string)>, t: string) {
    exists b | 0 <= b < |evs| :: evs[b] == ("bar", t)
  }

  /**
   * What the callback's state and output can hold after `evs`, starting from nothing: a
   * held position is a grip's, a recorded id is a bar's, and every relation goes from a
   * grip to a bar.
   */
  predicate Sourced(evs: seq<(string, string)>, s: GripBar, out: seq<(nat, string)>) {
    && (s.relation.Some? ==> GripAt(evs, s.relation.value))
    && (s.targetID.Some? ==> BarId(evs, s.targetID.value))
    && forall k | 0 <= k < |out| :: GripAt(evs, out[k].0) && BarId(evs, out[k].1)
  }

  lemma SourcedSnoc(evs: seq<(string, string)>, s: GripBar, out: seq<(nat, string)>)
    requires |evs| > 0 && Sourced(evs[..|evs| - 1], s, out)
    ensures var n := |evs| - 1;
            var (s', a) := GripBarStep(s, evs[n].0, evs[n].1, n);
            Sourced(evs, s', out + Attached(a, n))
  {
    var n := |evs| - 1;
    var pre := evs[..n];
    forall p: nat | GripAt(pre, p) ensures GripAt(evs, p) {
      assert pre[p] == evs[p];
    }
    forall t | BarId(pre, t) ensures BarId(evs, t) {
      var b :| 0 <= b < |pre| && pre[b] == ("bar", t);
      assert evs[b] == ("bar", t);
    }
    if evs[n].0 == "bar" {
      assert evs[n] == ("bar", evs[n].1);
    }
  }

  /** Exactly one element of `evs` is named `grip`, at `g`, and exactly one `bar`, at `b`. */
  predicate OneGripOneBar(evs: seq<(string, string)>, g: nat, b: nat) {
    g < |evs| && b < |evs| && evs[g].0 == "grip" && evs[b].0 == "bar"
    && forall k | 0 <= k < |evs| && k != g && k != b :: evs[k].0 != "grip" && evs[k].0 != "bar"
  }

  /** The callback's state and output after the first `m` elements of a one-grip, one-bar sequence. */
  function GripBarAfter(evs: seq<(string, string)>, g: nat, b: nat, m: nat): (GripBar, seq<(nat, string)>)
    requires b < |evs|
  {
    (GripBar(if b < m then Some(evs[b].1) else None, if g < m && g < b then Some(g) else None),
     if g < m && b < m then [(g, evs[b].1)] else [])
  }

  lemma {:induction false} GripBarPrefix(evs: seq<(string, string)>, g: nat, b: nat, m: nat)
    requires OneGripOneBar(evs, g, b) && m <= |evs|
    ensures Run(GripBar(None, None), evs[..m]) == GripBarAfter(evs, g, b, m)
  {
    if m > 0 {
      GripBarPrefix(evs, g, b, m - 1);
      GripBarPrefixStep(evs, g, b, m);
    }
  }

  /** `Run` over a non-empty sequence is one step past `Run` over all but its last element. */
  lemma RunLast(s0: GripBar, evs: seq<(string, string)>, n: nat)
    requires n == |evs| - 1
    ensures var (s, out) := Run(s0, evs[..n]);
            var (s', a) := GripBarStep(s, evs[n].0, evs[n].1, n);
            Run(s0, evs) == (s', out + Attached(a, n))
  {
  }

  /** One more element takes the state after `m - 1` elements to the state after `m`. */
  lemma GripBarPrefixStep(evs: seq<(string, string)>, g: nat, b: nat, m: nat)
    requires OneGripOneBar(evs, g, b) && 0 < m <= |evs|
    requires Run(GripBar(None, None), evs[..m - 1]) == GripBarAfter(evs, g, b, m - 1)
    ensures Run(GripBar(None, None), evs[..m]) == GripBarAfter(evs, g, b, m)
  {
    var pre := evs[..m];
    assert pre[..m - 1] == evs[..m - 1];
    assert pre[m - 1] == evs[m - 1];
    RunLast(GripBar(None, None), pre, m - 1);
    GripBarAfterStep(evs, g, b, m);
  }

  /** The callback's step on element `m - 1`, stated on `GripBarAfter` alone. */
  lemma GripBarAfterStep(evs: seq<(string, string)>, g: nat, b: nat, m: nat)
    requires OneGripOneBar(evs, g, b) && 0 < m <= |evs|
    ensures var (s, out) := GripBarAfter(evs, g, b, m - 1);
            var (s', a) := GripBarStep(s, evs[m - 1].0, evs[m - 1].1, m - 1);
            (s', out + Attached(a, m - 1)) == GripBarAfter(evs, g, b, m)
  {
    var (s, out) := GripBarAfter(evs, g, b, m - 1);
    var (s', a) := GripBarStep(s, evs[m - 1].0, evs[m - 1].1, m - 1);
    if m - 1 == g {
      assert a == (if b < g then AttachHere(evs[b].1) else NoAttach);
      assert out + Attached(a, m - 1) == if b < g then [(g, evs[b].1)] else [];
    } else if m - 1 == b {
      assert a == (if g < b then AttachHeld(g, evs[b].1) else NoAttach);
      assert out + Attached(a, m - 1) == if g < b then [(g, evs[b].1)] else [];
    } else {
      assert evs[m - 1].0 != "grip" && evs[m - 1].0 != "bar";
      assert a == NoAttach && s' == s;
      assert out + Attached(a, m - 1) == out;
    }
  }

  /**
   * With one grip and one bar, in either order, the grip receives exactly one relation,
   * whose target is the bar's id.
   */
  lemma GripRelatedToBar(evs: seq<(string, string)>, g: nat, b: nat)
    requires OneGripOneBar(evs, g, b)
    ensures Run(GripBar(None, None), evs).1 == [(g, evs[b].1)]
  {
    GripBarPrefix(evs, g, b, |evs|);
    assert evs[..|evs|] == evs;
  }

  // ----- Radio-group controllers -----

  /** The page tokens of a controller: page k followed by the label of radio button k. */
  function PageTokens(labels: seq<string>): (ts: seq<string>)
    ensures |ts| == 2 * |labels|
  {
    if |labels| == 0 then []
    else PageTokens(labels[..|labels| - 1]) + [Decimal(|labels| - 1)] + [labels[|labels| - 1]]
  }

  /** Token 2k is page k and token 2k+1 is label k. */
  lemma {:induction false} PageTokensAt(labels: seq<string>)
    ensures var ts := PageTokens(labels);
            forall k | 0 <= k < |labels| :: ts[2 * k] == Decimal(k) && ts[2 * k + 1] == labels[k]
  {
    if |labels| > 0 {
      var n := |labels| - 1;
      PageTokensAt(labels[..n]);
      var ts := PageTokens(labels);
      forall k | 0 <= k < |labels|
        ensures ts[2 * k] == Decimal(k) && ts[2 * k + 1] == labels[k]
      {
        if k < n {
          assert labels[..n][k] == labels[k];
        }
      }
    }
  }

  /** The tokens of comma-free labels are comma-free. */
  lemma {:induction false} PageTokensCommaFree(labels: seq<string>)
    requires forall k | 0 <= k < |labels| :: CommaFree(labels[k])
    ensures var ts := PageTokens(labels);
            forall i | 0 <= i < |ts| :: CommaFree(ts[i])
  {
    if |labels| > 0 {
      var n := |labels| - 1;
      assert forall k | 0 <= k < n :: labels[..n][k] == labels[k];
      PageTokensCommaFree(labels[..n]);
      assert var t := PageTokens(labels[..n]); forall i | 0 <= i < |t| :: CommaFree(t[i]);
      var pre, d := PageTokens(labels[..n]), Decimal(n);
      var ts := pre + [d] + [labels[n]];
      forall i | 0 <= i < |ts| ensures CommaFree(ts[i]) {
        if i < |pre| {
          assert ts[i] == pre[i] && CommaFree(pre[i]);
        } else if i == |pre| {
          assert ts[i] == d;
        } else {
          assert ts[i] == labels[n] && CommaFree(labels[n]);
        }
      }
      assert PageTokens(labels) == ts;
    }
  }

  /** Adding a label extends the joined pages by `,<page>,<label>` (or starts them). */
  lemma PagesSnoc(labels: seq<string>)
    requires |labels| > 0
    ensures var n := |labels| - 1;
            var prev := JoinComma(PageTokens(labels[..n]));
            JoinComma(PageTokens(labels)) == if n == 0 then Decimal(0) + "," + labels[0]
                                              else prev + "," + Decimal(n) + "," + labels[n]
  {
    var n := |labels| - 1;
    JoinSnocPair(PageTokens(labels[..n]), Decimal(n), labels[n]);
  }

  /** The `pages` loop of `createComponent`: `0,l0,1,l1,...`, empty for no labels. */
  method ControllerPages(labels: seq<string>) returns (str: string)
    ensures str == JoinComma(PageTokens(labels))
  {
    str := "";
    var idx := 0;
    while idx < |labels|
      invariant idx <= |labels|
      invariant str == JoinComma(PageTokens(labels[..idx]))
    {
      PagesSnoc(labels[..idx + 1]);
      assert labels[..idx + 1][..idx] == labels[..idx];
      if idx == 0 {
        str := Decimal(idx) + "," + labels[idx];
      } else {
        str := str + "," + Decimal(idx) + "," + labels[idx];
      }
      idx := idx + 1;
    }
    assert labels[..idx] == labels;
  }

  /** Splitting a controller's `pages` at commas gives back page k and label k, in order. */
  lemma PagesRoundTrip(labels: seq<string>)
    requires |labels| > 0
    requires forall k | 0 <= k < |labels| :: CommaFree(labels[k])
    ensures var parts := SplitComma(JoinComma(PageTokens(labels)));
            |parts| == 2 * |labels|
            && forall k | 0 <= k < |labels| :: parts[2 * k] == Decimal(k) && parts[2 * k + 1] == labels[k]
  {
    PageTokensCommaFree(labels);
    PageTokensAt(labels);
    SplitJoin(PageTokens(labels));
  }

  /** A controller element of a component. */
  function ControllerElement(name: string, pages: string): Element {
    Element("controller", map[Name := name, Pages := pages, Selected := "0"], [])
  }

  // ----- Display-list elements -----

  /** `'n' + (displayList.children.length + 1)`: the positional name of the next element. */
  function PositionalName(count: nat): (r: string)
    ensures |r| >= 2 && r[0] == 'n' && ParseNat(r[1..], 10) == count + 1
  {
    var d := Decimal(count + 1);
    assert ("n" + d)[1..] == d;
    "n" + d
  }

  /** `specialUsage ? specialUsage : str`. */
  function ElementName(usage: Option<Usage>, str: string): string {
    if usage.Some? then UsageName(usage.value) else str
  }

  /**
   * `x + ',' + y`: a position such as `(aNode.left - rootNode.left) + ',' + (aNode.top -
   * rootNode.top)`, or a size such as `aNode.width + ',' + aNode.height`.
   */
  function Pair(x: int, y: int): (r: string)
    ensures ParseCoords(r) == (x, y)
  {
    CoordsRoundTrip(x, y);
    Coords(x, y)
  }

  /**
   * The instance element of a nested component, button, progress bar or slider: id
   * `<str>_<item id base>`, the usage marker or `str` as name, the item's id and file
   * name, and the position relative to the root layer.
   */
  function Instance(idBase: string, str: string, usage: Option<Usage>, src: string, fileName: string,
                    n: Node, root: Node): (e: Element)
    ensures e.tag == "component" && e.children == []
    ensures e.attrs.Keys == {Id, Name, Src, FileName, Xy}
    ensures e.attrs[Id] == str + "_" + idBase && e.attrs[Src] == src && e.attrs[FileName] == fileName
    ensures e.attrs[Name] == if usage.Some? then UsageName(usage.value) else str
    ensures ParseCoords(e.attrs[Xy]) == (n.left - root.left, n.top - root.top)
  {
    Element("component", map[Id := str + "_" + idBase, Name := ElementName(usage, str), Src := src,
                             FileName := fileName, Xy := Pair(n.left - root.left, n.top - root.top)], [])
  }

  /**
   * The name a text layer gives its element: the layer name up to `@title` when it has a
   * marker, kept when it passes the `Txt` test, else the positional name.
   */
  function TextName(name: string, usage: Option<Usage>, count: nat): (r: string)
    ensures usage.None? ==>
              r == if EndsWith(name, "Txt") || |name| == 2 then name else PositionalName(count)
    ensures usage.Some? && Contains(name, "@title") ==>
              var stem := name[..LastIndexOf(name, "@title")];
              r == if EndsWith(stem, "Txt") || |stem| == 2 then stem else PositionalName(count)
    ensures usage.Some? && !Contains(name, "@title") ==> r == PositionalName(count)
  {
    var k := LastIndexOf(name, "@title");
    var txtName := if usage.Some? then Prefix(name, k) else name;
    TxtNameQuirk(txtName);
    LastIndexContains(name, "@title");
    if TxtNameTest(txtName) then txtName else PositionalName(count)
  }

  /** `exports.constants.IGNORE_FONT`, a bit of the export option. */
  const IgnoreFont: nat := 2

  /** `option & IGNORE_FONT` is non-zero. */
  predicate IgnoresFont(option: nat) {
    (option / IgnoreFont) % 2 == 1
  }

  /**
   * The attributes of a text element, from its already formatted values: `align` only
   * when the alignment is not `left`, `font` only when fonts are kept.
   */
  function TextAttrs(str: string, idBase: string, run: TextRun, xy: string, size: string,
                     fontSize: string, color: string, withFont: bool): (attrs: map<Attr, string>)
    ensures {Id, Name, Text, Xy, Size, VAlign, AutoSize, FontSize, Color} <= attrs.Keys
    ensures attrs[Id] == str + "_" + idBase && attrs[Name] == str && attrs[Text] == run.value
    ensures attrs[Xy] == xy && attrs[Size] == size && attrs[FontSize] == fontSize && attrs[Color] == color
    ensures Align in attrs <==> run.alignment != "left"
    ensures Align in attrs ==> attrs[Align] == run.alignment
    ensures Font in attrs <==> withFont
    ensures Font in attrs ==> attrs[Font] == run.font
    ensures attrs[VAlign] == "middle" && attrs[AutoSize] == "none"
  {
    var attrs := map[Id := str + "_" + idBase, Name := str, Text := run.value, Xy := xy, Size := size,
                     VAlign := "middle", AutoSize := "none", FontSize := fontSize, Color := color];
    var aligned := if run.alignment != "left" then attrs[Align := run.alignment] else attrs;
    if withFont then aligned[Font := run.font] else aligned
  }

  /**
   * The text element of a text layer: the box grown by 4 on every side (its position, read
   * back, is 4 up and left of the layer's relative to the root, its size 8 larger), `align`
   * only when it is not `left`, `font` unless the option ignores fonts, the run's point
   * size, and the run's colour as `#rrggbb`.
   */
  function TextElement(n: Node, run: TextRun, root: Node, usage: Option<Usage>, count: nat,
                       idBase: string, option: nat): (e: Element)
    ensures e.tag == "text" && e.children == []
    ensures {Id, Name, Text, Xy, Size, VAlign, AutoSize, FontSize, Color} <= e.attrs.Keys
    ensures e.attrs[Id] == e.attrs[Name] + "_" + idBase && e.attrs[Text] == run.value
    ensures Align in e.attrs <==> run.alignment != "left"
    ensures Align in e.attrs ==> e.attrs[Align] == run.alignment
    ensures e.attrs[Name] == TextName(n.name, usage, count)
    ensures Font in e.attrs <==> !IgnoresFont(option)
    ensures Font in e.attrs ==> e.attrs[Font] == run.font
    ensures e.attrs[VAlign] == "middle" && e.attrs[AutoSize] == "none"
    ensures ParseCoords(e.attrs[Xy]) == (n.left - root.left - 4, n.top - root.top - 4)
    ensures ParseCoords(e.attrs[Size]) == (n.width + 8, n.height + 8)
    ensures ParseInt(e.attrs[FontSize]) == run.size
    ensures var c := e.attrs[Color];
            && |c| == 7 && c[0] == '#'
            && (forall k | 1 <= k < 7 :: IsDigitIn(c[k], 16))
            && ParseNat(c[1..3], 16) == run.color.r && ParseNat(c[3..5], 16) == run.color.g
            && ParseNat(c[5..7], 16) == run.color.b
  {
    var xy, size := Pair(n.left - root.left - 4, n.top - root.top - 4), Pair(n.width + 8, n.height + 8);
    Element("text", TextAttrs(TextName(n.name, usage, count), idBase, run, xy, size,
                              PointSize(run.size), TextColor(run.color), !IgnoresFont(option)), [])
  }

  /** `typeTool.sizes()[0]` in decimal. */
  function PointSize(size: int): (r: string)
    ensures ParseInt(r) == size
  {
    IntRoundTrip(size);
    IntToString(size)
  }

  /** `convertToHtmlColor(typeTool.colors()[0])`: `#rrggbb`. */
  function TextColor(c: Rgba): (r: string)
    ensures |r| == 7 && r[0] == '#'
    ensures forall k | 1 <= k < 7 :: IsDigitIn(r[k], 16)
    ensures ParseNat(r[1..3], 16) == c.r && ParseNat(r[3..5], 16) == c.g && ParseNat(r[5..7], 16) == c.b
  {
    var r := ConvertToHtmlColor(Channels(c), false);
    assert r[3..5] == r[|r| - 4..|r| - 2] && r[5..7] == r[|r| - 2..];
    r
  }

  /** The attributes a loader and an image share. */
  function ImageCommon(id: string, name: string, xy: string, fileName: string): (m: map<Attr, string>)
    ensures m.Keys == {Id, Name, Xy, FileName}
    ensures m[Id] == id && m[Name] == name && m[Xy] == xy && m[FileName] == fileName
  {
    map[Id := id, Name := name, Xy := xy, FileName := fileName]
  }

  /**
   * The element of a non-empty pixel layer: a `loader` for an `@icon` layer, sized and
   * pointing at the image by package url; otherwise an `image` naming it by id. The id
   * uses `bar` for a `@bar` layer, else the positional name.
   */
  function ImageElement(n: Node, root: Node, usage: Option<Usage>, count: nat, idBase: string,
                        pkgId: string, itemId: string, itemName: string): (e: Element)
    ensures e.tag == (if usage == Some(IconUsage) then "loader" else "image") && e.children == []
    ensures e.attrs.Keys == if usage == Some(IconUsage) then {Id, Name, Xy, Size, Url, FileName}
                            else {Id, Name, Xy, Src, FileName}
    ensures var str := if usage == Some(BarUsage) then "bar" else PositionalName(count);
            && e.attrs[Id] == str + "_" + idBase
            && e.attrs[Name] == (if usage.Some? then UsageName(usage.value) else str)
    ensures ParseCoords(e.attrs[Xy]) == (n.left - root.left, n.top - root.top)
    ensures e.attrs[FileName] == itemName
    ensures usage == Some(IconUsage) ==>
              ParseCoords(e.attrs[Size]) == (n.width, n.height) && e.attrs[Url] == "ui://" + pkgId + itemId
    ensures usage != Some(IconUsage) ==> e.attrs[Src] == itemId
  {
    var str := if usage == Some(BarUsage) then "bar" else PositionalName(count);
    var common := ImageCommon(str + "_" + idBase, ElementName(usage, str),
                              Pair(n.left - root.left, n.top - root.top), itemName);
    if usage == Some(IconUsage) then
      LoaderElement(common, Pair(n.width, n.height), "ui://" + pkgId + itemId)
    else
      Element("image", common[Src := itemId], [])
  }

  /** The `loader` of an `@icon` layer: the shared attributes plus its size and url. */
  function LoaderElement(common: map<Attr, string>, size: string, url: string): (e: Element)
    requires common.Keys == {Id, Name, Xy, FileName}
    ensures e.tag == "loader" && e.children == []
    ensures e.attrs.Keys == {Id, Name, Xy, Size, Url, FileName}
    ensures e.attrs[Size] == size && e.attrs[Url] == url
    ensures forall k | k in common :: e.attrs[k] == common[k]
  {
    Element("loader", common[Size := size][Url := url], [])
  }

  /** `alpha` is added exactly when the layer is not fully opaque; nothing else changes. */
  function WithAlpha(e: Element, opacity: byte): (r: Element)
    ensures r.tag == e.tag && r.children == e.children
    ensures Alpha in r.attrs <==> Alpha in e.attrs || opacity < 255
    ensures opacity < 255 ==> r.attrs == e.attrs[Alpha := AlphaText(opacity)]
    ensures opacity == 255 ==> r == e
  {
    match AlphaAttr(opacity)
    case Some(a) => WithAttr(e, Alpha, a)
    case None => e
  }

  // ----- How parseNode reads a layer -----

  /** The branch of `parseNode` a layer takes. */
  datatype NodeKind =
    | NestedComponent | ButtonGroup | ProgressBarGroup | SliderGroup | RadioGroupNode | PlainGroup
    | TextLayer | ImageLayer | EmptyLayer

  /**
   * The tests of `parseNode`, in source order: a group is a nested component when its
   * name begins with `Com`, else a button, progress bar or slider by its suffix, else a
   * radio group when the name contains `@RadioGroup`, else it is flattened. A layer is
   * text when it has a text run, else an image unless it is empty.
   */
  function Classify(n: Node): (k: NodeKind)
  {
    if n.isGroup then
      if IndexOf(n.name, ComponentPrefix) == 0 then NestedComponent
      else if LastIndexOf(n.name, CommonButtonSuffix) != -1 && IsBtn(n.name) then ButtonGroup
      else if IsProgressBar(n.name) then ProgressBarGroup
      else if IsSlider(n.name) then SliderGroup
      else if LastIndexOf(n.name, RadioGroupSuffix) != -1 then RadioGroupNode
      else PlainGroup
    else if n.text.Some? then TextLayer
    else if n.pixels.Some? then ImageLayer
    else EmptyLayer
  }

  /** Each branch of `parseNode` stated by the layer's name: prefix, suffixes and markers. */
  lemma ClassifyByName(n: Node)
    ensures Classify(n) == NestedComponent <==> n.isGroup && StartsWith(n.name, "Com")
    ensures Classify(n) == ButtonGroup <==>
              n.isGroup && !StartsWith(n.name, "Com") && EndsWith(n.name, "Btn")
    ensures Classify(n) == ProgressBarGroup <==>
              n.isGroup && !StartsWith(n.name, "Com") && EndsWith(n.name, "ProBar")
    ensures Classify(n) == SliderGroup <==>
              n.isGroup && !StartsWith(n.name, "Com") && EndsWith(n.name, "Slider")
    ensures Classify(n) == RadioGroupNode <==>
              && n.isGroup && !StartsWith(n.name, "Com") && Contains(n.name, "@RadioGroup")
              && !EndsWith(n.name, "Btn") && !EndsWith(n.name, "ProBar") && !EndsWith(n.name, "Slider")
    ensures Classify(n) == TextLayer <==> !n.isGroup && n.text.Some?
    ensures Classify(n) == ImageLayer <==> !n.isGroup && n.text.None? && n.pixels.Some?
  {
    IndexOfZeroIsPrefix(n.name, "Com");
    SuffixPredicates(n.name);
    SuffixEndings(n.name);
  }

  /** The three widget suffixes are mutually exclusive. */
  lemma SuffixEndings(name: string)
    ensures !(EndsWith(name, "Btn") && EndsWith(name, "ProBar"))
    ensures !(EndsWith(name, "Btn") && EndsWith(name, "Slider"))
    ensures !(EndsWith(name, "ProBar") && EndsWith(name, "Slider"))
  {
    var n := |name|;
    if EndsWith(name, "Btn") {
      assert name[n - 1] == 'n';
    }
    if EndsWith(name, "ProBar") {
      assert name[n - 1] == 'r';
    }
  }
}
