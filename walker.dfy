/**
 * The layer walk: `parseNode` (lib.js:511-689) and the synthesisers that drive it,
 * `createComponent`, `createButton`, `createProgressBar`, `createSlider` and
 * `createImage` (lib.js:222-455), over a package under construction.
 *
 * What `parseNode` shares with its callers by reference (the display list, the state the
 * element callback closes over, the controller list and the radio label list) is
 * threaded through a `Walk` record. The JavaScript TypeErrors the walk can raise (a
 * radio button or radio group reached without the list it writes to) end the walk with
 * `ok == false`.
 */
module Walker {
  import opened Wrappers
  import opened Strings
  import opened Numerals
  import opened Naming
  import opened HtmlColor
  import opened Xml
  import opened Design
  import opened Registry
  import opened Widgets

  // ----- What a walk carries -----

  /** The element callback of the component being built: none, a button's, or a slider's. */
  datatype Callback = NoCallback | OnButton(button: ButtonState) | OnGripBar(gripBar: GripBar)

  /** `ctrlList`: radio-group controllers by name, in the order they were first set. */
  type Controllers = seq<(string, seq<string>)>

  /**
   * The display list of the component being built, its element callback with the state
   * it closes over, `ctrlList` (absent where the caller passes none) and `ctrlItemList`
   * (present only directly below a radio group).
   */
  datatype Walk = Walk(dl: seq<Element>, cb: Callback, ctrl: Option<Controllers>, items: Option<seq<string>>)

  predicate KeysDistinct(ctrl: Controllers) {
    forall i, j | 0 <= i < j < |ctrl| :: ctrl[i].0 != ctrl[j].0
  }

  /** The walk's own invariant: a button's page lists match its images, and controller names are distinct. */
  predicate WalkOk(w: Walk) {
    && (w.cb.OnButton? ==> |w.cb.button.pages| == |w.cb.button.images|)
    && (w.ctrl.Some? ==> KeysDistinct(w.ctrl.value))
  }

  /** The same kind of callback, whatever its state. */
  predicate SameKind(a: Callback, b: Callback) {
    a.NoCallback? == b.NoCallback? && a.OnButton? == b.OnButton? && a.OnGripBar? == b.OnGripBar?
  }

  /**
   * The walk below `w` ended in `w'`: elements were only appended to the display list,
   * every controller set before is still there under its name, and the kind of callback
   * and which lists are present are as the caller set them.
   */
  predicate Continues(w: Walk, w': Walk) {
    && WalkOk(w') && Appended(w.dl, w'.dl) && SameKind(w.cb, w'.cb) && KeptNames(w.ctrl, w'.ctrl)
    && w'.ctrl.Some? == w.ctrl.Some? && w'.items.Some? == w.items.Some?
  }

  /**
   * `ctrlList[name] = labels` only adds a key or overwrites one: every controller of `c`
   * is in `c'` at the same place under the same name.
   */
  predicate KeptNames(c: Option<Controllers>, c': Option<Controllers>) {
    c.Some? ==> c'.Some? && |c.value| <= |c'.value| && forall k | 0 <= k < |c.value| :: c'.value[k].0 == c.value[k].0
  }

  /** `dl'` is `dl` with elements appended. */
  predicate Appended(dl: seq<Element>, dl': seq<Element>) {
    |dl| <= |dl'| && forall k | 0 <= k < |dl| :: dl'[k] == dl[k]
  }

  lemma ContinuesTrans(w: Walk, w0: Walk, w1: Walk)
    requires Continues(w, w0) && Continues(w0, w1)
    ensures Continues(w, w1)
  {
  }

  // ----- Controllers -----

  /** The position of the controller named `name`, or -1. */
  function Find(ctrl: Controllers, name: string): (k: int)
    ensures -1 <= k < |ctrl|
    ensures k >= 0 ==> ctrl[k].0 == name && forall j | 0 <= j < k :: ctrl[j].0 != name
    ensures k == -1 <==> forall j | 0 <= j < |ctrl| :: ctrl[j].0 != name
  {
    if |ctrl| == 0 then -1
    else if ctrl[|ctrl| - 1].0 == name then
      var k := Find(ctrl[..|ctrl| - 1], name);
      if k >= 0 then k else |ctrl| - 1
    else Find(ctrl[..|ctrl| - 1], name)
  }

  /**
   * `ctrlList[name] = labels`: an existing controller keeps its place, a new one goes
   * last; afterwards the name is found with the new labels, every other controller is as
   * it was, and distinct names stay distinct.
   */
  function Upsert(ctrl: Controllers, name: string, labels: seq<string>): (r: Controllers)
    ensures |r| == |ctrl| + (if Find(ctrl, name) == -1 then 1 else 0)
    ensures Find(r, name) >= 0 && r[Find(r, name)] == (name, labels)
    ensures forall j | 0 <= j < |ctrl| && j != Find(ctrl, name) :: r[j] == ctrl[j]
    ensures forall j | 0 <= j < |ctrl| :: r[j].0 == ctrl[j].0
    ensures KeysDistinct(ctrl) ==> KeysDistinct(r)
  {
    var k := Find(ctrl, name);
    var r := if k >= 0 then ctrl[k := (name, labels)] else ctrl + [(name, labels)];
    SetAt(ctrl, name, labels, k, r);
    r
  }

  lemma SetAt(ctrl: Controllers, name: string, labels: seq<string>, k: int, r: Controllers)
    requires k == Find(ctrl, name)
    requires r == if k >= 0 then ctrl[k := (name, labels)] else ctrl + [(name, labels)]
    ensures |r| == |ctrl| + (if k == -1 then 1 else 0)
    ensures Find(r, name) >= 0 && r[Find(r, name)] == (name, labels)
    ensures forall j | 0 <= j < |ctrl| && j != k :: r[j] == ctrl[j]
    ensures forall j | 0 <= j < |ctrl| :: r[j].0 == ctrl[j].0
    ensures KeysDistinct(ctrl) ==> KeysDistinct(r)
  {
    var p := if k >= 0 then k else |ctrl|;
    assert r[p] == (name, labels);
    forall j | 0 <= j < p ensures r[j].0 != name {
      assert r[j] == ctrl[j];
    }
    assert Find(r, name) == p;
    if KeysDistinct(ctrl) {
      forall i, j | 0 <= i < j < |r| ensures r[i].0 != r[j].0 {
        if i != p && j != p {
          assert r[i] == ctrl[i] && r[j] == ctrl[j];
        } else if i == p {
          assert r[j] == ctrl[j];
        } else {
          assert r[i] == ctrl[i];
        }
      }
    }
  }

  /** One `controller` element per controller, with its pages joined (the loop of `createComponent`). */
  method ControllerElements(ctrl: Controllers) returns (es: seq<Element>)
    ensures |es| == |ctrl|
    ensures forall k | 0 <= k < |ctrl| :: es[k] == ControllerElement(ctrl[k].0, JoinComma(PageTokens(ctrl[k].1)))
  {
    es := [];
    for k := 0 to |ctrl|
      invariant |es| == k
      invariant forall j | 0 <= j < k :: es[j] == ControllerElement(ctrl[j].0, JoinComma(PageTokens(ctrl[j].1)))
    {
      var pages := ControllerPages(ctrl[k].1);
      es := es + [ControllerElement(ctrl[k].0, pages)];
    }
  }

  // ----- What a walk produces -----

  function DisplayList(dl: seq<Element>): Element {
    Element("displayList", map[], dl)
  }

  /** How many display-list elements a layer yields: flattened groups yield their children's. */
  function Emitted(n: Node): nat
    decreases n, 1
  {
    match Classify(n)
    case RadioGroupNode => EmittedAll(n.children)
    case PlainGroup => EmittedAll(n.children)
    case EmptyLayer => 0
    case _ => 1
  }

  function EmittedAll(cs: seq<Node>): nat
    decreases cs, 0
  {
    if |cs| == 0 then 0 else Emitted(cs[0]) + EmittedAll(cs[1..])
  }

  /** The children a group passes down: whether they get a controller list and a label list. */
  function Below(kind: NodeKind, hasCtrl: bool): (bool, bool) {
    match kind
    case NestedComponent => (true, false)
    case ProgressBarGroup => (false, false)
    case SliderGroup => (false, false)
    case RadioGroupNode => (hasCtrl, true)
    case _ => (hasCtrl, false)
  }

  /**
   * Whether `parseNode` finishes on `n` (whose parent is named `parentName`) without a
   * TypeError, given whether it was passed a controller list and a label list. A radio
   * button needs the label list, and the controller list unless its parent's name has
   * a `\w+@` tag; a radio group needs the controller list.
   */
  predicate Completes(n: Node, parentName: string, hasCtrl: bool, hasItems: bool)
    decreases n, 1
  {
    var kind := Classify(n);
    var below := Below(kind, hasCtrl);
    && (n.isGroup ==> ChildrenComplete(n, below.0, below.1))
    && (kind == ButtonGroup && IsRadioBtn(n.name) ==> hasItems && (hasCtrl || FirstWordTag(parentName).Some?))
    && (kind == RadioGroupNode ==> hasCtrl)
  }

  /** Every child of `n` completes, with `n` as its parent. */
  predicate ChildrenComplete(n: Node, hasCtrl: bool, hasItems: bool)
    decreases n, 0
  {
    forall i | 0 <= i < |n.children| :: Completes(n.children[i], n.name, hasCtrl, hasItems)
  }

  /** `Completes`, branch by branch of `parseNode`. */
  lemma CompletesByKind(n: Node, parentName: string, hasCtrl: bool, hasItems: bool)
    ensures !n.isGroup ==> Completes(n, parentName, hasCtrl, hasItems)
    ensures Classify(n) == NestedComponent ==>
              (Completes(n, parentName, hasCtrl, hasItems) <==> ChildrenComplete(n, true, false))
    ensures Classify(n) == ProgressBarGroup || Classify(n) == SliderGroup ==>
              (Completes(n, parentName, hasCtrl, hasItems) <==> ChildrenComplete(n, false, false))
    ensures Classify(n) == ButtonGroup ==>
              (Completes(n, parentName, hasCtrl, hasItems) <==>
                 && ChildrenComplete(n, hasCtrl, false)
                 && (IsRadioBtn(n.name) ==> hasItems && (hasCtrl || FirstWordTag(parentName).Some?)))
    ensures Classify(n) == RadioGroupNode ==>
              (Completes(n, parentName, hasCtrl, hasItems) <==> hasCtrl && ChildrenComplete(n, hasCtrl, true))
    ensures Classify(n) == PlainGroup ==>
              (Completes(n, parentName, hasCtrl, hasItems) <==> ChildrenComplete(n, hasCtrl, false))
  {
  }

  lemma EmittedSplit(cs: seq<Node>, i: nat)
    requires i < |cs|
    ensures EmittedAll(cs[i..]) == Emitted(cs[i]) + EmittedAll(cs[i + 1..])
  {
    assert cs[i..][0] == cs[i] && cs[i..][1..] == cs[i + 1..];
  }

  // ----- Emitting an element -----

  /**
   * The end of `parseNode` for a layer that yields an element: `alpha` below full
   * opacity, then the element callback, then the element joins the display list. A
   * button's callback may add a gear and take the title or icon; a slider's may relate
   * a grip to the bar. A relation for a grip held back before the bar is added to the
   * grip's element after the display list took its copy, so the display list does not
   * change.
   */
  function Emit(n: Node, e: Element, w: Walk): (w': Walk)
    requires WalkOk(w) && Name in e.attrs && Id in e.attrs
    ensures Continues(w, w') && |w'.dl| == |w.dl| + 1 && w'.ctrl == w.ctrl && w'.items == w.items
    ensures w'.dl[|w.dl|].tag == e.tag
    ensures |w'.dl[|w.dl|].children| >= |e.children|
    ensures forall k | 0 <= k < |e.children| :: w'.dl[|w.dl|].children[k] == e.children[k]
    ensures Alpha in w'.dl[|w.dl|].attrs <==> Alpha in e.attrs || n.opacity < 255
    ensures w.cb.NoCallback? ==> w'.dl == w.dl + [WithAlpha(e, n.opacity)] && w'.cb == w.cb
    ensures w.cb.OnButton? ==> w'.cb == OnButton(ButtonStep(w.cb.button, WithAlpha(e, n.opacity), n).0)
    ensures w.cb.OnGripBar? ==>
              var step := GripBarStep(w.cb.gripBar, e.attrs[Name], e.attrs[Id], |w.dl|);
              && w'.cb == OnGripBar(step.0)
              && w'.dl[|w.dl|] == if step.1.AttachHere? then AddChild(WithAlpha(e, n.opacity), RelationTo(step.1.target))
                                  else WithAlpha(e, n.opacity)
  {
    var e1 := WithAlpha(e, n.opacity);
    match w.cb
    case NoCallback =>
      w.(dl := w.dl + [e1])
    case OnButton(b) =>
      var (b', e2) := ButtonStep(b, e1, n);
      w.(dl := w.dl + [e2], cb := OnButton(b'))
    case OnGripBar(g) =>
      var (g', a) := GripBarStep(g, e1.attrs[Name], e1.attrs[Id], |w.dl|);
      var e2 := if a.AttachHere? then AddChild(e1, RelationTo(a.target)) else e1;
      w.(dl := w.dl + [e2], cb := OnGripBar(g'))
  }

  // ----- The walk -----

  /**
   * `parseNode(aNode, rootNode, displayList, onElementCallback, ctrlList, ctrlItemList)`:
   * it finishes exactly when `Completes` says so, and then the display list has grown
   * by the layer's `Emitted` count with every earlier element kept, and every resource
   * registered before is still registered.
   */
  method ParseNode(pkg: UIPackage, n: Node, parentName: string, root: Node, w: Walk)
    returns (w': Walk, ok: bool)
    requires pkg.Valid() && WalkOk(w)
    modifies pkg
    ensures pkg.Valid() && old(pkg.resources) <= pkg.resources
    ensures ok <==> Completes(n, parentName, w.ctrl.Some?, w.items.Some?)
    ensures ok ==> Continues(w, w') && |w'.dl| == |w.dl| + Emitted(n)
    ensures ok ==> w'.items == if w.items.Some? then Some(w.items.value + LabelOf(n, |w.dl|)) else None
    decreases n, 3
  {
    var kind := Classify(n);
    CompletesByKind(n, parentName, w.ctrl.Some?, w.items.Some?);
    if kind == ButtonGroup {
      assert Emitted(n) == 1;
      assert LabelOf(n, |w.dl|) == if IsRadioBtn(n.name) then [RadioLabel(n.name, |w.dl|)] else [];
      w', ok := ParseButton(pkg, n, parentName, root, w);
    } else {
      assert LabelOf(n, |w.dl|) == [];
      assert w.items.Some? ==> w.items.value + [] == w.items.value;
      if kind == RadioGroupNode {
        assert Emitted(n) == EmittedAll(n.children);
        w', ok := ParseRadioGroup(pkg, n, parentName, root, w);
      } else if kind == PlainGroup {
        assert Emitted(n) == EmittedAll(n.children);
        w', ok := ParsePlainGroup(pkg, n, parentName, root, w);
      } else if n.isGroup {
        assert Emitted(n) == 1;
        w', ok := ParseWidget(pkg, n, parentName, root, w);
      } else {
        w' := ParseLayer(pkg, n, root, w);
        ok := true;
      }
    }
  }

  /** A text or pixel layer: its element, if it has one, is emitted. */
  method ParseLayer(pkg: UIPackage, n: Node, root: Node, w: Walk) returns (w': Walk)
    requires pkg.Valid() && WalkOk(w) && !n.isGroup
    modifies pkg
    ensures pkg.Valid() && old(pkg.resources) <= pkg.resources
    ensures Continues(w, w') && |w'.dl| == |w.dl| + Emitted(n) && w'.ctrl == w.ctrl && w'.items == w.items
  {
    assert Emitted(n) == if n.text.Some? || n.pixels.Some? then 1 else 0;
    if n.text.Some? {
      w' := ParseText(n, root, w, pkg.itemIdBase, pkg.exportOption);
    } else if n.pixels.Some? {
      w' := ParseImage(pkg, n, root, w);
    } else {
      w' := w;
    }
  }

  /** A text layer: its `text` element is emitted. */
  method ParseText(n: Node, root: Node, w: Walk, idBase: string, option: nat) returns (w': Walk)
    requires WalkOk(w) && !n.isGroup && n.text.Some?
    ensures Continues(w, w') && |w'.dl| == |w.dl| + 1 && w'.ctrl == w.ctrl && w'.items == w.items
    ensures w'.dl[|w.dl|].tag == "text"
    ensures w' == Emit(n, TextElement(n, n.text.value, root, SpecialUsage(n.name), |w.dl|, idBase, option), w)
  {
    var e := TextElement(n, n.text.value, root, SpecialUsage(n.name), |w.dl|, idBase, option);
    w' := Emit(n, e, w);
  }

  /** A pixel layer: its image is registered, then its `image` or `loader` element is emitted. */
  method ParseImage(pkg: UIPackage, n: Node, root: Node, w: Walk) returns (w': Walk)
    requires pkg.Valid() && WalkOk(w) && !n.isGroup && n.pixels.Some?
    modifies pkg
    ensures pkg.Valid() && old(pkg.resources) <= pkg.resources
    ensures Continues(w, w') && |w'.dl| == |w.dl| + 1 && w'.ctrl == w.ctrl && w'.items == w.items
    ensures w'.dl[|w.dl|].tag == (if SpecialUsage(n.name) == Some(IconUsage) then "loader" else "image")
    ensures exists item | item in pkg.resources && item.data == Pixels(n.pixels.value) ::
              w' == Emit(n, ImageElement(n, root, SpecialUsage(n.name), |w.dl|, pkg.itemIdBase, pkg.id, item.id, item.name), w)
  {
    var usage := SpecialUsage(n.name);
    var item := CreateImage(pkg, n);
    var e := ImageElement(n, root, usage, |w.dl|, pkg.itemIdBase, pkg.id, item.id, item.name);
    w' := Emit(n, e, w);
  }

  /**
   * A nested component, progress bar or slider: its component is created, then its
   * instance, named by position, with the `ProgressBar` or `Slider` element of the
   * (empty) instance properties.
   */
  method ParseWidget(pkg: UIPackage, n: Node, parentName: string, root: Node, w: Walk) returns (w': Walk, ok: bool)
    requires pkg.Valid() && WalkOk(w) && Classify(n) in {NestedComponent, ProgressBarGroup, SliderGroup}
    modifies pkg
    ensures pkg.Valid() && old(pkg.resources) <= pkg.resources
    ensures ok <==> Completes(n, parentName, w.ctrl.Some?, w.items.Some?)
    ensures ok ==> Continues(w, w') && |w'.dl| == |w.dl| + 1 && w'.ctrl == w.ctrl && w'.items == w.items
    ensures ok ==> w'.dl[|w.dl|].tag == "component"
    ensures ok ==> exists item | item in pkg.resources && item.data.Document? ::
              w' == Emit(n, WidgetInstance(pkg.itemIdBase, n, root, |w.dl|, item.id, item.name), w)
    decreases n, 2
  {
    CompletesByKind(n, parentName, w.ctrl.Some?, w.items.Some?);
    var item: Option<PackageItem>;
    ghost var snap: Snapshot;
    if Classify(n) == NestedComponent {
      item, snap := CreateComponent(pkg, n, "");
    } else if Classify(n) == ProgressBarGroup {
      item, snap := CreateProgressBar(pkg, n);
    } else {
      item, snap := CreateSlider(pkg, n);
    }
    if item.None? {
      return w, false;
    }
    w' := Emit(n, WidgetInstance(pkg.itemIdBase, n, root, |w.dl|, item.value.id, item.value.name), w);
    ok := true;
  }

  /**
   * The instance of a nested component, progress bar or slider, named by position, with
   * the `ProgressBar` or `Slider` element of the (empty) instance properties.
   */
  function WidgetInstance(idBase: string, n: Node, root: Node, count: nat, src: string, fileName: string): (e: Element)
    ensures e.tag == "component" && Name in e.attrs && Id in e.attrs
    ensures e.children == match Classify(n)
                          case ProgressBarGroup => [Element("ProgressBar", map[], [])]
                          case SliderGroup => [Element("Slider", map[], [])]
                          case _ => []
  {
    var e := Instance(idBase, PositionalName(count), SpecialUsage(n.name), src, fileName, n, root);
    if Classify(n) == ProgressBarGroup then e.(children := [Element("ProgressBar", map[], [])])
    else if Classify(n) == SliderGroup then e.(children := [Element("Slider", map[], [])])
    else e
  }

  /**
   * Any other group is flattened: its children join the caller's display list, relative
   * to the caller's root, with the caller's controller list but no label list.
   */
  method ParsePlainGroup(pkg: UIPackage, n: Node, parentName: string, root: Node, w: Walk) returns (w': Walk, ok: bool)
    requires pkg.Valid() && WalkOk(w) && Classify(n) == PlainGroup
    modifies pkg
    ensures pkg.Valid() && old(pkg.resources) <= pkg.resources
    ensures ok <==> Completes(n, parentName, w.ctrl.Some?, w.items.Some?)
    ensures ok ==> Continues(w, w') && |w'.dl| == |w.dl| + EmittedAll(n.children) && w'.items == w.items
    decreases n, 2
  {
    CompletesByKind(n, parentName, w.ctrl.Some?, w.items.Some?);
    var inner;
    inner, ok := ParseChildren(pkg, n, root, w.(items := None));
    w' := inner.(items := w.items);
  }

  /** The children of `n`, last to first, with `n` as their parent and the given root. */
  method ParseChildren(pkg: UIPackage, n: Node, root: Node, w: Walk) returns (w': Walk, ok: bool)
    requires pkg.Valid() && WalkOk(w)
    modifies pkg
    ensures pkg.Valid() && old(pkg.resources) <= pkg.resources
    ensures ok <==> ChildrenComplete(n, w.ctrl.Some?, w.items.Some?)
    ensures ok ==> Continues(w, w') && |w'.dl| == |w.dl| + EmittedAll(n.children)
    ensures ok && w.items.Some? ==> w'.items == Some(w.items.value + LabelsFrom(n.children, 0, |w.dl|))
    decreases n, 0
  {
    var i := |n.children|;
    w' := w;
    assert w.items.Some? ==> w.items.value + [] == w.items.value;
    while i > 0
      invariant 0 <= i <= |n.children|
      invariant pkg.Valid() && old(pkg.resources) <= pkg.resources
      invariant Continues(w, w') && |w'.dl| == |w.dl| + EmittedAll(n.children[i..])
      invariant w.items.Some? ==> w'.items == Some(w.items.value + LabelsFrom(n.children, i, |w.dl|))
      invariant forall j | i <= j < |n.children| :: Completes(n.children[j], n.name, w.ctrl.Some?, w.items.Some?)
    {
      i := i - 1;
      var done;
      w', done := ParseChildAt(pkg, n, i, root, w, w');
      if !done {
        return w', false;
      }
    }
    ok := true;
  }

  /**
   * One step of `ParseChildren`: child `i` is walked after the children behind it, and the
   * display list, the walk's shape and the labels grow by what it contributes.
   */
  method ParseChildAt(pkg: UIPackage, n: Node, i: nat, root: Node, w: Walk, w0: Walk) returns (w': Walk, done: bool)
    requires pkg.Valid() && WalkOk(w) && i < |n.children|
    requires Continues(w, w0) && |w0.dl| == |w.dl| + EmittedAll(n.children[i + 1..])
    requires w.items.Some? ==> w0.items == Some(w.items.value + LabelsFrom(n.children, i + 1, |w.dl|))
    modifies pkg
    ensures pkg.Valid() && old(pkg.resources) <= pkg.resources
    ensures done <==> Completes(n.children[i], n.name, w.ctrl.Some?, w.items.Some?)
    ensures done ==> Continues(w, w') && |w'.dl| == |w.dl| + EmittedAll(n.children[i..])
    ensures done && w.items.Some? ==> w'.items == Some(w.items.value + LabelsFrom(n.children, i, |w.dl|))
    decreases n.children[i], 4
  {
    w', done := ParseNode(pkg, n.children[i], n.name, root, w0);
    if done {
      if w.items.Some? {
        ghost var rest := LabelsFrom(n.children, i + 1, |w.dl|);
        ghost var here := LabelOf(n.children[i], |w0.dl|);
        LabelsStep(n.children, i, |w.dl|, |w0.dl|);
        assert (w.items.value + rest) + here == w.items.value + (rest + here);
      }
      EmittedSplit(n.children, i);
      ContinuesTrans(w, w0, w');
    }
  }

  /** The label a layer adds to its radio group's list: a radio button's, none otherwise. */
  function LabelOf(c: Node, count: nat): seq<string> {
    if Classify(c) == ButtonGroup && IsRadioBtn(c.name) then [RadioLabel(c.name, count)] else []
  }

  /**
   * The labels the radio buttons among `cs[i..]` add when walked last to first, the
   * display list holding `count` elements before the walk: `cs[i]` is walked last.
   */
  function LabelsFrom(cs: seq<Node>, i: nat, count: nat): seq<string>
    requires i <= |cs|
    decreases |cs| - i
  {
    if i == |cs| then [] else LabelsFrom(cs, i + 1, count) + LabelOf(cs[i], count + EmittedAll(cs[i + 1..]))
  }

  lemma LabelsStep(cs: seq<Node>, i: nat, count: nat, at: nat)
    requires i < |cs| && at == count + EmittedAll(cs[i + 1..])
    ensures LabelsFrom(cs, i, count) == LabelsFrom(cs, i + 1, count) + LabelOf(cs[i], at)
  {
  }

  /**
   * A radio group: its children are walked with a fresh label list, then the controller
   * named by `ControllerName` is set to the labels they added; the caller's label list is
   * untouched. Without a controller list the assignment is a TypeError.
   */
  method ParseRadioGroup(pkg: UIPackage, n: Node, parentName: string, root: Node, w: Walk) returns (w': Walk, ok: bool)
    requires pkg.Valid() && WalkOk(w) && Classify(n) == RadioGroupNode
    modifies pkg
    ensures pkg.Valid() && old(pkg.resources) <= pkg.resources
    ensures ok <==> Completes(n, parentName, w.ctrl.Some?, w.items.Some?)
    ensures ok ==> Continues(w, w') && |w'.dl| == |w.dl| + EmittedAll(n.children) && w'.items == w.items
    ensures ok ==> |w'.ctrl.value| >= 1
    ensures ok && FirstWordTag(n.name).Some? ==> Find(w'.ctrl.value, RemoveFirstAt(n.name)) >= 0
    ensures ok ==> exists inner: Controllers | KeysDistinct(inner) && KeptNames(w.ctrl, Some(inner)) ::
              w'.ctrl == Some(Upsert(inner, ControllerName(n.name, |inner|), LabelsFrom(n.children, 0, |w.dl|)))
    decreases n, 2
  {
    CompletesByKind(n, parentName, w.ctrl.Some?, w.items.Some?);
    var inner, done := ParseChildren(pkg, n, root, w.(items := Some([])));
    if !done || inner.ctrl.None? {
      return inner, false;
    }
    var ctrl := inner.ctrl.value;
    var name := ControllerName(n.name, |ctrl|);
    assert inner.items.value == [] + LabelsFrom(n.children, 0, |w.dl|) == LabelsFrom(n.children, 0, |w.dl|);
    w' := inner.(ctrl := Some(Upsert(ctrl, name, inner.items.value)), items := w.items);
    ok := true;
  }

  /**
   * A button in `parseNode`: the button component is created, then its instance. A
   * radio button takes its controller from its parent's name (or the controller count)
   * and its page from the label count, and appends its label; every button but a
   * `grip@` carries the `Button` element of its instance properties.
   */
  method ParseButton(pkg: UIPackage, n: Node, parentName: string, root: Node, w: Walk)
    returns (w': Walk, ok: bool)
    requires pkg.Valid() && WalkOk(w) && Classify(n) == ButtonGroup
    modifies pkg
    ensures pkg.Valid() && old(pkg.resources) <= pkg.resources
    ensures ok <==> Completes(n, parentName, w.ctrl.Some?, w.items.Some?)
    ensures ok ==> Continues(w, w') && |w'.dl| == |w.dl| + 1
    ensures ok && IsRadioBtn(n.name) ==> w'.items == Some(w.items.value + [RadioLabel(n.name, |w.dl|)])
    ensures ok && !IsRadioBtn(n.name) ==> w'.items == w.items
    ensures ok ==> exists item, props | item in pkg.resources && item.data.Document? ::
              ButtonEmitted(pkg.itemIdBase, n, parentName, root, w, w', item, props)
    decreases n, 2
  {
    CompletesByKind(n, parentName, w.ctrl.Some?, w.items.Some?);
    ghost var snap;
    var item, props, ctrl;
    item, props, ctrl, snap := CreateButton(pkg, n, w.ctrl);
    var w1 := w.(ctrl := ctrl);
    if item.None? {
      return w1, false;
    }
    var r := FinishButton(pkg.itemIdBase, n, parentName, root, w1, item.value, props);
    w', ok := r.0, r.1;
    if ok {
      assert w1.(items := w'.items) == w.(ctrl := w'.ctrl, items := w'.items);
      assert ButtonEmitted(pkg.itemIdBase, n, parentName, root, w, w', item.value, props);
    }
  }

  /**
   * The rest of the button branch of `parseNode`, once `createButton` has returned `item`
   * and filled in `props`: a radio button takes its label (a TypeError without a label
   * list, or without a controller list when its parent has no tag), then the instance is
   * emitted. Fails exactly on those TypeErrors, leaving the walk as it was.
   */
  function FinishButton(idBase: string, n: Node, parentName: string, root: Node, w: Walk,
                        item: PackageItem, props: map<Attr, string>): (r: (Walk, bool))
    requires WalkOk(w)
    ensures r.1 <==> !IsRadioBtn(n.name) || (w.items.Some? && (w.ctrl.Some? || FirstWordTag(parentName).Some?))
    ensures !r.1 ==> r.0 == w
    ensures r.1 ==> Continues(w, r.0) && |r.0.dl| == |w.dl| + 1 && r.0.ctrl == w.ctrl
    ensures r.1 ==> r.0.items == if IsRadioBtn(n.name) then Some(w.items.value + [RadioLabel(n.name, |w.dl|)]) else w.items
    ensures r.1 ==> r.0 == Emit(n, ButtonInstance(idBase, n, root, item.id, item.name,
                                                  ButtonProps(n.name, props, parentName, w.ctrl, w.items),
                                                  ButtonStr(n.name, |w.dl|)),
                                w.(items := r.0.items))
  {
    var str := ButtonStr(n.name, |w.dl|);
    if IsRadioBtn(n.name) && (w.items.None? || (w.ctrl.None? && FirstWordTag(parentName).None?)) then (w, false)
    else
      var w1 := if IsRadioBtn(n.name) then w.(items := Some(w.items.value + [str])) else w;
      var e := ButtonInstance(idBase, n, root, item.id, item.name, ButtonProps(n.name, props, parentName, w.ctrl, w.items), str);
      (Emit(n, e, w1), true)
  }

  /**
   * The `Button` element of an emitted button instance (every button but the grip has
   * one): a check button's says `checked`, a radio button's names its controller and its
   * page.
   */
  lemma ButtonInstanceProps(idBase: string, n: Node, parentName: string, root: Node, w: Walk, w': Walk,
                            item: PackageItem, props: map<Attr, string>)
    requires WalkOk(w.(ctrl := w'.ctrl, items := w'.items))
    requires ButtonEmitted(idBase, n, parentName, root, w, w', item, props)
    ensures |w'.dl| > |w.dl|
    ensures SpecialUsage(n.name) != Some(GripUsage) ==>
              && |w'.dl[|w.dl|].children| >= 1
              && var b := w'.dl[|w.dl|].children[0];
              && b.tag == "Button"
              && (EndsWith(n.name, "CheckBtn") ==> Checked in b.attrs && b.attrs[Checked] == "true")
              && (IsRadioBtn(n.name) ==>
                    && Controller in b.attrs && b.attrs[Controller] == ControllerName(parentName, CtrlCount(w'.ctrl))
                    && Page in b.attrs && b.attrs[Page] == Decimal(|w.items.value|))
  {
    var w1 := w.(ctrl := w'.ctrl, items := w'.items);
    var p := ButtonProps(n.name, props, parentName, w'.ctrl, w.items);
    var e := ButtonInstance(idBase, n, root, item.id, item.name, p, ButtonStr(n.name, |w.dl|));
    assert w' == Emit(n, e, w1);
    if SpecialUsage(n.name) != Some(GripUsage) {
      assert e.children == [Element("Button", p, [])];
      assert w'.dl[|w.dl|].children[0] == Element("Button", p, []);
    }
  }

  /**
   * A button's instance properties: those `createButton` filled in, and for a radio
   * button its controller (from the parent's tag, else the controller count) and its page
   * (the label count before it).
   */
  function ButtonProps(name: string, props: map<Attr, string>, parentName: string,
                       ctrl: Option<Controllers>, items: Option<seq<string>>): (r: map<Attr, string>)
    ensures forall a | a in props && a != Controller && a != Page :: a in r && r[a] == props[a]
    ensures IsRadioBtn(name) && items.Some? ==>
              && Controller in r && r[Controller] == ControllerName(parentName, CtrlCount(ctrl))
              && Page in r && r[Page] == Decimal(|items.value|)
    ensures !(IsRadioBtn(name) && items.Some?) ==> r == props
  {
    if IsRadioBtn(name) && items.Some? then
      props[Controller := ControllerName(parentName, CtrlCount(ctrl))][Page := Decimal(|items.value|)]
    else props
  }

  /**
   * What `parseNode` does with a button whose component is `item` and whose properties
   * `createButton` filled in as `props`: its instance, with those properties completed by
   * `ButtonProps`, is emitted once the walk of the button has left the controller and
   * label lists as they are in `w'`. A check button's properties say `checked`; a radio
   * button needs a label list.
   */
  ghost predicate ButtonEmitted(idBase: string, n: Node, parentName: string, root: Node, w: Walk, w': Walk,
                                item: PackageItem, props: map<Attr, string>)
    requires WalkOk(w.(ctrl := w'.ctrl, items := w'.items))
  {
    && w' == Emit(n, ButtonInstance(idBase, n, root, item.id, item.name,
                                    ButtonProps(n.name, props, parentName, w'.ctrl, w.items), ButtonStr(n.name, |w.dl|)),
                  w.(ctrl := w'.ctrl, items := w'.items))
    && (EndsWith(n.name, "CheckBtn") ==> Checked in props && props[Checked] == "true")
    && (IsRadioBtn(n.name) ==> w.items.Some?)
  }

  /** The number of controllers in the list, none when there is no list. */
  function CtrlCount(ctrl: Option<Controllers>): nat {
    if ctrl.Some? then |ctrl.value| else 0
  }

  /** A button instance's `str`: a radio button's label, else the layer name itself. */
  function ButtonStr(name: string, displayCount: nat): string {
    if IsRadioBtn(name) then RadioLabel(name, displayCount) else name
  }

  /**
   * A button's instance: named by `str` (or its usage marker), with the `Button` element
   * of its instance properties unless it is the `grip`.
   */
  function ButtonInstance(idBase: string, n: Node, root: Node, src: string, fileName: string,
                          props: map<Attr, string>, str: string): (e: Element)
    ensures e.tag == "component" && Name in e.attrs && Id in e.attrs && e.attrs[Id] == str + "_" + idBase
    ensures e.children == if SpecialUsage(n.name) == Some(GripUsage) then [] else [Element("Button", props, [])]
  {
    var e := Instance(idBase, str, SpecialUsage(n.name), src, fileName, n, root);
    if SpecialUsage(n.name) == Some(GripUsage) then e else AddChild(e, Element("Button", props, []))
  }

  // ----- The synthesisers -----

  /** `createImage`: the layer's pixels registered as `<layer name>.png`. */
  method CreateImage(pkg: UIPackage, n: Node) returns (item: PackageItem)
    requires pkg.Valid() && n.pixels.Some?
    modifies pkg
    ensures pkg.Valid() && old(pkg.resources) <= pkg.resources && item in pkg.resources
    ensures item.data == Pixels(n.pixels.value)
    ensures Pixels(n.pixels.value) in old(pkg.sameDataTestHelper) ==>
              item == old(pkg.sameDataTestHelper)[Pixels(n.pixels.value)] && pkg.resources == old(pkg.resources)
    ensures Pixels(n.pixels.value) !in old(pkg.sameDataTestHelper) ==>
              && item == PackageItem(Image, ItemId(pkg.itemIdBase, old(pkg.nextItemIndex)),
                                     ResolveName(old(pkg.sameNameTestHelper), Basename(n.name)).0 + ".png",
                                     "/Images/", Pixels(n.pixels.value))
              && pkg.resources == old(pkg.resources) + [item]
  {
    SplitWithExtension(n.name, ".png");
    item := pkg.CreatePackageItem(Image, n.name + ".png", Pixels(n.pixels.value), false);
  }

  /**
   * `createComponent(aNode, name)`: the children walked with a fresh controller list and
   * no callback, then a component of the group's size holding the display list and one
   * `controller` per radio group, registered under `name` (or the group's own name) with
   * `notInCom` set. `None` when the walk raised a TypeError. `snap` is the registry just
   * before the document is registered.
   */
  method CreateComponent(pkg: UIPackage, n: Node, name: string) returns (item: Option<PackageItem>, ghost snap: Snapshot)
    requires pkg.Valid()
    modifies pkg
    ensures pkg.Valid() && old(pkg.resources) <= pkg.resources
    ensures item.Some? <==> ChildrenComplete(n, true, false)
    ensures item.Some? ==> item.value in pkg.resources && item.value.data.Document?
    ensures item.Some? ==>
              var doc := item.value.data.doc;
              && doc.tag == "component" && doc.attrs == map[Size := Pair(n.width, n.height)]
              && |doc.children| >= 1 && doc.children[0].tag == "displayList"
              && |doc.children[0].children| == EmittedAll(n.children)
              && forall k | 1 <= k < |doc.children| :: doc.children[k].tag == "controller"
    ensures item.Some? ==> exists ctrl: Controllers | KeysDistinct(ctrl) :: ControllersFollow(item.value.data.doc, ctrl)
    ensures item.Some? ==>
              && old(pkg.resources) <= snap.resources
              && pkg.Registered(snap, Component, (if name != "" then name else n.name) + ".xml", item.value.data, true, item.value)
    ensures item.Some? && item.value.data !in snap.byData ==>
              && RegisteredAs(item.value, snap, pkg.itemIdBase, if name != "" then name else n.name, "/")
              && pkg.resources == snap.resources + [item.value]
    decreases n, 1
  {
    snap := pkg.State();
    var w, done := ParseChildren(pkg, n, n, Walk([], NoCallback, Some([]), None));
    if !done {
      return None, snap;
    }
    var registered;
    registered, snap := BuildComponent(pkg, n, if name != "" then name else n.name, w.dl, w.ctrl.value);
    ControllersOnly(registered.data.doc, w.ctrl.value);
    item := Some(registered);
  }

  /** After its display list, `doc` holds one `controller` per entry of `ctrl`, in order, and nothing else. */
  predicate ControllersFollow(doc: Element, ctrl: Controllers) {
    && |doc.children| == 1 + |ctrl|
    && forall k | 0 <= k < |ctrl| :: doc.children[k + 1] == ControllerElement(ctrl[k].0, JoinComma(PageTokens(ctrl[k].1)))
  }

  lemma AfterHead<T>(head: T, rest: seq<T>)
    ensures forall k | 0 <= k < |rest| :: ([head] + rest)[k + 1] == rest[k]
  {
  }

  lemma ControllersOnly(doc: Element, ctrl: Controllers)
    requires ControllersFollow(doc, ctrl)
    ensures forall k | 1 <= k < |doc.children| :: doc.children[k].tag == "controller"
  {
    forall k | 1 <= k < |doc.children| ensures doc.children[k].tag == "controller" {
      assert doc.children[(k - 1) + 1] == ControllerElement(ctrl[k - 1].0, JoinComma(PageTokens(ctrl[k - 1].1)));
    }
  }

  /**
   * The second half of `createComponent`: the document of the group's size holding the
   * display list `dl` and one `controller` per entry of `ctrl`, registered as `<stem>.xml`
   * with `notInCom` set; `snap` is the registry just before.
   */
  method BuildComponent(pkg: UIPackage, n: Node, stem: string, dl: seq<Element>, ctrl: Controllers)
    returns (item: PackageItem, ghost snap: Snapshot)
    requires pkg.Valid() && KeysDistinct(ctrl)
    modifies pkg
    ensures pkg.Valid() && old(pkg.resources) <= pkg.resources && item in pkg.resources && item.data.Document?
    ensures snap == old(pkg.State())
    ensures
      var doc := item.data.doc;
      && doc.tag == "component" && doc.attrs == map[Size := Pair(n.width, n.height)]
      && ControllersFollow(doc, ctrl) && doc.children[0] == DisplayList(dl)
    ensures pkg.Registered(snap, Component, stem + ".xml", item.data, true, item)
    ensures item.data !in snap.byData ==>
              && RegisteredAs(item, snap, pkg.itemIdBase, stem, "/")
              && pkg.resources == snap.resources + [item]
  {
    var controllers := ControllerElements(ctrl);
    var doc := Element("component", map[Size := Pair(n.width, n.height)], [DisplayList(dl)] + controllers);
    AfterHead(DisplayList(dl), controllers);
    assert ControllersFollow(doc, ctrl);
    item, snap := RegisterDocument(pkg, stem, doc, true);
  }

  /**
   * `createPackageItem('component', stem + '.xml', doc, notInCom)`; `snap` is the registry
   * just before the call.
   */
  method RegisterDocument(pkg: UIPackage, stem: string, doc: Element, notInCom: bool)
    returns (item: PackageItem, ghost snap: Snapshot)
    requires pkg.Valid()
    modifies pkg
    ensures pkg.Valid() && old(pkg.resources) <= pkg.resources && item in pkg.resources && item.data == Document(doc)
    ensures snap == old(pkg.State())
    ensures pkg.Registered(snap, Component, stem + ".xml", Document(doc), notInCom, item)
    ensures Document(doc) !in snap.byData ==>
              && RegisteredAs(item, snap, pkg.itemIdBase, stem, if notInCom then "/" else "/Components/")
              && pkg.resources == snap.resources + [item]
  {
    snap := pkg.State();
    item := pkg.CreatePackageItem(Component, stem + ".xml", Document(doc), notInCom);
    if Document(doc) !in snap.byData {
      RegisteredDocument(pkg, snap, stem, notInCom, item);
    }
  }

  /**
   * `createButton(aNode, instProps, ctrlList)`: the state images and page lists, the
   * children walked with the button's callback and the caller's controller list, then a
   * `Button` component with its `button` controller, display list and extension.
   * Returns the item, the instance properties and the controller list after the walk.
   */
  method CreateButton(pkg: UIPackage, n: Node, ctrl: Option<Controllers>)
    returns (item: Option<PackageItem>, props: map<Attr, string>, ctrl': Option<Controllers>, ghost snap: Snapshot)
    requires pkg.Valid() && (ctrl.Some? ==> KeysDistinct(ctrl.value))
    modifies pkg
    ensures pkg.Valid() && old(pkg.resources) <= pkg.resources
    ensures item.Some? <==> ChildrenComplete(n, ctrl.Some?, false)
    ensures item.Some? ==> item.value in pkg.resources && ctrl'.Some? == ctrl.Some?
    ensures item.Some? && ctrl'.Some? ==> KeysDistinct(ctrl'.value)
    ensures item.Some? && EndsWith(n.name, "CheckBtn") ==> Checked in props && props[Checked] == "true"
    ensures item.Some? ==> item.value.data.Document?
    ensures item.Some? ==>
              var doc := item.value.data.doc;
              && doc.tag == "component" && doc.attrs == map[Size := Pair(n.width, n.height), Extention := "Button"]
              && |doc.children| == 3
              && doc.children[0] == Element("controller", map[Name := "button", Pages := "0,up,1,down"], [])
              && doc.children[1].tag == "displayList" && |doc.children[1].children| == EmittedAll(n.children)
              && exists p :: ButtonExtension(n.name, StateImageCount(n), p) == (doc.children[2], props)
    ensures item.Some? ==> KeptNames(ctrl, ctrl')
    ensures item.Some? ==>
              && old(pkg.resources) <= snap.resources
              && pkg.Registered(snap, Component, n.name + ".xml", item.value.data, false, item.value)
    ensures item.Some? && item.value.data !in snap.byData ==>
              && RegisteredAs(item.value, snap, pkg.itemIdBase, n.name, "/Components/")
              && pkg.resources == snap.resources + [item.value]
    decreases n, 1
  {
    snap := pkg.State();
    var images, imageCnt := ScanStates(n);
    var pages := AssignPages(images);
    var start := Walk([], OnButton(ButtonState(images, pages, map[])), ctrl, None);
    var w, done := ParseChildren(pkg, n, n, start);
    ctrl' := w.ctrl;
    if !done {
      return None, map[], ctrl', snap;
    }
    var (ext, props') := ButtonExtension(n.name, imageCnt, w.cb.button.props);
    assert ButtonExtension(n.name, StateImageCount(n), w.cb.button.props) == (ext, props');
    props := props';
    var doc := Element("component", map[Size := Pair(n.width, n.height), Extention := "Button"],
                       [Element("controller", map[Name := "button", Pages := "0,up,1,down"], []), DisplayList(w.dl), ext]);
    var registered;
    registered, snap := RegisterDocument(pkg, n.name, doc, false);
    item := Some(registered);
  }

  /** `imageCnt` of `createButton`: one per descendant naming the `up` state, one per `down`. */
  function StateImageCount(n: Node): nat {
    CountWith(Descendants(n), "@up") + CountWith(Descendants(n), "@down")
  }

  /**
   * `createProgressBar`: the children walked with the grip/bar callback, then a
   * `ProgressBar` component that clips its content; its extension element is `Slider`.
   */
  method CreateProgressBar(pkg: UIPackage, n: Node) returns (item: Option<PackageItem>, ghost snap: Snapshot)
    requires pkg.Valid()
    modifies pkg
    ensures pkg.Valid() && old(pkg.resources) <= pkg.resources
    ensures item.Some? <==> ChildrenComplete(n, false, false)
    ensures item.Some? ==> item.value in pkg.resources && item.value.data.Document?
    ensures item.Some? ==>
              var doc := item.value.data.doc;
              && doc.tag == "component" && Extention in doc.attrs && Overflow in doc.attrs
              && doc.attrs[Extention] == "ProgressBar" && doc.attrs[Overflow] == "hidden"
              && |doc.children| == 2 && doc.children[0].tag == "displayList" && doc.children[1].tag == "Slider"
              && |doc.children[0].children| == EmittedAll(n.children)
    ensures item.Some? ==>
              var doc := item.value.data.doc;
              && doc.attrs == map[Size := Pair(n.width, n.height), Overflow := "hidden", Extention := "ProgressBar"]
              && doc.children[1] == Element("Slider", map[], [])
    ensures item.Some? ==>
              && old(pkg.resources) <= snap.resources
              && pkg.Registered(snap, Component, n.name + ".xml", item.value.data, false, item.value)
    ensures item.Some? && item.value.data !in snap.byData ==>
              && RegisteredAs(item.value, snap, pkg.itemIdBase, n.name, "/Components/")
              && pkg.resources == snap.resources + [item.value]
    decreases n, 1
  {
    snap := pkg.State();
    var w, done := ParseChildren(pkg, n, n, Walk([], OnGripBar(GripBar(None, None)), None, None));
    if !done {
      return None, snap;
    }
    var doc := Element("component",
                       map[Size := Pair(n.width, n.height), Overflow := "hidden", Extention := "ProgressBar"],
                       [DisplayList(w.dl), Element("Slider", map[], [])]);
    var registered;
    registered, snap := RegisterDocument(pkg, n.name, doc, false);
    item := Some(registered);
  }

  /** `createSlider`: the children walked with the grip/bar callback, then a `Slider` component. */
  method CreateSlider(pkg: UIPackage, n: Node) returns (item: Option<PackageItem>, ghost snap: Snapshot)
    requires pkg.Valid()
    modifies pkg
    ensures pkg.Valid() && old(pkg.resources) <= pkg.resources
    ensures item.Some? <==> ChildrenComplete(n, false, false)
    ensures item.Some? ==> item.value in pkg.resources && item.value.data.Document?
    ensures item.Some? ==>
              var doc := item.value.data.doc;
              && doc.tag == "component" && Extention in doc.attrs && doc.attrs[Extention] == "Slider"
              && Overflow !in doc.attrs
              && |doc.children| == 2 && doc.children[0].tag == "displayList" && doc.children[1].tag == "Slider"
              && |doc.children[0].children| == EmittedAll(n.children)
    ensures item.Some? ==>
              var doc := item.value.data.doc;
              && doc.attrs == map[Size := Pair(n.width, n.height), Extention := "Slider"]
              && doc.children[1] == Element("Slider", map[], [])
    ensures item.Some? ==>
              && old(pkg.resources) <= snap.resources
              && pkg.Registered(snap, Component, n.name + ".xml", item.value.data, false, item.value)
    ensures item.Some? && item.value.data !in snap.byData ==>
              && RegisteredAs(item.value, snap, pkg.itemIdBase, n.name, "/Components/")
              && pkg.resources == snap.resources + [item.value]
    decreases n, 1
  {
    snap := pkg.State();
    var w, done := ParseChildren(pkg, n, n, Walk([], OnGripBar(GripBar(None, None)), None, None));
    if !done {
      return None, snap;
    }
    var doc := Element("component", map[Size := Pair(n.width, n.height), Extention := "Slider"],
                       [DisplayList(w.dl), Element("Slider", map[], [])]);
    var registered;
    registered, snap := RegisterDocument(pkg, n.name, doc, false);
    item := Some(registered);
  }

  /**
   * The conversion core of `convert`: a package for the build id and option, and the
   * design's root registered as the component named after the design file.
   */
  method Convert(buildId: string, option: nat, tree: Node, fileStem: string)
    returns (pkg: UIPackage, ok: bool, ghost root: Option<PackageItem>, ghost snap: Snapshot)
    ensures fresh(pkg) && pkg.Valid()
    ensures pkg.id == PackageId(buildId) && pkg.itemIdBase == ItemIdBase(buildId)
    ensures ok <==> ChildrenComplete(tree, true, false)
    ensures ok ==> |pkg.resources| >= 1
    ensures ok <==> root.Some?
    ensures ok ==> root.value in pkg.resources && root.value.data.Document?
    ensures ok && root.value.data !in snap.byData ==>
              RegisteredAs(root.value, snap, pkg.itemIdBase, if fileStem != "" then fileStem else tree.name, "/")
              && pkg.resources == snap.resources + [root.value]
  {
    pkg := new UIPackage(buildId, option);
    var item;
    item, snap := CreateComponent(pkg, tree, fileStem);
    ok, root := item.Some?, item;
    if ok && root.value.data !in snap.byData {
      RegisteredDocument(pkg, snap, if fileStem != "" then fileStem else tree.name, true, root.value);
    }
  }
}
