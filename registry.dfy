/**
 * The package under construction (`UIPackage`, lib.js:206-220) and its registry of
 * resources (`createPackageItem`, lib.js:457-508): a counter for item ids, a map from
 * content to item for deduplication (the source keys it by the MD5 digest of the
 * content; the model keys it by the content itself, i.e. it takes the digest to be
 * collision-free), a table of used base names with their
 * collision counters, and the append-only list of resources.
 */
module Registry {
  import opened Wrappers
  import opened Strings
  import opened Numerals
  import opened Naming
  import opened Xml
  import opened HtmlColor

  datatype ItemType = Image | Component

  /** What a resource's digest is taken over: an image's pixel data or a generated document. */
  datatype Payload = Pixels(bytes: seq<byte>) | Document(doc: Element)

  datatype PackageItem = PackageItem(kind: ItemType, id: string, name: string, path: string, data: Payload)

  /** The registry's fields at one moment, to say what a later registration did to them. */
  datatype Snapshot = Snapshot(next: nat, resources: seq<PackageItem>, byData: map<Payload, PackageItem>,
                               names: map<string, nat>)

  /** The package id: the first eight characters of the build id. */
  function PackageId(buildId: string): string {
    Prefix(buildId, 8)
  }

  /** The item id base: the build id after its first eight characters. */
  function ItemIdBase(buildId: string): string {
    SuffixFrom(buildId, 8)
  }

  /** The build id splits into the package id and the item id base, with nothing lost. */
  lemma BuildIdSplit(buildId: string)
    ensures PackageId(buildId) + ItemIdBase(buildId) == buildId
    ensures |PackageId(buildId)| == if |buildId| < 8 then |buildId| else 8
  {
    if |buildId| > 8 {
      assert buildId[..8] + buildId[8..] == buildId;
    }
  }

  /** The id of the k-th item: the item id base followed by k in base 36. */
  function ItemId(base: string, k: nat): string {
    base + NatToString(k, 36)
  }

  /** Where a resource is stored inside the package. */
  function StoragePath(kind: ItemType, notInCom: bool): (path: string)
    ensures path == "/Images/" <==> kind.Image?
    ensures path == "/Components/" <==> kind.Component? && !notInCom
    ensures path == "/" <==> kind.Component? && notInCom
  {
    if kind.Image? then "/Images/"
    else if !notInCom then "/Components/"
    else "/"
  }

  /**
   * `fileName.substr(0, i)` and `fileName.substr(i)` with `i` the last `.`: the stem
   * and the extension.
   */
  function SplitFileName(fileName: string): (parts: (string, string))
    ensures Contains(fileName, ".") ==>
              && parts.0 + parts.1 == fileName
              && |parts.1| > 0 && parts.1[0] == '.'
              && DotFree(parts.1[1..])
    ensures !Contains(fileName, ".") ==>
              && parts.0 == ""
              && parts.1 == (if |fileName| == 0 then "" else [fileName[|fileName| - 1]])
  {
    var i := LastIndexOf(fileName, ".");
    var parts := (Prefix(fileName, i), SuffixFrom(fileName, i));
    if i >= 0 then LastDot(fileName, i); parts
    else NoDot(fileName); parts
  }

  predicate DotFree(s: string) {
    forall k | 0 <= k < |s| :: s[k] != '.'
  }

  lemma LastDot(s: string, i: int)
    requires i == LastIndexOf(s, ".") && i >= 0
    ensures i < |s| && s[i] == '.' && Contains(s, ".") && DotFree(s[i + 1..])
  {
    assert OccursAt(s, ".", i);
    assert s[i..i + 1] == ".";
    ContainsAt(s, ".", i);
    var t := s[i + 1..];
    forall k | 0 <= k < |t| ensures t[k] != '.' {
      assert !OccursAt(s, ".", i + 1 + k);
      assert s[i + 1 + k..i + 2 + k] == [t[k]];
    }
  }

  lemma NoDot(s: string)
    requires LastIndexOf(s, ".") == -1
    ensures !Contains(s, ".")
  {
  }

  /**
   * A file name built as a stem and an extension without a further dot splits back into
   * exactly those two parts.
   */
  lemma SplitWithExtension(stem: string, ext: string)
    requires |ext| > 0 && ext[0] == '.' && DotFree(ext[1..])
    ensures SplitFileName(stem + ext) == (stem, ext)
  {
    var s := stem + ext;
    var i := LastIndexOf(s, ".");
    assert s[|stem|..|stem| + 1] == ".";
    assert OccursAt(s, ".", |stem|);
    forall j | |stem| < j ensures !OccursAt(s, ".", j) {
      if j < |s| {
        assert s[j] == ext[1..][j - |stem| - 1];
      }
    }
    assert i == |stem|;
    assert s[..|stem|] == stem && s[|stem|..] == ext;
  }

  /** The keys at least as long as `b`: the candidates a renaming chain can still meet. */
  ghost function LongKeys(names: map<string, nat>, b: string): set<string> {
    set k | k in names && |k| >= |b|
  }

  lemma LongKeysShrink(names: map<string, nat>, b: string, names': map<string, nat>, b': string)
    requires b in names && names'.Keys == names.Keys && |b'| > |b|
    ensures LongKeys(names', b') < LongKeys(names, b)
  {
    assert b in LongKeys(names, b) && b !in LongKeys(names', b');
  }

  /**
   * The renaming loop of `createPackageItem`: while the base name is taken, bump its
   * counter `j` and try `<name>_<j>`; the free name is then recorded with counter 1.
   */
  function ResolveName(names: map<string, nat>, b: string): (r: (string, map<string, nat>))
    decreases LongKeys(names, b)
    ensures r.0 !in names
    ensures r.1.Keys == names.Keys + {r.0} && r.1[r.0] == 1
    ensures forall k | k in names :: r.1[k] >= names[k]
    ensures b <= r.0
    ensures b !in names ==> r.0 == b && r.1 == names[b := 1]
    ensures b in names ==> |r.0| >= |b| + 2 && r.0[|b|] == '_' && IsDigitIn(r.0[|b| + 1], 10)
  {
    if b !in names then (b, names[b := 1])
    else
      var j := names[b];
      var b' := b + "_" + NatToString(j, 10);
      LongKeysShrink(names, b, names[b := j + 1], b');
      ResolveName(names[b := j + 1], b')
  }

  /**
   * The `while (true)` loop of `createPackageItem` over a copy of the name table: it
   * computes what `ResolveName` specifies.
   */
  method FreshName(names: map<string, nat>, b: string) returns (name: string, names': map<string, nat>)
    ensures (name, names') == ResolveName(names, b)
  {
    name, names' := b, names;
    while true
      invariant ResolveName(names', name) == ResolveName(names, b)
      decreases LongKeys(names', name)
    {
      if name !in names' {
        names' := names'[name := 1];
        return;
      }
      var j := names'[name];
      var next := name + "_" + NatToString(j, 10);
      ResolveNameStep(names', name, names'[name := j + 1], next);
      names' := names'[name := j + 1];
      name := next;
    }
  }

  /**
   * A taken name resolves as its successor `<name>_<j>` does, with the counter bumped; the
   * renaming loop's measure shrinks on the way.
   */
  lemma ResolveNameStep(names: map<string, nat>, b: string, names': map<string, nat>, b': string)
    requires b in names && names' == names[b := names[b] + 1] && b' == b + "_" + NatToString(names[b], 10)
    ensures LongKeys(names', b') < LongKeys(names, b)
    ensures ResolveName(names, b) == ResolveName(names', b')
  {
    LongKeysShrink(names, b, names', b');
  }

  /** Three resources whose names reduce to `icon` are named `icon`, `icon_1`, `icon_2`. */
  lemma ThreeIcons()
    ensures var (n1, t1) := ResolveName(map[], "icon");
            var (n2, t2) := ResolveName(t1, "icon");
            var (n3, t3) := ResolveName(t2, "icon");
            n1 == "icon" && n2 == "icon_1" && n3 == "icon_2"
  {
    assert NatToString(1, 10) == "1" && NatToString(2, 10) == "2";
    assert "icon" + "_" + NatToString(1, 10) == "icon_1";
    assert "icon" + "_" + NatToString(2, 10) == "icon_2";
    var t1 := map["icon" := 1];
    assert ResolveName(map[], "icon") == ("icon", t1);
    var t2 := map["icon" := 2, "icon_1" := 1];
    assert "icon_1" !in t1[("icon") := 2];
    assert t1["icon" := 2]["icon_1" := 1] == t2;
    assert ResolveName(t1, "icon") == ResolveName(t1["icon" := 2], "icon_1") == ("icon_1", t2);
    var t3 := t2["icon" := 3];
    assert "icon_2" !in t3;
    assert ResolveName(t2, "icon") == ResolveName(t3, "icon_2");
  }

  /** Items whose ids are the base followed by their index in base 36 have distinct ids. */
  lemma IdsDistinct(items: seq<PackageItem>, base: string)
    requires forall k | 0 <= k < |items| :: items[k].id == ItemId(base, k)
    ensures forall i, j | 0 <= i < j < |items| :: items[i].id != items[j].id
  {
    forall i, j | 0 <= i < j < |items| ensures items[i].id != items[j].id {
      NatToStringInjective(i, j, 36);
      var a, b := NatToString(i, 36), NatToString(j, 36);
      assert ItemId(base, i) == base + a && ItemId(base, j) == base + b;
      assert (base + a)[|base|..] == a;
      assert (base + b)[|base|..] == b;
    }
  }

  /** The item at index k has id `base` followed by k in base 36. */
  ghost predicate IdsNumbered(base: string, items: seq<PackageItem>) {
    forall k | 0 <= k < |items| :: items[k].id == ItemId(base, k)
  }

  /**
   * Every item is the one registered under its content, different items have different
   * contents, and the map holds nothing else: each key leads to an item with that content.
   */
  ghost predicate HashIndexed(items: seq<PackageItem>, byHash: map<Payload, PackageItem>) {
    (forall k | 0 <= k < |items| :: items[k].data in byHash && byHash[items[k].data] == items[k])
    && (forall i, j | 0 <= i < j < |items| :: items[i].data != items[j].data)
    && (forall h | h in byHash :: byHash[h] in items && byHash[h].data == h)
  }

  /** Base names are registered in the name table and pairwise distinct. */
  ghost predicate NamesDistinct(names: map<string, nat>, stems: seq<string>) {
    (forall k | 0 <= k < |stems| :: stems[k] in names)
    && (forall i, j | 0 <= i < j < |stems| :: stems[i] != stems[j])
  }

  /** The registry invariant over the package's fields. */
  ghost predicate Consistent(base: string, next: nat, items: seq<PackageItem>,
                             byHash: map<Payload, PackageItem>, names: map<string, nat>, stems: seq<string>)
  {
    next == |items| && |stems| == |items|
    && IdsNumbered(base, items) && HashIndexed(items, byHash) && NamesDistinct(names, stems)
  }

  lemma PushIds(base: string, items: seq<PackageItem>, item: PackageItem)
    requires IdsNumbered(base, items) && item.id == ItemId(base, |items|)
    ensures IdsNumbered(base, items + [item])
  {
    var items' := items + [item];
    forall k | 0 <= k < |items'| ensures items'[k].id == ItemId(base, k) {
      if k < |items| {
        assert items'[k] == items[k];
      }
    }
  }

  lemma PushHash(items: seq<PackageItem>, byHash: map<Payload, PackageItem>, item: PackageItem)
    requires HashIndexed(items, byHash) && item.data !in byHash
    ensures HashIndexed(items + [item], byHash[item.data := item])
  {
    var items', byHash' := items + [item], byHash[item.data := item];
    var h0 := item.data;
    forall k | 0 <= k < |items'| ensures items'[k].data in byHash' && byHash'[items'[k].data] == items'[k] {
      if k < |items| {
        assert items'[k] == items[k];
      }
    }
    forall i, j | 0 <= i < j < |items'| ensures items'[i].data != items'[j].data {
      assert items'[i] == items[i];
      if j < |items| {
        assert items'[j] == items[j];
      }
    }
    forall h | h in byHash' ensures byHash'[h] in items' && byHash'[h].data == h {
      if h != h0 {
        assert byHash[h] in items;
      }
    }
  }

  lemma PushName(names: map<string, nat>, stems: seq<string>, names': map<string, nat>, stem: string)
    requires NamesDistinct(names, stems) && stem !in names && names'.Keys == names.Keys + {stem}
    ensures NamesDistinct(names', stems + [stem])
  {
    var stems' := stems + [stem];
    forall k | 0 <= k < |stems'| ensures stems'[k] in names' {
      if k < |stems| {
        assert stems'[k] == stems[k];
      }
    }
    forall i, j | 0 <= i < j < |stems'| ensures stems'[i] != stems'[j] {
      assert stems'[i] == stems[i] && stems[i] in names;
      if j < |stems| {
        assert stems'[j] == stems[j];
      }
    }
  }

  class UIPackage {
    const id: string
    const itemIdBase: string
    const exportOption: nat

    var nextItemIndex: nat
    var resources: seq<PackageItem>
    var sameDataTestHelper: map<Payload, PackageItem>
    var sameNameTestHelper: map<string, nat>
    /** The base name each resource was given, before its extension. */
    ghost var stems: seq<string>

    /** The registry invariant, stated by `Consistent` over the fields. */
    ghost predicate Valid()
      reads this
    {
      Consistent(itemIdBase, nextItemIndex, resources, sameDataTestHelper, sameNameTestHelper, stems)
    }

    /** The registry's fields now. */
    ghost function State(): Snapshot
      reads this
    {
      Snapshot(nextItemIndex, resources, sameDataTestHelper, sameNameTestHelper)
    }

    /**
     * `createPackageItem(kind, fileName, data, notInCom)`, called in state `s`, gave `item`
     * and left the registry as it is now: the item registered earlier for `data`, with
     * nothing changed, or a new item as `NewItem` says.
     */
    ghost predicate Registered(s: Snapshot, kind: ItemType, fileName: string, data: Payload, notInCom: bool,
                               item: PackageItem)
      reads this
    {
      && item.data == data
      && (data in s.byData ==> item == s.byData[data] && resources == s.resources)
      && (data !in s.byData ==> NewItem(s.next, s.resources, s.byData, s.names, kind, fileName, data, notInCom, item))
    }

    constructor (buildId: string, exportOption: nat)
      ensures Valid()
      ensures id == PackageId(buildId) && itemIdBase == ItemIdBase(buildId)
      ensures this.exportOption == exportOption
      ensures nextItemIndex == 0 && resources == []
      ensures sameDataTestHelper == map[] && sameNameTestHelper == map[]
    {
      id := PackageId(buildId);
      itemIdBase := ItemIdBase(buildId);
      this.exportOption := exportOption;
      nextItemIndex := 0;
      resources := [];
      sameDataTestHelper := map[];
      sameNameTestHelper := map[];
      stems := [];
    }

    /** `getNextItemId`: the base followed by the counter in base 36; the counter advances. */
    method GetNextItemId() returns (itemId: string)
      modifies this`nextItemIndex
      ensures nextItemIndex == old(nextItemIndex) + 1
      ensures itemId == ItemId(itemIdBase, old(nextItemIndex))
    {
      itemId := ItemId(itemIdBase, nextItemIndex);
      nextItemIndex := nextItemIndex + 1;
    }

    /**
     * Registers a resource. A payload already registered gives back the item registered
     * for it and changes nothing; otherwise one new item is appended with the next id, a
     * base name no earlier resource had, and its storage path.
     */
    method CreatePackageItem(kind: ItemType, fileName: string, data: Payload, notInCom: bool)
      returns (item: PackageItem)
      requires Valid()
      modifies this
      ensures Valid()
      ensures item in resources && old(resources) <= resources && item.data == data
      ensures data in old(sameDataTestHelper) ==>
                item == old(sameDataTestHelper)[data]
                && resources == old(resources) && nextItemIndex == old(nextItemIndex)
                && sameDataTestHelper == old(sameDataTestHelper)
                && sameNameTestHelper == old(sameNameTestHelper)
      ensures data !in old(sameDataTestHelper) ==>
                NewItem(old(nextItemIndex), old(resources), old(sameDataTestHelper),
                        old(sameNameTestHelper), kind, fileName, data, notInCom, item)
      ensures Registered(old(State()), kind, fileName, data, notInCom, item)
    {
      if data in sameDataTestHelper {
        item := sameDataTestHelper[data];
        assert item in resources;
        return;
      }
      item := AddItem(kind, fileName, data, notInCom);
    }

    /**
     * The state after a new payload is registered: the item has the next id, the fresh
     * name the renaming loop finds for the file's base name plus the file's extension, and
     * the storage path; it is appended, registered under its content, and the counter
     * advances.
     */
    ghost predicate NewItem(next0: nat, items0: seq<PackageItem>, byData0: map<Payload, PackageItem>,
                            names0: map<string, nat>, kind: ItemType, fileName: string, data: Payload,
                            notInCom: bool, item: PackageItem)
      reads this
    {
      var parts := SplitFileName(fileName);
      var resolved := ResolveName(names0, Basename(parts.0));
      item == PackageItem(kind, ItemId(itemIdBase, next0), resolved.0 + parts.1, StoragePath(kind, notInCom), data)
      && resources == items0 + [item] && nextItemIndex == next0 + 1
      && sameDataTestHelper == byData0[data := item]
      && sameNameTestHelper == resolved.1
    }

    /** The new-content path of `createPackageItem`. */
    method AddItem(kind: ItemType, fileName: string, data: Payload, notInCom: bool)
      returns (item: PackageItem)
      requires Valid() && data !in sameDataTestHelper
      modifies this
      ensures Valid()
      ensures NewItem(old(nextItemIndex), old(resources), old(sameDataTestHelper),
                      old(sameNameTestHelper), kind, fileName, data, notInCom, item)
    {
      var itemId := GetNextItemId();
      var (stem, ext) := SplitFileName(fileName);
      var basename, names := FreshName(sameNameTestHelper, Basename(stem));
      item := PackageItem(kind, itemId, basename + ext, StoragePath(kind, notInCom), data);
      var resources', byData' := resources + [item], sameDataTestHelper[data := item];
      ghost var stems' := stems + [basename];
      PushIds(itemIdBase, resources, item);
      PushHash(resources, sameDataTestHelper, item);
      PushName(sameNameTestHelper, stems, names, basename);
      sameNameTestHelper, resources, sameDataTestHelper, stems := names, resources', byData', stems';
    }
  }

  /**
   * A new component registered as `<stem>.xml`: the next id after state `s`, the stem
   * renamed as the renaming loop resolves it against `s`'s name table, and `path`.
   */
  predicate RegisteredAs(item: PackageItem, s: Snapshot, idBase: string, stem: string, path: string) {
    && item.kind == Component && item.id == ItemId(idBase, s.next)
    && item.name == ResolveName(s.names, Basename(stem)).0 + ".xml" && item.path == path
  }

  /**
   * A document file name `<stem>.xml` splits back into the stem, so a new document is
   * named after its renamed stem and stored under `/` exactly when `notInCom` is set.
   */
  lemma RegisteredDocument(pkg: UIPackage, s: Snapshot, stem: string, notInCom: bool, item: PackageItem)
    requires pkg.Registered(s, Component, stem + ".xml", item.data, notInCom, item) && item.data !in s.byData
    ensures RegisteredAs(item, s, pkg.itemIdBase, stem, if notInCom then "/" else "/Components/")
    ensures pkg.resources == s.resources + [item]
  {
    assert ".xml"[1..] == "xml";
    SplitWithExtension(stem, ".xml");
  }

  /** In a consistent package, resource ids are pairwise distinct and there is one resource per distinct content. */
  lemma RegistryFacts(pkg: UIPackage)
    requires pkg.Valid()
    ensures forall i, j | 0 <= i < j < |pkg.resources| :: pkg.resources[i].id != pkg.resources[j].id
    ensures |pkg.resources| == |pkg.sameDataTestHelper.Keys|
  {
    IdsDistinct(pkg.resources, pkg.itemIdBase);
    DataKeys(pkg.resources, pkg.sameDataTestHelper);
  }

  /** The contents of the first `n` items. */
  ghost function DataOf(items: seq<PackageItem>, n: nat): set<Payload>
    requires n <= |items|
  {
    set k | 0 <= k < n :: items[k].data
  }

  /** Distinct contents: `n` items have `n` contents. */
  lemma {:induction false} DataOfSize(items: seq<PackageItem>, n: nat)
    requires n <= |items|
    requires forall i, j | 0 <= i < j < |items| :: items[i].data != items[j].data
    ensures |DataOf(items, n)| == n
  {
    if n > 0 {
      DataOfSize(items, n - 1);
      assert DataOf(items, n) == DataOf(items, n - 1) + {items[n - 1].data};
      assert items[n - 1].data !in DataOf(items, n - 1);
    }
  }

  /** The table's keys are exactly the items' contents, one per item. */
  lemma DataKeys(items: seq<PackageItem>, byHash: map<Payload, PackageItem>)
    requires HashIndexed(items, byHash)
    ensures byHash.Keys == DataOf(items, |items|) && |byHash.Keys| == |items|
  {
    forall h | h in byHash ensures h in DataOf(items, |items|) {
      var k :| 0 <= k < |items| && items[k] == byHash[h];
    }
    DataOfSize(items, |items|);
  }
}
