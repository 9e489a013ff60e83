# psd2fgui conversion core in Dafny

This project models the core of `lib.js`, the converter that turns a layered design
document into a FairyGUI package. The converter walks the layer tree and reads each
layer's name by fixed conventions. A `Com` prefix makes a group a nested component.
A `Btn`, `CheckBtn` or `@RadioBtn` suffix makes it a button, `ProBar` a progress bar
and `Slider` a slider. `@RadioGroup` makes a radio-button controller. Markers such as
`@title`, `@icon`, `grip@` and `@bar` give layers a special role inside widgets. Text
layers become `text` elements and pixel layers become `image` or `loader` elements.
Every generated document and every image is registered as a package item. The
registry deduplicates items by content and gives each one an id and a unique name.

The modules follow the parts of `lib.js`:

- `Strings` and `Numerals` hold the JavaScript string and number operations the code
  relies on. These are `indexOf`, `lastIndexOf`, `substr`, `join(',')`,
  `toString(radix)` and the `\w` character class.
- `Naming` holds the suffix predicates, the special-usage markers, the `/\w+@/` tag
  that names controllers and radio labels, and the decorator stripping of resource
  names.
- `HtmlColor` holds `convertToHtmlColor` and the two-decimal `alpha` attribute.
- `Xml` holds elements as records: a tag, an attribute map and ordered children.
- `Design` holds the read-only layer: name, box, opacity, group flag, children, the
  first text run and the pixel data.
- `Registry` holds the `UIPackage` class and `createPackageItem`. The class has the
  id counter, the append-only resource list, the content table and the name table.
  The renaming `while (true)` loop is a method proved against a function.
- `Widgets` holds the button synthesiser's pieces. These are the state-image scan,
  the page lists with their gears, the title/icon callback and the `Button`
  extension. It also holds the grip/bar state machine of sliders and progress bars,
  the controller `pages` string, and the elements `parseNode` builds.
- `Walker` holds `parseNode` and the synthesisers that drive it. These are
  `createComponent`, `createButton`, `createProgressBar`, `createSlider`,
  `createImage` and the conversion entry. They are methods over the package object.
  What `parseNode` shares with its caller by reference is threaded through a `Walk`
  record: the display list, the callback's captured state, `ctrlList` and
  `ctrlItemList`.

Some paths make the JavaScript throw a `TypeError`. One is a radio button reached
without a label list. Another is a radio group reached without a controller list.
The model returns `ok == false` on those paths, and the predicate `Completes` states
exactly when a walk finishes.

Two quirks of the code are modelled as written:

- The `i == 3` "selectedOver" branch of the page loop can never run, because there
  are only two state suffixes. The model proves it dead with `assert false`.
- The text-name test `lastIndexOf("Txt") == length - 3` also accepts every
  two-character name (`TxtNameQuirk`).

A progress bar's extension element is tagged `Slider`, as in the code. A `@title`
layer's text is copied into the instance properties and stays on the element.

`createComponent` registers every document with `notInCom` set, so `createPackageItem`
gives nested components the path `/` rather than `/Components/` (lib.js:267 and
494-500). The model follows the code.

## Model

| member | source | states |
|---|---|---|
| Naming.SuffixPredicates | lib.js:43-66 | each of `IsBtn`, `IsCheckBtn`, `IsRadioBtn`, `IsSlider`, `IsProgressBar` holds exactly when the name ends with `Btn`, `CheckBtn`, `@RadioBtn`, `Slider`, `ProBar` respectively |
| Naming.ButtonKinds | lib.js:43-56 | every check-button name and every radio-button name is a button name, and no name is both a check button and a radio button |
| Naming.ButtonSuffixKinds | lib.js:43-56 | a name ending in `CheckBtn` or `@RadioBtn` ends in `Btn`, and no name ends in both |
| Naming.TxtNameQuirk | lib.js:624 | the text-name test passes exactly for names ending in `Txt` and for every two-character name |
| Naming.SpecialUsage | lib.js:517-526 | the markers are tested in the order `@title`, `@icon`, `grip@`, `@bar`: the usage is the first marker the name contains, and there is none exactly when it contains none of them |
| Naming.FirstWordTagFacts | lib.js:549 | `/\w+@/.exec` finds no match exactly when no word character is followed by `@`; a match is a non-empty run of word characters that occurs in the name followed by `@` |
| Naming.FirstWordTagIsExec | lib.js:549 | the match is the whole word-character run that starts at the leftmost position where a run is followed by `@`; with no match, no position matches |
| Naming.TagStartIsLeftmost | lib.js:549 | the scan position of the tag search stops at or before the end, with no match before it |
| Naming.TagStartIsMatch | lib.js:549 | where the scan stops short of the end, a word run followed by `@` starts there |
| Naming.FirstWordTagAtStart | lib.js:549 | the tag found is the word run at the scan position, and there is none when the scan reaches the end |
| Naming.RemoveFirstAt | lib.js:553 | `replace("@", "")` deletes the first `@` (none occurs before it) and keeps everything else; a name without `@` is unchanged |
| Naming.RadioLabel | lib.js:558-559 | a radio button's label is its `\w+@` tag without the `@` when it has one, otherwise `n` followed by the display count plus one; it is never empty and holds no comma |
| Naming.ControllerName | lib.js:603-604 | a controller is named by the group name without its first `@` when the name has a `\w+@` tag, otherwise `c` followed by the controller count plus one |
| Naming.StripAtTagsClean | lib.js:478 | after `replace(/@\w+/g, "")` no `@` is followed by a word character |
| Naming.StripWordTagsClean | lib.js:476 | after `replace(/\w+@/g, "")` no word character is followed by `@` |
| Naming.UndecoratedUnchanged | lib.js:475-479 | a name without `@` is left unchanged by both strippings |
| Naming.BasenameClean | lib.js:475-479 | a `grip@` base name loses every `\w+@` tag, any other loses every `@\w+` tag, and a name without `@` is kept |
| HtmlColor.Hex2 | lib.js:716-719 | one channel gives exactly two hex digits that read back as the channel |
| HtmlColor.ConvertToHtmlColor | lib.js:705-723 | the colour is `#` and 7 or 9 characters in all, all of them hex digits after the `#`; each two-digit pair reads back as its channel, alpha first when requested, then red, green, blue |
| HtmlColor.AlphaHundredths | lib.js:679 | the alpha value in hundredths is at most 100 and lies within half a hundredth of opacity/255 |
| HtmlColor.TwoDecimals | lib.js:679 | `toFixed(2)` of at most one whole gives a decimal digit, a point and two decimal digits that read back as the hundredths |
| HtmlColor.AlphaText | lib.js:679 | the alpha text is a decimal digit, a point and two decimal digits that read back as the nearest hundredth of opacity/255 |
| HtmlColor.AlphaAttr | lib.js:677-679 | the `alpha` attribute is present exactly when the opacity is below 255 |
| HtmlColor.AlphaExamples | lib.js:677-679 | opacity 128 gives `0.50`, and full opacity gives no attribute |
| Registry.BuildIdSplit | lib.js:207-208 | the package id and the item id base concatenate back to the build id; the package id has at most 8 characters |
| Registry.SplitFileName | lib.js:471-473 | for a name with a `.`, the stem and the extension concatenate back to the name and the extension starts at the last `.` (no `.` after it); without a `.`, `substr(0, -1)` gives an empty stem and `substr(-1)` the last character |
| Registry.SplitWithExtension | lib.js:471-473 | a stem followed by an extension with one leading `.` splits back into exactly that stem and extension |
| Registry.StoragePath | lib.js:494-500 | an image is stored under `/Images/`, a component under `/Components/` unless `notInCom` is set, and then under `/` |
| Registry.ResolveName | lib.js:480-490 | a base name not in the table is kept and recorded with counter 1; a taken one ends as the base name followed by `_` and a decimal digit; the final name was not in the table and is added with counter 1, and no counter decreases |
| Registry.FreshName | lib.js:480-490 | the `while (true)` loop computes what `ResolveName` specifies |
| Registry.ResolveNameStep | lib.js:484-487 | a taken name resolves as its successor `<name>_<j>` does once its counter is bumped, and the loop's measure shrinks |
| Registry.ThreeIcons | lib.js:480-491 | registering the base name `icon` three times gives `icon`, `icon_1`, `icon_2` |
| Registry.IdsDistinct | lib.js:210-212 | ids formed from the base and the position in base 36 are pairwise distinct |
| Registry.PushIds | lib.js:469 | appending the item with the next id keeps every item numbered by its position |
| Registry.PushHash | lib.js:503-504 | appending an item with new content and recording it keeps the content table exact |
| Registry.PushName | lib.js:483 | recording a fresh base name keeps all base names distinct and registered |
| Registry.UIPackage.constructor | lib.js:206-220 | a new package splits the build id into id and item id base, starts the counter at 0, and starts with empty resources and empty tables |
| Registry.UIPackage.GetNextItemId | lib.js:210-212 | the id is the item id base followed by the counter in base 36, and the counter advances by one |
| Registry.UIPackage.CreatePackageItem | lib.js:457-508 | content already registered gives back its item and changes nothing; new content appends exactly one item with the next id, a fresh base name plus the extension, and the storage path for its kind |
| Registry.UIPackage.AddItem | lib.js:465-505 | the new-content path: the item appended, the content table extended, and the name table as the renaming loop leaves it |
| Registry.RegisteredDocument | lib.js:466-505 | a new document registered as `<stem>.xml` splits back into its stem, so its name is the stem renamed against the name table plus `.xml`, its id is the next one, its path is `/` exactly when `notInCom` is set and otherwise `/Components/`, and it is appended last |
| Registry.RegistryFacts | lib.js:463-505 | in every package state the resource ids are pairwise distinct, and there are as many resources as distinct contents |
| Registry.DataKeys | lib.js:503-504 | the keys of the content table are exactly the resources' contents, one per resource |
| Widgets.LastIndexWith | lib.js:278-285 | the index of the last descendant whose name contains the suffix, with no match after it |
| Widgets.StateImageFacts | lib.js:278-285 | a state's image is a descendant whose name contains the state suffix and no later descendant matches, so it is the last match; there is none exactly when no descendant's name contains the suffix |
| Widgets.CountWith | lib.js:281-283 | the count is the number of positions whose descendant's name contains the suffix; it is zero exactly when none matches |
| Widgets.MatchStates | lib.js:280-285 | one node becomes the image of every state whose suffix its name contains, and the count grows by the number of matches |
| Widgets.ScanStates | lib.js:275-286 | the scan keeps the last matching descendant per state and counts every (descendant, suffix) match |
| Widgets.AssignPages | lib.js:287-298 | the page loop builds exactly the page lists `ButtonPages` specifies; its `i == 3` branch is unreachable |
| Widgets.ButtonPagesOwnership | lib.js:287-298 | pages 0 and 1 each appear in exactly one list: their own when the state has an image, otherwise list 0; each list is increasing |
| Widgets.ButtonGears | lib.js:287-307 | an up-only button gears its up image to `0,1`; with a down image, up gets `0` and down gets `1` |
| Widgets.IndexOfImage | lib.js:302 | `images.indexOf(node)` is the first state whose image is the node, or -1 when there is none |
| Widgets.ButtonStep | lib.js:300-322 | a state image gets exactly one more child, the gear showing the pages of the first state whose image it is, and earlier children are kept; a `@title` layer's text is copied into the properties and stays on the element; otherwise an `@icon` layer's url moves from the element into the properties |
| Widgets.ButtonExtension | lib.js:334-347 | mode is `Check` for `CheckBtn` names, which also get `checked`, and `Radio` for `@RadioBtn` names; the 0.95 `scale` down effect is set exactly when there is one image and the name is not a check button |
| Widgets.GripBarStep | lib.js:361-383 | a `bar` records its id and relates a held grip to it; a `grip` is held when no bar was seen and otherwise related to that bar at once; a relation is made exactly in those two cases; other names change nothing |
| Widgets.RunSourced | lib.js:361-383 | whatever the names and their order, every relation the callback makes goes from a grip's position to a bar's id, and a held position is a grip's |
| Widgets.GripBarPrefix | lib.js:361-383 | after any prefix of a one-grip, one-bar sequence, the state and the relations so far are determined by which of the two were seen |
| Widgets.GripRelatedToBar | lib.js:411-433 | with one grip and one bar in either order, the grip gets exactly one relation, whose target is the bar's id |
| Widgets.PageTokens | lib.js:253-262 | a controller has two page tokens per label |
| Widgets.PageTokensAt | lib.js:253-262 | token 2k is page k in decimal and token 2k+1 is label k |
| Widgets.PageTokensCommaFree | lib.js:253-262 | comma-free labels give comma-free tokens |
| Widgets.PagesSnoc | lib.js:254-260 | one more label extends the pages string by `,k,label`, or starts it as `0,label` |
| Widgets.ControllerPages | lib.js:252-263 | the `pages` loop builds `0,l0,1,l1,...`, which is empty for no labels |
| Widgets.PagesRoundTrip | lib.js:252-263 | splitting the `pages` string at commas gives back page k followed by label k, in order |
| Widgets.PositionalName | lib.js:536 | the positional name is `n` followed by the count plus one |
| Widgets.Pair | lib.js:541 | the `x,y` text reads back as the two numbers |
| Widgets.Instance | lib.js:536-541 | a nested instance has exactly id, name, src, fileName and xy; the id is `str_<item id base>`, the name is the usage marker when there is one and `str` otherwise, and the xy is relative to the root layer |
| Widgets.TextName | lib.js:616-628 | a text element is named by the layer name, or by its part before `@title` when it has a marker, if that passes the `Txt` test; otherwise by its position; a marker other than `@title` always gives the positional name |
| Widgets.TextAttrs | lib.js:630-653 | a text element has its id, name, text, xy, size, vAlign `middle`, autoSize `none`, fontSize and color; `align` appears exactly when it is not `left`, and `font` exactly when fonts are kept |
| Widgets.TextElement | lib.js:612-653 | a text element is named by `TextName`, with the id `<name>_<item id base>`; its box is the layer's grown by 4 on each side relative to the root, with the point size and the `#rrggbb` hex colour of the first run; `font` is the run's font unless the IGNORE_FONT bit is set |
| Widgets.PointSize | lib.js:652 | the font size text reads back as the run's size |
| Widgets.TextColor | lib.js:653 | the text colour is `#` and six hex digits, each pair reading back as its channel |
| Widgets.ImageElement | lib.js:655-672 | an `@icon` layer gives a sized `loader` whose url is `ui://` plus package id plus item id; any other pixel layer gives an `image` whose src is the item id; a `@bar` layer's id uses `bar` |
| Widgets.WithAlpha | lib.js:677-679 | `alpha` is set exactly when the opacity is below 255, to the two-decimal text, and nothing else changes |
| Widgets.ClassifyByName | lib.js:532-655 | each branch of `parseNode`, stated by the layer's name: a `Com` prefix, then the `Btn`, `ProBar` and `Slider` suffixes, then containing `@RadioGroup`; leaves by text run and pixels |
| Widgets.SuffixEndings | lib.js:543-587 | no name ends with two of `Btn`, `ProBar` and `Slider` |
| Walker.Find | lib.js:605 | the position of the controller with that name; -1 exactly when there is none |
| Walker.Upsert | lib.js:605 | after assigning `ctrlList[name]` the name is found with the new labels, every other controller is unchanged, the list grows by one exactly when the name was absent, and distinct names stay distinct |
| Walker.ControllerElements | lib.js:246-265 | one `controller` element per controller, in order, with its name, its joined pages and `selected` `0` |
| Walker.CompletesByKind | lib.js:532-609 | per branch, when the walk completes: which lists the children get, that a radio button needs a label list and either a controller list or a tagged parent name, and that a radio group needs a controller list |
| Walker.Emit | lib.js:676-685 | alpha, then the callback, then exactly one element appended with earlier elements and children kept; a button layer steps the button callback, and a grip or bar steps the grip/bar state with a relation only on a grip that follows the bar |
| Walker.ParseNode | lib.js:511-689 | the walk of one layer finishes exactly when `Completes` holds; it then appends exactly the layer's count of elements, keeps the earlier ones, every registered resource and every controller already set under its name and place, and adds the layer's radio label to the label list |
| Walker.ParseLayer | lib.js:611-674 | a text layer or non-empty pixel layer appends one element, and an empty layer none |
| Walker.ParseText | lib.js:612-654 | a text layer emits exactly its `TextElement`, whose name `TextName` gives: the layer name, cut before `@title`, when it passes the `Txt` test, and otherwise the name by position |
| Walker.ParseImage | lib.js:655-673 | a pixel layer emits the `ImageElement` of a registered item holding its pixels, naming that item's id and file name |
| Walker.ParseWidget | lib.js:532-597 | a nested component, progress bar or slider completes exactly when its own walk does, and then emits the instance of a registered document |
| Walker.WidgetInstance | lib.js:532-597 | the instance of a nested component has no children, a progress bar's holds one `ProgressBar` element and a slider's one `Slider` element |
| Walker.ParsePlainGroup | lib.js:606-609 | any other group is flattened into the caller's display list, its children getting no label list; controllers set before keep their names and places |
| Walker.ParseChildren | lib.js:241-243 | visiting the children last to first completes exactly when every child completes; it appends the sum of their counts and their radio labels in walk order, and keeps every controller set before under its name and place |
| Walker.ParseChildAt | lib.js:241-243 | one child walked after those behind it extends the counts and the labels by what it contributes and keeps the controllers set before |
| Walker.ParseRadioGroup | lib.js:598-605 | the children are walked with a fresh label list, keeping every controller the caller had; then the controller named by `ControllerName` for the list they left is set to exactly the labels they added; a tagged group's controller is found under its name without the first `@`; the caller's label list is untouched |
| Walker.ParseButton | lib.js:543-575 | a button completes exactly when `Completes` holds; it emits the instance of a registered document, keeps the controllers set before, and a radio button appends its label |
| Walker.FinishButton | lib.js:547-575 | a radio button fails exactly without a label list, or without a controller list when its parent has no tag; otherwise it appends its label and the instance is emitted, named by its label or its own name |
| Walker.ButtonInstanceProps | lib.js:566-575 | every emitted button but a `grip@` one carries the `Button` element first: `checked` for a `CheckBtn`, and for a radio button the controller named by `ControllerName` and the page equal to the label count before it |
| Walker.ButtonProps | lib.js:553-556 | a radio button's properties gain the controller name and the page; all other properties are kept |
| Walker.ButtonInstance | lib.js:566-575 | the instance id is `str_<item id base>`; its only child is the `Button` element of its properties, except for a `grip@` layer |
| Walker.RegisterDocument | lib.js:457-508 | registering a generated document as `<stem>.xml` gives an item holding it; new content is a component with the next id, the renamed stem plus `.xml`, and `/` or `/Components/` as `notInCom` says, appended last |
| Walker.BuildComponent | lib.js:245-267 | the component document holds the group's size, the display list and one `controller` per entry, in order, and is registered as `<stem>.xml` at `/` when new |
| Walker.ControllersOnly | lib.js:245-265 | everything after the display list of such a document is a `controller` element |
| Walker.CreateImage | lib.js:222-230 | an image already registered is returned unchanged; new pixels append one image item with the next id, the renamed layer name plus `.png`, and the path `/Images/` |
| Walker.CreateComponent | lib.js:232-268 | the component exists exactly when the children's walk completes; it has the group's size, a display list with the children's count of elements, then one `controller` per entry of a controller list with distinct names and nothing else; new content is registered as `<name or group name>.xml` under the renamed stem, with the next id, at `/` |
| Walker.CreateButton | lib.js:270-350 | the button component exists exactly when its children's walk completes; its document has the group's size, the `Button` extension, a `button` controller with pages `0,up,1,down`, the display list and the `Button` extension element; a `CheckBtn` sets `checked` to `true`; the caller's controllers keep their names and places; new content is registered as `<group name>.xml`, renamed, with the next id, at `/Components/` |
| Walker.CreateProgressBar | lib.js:352-399 | the attributes are exactly the group's size, overflow `hidden` and the `ProgressBar` extension; the display list, then an empty `Slider` element; new content is registered as `<group name>.xml`, renamed, with the next id, at `/Components/` |
| Walker.CreateSlider | lib.js:402-455 | the attributes are exactly the group's size and the `Slider` extension; the display list, then an empty `Slider` element; new content is registered as `<group name>.xml`, renamed, with the next id, at `/Components/` |
| Walker.Convert | lib.js:124-127 | a fresh consistent package with the build id's split; the conversion succeeds exactly when the root's walk completes; the root document is then registered, and when its content is new it is the last resource, a component named `<file stem>.xml` (the root layer's name when the stem is empty) as the renaming loop resolves it, with the next id, at `/` |

## Left out

- File handling is not modelled: `exports.convert` apart from its lines 124-127, `readFileList`, the temporary directory, zip archiving, Promises and logging are I/O.
- Parsing the design file and `saveAsPng` are a foreign library. Layers are the `Design.Node` datatype, and `isEmpty()` is the absence of pixel data.
- MD5 is a foreign call. The content table is keyed by the content itself, which assumes the digest is collision-free. A component's content is its element record, which assumes serialisation is injective.
- `genBuildId` depends on `Math.random`. The build id is a parameter of `Convert`.
- Serialisation with `end({pretty: true})` is not modelled. Attribute order and text escaping are not represented.
- `importDocument` is taken to copy the element into the display list. A relation added to a held grip when the bar comes later therefore does not change the display list. The id-level relation is stated by `Widgets.Run` and `Widgets.GripRelatedToBar`.
- `createImage`'s `scale9Grid` argument is never passed by the code, so the 9-grid fields are not modelled.
- `images.indexOf(node)` compares layers by identity. The model compares them as values, so two identical layers count as one.
- Only the first text run is modelled: its text, font, size, colour and alignment. A font size is an integer.
- `ctrlList` is a JavaScript object. Its keys are taken in insertion order, and the reordering of integer-like keys is not modelled.
- The `\w` class is ASCII letters, digits and `_`, as for a regular expression without the `u` flag.
- Walker.ParseChildren: states how many elements are appended and the labels, not which elements or in what order.
- Walker.ParseNode: states how many elements a layer appends and that earlier ones are kept, not their contents; the element contents are stated by the `Widgets` functions.
- Walker.CreateComponent: states that one controller follows per entry of a controller list with distinct names, not which radio groups set those entries; `ParseRadioGroup` and `Upsert` state that per group.
- Widgets.PageTokens: states only the token count; `PageTokensAt` states the tokens.
- The `NO_PACK` option only affects file output and is not modelled.
- Registry.ResolveName: the name table is a plain object, so a base name such as `constructor` or `toString` finds an inherited property in the source and is renamed after it; the model treats such a name as fresh.
