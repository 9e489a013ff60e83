/**
 * XML elements as records: a tag, an attribute map and the ordered child elements.
 * Attribute order and text serialisation belong to the document builder and are not
 * represented. Attribute names are the fixed set the converter writes.
 */
module Xml {
  /** The attribute names the converter writes (and reads back in its callbacks). */
  datatype Attr =
    | Id | Name | Src | FileName | Xy | Size | Extention | Overflow | Pages | Selected
    | Title | Icon | Checked | Controller | Page | Mode | DownEffect | DownEffectValue
    | Target | SidePair | Text | Align | VAlign | AutoSize | Font | FontSize | Color | Url | Alpha

  /** The attribute's name in the document. */
  function AttrName(a: Attr): string {
    match a
    case Id => "id" case Name => "name" case Src => "src" case FileName => "fileName"
    case Xy => "xy" case Size => "size" case Extention => "extention" case Overflow => "overflow"
    case Pages => "pages" case Selected => "selected" case Title => "title" case Icon => "icon"
    case Checked => "checked" case Controller => "controller" case Page => "page" case Mode => "mode"
    case DownEffect => "downEffect" case DownEffectValue => "downEffectValue" case Target => "target"
    case SidePair => "sidePair" case Text => "text" case Align => "align" case VAlign => "vAlign"
    case AutoSize => "autoSize" case Font => "font" case FontSize => "fontSize" case Color => "color"
    case Url => "url" case Alpha => "alpha"
  }

  datatype Element = Element(tag: string, attrs: map<Attr, string>, children: seq<Element>)

  /** `e.att(k, v)`. */
  function WithAttr(e: Element, k: Attr, v: string): Element {
    e.(attrs := e.attrs[k := v])
  }

  /** `e.removeAttribute(k)`. */
  function WithoutAttr(e: Element, k: Attr): Element {
    e.(attrs := e.attrs - {k})
  }

  /** `e.ele(c)`: appends a child element. */
  function AddChild(e: Element, c: Element): Element {
    e.(children := e.children + [c])
  }
}
