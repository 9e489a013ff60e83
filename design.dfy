/**
 * The read-only view of a design-document layer that the converter consumes: name,
 * box, opacity, group flag, children, the first text run and the pixel data.
 */
module Design {
  import opened Wrappers
  import opened HtmlColor

  datatype Rgba = Rgba(r: byte, g: byte, b: byte, a: byte)

  /** The first run of a text layer (`typeTool`): text, font, size, colour, alignment. */
  datatype TextRun = TextRun(value: string, font: string, size: int, color: Rgba, alignment: string)

  /**
   * A layer. `text` is present for text layers; `pixels` is absent for empty layers
   * (`isEmpty()`), else it holds the pixel data that is hashed for deduplication.
   */
  datatype Node = Node(
    name: string,
    left: int, top: int, width: int, height: int,
    opacity: byte,
    isGroup: bool,
    children: seq<Node>,
    text: Option<TextRun>,
    pixels: Option<seq<byte>>)

  /** `node.descendants()`: every node below `n`, depth first, parents before children. */
  function Descendants(n: Node): seq<Node> {
    DescendantsOf(n.children)
  }

  function DescendantsOf(cs: seq<Node>): seq<Node>
    decreases cs
  {
    if |cs| == 0 then [] else [cs[0]] + DescendantsOf(cs[0].children) + DescendantsOf(cs[1..])
  }

  /** The colour as the `[r, g, b, a]` array the source passes around. */
  function Channels(c: Rgba): (s: seq<byte>)
    ensures |s| == 4
  {
    [c.r, c.g, c.b, c.a]
  }
}
