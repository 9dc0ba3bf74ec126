/** The editor document tree. */
module Body {

  /** A node type after normalization; a type the converter does not know keeps its name. */
  datatype NodeType =
    | Doc | Paragraph | TextRun | Heading | BulletList | OrderedList | ListItem
    | CodeBlock | Blockquote | HorizontalRule | HardBreak | Image | Other(name: string)

  datatype MarkType = Bold | Italic | Strike | Code | Link | Underline | OtherMark(name: string)

  datatype Mark = Mark(typ: MarkType, href: string)

  /** The attributes the renderers read: an absent text is empty, an absent number 1. */
  datatype Attrs = Attrs(alt: string, src: string, title: string, language: string, level: int, start: int)

  datatype Node = Node(typ: NodeType, text: string, attrs: Attrs, marks: seq<Mark>, content: seq<Node>)

  /** rawText: the text of the whole subtree, hard breaks as newlines. */
  function RawText(n: Node): string
    decreases n, 1
  {
    if n.typ == HardBreak then "\n" else n.text + RawTexts(n.content)
  }

  function RawTexts(nodes: seq<Node>): string
    decreases nodes, 0
  {
    if nodes == [] then "" else RawText(nodes[0]) + RawTexts(nodes[1..])
  }

  /** Every text and every image description of a subtree, in document order. */
  function AllText(n: Node): string
    decreases n, 1
  {
    n.text + (if n.typ == Image then n.attrs.alt else "") + AllTexts(n.content)
  }

  function AllTexts(nodes: seq<Node>): string
    decreases nodes, 0
  {
    if nodes == [] then "" else AllText(nodes[0]) + AllTexts(nodes[1..])
  }
}
