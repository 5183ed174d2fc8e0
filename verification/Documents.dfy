/** Parsed nodes, and the document that is assembled from them. */
module Documents {
  import opened Common
  import opened Units

  datatype InlineKind =
    | Text(text: string)
    | CodeSpan(text: string)
    | Math(text: string)
    | InlineHtml(raw: string)
    | FootnoteReference(name: string)
    | SoftBreak
    | HardBreak
    | TaskMarker(checked: bool)
    | Image(destination: string, reference: string)
    | Link(destination: string)
    | Emphasis
    | Strong
    | Strikethrough
    | Superscript
    | Subscript

  datatype Inline = Inline(content: InlineKind, span: Span, children: seq<Inline>)

  datatype Child = BlockChild(id: Id) | InlineChild(inline: Inline)

  datatype Section = Section(id: Id, parent: Option<Id>, level: nat, title: string, path: seq<string>)

  /** What a block says about itself: a code block's info, a list's first number, a quote's alert, a note's name. */
  datatype Note = NoNote | Info(text: string) | First(number: nat) | Alert(text: string) | NoteName(text: string)

  datatype Block = Block(
    id: Id, kind: BlockType, note: Note, parent: Option<Id>, section: Option<Id>, path: seq<string>,
    spans: seq<Span>, children: seq<Child>)

  /** A parsed node: a block, with its level when it is a heading, or inline content. */
  datatype Node =
    | BlockNode(kind: BlockType, level: nat, note: Note, span: Span, children: seq<Node>)
    | InlineNode(content: InlineKind, span: Span, children: seq<Node>)

  /** The first n blocks by their identifiers. */
  function ById(blocks: seq<Block>, n: nat): map<Id, Block>
    requires n <= |blocks|
  {
    if n == 0 then map[] else ById(blocks, n - 1)[blocks[n - 1].id := blocks[n - 1]]
  }
}
