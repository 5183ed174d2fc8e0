/** Assembling a document from parsed nodes: blocks in order, and sections from a stack of headings. */
module Assembly {
  import opened Common
  import opened Units
  import opened Documents

  /** What assembling produces so far. Identifiers are digests that tell blocks apart: a block's is its index. */
  datatype Doc = Doc(blocks: seq<Block>, sections: seq<Section>)

  /** The text a node reads as, of which this model keeps headings' titles only. */
  type Title = Node -> string

  /** The headings in scope, outermost first. */
  type Context = seq<Section>

  datatype Built<T> = Built(doc: Doc, context: Context, out: T)

  // ---- Inline content

  /** An inline node and its descendants; a block among them is refused. */
  function InlineOf(node: Node): Result<Inline>
    decreases node
  {
    match node
    case BlockNode(_, _, _, _, _) => Err(InlineBlock)
    case InlineNode(content, span, children) =>
      var inner :- InlinesOf(children, |children|);
      Ok(Inline(content, span, inner))
  }

  function InlinesOf(nodes: seq<Node>, n: nat): Result<seq<Inline>>
    requires n <= |nodes|
    decreases nodes, n
  {
    if n == 0 then Ok([])
    else
      var before :- InlinesOf(nodes, n - 1);
      var inline :- InlineOf(nodes[n - 1]);
      Ok(before + [inline])
  }

  lemma {:induction false} InlinesStop(nodes: seq<Node>, n: nat, m: nat)
    requires n <= m <= |nodes| && InlinesOf(nodes, n).Err?
    ensures InlinesOf(nodes, m) == InlinesOf(nodes, n)
  {
    if n < m {
      InlinesStop(nodes, n, m - 1);
    }
  }

  method MakeInline(node: Node) returns (r: Result<Inline>)
    ensures r == InlineOf(node)
    decreases node
  {
    match node {
      case BlockNode(_, _, _, _, _) => r := Err(InlineBlock);
      case InlineNode(content, span, children) =>
        var inner: seq<Inline> := [];
        for i := 0 to |children|
          invariant InlinesOf(children, i) == Ok(inner)
        {
          var inline := MakeInline(children[i]);
          if inline.Err? {
            InlinesStop(children, i + 1, |children|);
            return Err(inline.error);
          }
          inner := inner + [inline.value];
        }
        r := Ok(Inline(content, span, inner));
    }
  }

  // ---- The heading stack

  function LastId(context: Context): Option<Id> {
    if context == [] then None else Some(context[|context| - 1].id)
  }

  function Titles(context: Context): seq<string> {
    seq(|context|, i requires 0 <= i < |context| => context[i].title)
  }

  /** The headings a new heading of a level stays inside: those after and including a heading as deep are left. */
  function Popped(context: Context, level: nat): Context {
    if context != [] && context[|context| - 1].level >= level then Popped(context[..|context| - 1], level) else context
  }

  /** The stack inside a block: a heading's own section joins it. */
  function Entered(context: Context, node: Node, id: Id, title: Title): Context
    requires node.BlockNode?
  {
    if node.kind.Heading? then
      var outer := Popped(context, node.level);
      outer + [Section(id, LastId(outer), node.level, title(node), Titles(outer) + [title(node)])]
    else context
  }

  /** The section a block lies in; a heading's is the one its own section lies in. */
  function Enclosing(context: Context, node: Node): Option<Id>
    requires node.BlockNode?
  {
    LastId(if node.kind.Heading? then Popped(context, node.level) else context)
  }

  /** The document with a block's own entry, before its children are built. */
  function Opened(doc: Doc, node: Node, parent: Option<Id>, context: Context, title: Title): Doc
    requires node.BlockNode?
  {
    var id := |doc.blocks|;
    var inside := Entered(context, node, id, title);
    Doc(doc.blocks + [Block(id, node.kind, node.note, parent, Enclosing(context, node), Titles(inside), [node.span], [])],
        doc.sections + if node.kind.Heading? then [inside[|inside| - 1]] else [])
  }

  function WithChildren(doc: Doc, id: nat, children: seq<Child>): Doc
    requires id < |doc.blocks|
  {
    doc.(blocks := doc.blocks[id := doc.blocks[id].(children := children)])
  }

  /** One block with its descendants; headings inside it stay local to it. */
  function BuiltBlock(doc: Doc, node: Node, parent: Option<Id>, context: Context, title: Title): (r: Result<Built<Child>>)
    requires node.BlockNode?
    ensures r.Ok? ==> |doc.blocks| < |r.value.doc.blocks|
    decreases node, 0
  {
    var id := |doc.blocks|;
    var inside := Entered(context, node, id, title);
    var inner :- BuiltSiblings(Opened(doc, node, parent, context, title), node.children, |node.children|, Some(id), inside, title);
    Ok(Built(WithChildren(inner.doc, id, inner.out), inside, BlockChild(id)))
  }

  /** The first n of some sibling nodes, one after the other in one scope. */
  function BuiltSiblings(doc: Doc, nodes: seq<Node>, n: nat, parent: Option<Id>, context: Context, title: Title): (r: Result<Built<seq<Child>>>)
    requires n <= |nodes|
    ensures r.Ok? ==> |doc.blocks| <= |r.value.doc.blocks|
    decreases nodes, n
  {
    if n == 0 then Ok(Built(doc, context, []))
    else
      var before :- BuiltSiblings(doc, nodes, n - 1, parent, context, title);
      match nodes[n - 1]
      case BlockNode(_, _, _, _, _) =>
        var block :- BuiltBlock(before.doc, nodes[n - 1], parent, before.context, title);
        Ok(Built(block.doc, block.context, before.out + [block.out]))
      case InlineNode(_, _, _) =>
        var inline :- InlineOf(nodes[n - 1]);
        Ok(Built(before.doc, before.context, before.out + [InlineChild(inline)]))
  }

  /** `assemble`: the document of some root nodes. */
  function Assembled(nodes: seq<Node>, title: Title): Result<Doc> {
    var built :- BuiltSiblings(Doc([], []), nodes, |nodes|, None, [], title);
    Ok(built.doc)
  }

  lemma {:induction false} SiblingsStop(doc: Doc, nodes: seq<Node>, n: nat, m: nat, parent: Option<Id>, context: Context, title: Title)
    requires n <= m <= |nodes| && BuiltSiblings(doc, nodes, n, parent, context, title).Err?
    ensures BuiltSiblings(doc, nodes, m, parent, context, title) == BuiltSiblings(doc, nodes, n, parent, context, title)
  {
    hide BuiltBlock, InlineOf;
    if n < m {
      SiblingsStop(doc, nodes, n, m - 1, parent, context, title);
    }
  }

  /** The document under construction, whose blocks and sections only ever grow. */
  class Builder {
    var blocks: seq<Block>
    var sections: seq<Section>
    const title: Title

    constructor (title: Title)
      ensures this.title == title && Value() == Doc([], [])
    {
      this.title := title;
      blocks, sections := [], [];
    }

    function Value(): Doc
      reads this
    {
      Doc(blocks, sections)
    }

    /** `siblings`: a run of sibling nodes inside the current heading sections. */
    method Siblings(nodes: seq<Node>, parent: Option<Id>, context: Context) returns (r: Result<(seq<Child>, Context)>)
      modifies this
      ensures
        match BuiltSiblings(old(Value()), nodes, |nodes|, parent, context, title)
        case Ok(built) => r == Ok((built.out, built.context)) && Value() == built.doc
        case Err(error) => r == Err(error)
      decreases nodes
    {
      hide BuiltBlock, InlineOf;
      var children: seq<Child> := [];
      var inside := context;
      for i := 0 to |nodes|
        invariant BuiltSiblings(old(Value()), nodes, i, parent, context, title) == Ok(Built(Value(), inside, children))
      {
        if BuiltSiblings(old(Value()), nodes, i + 1, parent, context, title).Err? {
          SiblingsStop(old(Value()), nodes, i + 1, |nodes|, parent, context, title);
        }
        match nodes[i] {
          case BlockNode(_, _, _, _, _) =>
            var block := AddBlock(nodes[i], parent, inside);
            if block.Err? {
              return Err(block.error);
            }
            children, inside := children + [block.value.0], block.value.1;
          case InlineNode(_, _, _) =>
            var inline := MakeInline(nodes[i]);
            if inline.Err? {
              return Err(inline.error);
            }
            children := children + [InlineChild(inline.value)];
        }
      }
      r := Ok((children, inside));
    }

    /** `block`: one block, its section if it is a heading, and its descendants. */
    method AddBlock(node: Node, parent: Option<Id>, context: Context) returns (r: Result<(Child, Context)>)
      requires node.BlockNode?
      modifies this
      ensures
        match BuiltBlock(old(Value()), node, parent, context, title)
        case Ok(built) => r == Ok((built.out, built.context)) && Value() == built.doc
        case Err(error) => r == Err(error)
      decreases node
    {
      hide BuiltSiblings;
      ghost var start := Value();
      var id := |blocks|;
      var inside := context;
      var section := LastId(context);
      if node.kind.Heading? {
        while inside != [] && inside[|inside| - 1].level >= node.level
          invariant Popped(inside, node.level) == Popped(context, node.level)
          decreases |inside|
        {
          inside := inside[..|inside| - 1];
        }
        section := LastId(inside);
        var own := Section(id, section, node.level, title(node), Titles(inside) + [title(node)]);
        inside := inside + [own];
        sections := sections + [own];
      }
      blocks := blocks + [Block(id, node.kind, node.note, parent, section, Titles(inside), [node.span], [])];
      assert sections == Opened(start, node, parent, context, title).sections;
      assert Value() == Opened(start, node, parent, context, title);
      var children := Siblings(node.children, Some(id), inside);
      if children.Err? {
        return Err(children.error);
      }
      blocks := blocks[id := blocks[id].(children := children.value.0)];
      r := Ok((BlockChild(id), inside));
    }
  }

  method Assemble(nodes: seq<Node>, title: Title) returns (r: Result<Doc>)
    ensures r == Assembled(nodes, title)
  {
    hide BuiltSiblings;
    var builder := new Builder(title);
    var children := builder.Siblings(nodes, None, []);
    if children.Err? {
      return Err(children.error);
    }
    r := Ok(builder.Value());
  }
}
