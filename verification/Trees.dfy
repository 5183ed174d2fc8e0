/** What an assembled document says of the tree it comes from: every block and inline node stands where the tree has it. */
module Trees {
  import opened Common
  import opened Units
  import opened Documents
  import opened Assembly
  import opened Sections

  /** Whether inline content is a parsed node, its descendants included. */
  ghost predicate SameInline(node: Node, inline: Inline)
    decreases node
  {
    && node.InlineNode? && inline.content == node.content && inline.span == node.span
    && |inline.children| == |node.children|
    && forall k :: 0 <= k < |node.children| ==> SameInline(node.children[k], inline.children[k])
  }

  /**
   * Whether a parsed block stands at a place of a document: kind, note, span and parent as parsed, a
   * heading's level and title kept as a section, and its children after it in order.
   */
  ghost predicate Stands(doc: Doc, node: Node, id: nat, parent: Option<Id>, title: Title)
    decreases node, 0
  {
    && node.BlockNode? && id < |doc.blocks|
    && var block := doc.blocks[id];
       && block.id == id && block.kind == node.kind && block.note == node.note && block.spans == [node.span] && block.parent == parent
       && (node.kind.Heading? ==> exists s :: s in doc.sections && s.id == id && s.level == node.level && s.title == title(node))
       && AllStand(doc, node.children, |node.children|, block.children, id + 1, Some(id), title)
  }

  /** Whether the first n of some siblings stand one after the other from a place on, and a list of children names them. */
  ghost predicate AllStand(doc: Doc, nodes: seq<Node>, n: nat, children: seq<Child>, from: nat, parent: Option<Id>, title: Title)
    requires n <= |nodes|
    decreases nodes, n
  {
    && |children| == n
    && (n > 0 ==>
          && AllStand(doc, nodes, n - 1, children[..n - 1], from, parent, title)
          && match children[n - 1]
             case InlineChild(inline) => SameInline(nodes[n - 1], inline)
             case BlockChild(id) => id == from + SizeOf(nodes, n - 1) && Stands(doc, nodes[n - 1], id, parent, title))
  }

  // ---- Inline content

  lemma {:induction false} InlineSame(node: Node)
    requires InlineOf(node).Ok?
    ensures SameInline(node, InlineOf(node).value)
    decreases node
  {
    hide InlinesOf;
    InlinesSame(node.children, |node.children|);
  }

  lemma {:induction false} InlinesSame(nodes: seq<Node>, n: nat)
    requires n <= |nodes| && InlinesOf(nodes, n).Ok?
    ensures |InlinesOf(nodes, n).value| == n && forall k :: 0 <= k < n ==> SameInline(nodes[k], InlinesOf(nodes, n).value[k])
    decreases nodes, n
  {
    hide InlineOf, SameInline;
    if n > 0 {
      InlinesSame(nodes, n - 1);
      InlineSame(nodes[n - 1]);
    }
  }

  // ---- What stands stays

  ghost predicate Agree(a: Doc, b: Doc, from: nat, to: nat) {
    && to <= |a.blocks| && to <= |b.blocks| && (forall i :: from <= i < to ==> a.blocks[i] == b.blocks[i])
    && forall s :: s in a.sections ==> s in b.sections
  }

  lemma {:induction false} StandsStay(a: Doc, b: Doc, node: Node, id: nat, parent: Option<Id>, title: Title)
    requires Stands(a, node, id, parent, title) && Agree(a, b, id, id + Size(node))
    ensures Stands(b, node, id, parent, title)
    decreases node, 0
  {
    AllStay(a, b, node.children, |node.children|, a.blocks[id].children, id + 1, Some(id), title);
  }

  lemma {:induction false} AllStay(a: Doc, b: Doc, nodes: seq<Node>, n: nat, children: seq<Child>, from: nat, parent: Option<Id>, title: Title)
    requires n <= |nodes| && AllStand(a, nodes, n, children, from, parent, title) && Agree(a, b, from, from + SizeOf(nodes, n))
    ensures AllStand(b, nodes, n, children, from, parent, title)
    decreases nodes, n
  {
    hide Stands, SameInline;
    if n > 0 {
      AllStay(a, b, nodes, n - 1, children[..n - 1], from, parent, title);
      match children[n - 1] {
        case InlineChild(_) =>
        case BlockChild(id) => StandsStay(a, b, nodes[n - 1], id, parent, title);
      }
    }
  }

  lemma {:induction false} AllStandNext(doc: Doc, nodes: seq<Node>, n: nat, children: seq<Child>, child: Child, from: nat, parent: Option<Id>, title: Title)
    requires n < |nodes| && AllStand(doc, nodes, n, children, from, parent, title)
    requires
      match child
      case InlineChild(inline) => SameInline(nodes[n], inline)
      case BlockChild(id) => id == from + SizeOf(nodes, n) && Stands(doc, nodes[n], id, parent, title)
    ensures AllStand(doc, nodes, n + 1, children + [child], from, parent, title)
  {
    hide Stands, SameInline;
    assert (children + [child])[..n] == children;
  }

  // ---- Assembling

  /** Siblings are appended: what was there stays, and they stand after it. */
  ghost predicate Adds(doc: Doc, after: Doc, nodes: seq<Node>, n: nat, children: seq<Child>, parent: Option<Id>, title: Title)
    requires n <= |nodes|
  {
    && Agree(doc, after, 0, |doc.blocks|) && |after.blocks| == |doc.blocks| + SizeOf(nodes, n)
    && AllStand(after, nodes, n, children, |doc.blocks|, parent, title)
  }

  lemma {:induction false} SiblingsStand(doc: Doc, nodes: seq<Node>, n: nat, parent: Option<Id>, context: Context, title: Title)
    requires n <= |nodes| && BuiltSiblings(doc, nodes, n, parent, context, title).Ok?
    ensures
      var built := BuiltSiblings(doc, nodes, n, parent, context, title).value;
      Adds(doc, built.doc, nodes, n, built.out, parent, title)
    decreases nodes, n, 0
  {
    hide InlineOf, BuiltBlock, Stands, SameInline, Size;
    if n > 0 {
      SiblingsStand(doc, nodes, n - 1, parent, context, title);
      var before := BuiltSiblings(doc, nodes, n - 1, parent, context, title).value;
      var built := BuiltSiblings(doc, nodes, n, parent, context, title).value;
      match nodes[n - 1] {
        case InlineNode(_, _, _) =>
          InlineSame(nodes[n - 1]);
          InlineSize(nodes[n - 1]);
        case BlockNode(_, _, _, _, _) =>
          BlockStands(before.doc, nodes[n - 1], parent, before.context, title);
          AllStay(before.doc, built.doc, nodes, n - 1, before.out, |doc.blocks|, parent, title);
      }
      AllStandNext(built.doc, nodes, n - 1, before.out, built.out[n - 1], |doc.blocks|, parent, title);
    }
  }

  lemma {:induction false} InlineSize(node: Node)
    requires node.InlineNode?
    ensures Size(node) == 0
  {
  }

  lemma {:induction false} BlockStands(doc: Doc, node: Node, parent: Option<Id>, context: Context, title: Title)
    requires node.BlockNode? && BuiltBlock(doc, node, parent, context, title).Ok?
    ensures
      var built := BuiltBlock(doc, node, parent, context, title).value;
      && built.out == BlockChild(|doc.blocks|)
      && Agree(doc, built.doc, 0, |doc.blocks|) && |built.doc.blocks| == |doc.blocks| + Size(node)
      && Stands(built.doc, node, |doc.blocks|, parent, title)
    decreases node, |node.children|, 1
  {
    hide BuiltSiblings, Popped, Enclosing, Titles, AllStand;
    var id := |doc.blocks|;
    var opened_ := Assembly.Opened(doc, node, parent, context, title);
    var inside := Entered(context, node, id, title);
    SiblingsStand(opened_, node.children, |node.children|, Some(id), inside, title);
    var inner := BuiltSiblings(opened_, node.children, |node.children|, Some(id), inside, title).value;
    var after := BuiltBlock(doc, node, parent, context, title).value.doc;
    assert after == WithChildren(inner.doc, id, inner.out);
    AllStay(inner.doc, after, node.children, |node.children|, inner.out, id + 1, Some(id), title);
    OpenedSays(doc, node, parent, context, title);
    assert opened_.blocks[id] == inner.doc.blocks[id];
  }

  lemma {:induction false} OpenedSays(doc: Doc, node: Node, parent: Option<Id>, context: Context, title: Title)
    requires node.BlockNode?
    ensures
      var (opened_, id) := (Assembly.Opened(doc, node, parent, context, title), |doc.blocks|);
      && Agree(doc, opened_, 0, id) && |opened_.blocks| == id + 1
      && var block := opened_.blocks[id];
         && block.id == id && block.kind == node.kind && block.note == node.note && block.spans == [node.span] && block.parent == parent
         && (node.kind.Heading? ==> exists s :: s in opened_.sections && s.id == id && s.level == node.level && s.title == title(node))
  {
    hide Popped, Enclosing, Titles;
    var opened_ := Assembly.Opened(doc, node, parent, context, title);
    if node.kind.Heading? {
      assert opened_.sections[|doc.sections|] in opened_.sections;
    }
  }

  /** An assembled document is the tree it was assembled from, block by block in document order, with nothing besides. */
  lemma {:induction false} AssembledStands(nodes: seq<Node>, title: Title)
    requires Assembled(nodes, title).Ok?
    ensures
      var doc := Assembled(nodes, title).value;
      && |doc.blocks| == SizeOf(nodes, |nodes|)
      && exists roots: seq<Child> :: AllStand(doc, nodes, |nodes|, roots, 0, None, title)
  {
    hide BuiltSiblings, AllStand;
    SiblingsStand(Doc([], []), nodes, |nodes|, None, [], title);
    var built := BuiltSiblings(Doc([], []), nodes, |nodes|, None, [], title).value;
    assert AllStand(built.doc, nodes, |nodes|, built.out, 0, None, title);
  }
}
