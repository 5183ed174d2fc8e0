/** How an assembled document's blocks hang together: each is a child of its parent, and siblings without headings share a section. */
module Hanging {
  import opened Common
  import opened Units
  import opened Documents
  import opened Assembly
  import opened Reaching

  /** Some children lie within a stretch of blocks, and have a parent given. */
  ghost predicate ChildrenOf(blocks: seq<Block>, children: seq<Child>, parent: Option<Id>, from: nat, to: nat) {
    to <= |blocks| && forall c: Id :: BlockChild(c) in children ==> from <= c < to && blocks[c].parent == parent
  }

  ghost predicate NoHeading(blocks: seq<Block>, children: seq<Child>) {
    forall c: Id :: BlockChild(c) in children ==> c < |blocks| && !blocks[c].kind.Heading?
  }

  ghost predicate AllSection(blocks: seq<Block>, children: seq<Child>, section: Option<Id>) {
    forall c: Id :: BlockChild(c) in children ==> c < |blocks| && blocks[c].section == section
  }

  /** Siblings of which none is a heading lie in one section. */
  ghost predicate OneSection(blocks: seq<Block>, children: seq<Child>) {
    NoHeading(blocks, children) ==> exists section :: AllSection(blocks, children, section)
  }

  /** A block whose children come after it, know it, and share a section unless one is a heading. */
  ghost predicate Hung(blocks: seq<Block>, i: nat)
    requires i < |blocks|
  {
    ChildrenOf(blocks, blocks[i].children, Some(i), i + 1, |blocks|) && OneSection(blocks, blocks[i].children)
  }

  /** A block that is a child of an earlier one from a place on. */
  ghost predicate Inside(blocks: seq<Block>, i: nat, from: nat)
    requires i < |blocks|
  {
    exists p: nat :: HangsOn(blocks, i, from, p)
  }

  ghost predicate HangsOn(blocks: seq<Block>, i: nat, from: nat, p: nat)
    requires i < |blocks|
  {
    from <= p < i && blocks[i].parent == Some(p) && BlockChild(i) in blocks[p].children
  }

  /** What building siblings leaves: new blocks, each one of the siblings or inside one. */
  ghost predicate AllHung(before: seq<Block>, after: seq<Block>, out: seq<Child>, parent: Option<Id>) {
    && |before| <= |after| && SameWithin(before, after, 0, |before|)
    && (forall i: nat :: |before| <= i < |after| ==> Hung(after, i))
    && (forall i: nat :: |before| <= i < |after| ==> (ParentIs(after, i, parent) && BlockChild(i) in out) || Inside(after, i, |before|))
    && ChildrenOf(after, out, parent, |before|, |after|)
  }

  ghost predicate ParentIs(blocks: seq<Block>, i: nat, parent: Option<Id>)
    requires i < |blocks|
  {
    blocks[i].parent == parent
  }

  /** Siblings without headings leave the scope as it was, and lie in its section. */
  ghost predicate Level(blocks: seq<Block>, out: seq<Child>, context: Context, inside: Context) {
    NoHeading(blocks, out) ==> inside == context && AllSection(blocks, out, LastId(context))
  }

  /** One block built: its own entry, and the blocks inside it. */
  ghost predicate OneHung(before: seq<Block>, after: seq<Block>, node: Node, parent: Option<Id>, context: Context, inside: Context) {
    && |before| < |after| && SameWithin(before, after, 0, |before|)
    && after[|before|].parent == parent && node.BlockNode? && after[|before|].kind == node.kind
    && (!node.kind.Heading? ==> inside == context && after[|before|].section == LastId(context))
    && (forall i: nat :: |before| <= i < |after| ==> Hung(after, i))
    && forall i: nat :: |before| < i < |after| ==> Inside(after, i, |before|)
  }

  lemma {:induction false} NothingHung(blocks: seq<Block>, parent: Option<Id>, context: Context)
    ensures AllHung(blocks, blocks, [], parent) && Level(blocks, [], context, context)
  {
  }

  lemma {:induction false} InlineHung(before: seq<Block>, after: seq<Block>, out: seq<Child>, parent: Option<Id>, context: Context, inside: Context, inline: Inline)
    requires AllHung(before, after, out, parent) && Level(after, out, context, inside)
    ensures AllHung(before, after, out + [InlineChild(inline)], parent) && Level(after, out + [InlineChild(inline)], context, inside)
  {
    hide Hung, Inside;
    var all := out + [InlineChild(inline)];
    forall c: Id ensures BlockChild(c) in all <==> BlockChild(c) in out {
      InlineLast(out, inline, c);
    }
  }

  lemma {:induction false} InlineLast(out: seq<Child>, inline: Inline, c: Id)
    ensures BlockChild(c) in out + [InlineChild(inline)] <==> BlockChild(c) in out
  {
  }

  /** Blocks that follow leave what hangs before them. */
  lemma {:induction false} StaysHung(a: seq<Block>, b: seq<Block>, i: nat)
    requires i < |a| <= |b| && SameWithin(a, b, 0, |a|) && Hung(a, i)
    ensures Hung(b, i)
  {
    var children := a[i].children;
    assert b[i] == a[i];
    assert forall c: Id :: BlockChild(c) in children ==> c < |a| && b[c] == a[c];
    if NoHeading(b, children) {
      assert NoHeading(a, children);
      var section :| AllSection(a, children, section);
      assert AllSection(b, children, section);
    }
  }

  lemma {:induction false} StaysWithin(a: seq<Block>, b: seq<Block>, i: nat, from: nat, lower: nat)
    requires i < |a| <= |b| && SameWithin(a, b, 0, |a|) && Inside(a, i, from) && lower <= from
    ensures Inside(b, i, lower)
  {
    var p: nat :| HangsOn(a, i, from, p);
    assert HangsOn(b, i, lower, p);
  }

  /** One more sibling block. */
  lemma {:induction false} BlockHangs(before: seq<Block>, middle: seq<Block>, after: seq<Block>, out: seq<Child>, node: Node, parent: Option<Id>,
                                      context: Context, inside: Context, next: Context)
    requires AllHung(before, middle, out, parent) && Level(middle, out, context, inside)
    requires OneHung(middle, after, node, parent, inside, next)
    ensures AllHung(before, after, out + [BlockChild(|middle|)], parent) && Level(after, out + [BlockChild(|middle|)], context, next)
  {
    hide Hung, Inside;
    var (id, all) := (|middle|, out + [BlockChild(|middle|)]);
    forall c: Id ensures BlockChild(c) in all <==> BlockChild(c) in out || c == id {
      if c == id {
        assert all[|out|] == BlockChild(id);
      }
    }
    forall i: nat | |before| <= i < |after|
      ensures Hung(after, i)
      ensures (ParentIs(after, i, parent) && BlockChild(i) in all) || Inside(after, i, |before|)
    {
      if i < id {
        StaysHung(middle, after, i);
        if Inside(middle, i, |before|) {
          StaysWithin(middle, after, i, |before|, |before|);
        }
      } else if i > id {
        StaysWithin(after, after, i, id, |before|);
      }
    }
    if NoHeading(after, all) {
      assert forall c: Id :: BlockChild(c) in out ==> BlockChild(c) in all && after[c] == middle[c];
      assert NoHeading(middle, out);
      assert BlockChild(id) in all;
      assert AllSection(after, all, LastId(context));
    }
  }

  lemma {:induction false} SiblingsHung(doc: Doc, nodes: seq<Node>, n: nat, parent: Option<Id>, context: Context, title: Title)
    requires n <= |nodes| && BuiltSiblings(doc, nodes, n, parent, context, title).Ok?
    ensures
      var built := BuiltSiblings(doc, nodes, n, parent, context, title).value;
      AllHung(doc.blocks, built.doc.blocks, built.out, parent) && Level(built.doc.blocks, built.out, context, built.context)
    decreases nodes, n, 0
  {
    hide AllHung, Level, OneHung, Entered, Assembly.Opened, InlineOf, WithChildren, BuiltBlock;
    if n == 0 {
      NothingHung(doc.blocks, parent, context);
    } else {
      SiblingsHung(doc, nodes, n - 1, parent, context, title);
      var before := BuiltSiblings(doc, nodes, n - 1, parent, context, title).value;
      match nodes[n - 1] {
        case InlineNode(_, _, _) =>
          InlineHung(doc.blocks, before.doc.blocks, before.out, parent, context, before.context, InlineOf(nodes[n - 1]).value);
        case BlockNode(_, _, _, _, _) =>
          OneIsHung(before.doc, nodes[n - 1], parent, before.context, title);
          var built := BuiltBlock(before.doc, nodes[n - 1], parent, before.context, title).value;
          BlockHangs(doc.blocks, before.doc.blocks, built.doc.blocks, before.out, nodes[n - 1], parent, context, before.context, built.context);
      }
    }
  }

  lemma {:induction false} OneIsHung(doc: Doc, node: Node, parent: Option<Id>, context: Context, title: Title)
    requires node.BlockNode? && BuiltBlock(doc, node, parent, context, title).Ok?
    ensures
      var built := BuiltBlock(doc, node, parent, context, title).value;
      built.out == BlockChild(|doc.blocks|) && OneHung(doc.blocks, built.doc.blocks, node, parent, context, built.context)
    decreases node, |node.children|, 1
  {
    hide AllHung, Level, BuiltSiblings, Popped, Titles, OneHung;
    var id := |doc.blocks|;
    var start := Assembly.Opened(doc, node, parent, context, title);
    var inside := Entered(context, node, id, title);
    SiblingsHung(start, node.children, |node.children|, Some(id), inside, title);
    var inner := BuiltSiblings(start, node.children, |node.children|, Some(id), inside, title).value;
    ChildrenSet(doc.blocks, start.blocks, inner.doc.blocks, inner.out, inner.context, node, parent, context, inside);
  }

  /** A block's children filled in once they are built. */
  lemma {:induction false} ChildrenSet(before: seq<Block>, start: seq<Block>, inner: seq<Block>, out: seq<Child>, end: Context, node: Node, parent: Option<Id>,
                                       context: Context, inside: Context)
    requires |start| == |before| + 1 && SameWithin(before, start, 0, |before|) && node.BlockNode?
    requires start[|before|].parent == parent && start[|before|].kind == node.kind
    requires !node.kind.Heading? ==> inside == context && start[|before|].section == LastId(context)
    requires AllHung(start, inner, out, Some(|before|)) && Level(inner, out, inside, end)
    ensures OneHung(before, inner[|before| := inner[|before|].(children := out)], node, parent, context, inside)
  {
    hide Hung, Inside;
    var id := |before|;
    var after := inner[id := inner[id].(children := out)];
    assert inner[id] == start[id];
    forall i: nat | id < i < |after| ensures Hung(after, i) && Inside(after, i, id) {
      SetHung(inner, after, i, id);
      if Inside(inner, i, id + 1) {
        SetWithin(inner, after, i, id);
      } else {
        SetUnder(inner, after, out, i, id);
      }
    }
    OwnHung(inner, after, out, id, inside, end);
  }

  lemma {:induction false} SetHung(inner: seq<Block>, after: seq<Block>, i: nat, id: nat)
    requires id < i < |inner| == |after| && Hung(inner, i) && forall k :: id < k < |inner| ==> after[k] == inner[k]
    ensures Hung(after, i)
  {
    var children := inner[i].children;
    assert forall c: Id :: BlockChild(c) in children ==> i < c < |inner| && after[c] == inner[c];
    if NoHeading(after, children) {
      assert NoHeading(inner, children);
      var section :| AllSection(inner, children, section);
      assert AllSection(after, children, section);
    }
  }

  lemma {:induction false} SetWithin(inner: seq<Block>, after: seq<Block>, i: nat, id: nat)
    requires id < i < |inner| == |after| && Inside(inner, i, id + 1) && forall k :: id < k < |inner| ==> after[k] == inner[k]
    ensures Inside(after, i, id)
  {
    var p: nat :| HangsOn(inner, i, id + 1, p);
    assert HangsOn(after, i, id, p);
  }

  lemma {:induction false} SetUnder(inner: seq<Block>, after: seq<Block>, out: seq<Child>, i: nat, id: nat)
    requires id < i < |inner| == |after| && inner[i].parent == Some(id) && BlockChild(i) in out
    requires after[i] == inner[i] && after[id].children == out
    ensures Inside(after, i, id)
  {
    assert HangsOn(after, i, id, id);
  }

  lemma {:induction false} OwnHung(inner: seq<Block>, after: seq<Block>, out: seq<Child>, id: nat, inside: Context, end: Context)
    requires id < |inner| && after == inner[id := inner[id].(children := out)]
    requires ChildrenOf(inner, out, Some(id), id + 1, |inner|) && Level(inner, out, inside, end)
    ensures Hung(after, id)
  {
    assert forall c: Id :: BlockChild(c) in out ==> after[c] == inner[c];
    if NoHeading(after, out) {
      assert NoHeading(inner, out);
      assert AllSection(after, out, LastId(inside));
    }
  }

  // ---- The whole document

  /** Every block hangs well: it knows its parent, which lists it, and comes after it. */
  ghost predicate Wired(blocks: seq<Block>) {
    && (forall i: nat :: i < |blocks| ==> blocks[i].id == i && Hung(blocks, i))
    && forall i: nat :: i < |blocks| && blocks[i].parent.Some? ==> Inside(blocks, i, 0)
  }

  /** The blocks of an assembled document hang together. */
  lemma {:induction false} AssembledWired(nodes: seq<Node>, title: Title) returns (roots: seq<Child>)
    requires Assembled(nodes, title).Ok?
    ensures
      var blocks := Assembled(nodes, title).value.blocks;
      && Wired(blocks) && Tiles(blocks, roots, |roots|, 0, |blocks|) && Parented(blocks, roots, |roots|, 0, |blocks|, None)
  {
    hide BuiltSiblings, Hung, Inside, Tiles, Parented;
    SiblingsHung(Doc([], []), nodes, |nodes|, None, [], title);
    SiblingsLaid(Doc([], []), nodes, |nodes|, None, [], title);
    var built := BuiltSiblings(Doc([], []), nodes, |nodes|, None, [], title).value;
    roots := built.out;
    TiledIds(built.doc.blocks, roots, |roots|, 0, |built.doc.blocks|);
  }
}
