/** From assembling to mapping: the walk from the roots of an assembled document visits every block once. */
module Reaching {
  import opened Common
  import opened Units
  import opened Documents
  import opened Assembly
  import opened Mapping
  import opened Mappers
  import Slices

  // ---- Blocks in document order, every subtree a stretch of them

  /** Whether a block and its descendants are the blocks from its own up to another. */
  ghost predicate Covers(blocks: seq<Block>, id: nat, next: nat)
    decreases if next > id then next - id else 0, 0
  {
    && id < next <= |blocks| && blocks[id].id == id
    && Tiles(blocks, blocks[id].children, |blocks[id].children|, id + 1, next)
  }

  /** Whether the blocks among the first n children, one after the other, are a stretch of blocks. */
  ghost predicate Tiles(blocks: seq<Block>, children: seq<Child>, n: nat, from: nat, to: nat)
    requires n <= |children|
    decreases if to > from then to - from else 0, n
  {
    if n == 0 then from == to
    else
      match children[n - 1]
      case InlineChild(_) => Tiles(blocks, children, n - 1, from, to)
      case BlockChild(c) => from <= c < to && Tiles(blocks, children, n - 1, from, c) && Covers(blocks, c, to)
  }

  ghost predicate SameWithin(a: seq<Block>, b: seq<Block>, from: nat, to: nat) {
    to <= |a| && to <= |b| && forall i :: from <= i < to ==> a[i] == b[i]
  }

  lemma {:induction false} TilesForward(blocks: seq<Block>, children: seq<Child>, n: nat, from: nat, to: nat)
    requires n <= |children| && Tiles(blocks, children, n, from, to)
    ensures from <= to
  {
    if n > 0 && children[n - 1].InlineChild? {
      TilesForward(blocks, children, n - 1, from, to);
    }
  }

  lemma {:induction false} CoversStay(a: seq<Block>, b: seq<Block>, id: nat, next: nat)
    requires Covers(a, id, next) && SameWithin(a, b, id, next)
    ensures Covers(b, id, next)
    decreases if next > id then next - id else 0, 0
  {
    TilesStay(a, b, a[id].children, |a[id].children|, id + 1, next);
  }

  lemma {:induction false} TilesStay(a: seq<Block>, b: seq<Block>, children: seq<Child>, n: nat, from: nat, to: nat)
    requires n <= |children| && Tiles(a, children, n, from, to) && SameWithin(a, b, from, to)
    ensures Tiles(b, children, n, from, to)
    decreases if to > from then to - from else 0, n
  {
    if n > 0 {
      match children[n - 1] {
        case InlineChild(_) => TilesStay(a, b, children, n - 1, from, to);
        case BlockChild(c) =>
          TilesStay(a, b, children, n - 1, from, c);
          CoversStay(a, b, c, to);
      }
    }
  }

  lemma {:induction false} TilesPrefix(blocks: seq<Block>, a: seq<Child>, b: seq<Child>, n: nat, from: nat, to: nat)
    requires n <= |a| && Tiles(blocks, a, n, from, to)
    ensures Tiles(blocks, a + b, n, from, to)
    decreases n
  {
    hide Covers;
    if n > 0 {
      match a[n - 1] {
        case InlineChild(_) => TilesPrefix(blocks, a, b, n - 1, from, to);
        case BlockChild(c) => TilesPrefix(blocks, a, b, n - 1, from, c);
      }
    }
  }

  /** The blocks among the first n children have a parent given; those inside them have some parent. */
  ghost predicate Parented(blocks: seq<Block>, children: seq<Child>, n: nat, from: nat, to: nat, parent: Option<Id>)
    requires n <= |children| && to <= |blocks|
  {
    if n == 0 then true
    else
      match children[n - 1]
      case InlineChild(_) => Parented(blocks, children, n - 1, from, to, parent)
      case BlockChild(c) =>
        && from <= c < to && Parented(blocks, children, n - 1, from, c, parent)
        && blocks[c].parent == parent && forall i :: c < i < to ==> blocks[i].parent.Some?
  }

  lemma {:induction false} ParentedStay(a: seq<Block>, b: seq<Block>, children: seq<Child>, more: seq<Child>, n: nat, from: nat, to: nat, parent: Option<Id>)
    requires n <= |children| && to <= |a| && Parented(a, children, n, from, to, parent) && SameWithin(a, b, from, to)
    ensures Parented(b, children + more, n, from, to, parent)
  {
    if n > 0 {
      match children[n - 1] {
        case InlineChild(_) => ParentedStay(a, b, children, more, n - 1, from, to, parent);
        case BlockChild(c) => ParentedStay(a, b, children, more, n - 1, from, c, parent);
      }
    }
  }

  lemma {:induction false} ParentedSome(blocks: seq<Block>, children: seq<Child>, n: nat, from: nat, to: nat, parent: Option<Id>)
    requires n <= |children| && to <= |blocks| && Parented(blocks, children, n, from, to, parent) && parent.Some?
    requires Tiles(blocks, children, n, from, to)
    ensures forall i :: from <= i < to ==> blocks[i].parent.Some?
  {
    hide Covers;
    if n > 0 {
      match children[n - 1] {
        case InlineChild(_) => ParentedSome(blocks, children, n - 1, from, to, parent);
        case BlockChild(c) => ParentedSome(blocks, children, n - 1, from, c, parent);
      }
    }
  }

  /** What building some siblings leaves: the earlier blocks, and new ones that tile the rest. */
  ghost predicate Laid(before: seq<Block>, after: seq<Block>, children: seq<Child>, parent: Option<Id>) {
    && |before| <= |after| && SameWithin(before, after, 0, |before|)
    && Tiles(after, children, |children|, |before|, |after|)
    && Parented(after, children, |children|, |before|, |after|, parent)
  }

  /** Building siblings appends their blocks in document order, every subtree a stretch. */
  lemma {:induction false} SiblingsLaid(doc: Doc, nodes: seq<Node>, n: nat, parent: Option<Id>, context: Context, title: Title)
    requires n <= |nodes| && BuiltSiblings(doc, nodes, n, parent, context, title).Ok?
    ensures
      var built := BuiltSiblings(doc, nodes, n, parent, context, title).value;
      Laid(doc.blocks, built.doc.blocks, built.out, parent)
    decreases nodes, n, 0
  {
    hide Covers, Laid, Entered, Assembly.Opened, InlineOf, WithChildren, BuiltBlock;
    if n == 0 {
      LaidNothing(doc.blocks, parent);
    } else {
      SiblingsLaid(doc, nodes, n - 1, parent, context, title);
      var before := BuiltSiblings(doc, nodes, n - 1, parent, context, title).value;
      match nodes[n - 1] {
        case InlineNode(_, _, _) =>
          LaidInline(doc.blocks, before.doc.blocks, before.out, parent, InlineOf(nodes[n - 1]).value);
        case BlockNode(_, _, _, _, _) =>
          BlockLaid(before.doc, nodes[n - 1], parent, before.context, title);
          LaidBlock(doc.blocks, before.doc.blocks, BuiltBlock(before.doc, nodes[n - 1], parent, before.context, title).value.doc.blocks, before.out, parent);
      }
    }
  }

  /** A block's own entry, and after it its descendants. */
  ghost predicate OneLaid(before: seq<Block>, after: seq<Block>, parent: Option<Id>) {
    && |before| < |after| && SameWithin(before, after, 0, |before|) && Covers(after, |before|, |after|)
    && after[|before|].parent == parent
    && forall i :: |before| < i < |after| ==> after[i].parent.Some?
  }

  lemma {:induction false} BlockLaid(doc: Doc, node: Node, parent: Option<Id>, context: Context, title: Title)
    requires node.BlockNode? && BuiltBlock(doc, node, parent, context, title).Ok?
    ensures
      var built := BuiltBlock(doc, node, parent, context, title).value;
      built.out == BlockChild(|doc.blocks|) && OneLaid(doc.blocks, built.doc.blocks, parent)
    decreases node, |node.children|, 1
  {
    hide Entered, BuiltSiblings, Popped, Enclosing;
    var id := |doc.blocks|;
    var opened_ := Assembly.Opened(doc, node, parent, context, title);
    var inside := Entered(context, node, id, title);
    SiblingsLaid(opened_, node.children, |node.children|, Some(id), inside, title);
    var inner := BuiltSiblings(opened_, node.children, |node.children|, Some(id), inside, title).value;
    var after := BuiltBlock(doc, node, parent, context, title).value.doc.blocks;
    ParentedSome(inner.doc.blocks, inner.out, |inner.out|, id + 1, |after|, Some(id));
    TilesStay(inner.doc.blocks, after, inner.out, |inner.out|, id + 1, |after|);
  }

  lemma {:induction false} LaidNothing(blocks: seq<Block>, parent: Option<Id>)
    ensures Laid(blocks, blocks, [], parent)
  {
  }

  lemma {:induction false} LaidInline(before: seq<Block>, after: seq<Block>, children: seq<Child>, parent: Option<Id>, inline: Inline)
    requires Laid(before, after, children, parent)
    ensures Laid(before, after, children + [InlineChild(inline)], parent)
  {
    hide Covers;
    ParentedStay(after, after, children, [InlineChild(inline)], |children|, |before|, |after|, parent);
    TilesPrefix(after, children, [InlineChild(inline)], |children|, |before|, |after|);
  }

  lemma {:induction false} LaidBlock(before: seq<Block>, middle: seq<Block>, after: seq<Block>, children: seq<Child>, parent: Option<Id>)
    requires Laid(before, middle, children, parent) && OneLaid(middle, after, parent)
    ensures Laid(before, after, children + [BlockChild(|middle|)], parent)
  {
    hide Covers;
    ParentedStay(middle, after, children, [BlockChild(|middle|)], |children|, |before|, |middle|, parent);
    TilesStay(middle, after, children, |children|, |before|, |middle|);
    TilesPrefix(after, children, [BlockChild(|middle|)], |children|, |before|, |middle|);
  }

  // ---- The walk over a stretch

  /** Blocks by identifier, which is their place. */
  ghost predicate Placed(index: map<Id, Block>, blocks: seq<Block>) {
    && (forall id: Id :: id in index <==> id < |blocks|)
    && forall id :: id in index ==> index[id] == blocks[id] && index[id].id == id
  }

  lemma {:induction false} PlacedById(blocks: seq<Block>, n: nat)
    requires n <= |blocks| && forall i :: 0 <= i < n ==> blocks[i].id == i
    ensures Placed(ById(blocks, n), blocks[..n])
  {
    if n > 0 {
      PlacedById(blocks, n - 1);
      var (before, index) := (ById(blocks, n - 1), ById(blocks, n));
      assert index == before[(n - 1) as nat := blocks[n - 1]];
      forall id: Id ensures id in index <==> id < n {
        assert id in before <==> id < |blocks[..n - 1]|;
      }
    }
  }

  function Stretch(from: nat, to: nat): (r: set<Id>)
    ensures forall i: nat :: i in r <==> from <= i < to
  {
    if from < to then Stretch(from, to - 1) + {to - 1} else {}
  }

  /** Blocks that are not mapped hold no blocks: what the walk does not enter is a leaf. */
  ghost predicate Leafy(blocks: seq<Block>) {
    forall i, k :: 0 <= i < |blocks| && Unmapped(blocks[i]) && 0 <= k < |blocks[i].children| ==> blocks[i].children[k].InlineChild?
  }

  /** Whether what a block shows of itself has a marker where it needs one, and spans it comes from. */
  ghost predicate Shows(source: Source, index: map<Id, Block>, block: Block) {
    && ContextOf(index, block).Ok?
    && (ContextOf(index, block).value.Some? && ContextOf(index, block).value.value.1 != "" ==>
          block.spans != [] && forall i :: 0 <= i < |block.spans| ==> block.spans[i].Valid(source.markdown))
  }

  ghost predicate Draws(source: Source, block: Block, k: nat)
    requires k < |block.children|
  {
    block.children[k].InlineChild? ==> Draw(source, block.id, block.children[k].inline, Blank).Ok?
  }

  /** Whether a block's own content can be mapped, whatever stands around it. */
  ghost predicate Content(source: Source, index: map<Id, Block>, block: Block) {
    Unmapped(block) || (Shows(source, index, block) && forall k :: 0 <= k < |block.children| ==> Draws(source, block, k))
  }

  ghost predicate AllContent(source: Source, index: map<Id, Block>, from: nat, to: nat) {
    forall id :: from <= id < to && id in index ==> Content(source, index, index[id])
  }

  lemma {:induction false} InlineAdds(source: Source, units: seq<SourceUnit>, block: Id, k: nat, inline: Inline)
    ensures InlineAdded(source, units, block, k, inline).Ok? <==> Draw(source, block, inline, Blank).Ok?
  {
    hide Draw, RenderInline, Slices.Maps, Sound;
    if Draw(source, block, inline, Blank).Ok? {
      DrawnUnit(source, block, k, inline);
      SoundMaps(UnitOf(block, InlineField([k]), true, Draw(source, block, inline, Blank).value), source.markdown);
    }
  }

  lemma {:induction false} ContextAdds(source: Source, units: seq<SourceUnit>, block: Block, field: UnitField, text: string)
    ensures ContextAdded(source.markdown, units, block, field, text).Ok?
       <==> text == "" || (block.spans != [] && forall i :: 0 <= i < |block.spans| ==> block.spans[i].Valid(source.markdown))
  {
    hide Slices.Maps, Sound;
    var origins := SpanOrigins(block);
    var drawn := Appended(source.markdown, Blank, text, origins);
    assert forall i :: 0 <= i < |block.spans| ==> origins[i] in origins && origins[i].span == block.spans[i];
    if drawn.Ok? {
      AppendGrows(source.markdown, Blank, text, origins);
      if drawn.value.text != "" {
        GrownSound(source.markdown, drawn.value, block.id, field, false);
      }
      SoundMaps(UnitOf(block.id, field, false, drawn.value), source.markdown);
    }
  }

  lemma {:induction false} BeginsExactly(source: Source, index: map<Id, Block>, block: Block, units: seq<SourceUnit>)
    ensures Begun(source, index, block, units).Ok? <==> Shows(source, index, block)
  {
    hide ContextAdded, MarkerOf;
    var context := ContextOf(index, block);
    if context.Ok? && context.value.Some? {
      ContextAdds(source, units, block, context.value.value.0, context.value.value.1);
    }
  }

  /** A block's walk goes through exactly when its stretch has content that can be mapped, and visits that stretch. */
  lemma {:induction false} WalkCovers(source: Source, index: map<Id, Block>, id: nat, next: nat, w: Walking)
    requires Placed(index, source.blocks) && Leafy(source.blocks) && Covers(source.blocks, id, next)
    requires w.visited !! Stretch(id, next)
    ensures
      var walked := WalkedBlock(source, index, id, w);
      && (walked.Ok? <==> AllContent(source, index, id, next))
      && (walked.Ok? ==> walked.value.visited == w.visited + Stretch(id, next))
    decreases if next > id then next - id else 0, 0
  {
    hide WalkedBlock, WalkedChildren, Begun, Shows, Draws, Leafy;
    WalkGoes(source, index, id, w);
    var block := source.blocks[id];
    assert id in Stretch(id, next);
    if Unmapped(block) {
      LeafEnds(source.blocks, id, next);
    } else {
      BeginsExactly(source, index, block, w.units);
      if Begun(source, index, block, w.units).Ok? {
        WalkTiles(source, index, id, |block.children|, id + 1, next, Walking(w.visited + {id}, Begun(source, index, block, w.units).value));
      }
    }
  }

  lemma {:induction false} LeafEnds(blocks: seq<Block>, id: nat, next: nat)
    requires Covers(blocks, id, next) && Leafy(blocks) && Unmapped(blocks[id])
    ensures next == id + 1
  {
    NoBlocks(blocks, blocks[id].children, |blocks[id].children|, id + 1, next);
  }

  lemma {:induction false} NoBlocks(blocks: seq<Block>, children: seq<Child>, n: nat, from: nat, to: nat)
    requires n <= |children| && Tiles(blocks, children, n, from, to) && forall k :: 0 <= k < n ==> children[k].InlineChild?
    ensures from == to
  {
    if n > 0 {
      NoBlocks(blocks, children, n - 1, from, to);
    }
  }

  ghost predicate FirstDraw(source: Source, block: Block, n: nat)
    requires n <= |block.children|
  {
    forall k :: 0 <= k < n ==> Draws(source, block, k)
  }

  lemma {:induction false} WalkTiles(source: Source, index: map<Id, Block>, id: nat, n: nat, from: nat, to: nat, w: Walking)
    requires Placed(index, source.blocks) && Leafy(source.blocks) && id < |source.blocks|
    requires n <= |source.blocks[id].children| && Tiles(source.blocks, source.blocks[id].children, n, from, to)
    requires w.visited !! Stretch(from, to) && to <= |source.blocks|
    ensures
      var walked := WalkedChildren(source, index, source.blocks[id], n, w);
      && (walked.Ok? <==> AllContent(source, index, from, to) && FirstDraw(source, source.blocks[id], n))
      && (walked.Ok? ==> walked.value.visited == w.visited + Stretch(from, to))
    decreases if to > from then to - from else 0, n
  {
    hide WalkedBlock, WalkedChildren, InlineAdded, Content, Leafy, Draw;
    var block := source.blocks[id];
    if n == 0 {
      WalkStarts(source, index, block, w);
    } else {
      TilesForward(source.blocks, block.children, n, from, to);
      var mid := if block.children[n - 1].InlineChild? then to else block.children[n - 1].id;
      WalkTiles(source, index, id, n - 1, from, mid, w);
      var before := WalkedChildren(source, index, block, n - 1, w);
      if before.Err? {
        ChildrenStop(source, index, block, n - 1, n, w);
      } else {
        ChildrenGo(source, index, block, n - 1, w, before.value);
        match block.children[n - 1] {
          case InlineChild(inline) =>
            InlineAdds(source, before.value.units, block.id, n - 1, inline);
            assert FirstDraw(source, block, n) <==> FirstDraw(source, block, n - 1) && Draws(source, block, n - 1);
          case BlockChild(child) => WalkCovers(source, index, child, to, before.value);
        }
      }
    }
  }

  // ---- From the roots

  lemma {:induction false} RootsSkip(source: Source, i: nat, j: nat)
    requires i <= j <= |source.blocks| && forall k :: i <= k < j ==> source.blocks[k].parent.Some?
    ensures WalkedRoots(source, j) == WalkedRoots(source, i)
  {
    hide WalkedBlock;
    if i < j {
      RootsSkip(source, i, j - 1);
    }
  }

  /** The walk from the roots, up to any of them. */
  lemma {:induction false} RootsCover(source: Source, roots: seq<Child>, n: nat, to: nat)
    requires Placed(ById(source.blocks, |source.blocks|), source.blocks) && Leafy(source.blocks)
    requires n <= |roots| && to <= |source.blocks|
    requires Tiles(source.blocks, roots, n, 0, to) && Parented(source.blocks, roots, n, 0, to, None)
    ensures
      var (index, walked) := (ById(source.blocks, |source.blocks|), WalkedRoots(source, to));
      && (walked.Ok? <==> AllContent(source, index, 0, to))
      && (walked.Ok? ==> walked.value.visited == Stretch(0, to))
  {
    hide WalkedBlock, Content, Leafy, Covers;
    if n > 0 {
      match roots[n - 1] {
        case InlineChild(_) => RootsCover(source, roots, n - 1, to);
        case BlockChild(c) =>
          RootsCover(source, roots, n - 1, c);
          var (index, before) := (ById(source.blocks, |source.blocks|), WalkedRoots(source, c));
          RootsSkip(source, c + 1, to);
          if before.Ok? {
            WalkCovers(source, index, c, to, before.value);
          }
      }
    }
  }

  /**
   * A document that assembling made is mapped exactly when every block's own content can be: its
   * blocks hang together so that the walk from the roots visits each of them once.
   */
  lemma {:induction false} AssembledMapsExactly(nodes: seq<Node>, title: Title, source: Source)
    requires Assembled(nodes, title).Ok? && source.blocks == Assembled(nodes, title).value.blocks && Leafy(source.blocks)
    ensures
      MappedUnits(source).Ok? <==>
        forall i :: 0 <= i < |source.blocks| ==> Content(source, ById(source.blocks, |source.blocks|), source.blocks[i])
  {
    hide BuiltSiblings, Tiles, Parented, WalkedRoots, Content, Leafy, Placed;
    SiblingsLaid(Doc([], []), nodes, |nodes|, None, [], title);
    var roots := BuiltSiblings(Doc([], []), nodes, |nodes|, None, [], title).value.out;
    TiledIds(source.blocks, roots, |roots|, 0, |source.blocks|);
    PlacedById(source.blocks, |source.blocks|);
    assert source.blocks[..|source.blocks|] == source.blocks;
    RootsCover(source, roots, |roots|, |source.blocks|);
    StretchSize(|source.blocks|);
    ContentOfAll(source);
  }

  lemma {:induction false} ContentOfAll(source: Source)
    requires Placed(ById(source.blocks, |source.blocks|), source.blocks)
    ensures
      var index := ById(source.blocks, |source.blocks|);
      AllContent(source, index, 0, |source.blocks|) <==> forall i :: 0 <= i < |source.blocks| ==> Content(source, index, source.blocks[i])
  {
    hide Content;
  }

  lemma {:induction false} StretchSize(n: nat)
    ensures |Stretch(0, n)| == n
  {
    if n > 0 {
      StretchSize(n - 1);
    }
  }

  lemma {:induction false} TiledIds(blocks: seq<Block>, children: seq<Child>, n: nat, from: nat, to: nat)
    requires n <= |children| && Tiles(blocks, children, n, from, to) && to <= |blocks|
    ensures forall i :: from <= i < to ==> blocks[i].id == i
    decreases if to > from then to - from else 0, n
  {
    if n > 0 {
      match children[n - 1] {
        case InlineChild(_) => TiledIds(blocks, children, n - 1, from, to);
        case BlockChild(c) =>
          TiledIds(blocks, children, n - 1, from, c);
          TiledIds(blocks, blocks[c].children, |blocks[c].children|, c + 1, to);
      }
    }
  }
}
