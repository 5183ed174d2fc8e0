/** The roles of a document's characters, read off its blocks and the trees of their inline content. */
module Roles {
  import opened Common
  import opened Units
  import opened Documents
  import opened Accounting

  // ---- What lies over a character

  predicate Over(span: Span, markdown: string, p: nat) {
    span.start <= p < span.end <= |markdown|
  }

  /** Whether an inline node is another, or a descendant of it. */
  ghost predicate Inside(inline: Inline, top: Inline)
    decreases top
  {
    inline == top || exists k :: 0 <= k < |top.children| && Inside(inline, top.children[k])
  }

  ghost predicate Holds(block: Block, inline: Inline) {
    exists k :: 0 <= k < |block.children| && block.children[k].InlineChild? && Inside(inline, block.children[k].inline)
  }

  /** The layers of a document, the lowest first; empty math lies level with what has content. */
  datatype Layer = Syntax | Reference | Content | Hollow | Markup | Definition | Opaque

  function Height(layer: Layer): nat {
    match layer
    case Syntax => 0
    case Reference => 1
    case Content => 2
    case Hollow => 2
    case Markup => 3
    case Definition => 4
    case Opaque => 5
  }

  function RoleOf(layer: Layer): Role {
    match layer
    case Syntax => StructuralSyntax
    case Reference => MetadataOrReference
    case Content => ParsedContent
    case Hollow => StructuralSyntax
    case Markup => Unsupported
    case Definition => MetadataOrReference
    case Opaque => Unsupported
  }

  predicate Refers(inline: Inline) {
    inline.content.Link? || inline.content.Image?
  }

  predicate EmptyMath(inline: Inline) {
    inline.content.Math? && inline.content.text == ""
  }

  /** A leaf that holds content: no link, image, HTML or empty math. */
  predicate ContentLeaf(inline: Inline) {
    inline.children == [] && !Refers(inline) && !inline.content.InlineHtml? && !EmptyMath(inline)
  }

  predicate InlineLayer(inline: Inline, layer: Layer) {
    match layer
    case Reference => Refers(inline)
    case Content => ContentLeaf(inline)
    case Hollow => EmptyMath(inline)
    case Markup => inline.content.InlineHtml?
    case _ => false
  }

  predicate IsOpaque(block: Block) {
    block.kind.Raw? || block.kind.Html?
  }

  predicate Defines(block: Block) {
    block.kind.Metadata? || block.kind.ReferenceDefinition?
  }

  predicate BlockLayer(block: Block, layer: Layer) {
    match layer
    case Opaque => IsOpaque(block)
    case Definition => Defines(block)
    case Syntax => !IsOpaque(block) && !Defines(block)
    case _ => false
  }

  /** Whether a block has a stretch of source in a layer: one of its own spans, or that of inline content it holds. */
  ghost predicate Has(block: Block, layer: Layer, span: Span) {
    || (BlockLayer(block, layer) && span in block.spans)
    || exists inline :: Holds(block, inline) && InlineLayer(inline, layer) && inline.span == span
  }

  /** Whether one stretch over a character prevails: the higher layer, then the narrower stretch, then the later block. */
  predicate Prevails(layer: Layer, span: Span, b: nat, other: Layer, wide: Span, c: nat) {
    || Height(layer) > Height(other)
    || (&& Height(layer) == Height(other)
        && (span.end - span.start < wide.end - wide.start || (span.end - span.start == wide.end - wide.start && c <= b)))
  }

  /** The stretch that prevails over a character. */
  ghost predicate Decides(blocks: seq<Block>, markdown: string, p: nat, b: nat, layer: Layer, span: Span) {
    && b < |blocks| && Has(blocks[b], layer, span) && Over(span, markdown, p)
    && forall c: nat, other: Layer, wide: Span :: c < |blocks| && Has(blocks[c], other, wide) && Over(wide, markdown, p) ==>
         Prevails(layer, span, b, other, wide, c)
  }

  ghost predicate Bare(blocks: seq<Block>, markdown: string, p: nat) {
    forall b: nat, layer: Layer, span: Span :: b < |blocks| && Has(blocks[b], layer, span) ==> !Over(span, markdown, p)
  }

  // ---- The claims are the stretches

  function Stated(span: Span, layer: Layer, owner: Id): Claim {
    Claim(span, RoleOf(layer), owner, Height(layer))
  }

  ghost predicate InlineStates(inline: Inline, owner: Id, claim: Claim) {
    exists layer: Layer :: InlineLayer(inline, layer) && claim == Stated(inline.span, layer, owner)
  }

  lemma {:induction false} ClassifiedStates(inline: Inline, owner: Id, claim: Claim)
    ensures
      InlineStates(inline, owner, claim)
      <==> Classified(inline).Some? && claim == Claim(inline.span, Classified(inline).value.0, owner, Classified(inline).value.1)
  {
    if Classified(inline).Some? && claim == Claim(inline.span, Classified(inline).value.0, owner, Classified(inline).value.1) {
      var layer :=
        if Refers(inline) then Reference
        else if inline.content.InlineHtml? then Markup
        else if EmptyMath(inline) then Hollow
        else Content;
      assert InlineLayer(inline, layer) && claim == Stated(inline.span, layer, owner);
    }
  }

  ghost predicate InlineSays(top: Inline, owner: Id, claim: Claim) {
    exists inline :: Inside(inline, top) && InlineStates(inline, owner, claim)
  }

  lemma {:induction false} InlineClaimed(top: Inline, owner: Id, claim: Claim)
    ensures claim in InlineClaims(top, owner) <==> InlineSays(top, owner, claim)
    decreases top, 1, 0
  {
    hide InlineStates, Classified;
    ClassifiedStates(top, owner, claim);
    NestedClaimed(top, owner, |top.children|, claim);
    assert Inside(top, top);
    if InlineSays(top, owner, claim) && !InlineStates(top, owner, claim) {
      var inline :| Inside(inline, top) && InlineStates(inline, owner, claim);
      var k :| 0 <= k < |top.children| && Inside(inline, top.children[k]);
      assert InlineSays(top.children[k], owner, claim);
    }
    if k: nat :| k < |top.children| && InlineSays(top.children[k], owner, claim) {
      var inline :| Inside(inline, top.children[k]) && InlineStates(inline, owner, claim);
      assert Inside(inline, top);
    }
  }

  lemma {:induction false} NestedClaimed(top: Inline, owner: Id, n: nat, claim: Claim)
    requires n <= |top.children|
    ensures claim in NestedClaims(top, owner, n) <==> exists k: nat :: k < n && InlineSays(top.children[k], owner, claim)
    decreases top, 0, n
  {
    hide InlineSays;
    if n > 0 {
      NestedClaimed(top, owner, n - 1, claim);
      InlineClaimed(top.children[n - 1], owner, claim);
    }
  }

  lemma {:induction false} SpansClaimed(block: Block, n: nat, claim: Claim)
    requires n <= |block.spans|
    ensures
      claim in SpanClaims(block, n)
      <==> exists layer: Layer :: BlockLayer(block, layer) && claim.span in block.spans[..n] && claim == Stated(claim.span, layer, block.id)
  {
    if n > 0 {
      SpansClaimed(block, n - 1, claim);
      assert block.spans[..n] == block.spans[..n - 1] + [block.spans[n - 1]];
      var layer := if IsOpaque(block) then Opaque else if Defines(block) then Definition else Syntax;
      assert forall other :: BlockLayer(block, other) <==> other == layer;
      assert BlockRole(block.kind) == (RoleOf(layer), Height(layer));
      if claim == Stated(block.spans[n - 1], layer, block.id) {
        assert claim.span == block.spans[n - 1];
      }
    }
  }

  lemma {:induction false} ChildrenClaimed(block: Block, n: nat, claim: Claim)
    requires n <= |block.children|
    ensures
      claim in ChildClaims(block, n)
      <==> exists k: nat :: k < n && block.children[k].InlineChild? && InlineSays(block.children[k].inline, block.id, claim)
  {
    hide InlineSays, InlineClaims;
    if n > 0 {
      ChildrenClaimed(block, n - 1, claim);
      if block.children[n - 1].InlineChild? {
        InlineClaimed(block.children[n - 1].inline, block.id, claim);
      }
    }
  }

  function OwnClaims(block: Block): seq<Claim> {
    SpanClaims(block, |block.spans|) + ChildClaims(block, |block.children|)
  }

  /** A block's claims are exactly the stretches it has, each with its layer's role and height. */
  lemma {:induction false} OwnClaimed(block: Block, claim: Claim)
    ensures
      claim in OwnClaims(block)
      <==> exists layer: Layer :: Has(block, layer, claim.span) && claim == Stated(claim.span, layer, block.id)
  {
    hide SpanClaims, ChildClaims, InlineLayer, BlockLayer, Stated, Inside;
    SpansClaimed(block, |block.spans|, claim);
    ChildrenClaimed(block, |block.children|, claim);
    assert block.spans[..|block.spans|] == block.spans;
    if claim in ChildClaims(block, |block.children|) {
      var k: nat :| k < |block.children| && block.children[k].InlineChild? && InlineSays(block.children[k].inline, block.id, claim);
      var inline :| Inside(inline, block.children[k].inline) && InlineStates(inline, block.id, claim);
      var layer: Layer :| InlineLayer(inline, layer) && claim == Stated(inline.span, layer, block.id);
      StatedSpan(inline.span, layer, block.id);
      assert Holds(block, inline);
      assert Has(block, layer, claim.span);
    }
    if layer: Layer :| Has(block, layer, claim.span) && claim == Stated(claim.span, layer, block.id) {
      if !(BlockLayer(block, layer) && claim.span in block.spans) {
        var inline :| Holds(block, inline) && InlineLayer(inline, layer) && inline.span == claim.span;
        var k :| 0 <= k < |block.children| && block.children[k].InlineChild? && Inside(inline, block.children[k].inline);
        assert InlineStates(inline, block.id, claim);
        assert InlineSays(block.children[k].inline, block.id, claim);
      }
    }
  }

  lemma {:induction false} StatedSpan(span: Span, layer: Layer, owner: Id)
    ensures Stated(span, layer, owner).span == span
  {
  }

  lemma {:induction false} ClaimsPrefix(blocks: seq<Block>, b: nat, n: nat)
    requires b < n <= |blocks|
    ensures Claims(blocks, b) + OwnClaims(blocks[b]) == Claims(blocks, b + 1)
    ensures Claims(blocks, b + 1) <= Claims(blocks, n)
    decreases n
  {
    hide SpanClaims, ChildClaims;
    ClaimsNext(blocks, b);
    if b + 1 < n {
      ClaimsPrefix(blocks, b, n - 1);
      ClaimsNext(blocks, n - 1);
    }
  }

  lemma {:induction false} ClaimsNext(blocks: seq<Block>, b: nat)
    requires b < |blocks|
    ensures Claims(blocks, b) + OwnClaims(blocks[b]) == Claims(blocks, b + 1)
  {
    hide SpanClaims, ChildClaims;
    var block := blocks[b];
    assert Claims(blocks, b + 1) == (Claims(blocks, b) + SpanClaims(block, |block.spans|)) + ChildClaims(block, |block.children|);
  }

  /** Where a claim comes from. */
  lemma {:induction false} ClaimAt(blocks: seq<Block>, n: nat, i: nat) returns (b: nat)
    requires n <= |blocks| && i < |Claims(blocks, n)|
    ensures b < n && i < |Claims(blocks, b + 1)| && Claims(blocks, n)[i] in OwnClaims(blocks[b])
  {
    hide SpanClaims, ChildClaims;
    if i < |Claims(blocks, n - 1)| {
      b := ClaimAt(blocks, n - 1, i);
    } else {
      b := n - 1;
      ClaimsPrefix(blocks, b, n);
      assert Claims(blocks, n)[i] == OwnClaims(blocks[b])[i - |Claims(blocks, b)|];
    }
  }

  lemma {:induction false} ClaimsGrow(blocks: seq<Block>, b: nat, c: nat)
    requires b <= c <= |blocks|
    ensures |Claims(blocks, b)| <= |Claims(blocks, c)|
  {
    hide SpanClaims, ChildClaims;
    if b < c {
      ClaimsGrow(blocks, b, c - 1);
    }
  }

  /** Where the claim of a stretch is. */
  lemma {:induction false} ClaimOf(blocks: seq<Block>, c: nat, layer: Layer, span: Span) returns (i: nat)
    requires c < |blocks| && Has(blocks[c], layer, span)
    ensures |Claims(blocks, c)| <= i < |Claims(blocks, |blocks|)|
    ensures Claims(blocks, |blocks|)[i] == Stated(span, layer, blocks[c].id)
  {
    hide Has, Claims, OwnClaims, Stated;
    var claim := Stated(span, layer, blocks[c].id);
    StatedSpan(span, layer, blocks[c].id);
    OwnClaimed(blocks[c], claim);
    var k :| 0 <= k < |OwnClaims(blocks[c])| && OwnClaims(blocks[c])[k] == claim;
    ClaimsPrefix(blocks, c, |blocks|);
    i := |Claims(blocks, c)| + k;
    assert (Claims(blocks, c) + OwnClaims(blocks[c]))[i] == claim;
  }

  // ---- The verdict by stretches

  /** A character's role and owner are those of the stretch that prevails over it; where there is none, it has no owner. */
  lemma {:induction false} VerdictDecided(blocks: seq<Block>, markdown: string, p: nat, role: Role, owner: Option<Id>)
    requires Verdict(Claims(blocks, |blocks|), markdown, p, role, owner)
    ensures
      if owner.None? then Bare(blocks, markdown, p)
      else exists b: nat, layer: Layer, span: Span ::
             Decides(blocks, markdown, p, b, layer, span) && role == RoleOf(layer) && owner.value == blocks[b].id
  {
    hide Has, Claims, OwnClaims, Over, Prevails, Covers, Wins, RoleOf, Height;
    var claims := Claims(blocks, |blocks|);
    if owner.None? {
      forall b: nat, layer: Layer, span: Span | b < |blocks| && Has(blocks[b], layer, span) ensures !Over(span, markdown, p) {
        var i := ClaimOf(blocks, b, layer, span);
        CoversOver(claims[i], markdown, p);
      }
    } else {
      var best: nat :| IsBest(claims, markdown, p, best) && role == claims[best].role && owner == Some(claims[best].owner);
      var b := ClaimAt(blocks, |blocks|, best);
      OwnClaimed(blocks[b], claims[best]);
      var layer: Layer :| Has(blocks[b], layer, claims[best].span) && claims[best] == Stated(claims[best].span, layer, blocks[b].id);
      var span := claims[best].span;
      CoversOver(claims[best], markdown, p);
      forall c: nat, other: Layer, wide: Span | c < |blocks| && Has(blocks[c], other, wide) && Over(wide, markdown, p)
        ensures Prevails(layer, span, b, other, wide, c)
      {
        var i := ClaimOf(blocks, c, other, wide);
        CoversOver(claims[i], markdown, p);
        assert Wins(claims, best, i);
        if b < c {
          ClaimsGrow(blocks, b + 1, c);
        }
        WinsPrevails(claims, best, i, layer, span, b, blocks[b].id, other, wide, c, blocks[c].id);
      }
      assert Decides(blocks, markdown, p, b, layer, span);
    }
  }

  lemma {:induction false} CoversOver(claim: Claim, markdown: string, p: nat)
    ensures Covers(claim, markdown, p) <==> Over(claim.span, markdown, p)
  {
  }

  lemma {:induction false} WinsPrevails(
      claims: seq<Claim>, best: nat, i: nat, layer: Layer, span: Span, b: nat, id: Id, other: Layer, wide: Span, c: nat, of: Id)
    requires best < |claims| && i < |claims| && Wins(claims, best, i)
    requires claims[best] == Stated(span, layer, id) && claims[i] == Stated(wide, other, of)
    requires b < c ==> best < i
    ensures Prevails(layer, span, b, other, wide, c)
  {
  }

  // ---- Inline content that nests

  predicate NoneShared(a: Span, b: Span) {
    Min(a.end, b.end) <= Max(a.start, b.start)
  }

  /** Children inside their parents and apart from each other; HTML and math hold nothing. */
  ghost predicate Nests(inline: Inline)
    decreases inline
  {
    && (inline.content.InlineHtml? || inline.content.Math? ==> inline.children == [])
    && (forall k :: 0 <= k < |inline.children| ==>
          inline.span.start <= inline.children[k].span.start && inline.children[k].span.end <= inline.span.end && Nests(inline.children[k]))
    && forall j, k :: 0 <= j < k < |inline.children| ==> NoneShared(inline.children[j].span, inline.children[k].span)
  }

  /** Every block's inline content nests, and no two pieces of it share a character. */
  ghost predicate InlineNests(blocks: seq<Block>) {
    && (forall b, k :: 0 <= b < |blocks| && 0 <= k < |blocks[b].children| && blocks[b].children[k].InlineChild? ==>
          Nests(blocks[b].children[k].inline))
    && forall b, k, c, j :: 0 <= b < |blocks| && 0 <= k < |blocks[b].children| && 0 <= c < |blocks| && 0 <= j < |blocks[c].children|
         && blocks[b].children[k].InlineChild? && blocks[c].children[j].InlineChild? && (b != c || k != j)
         ==> NoneShared(blocks[b].children[k].inline.span, blocks[c].children[j].inline.span)
  }

  lemma {:induction false} InsideWithin(inline: Inline, top: Inline)
    requires Nests(top) && Inside(inline, top)
    ensures Nests(inline) && top.span.start <= inline.span.start && inline.span.end <= top.span.end
    decreases top
  {
    if inline != top {
      var k :| 0 <= k < |top.children| && Inside(inline, top.children[k]);
      InsideWithin(inline, top.children[k]);
    }
  }

  /** Over one character lies one leaf, and whatever else does surrounds it. */
  lemma {:induction false} LeafInside(leaf: Inline, inline: Inline, top: Inline, markdown: string, p: nat)
    requires Nests(top) && Inside(leaf, top) && Inside(inline, top) && leaf.children == []
    requires Over(leaf.span, markdown, p) && Over(inline.span, markdown, p)
    ensures Inside(leaf, inline)
    decreases top
  {
    if leaf != top && inline != top {
      var j :| 0 <= j < |top.children| && Inside(leaf, top.children[j]);
      var k :| 0 <= k < |top.children| && Inside(inline, top.children[k]);
      InsideWithin(leaf, top.children[j]);
      InsideWithin(inline, top.children[k]);
      assert j == k;
      LeafInside(leaf, inline, top.children[j], markdown, p);
    }
  }

  lemma {:induction false} SameBlock(blocks: seq<Block>, b: nat, inline: Inline, c: nat, leaf: Inline, markdown: string, p: nat)
    requires InlineNests(blocks) && b < |blocks| && c < |blocks| && Holds(blocks[b], inline) && Holds(blocks[c], leaf)
    requires Over(inline.span, markdown, p) && Over(leaf.span, markdown, p)
    ensures b == c && Nests(leaf) && Nests(inline) && (leaf.children == [] ==> Inside(leaf, inline))
  {
    hide InlineNests, Inside;
    var k: nat :| k < |blocks[b].children| && blocks[b].children[k].InlineChild? && Inside(inline, blocks[b].children[k].inline);
    var j: nat :| j < |blocks[c].children| && blocks[c].children[j].InlineChild? && Inside(leaf, blocks[c].children[j].inline);
    var (top, other) := (blocks[b].children[k].inline, blocks[c].children[j].inline);
    ChildNests(blocks, b, k);
    ChildNests(blocks, c, j);
    InsideWithin(inline, top);
    InsideWithin(leaf, other);
    SameChild(blocks, b, k, c, j, p);
    if leaf.children == [] {
      LeafInside(leaf, inline, top, markdown, p);
    }
  }

  lemma {:induction false} ChildNests(blocks: seq<Block>, b: nat, k: nat)
    requires InlineNests(blocks) && b < |blocks| && k < |blocks[b].children| && blocks[b].children[k].InlineChild?
    ensures Nests(blocks[b].children[k].inline)
  {
    hide Nests, NoneShared;
  }

  lemma {:induction false} SameChild(blocks: seq<Block>, b: nat, k: nat, c: nat, j: nat, p: nat)
    requires InlineNests(blocks) && b < |blocks| && k < |blocks[b].children| && c < |blocks| && j < |blocks[c].children|
    requires blocks[b].children[k].InlineChild? && blocks[c].children[j].InlineChild?
    requires blocks[b].children[k].inline.span.start <= p < blocks[b].children[k].inline.span.end
    requires blocks[c].children[j].inline.span.start <= p < blocks[c].children[j].inline.span.end
    ensures b == c && k == j
  {
    hide Nests;
  }

  lemma {:induction false} OnlyItself(inline: Inline, leaf: Inline)
    requires Inside(inline, leaf) && leaf.children == []
    ensures inline == leaf
  {
  }

  // ---- The roles

  /** Whether a block with one of these kinds has a span over a character. */
  ghost predicate Spans(block: Block, markdown: string, p: nat) {
    exists i :: 0 <= i < |block.spans| && Over(block.spans[i], markdown, p)
  }

  ghost predicate NoSpecial(blocks: seq<Block>, markdown: string, p: nat) {
    forall b: nat :: b < |blocks| && Spans(blocks[b], markdown, p) ==> !IsOpaque(blocks[b]) && !Defines(blocks[b])
  }

  lemma {:induction false} SpansOver(block: Block, span: Span, markdown: string, p: nat)
    ensures span in block.spans && Over(span, markdown, p) ==> Spans(block, markdown, p)
  {
    if span in block.spans {
      var i :| 0 <= i < |block.spans| && block.spans[i] == span;
    }
  }

  /** The layer of what is over a character that no raw, HTML or defining block covers. */
  lemma {:induction false} DecidedInline(blocks: seq<Block>, markdown: string, p: nat, b: nat, layer: Layer, span: Span) returns (inline: Inline)
    requires Decides(blocks, markdown, p, b, layer, span) && NoSpecial(blocks, markdown, p) && Height(layer) > 0
    ensures Holds(blocks[b], inline) && InlineLayer(inline, layer) && inline.span == span
  {
    hide Holds, Prevails, Over;
    SpansOver(blocks[b], span, markdown, p);
    inline :| Holds(blocks[b], inline) && InlineLayer(inline, layer) && inline.span == span;
  }

  /** A character of a leaf with content is parsed content of its block, whatever links, images and wrappers surround it. */
  lemma {:induction false} LeafIsContent(
      blocks: seq<Block>, markdown: string, p: nat, role: Role, owner: Option<Id>, b: nat, leaf: Inline)
    requires Verdict(Claims(blocks, |blocks|), markdown, p, role, owner) && InlineNests(blocks) && NoSpecial(blocks, markdown, p)
    requires b < |blocks| && Holds(blocks[b], leaf) && ContentLeaf(leaf) && Over(leaf.span, markdown, p)
    ensures role == ParsedContent && owner == Some(blocks[b].id)
  {
    hide InlineNests, Holds, Verdict, Claims, Over, NoSpecial, IsBest;
    assert Has(blocks[b], Content, leaf.span) by { assert InlineLayer(leaf, Content); }
    VerdictDecided(blocks, markdown, p, role, owner);
    var c: nat, layer: Layer, span: Span :|
      Decides(blocks, markdown, p, c, layer, span) && role == RoleOf(layer) && owner == Some(blocks[c].id);
    var inline := DecidedInline(blocks, markdown, p, c, layer, span);
    SameBlock(blocks, c, inline, b, leaf, markdown, p);
    if inline.children == [] {
      OnlyItself(leaf, inline);
    }
  }

  /** A character of inline HTML is unsupported. */
  lemma {:induction false} MarkupIsUnsupported(
      blocks: seq<Block>, markdown: string, p: nat, role: Role, owner: Option<Id>, b: nat, html: Inline)
    requires Verdict(Claims(blocks, |blocks|), markdown, p, role, owner) && InlineNests(blocks) && NoSpecial(blocks, markdown, p)
    requires b < |blocks| && Holds(blocks[b], html) && html.content.InlineHtml? && Over(html.span, markdown, p)
    ensures role == Unsupported && owner == Some(blocks[b].id)
  {
    hide InlineNests, Holds, Verdict, Claims, Over, NoSpecial, IsBest;
    assert Has(blocks[b], Markup, html.span) by { assert InlineLayer(html, Markup); }
    VerdictDecided(blocks, markdown, p, role, owner);
    var c: nat, layer: Layer, span: Span :|
      Decides(blocks, markdown, p, c, layer, span) && role == RoleOf(layer) && owner == Some(blocks[c].id);
    var inline := DecidedInline(blocks, markdown, p, c, layer, span);
    SameBlock(blocks, c, inline, b, html, markdown, p);
  }

  /** A character of empty math is syntax. */
  lemma {:induction false} EmptyMathIsSyntax(
      blocks: seq<Block>, markdown: string, p: nat, role: Role, owner: Option<Id>, b: nat, math: Inline)
    requires Verdict(Claims(blocks, |blocks|), markdown, p, role, owner) && InlineNests(blocks) && NoSpecial(blocks, markdown, p)
    requires b < |blocks| && Holds(blocks[b], math) && EmptyMath(math) && Over(math.span, markdown, p)
    ensures role == StructuralSyntax && owner == Some(blocks[b].id)
  {
    hide InlineNests, Holds, Verdict, Claims, Over, NoSpecial, IsBest;
    assert Has(blocks[b], Hollow, math.span) by { assert InlineLayer(math, Hollow); }
    VerdictDecided(blocks, markdown, p, role, owner);
    var c: nat, layer: Layer, span: Span :|
      Decides(blocks, markdown, p, c, layer, span) && role == RoleOf(layer) && owner == Some(blocks[c].id);
    var inline := DecidedInline(blocks, markdown, p, c, layer, span);
    SameBlock(blocks, c, inline, b, math, markdown, p);
    SameBlock(blocks, b, math, c, inline, markdown, p);
    if inline.children == [] {
      OnlyItself(inline, math);
    }
  }

  /** Whether some leaf of what is inside an inline node, other than a link or image, lies over a character. */
  ghost predicate LeafOver(top: Inline, markdown: string, p: nat) {
    exists leaf :: Inside(leaf, top) && leaf.children == [] && !Refers(leaf) && Over(leaf.span, markdown, p)
  }

  /** What its leaves leave of a link or an image is a reference. */
  lemma {:induction false} RestOfLinkIsReference(
      blocks: seq<Block>, markdown: string, p: nat, role: Role, owner: Option<Id>, b: nat, link: Inline)
    requires Verdict(Claims(blocks, |blocks|), markdown, p, role, owner) && InlineNests(blocks) && NoSpecial(blocks, markdown, p)
    requires b < |blocks| && Holds(blocks[b], link) && Refers(link) && Over(link.span, markdown, p) && !LeafOver(link, markdown, p)
    ensures role == MetadataOrReference && owner == Some(blocks[b].id)
  {
    hide InlineNests, Holds, Verdict, Claims, Over, NoSpecial, IsBest, Inside;
    assert Has(blocks[b], Reference, link.span) by { assert InlineLayer(link, Reference); }
    VerdictDecided(blocks, markdown, p, role, owner);
    var c: nat, layer: Layer, span: Span :|
      Decides(blocks, markdown, p, c, layer, span) && role == RoleOf(layer) && owner == Some(blocks[c].id);
    var inline := DecidedInline(blocks, markdown, p, c, layer, span);
    SameBlock(blocks, b, link, c, inline, markdown, p);
    assert layer != Reference ==> inline.children == [] && !Refers(inline);
  }

  /** Whether inline content that has a role of its own lies over a character: a leaf, a link or an image. */
  ghost predicate InlineOver(block: Block, markdown: string, p: nat) {
    exists inline :: Holds(block, inline) && (inline.children == [] || Refers(inline)) && Over(inline.span, markdown, p)
  }

  /** Whether a block's span over a character is the innermost of all blocks': the narrowest, and of equals the last block's. */
  ghost predicate Innermost(blocks: seq<Block>, markdown: string, p: nat, b: nat) {
    && b < |blocks|
    && exists i :: 0 <= i < |blocks[b].spans| && Over(blocks[b].spans[i], markdown, p) && NarrowestIs(blocks, markdown, p, b, blocks[b].spans[i])
  }

  ghost predicate NarrowestIs(blocks: seq<Block>, markdown: string, p: nat, b: nat, span: Span) {
    forall c, j :: 0 <= c < |blocks| && 0 <= j < |blocks[c].spans| && Over(blocks[c].spans[j], markdown, p) ==>
      var wide := blocks[c].spans[j];
      span.end - span.start < wide.end - wide.start || (span.end - span.start == wide.end - wide.start && c <= b)
  }

  lemma {:induction false} SpannedHas(blocks: seq<Block>, markdown: string, p: nat, b: nat, layer: Layer) returns (span: Span)
    requires b < |blocks| && Spans(blocks[b], markdown, p) && BlockLayer(blocks[b], layer)
    ensures Has(blocks[b], layer, span) && Over(span, markdown, p)
  {
    var i :| 0 <= i < |blocks[b].spans| && Over(blocks[b].spans[i], markdown, p);
    span := blocks[b].spans[i];
  }

  /** A stretch of a block's own layer that prevails is the innermost of its like. */
  lemma {:induction false} OwnSpan(blocks: seq<Block>, markdown: string, p: nat, b: nat, layer: Layer, span: Span)
    requires Decides(blocks, markdown, p, b, layer, span) && layer in {Syntax, Definition, Opaque}
    ensures BlockLayer(blocks[b], layer) && Spans(blocks[b], markdown, p)
    ensures exists i :: 0 <= i < |blocks[b].spans| && blocks[b].spans[i] == span
    ensures forall c, j :: 0 <= c < |blocks| && 0 <= j < |blocks[c].spans| && Over(blocks[c].spans[j], markdown, p) && BlockLayer(blocks[c], layer) ==>
              Prevails(layer, span, b, layer, blocks[c].spans[j], c)
  {
    hide Over, Holds, Prevails;
    SpansOver(blocks[b], span, markdown, p);
    forall c, j | 0 <= c < |blocks| && 0 <= j < |blocks[c].spans| && Over(blocks[c].spans[j], markdown, p) && BlockLayer(blocks[c], layer)
      ensures Prevails(layer, span, b, layer, blocks[c].spans[j], c)
    {
      assert Has(blocks[c], layer, blocks[c].spans[j]);
    }
  }

  /** What inline content leaves of a block is syntax of the innermost block there. */
  lemma {:induction false} RestOfBlockIsSyntax(blocks: seq<Block>, markdown: string, p: nat, role: Role, owner: Option<Id>, b: nat)
    requires Verdict(Claims(blocks, |blocks|), markdown, p, role, owner) && InlineNests(blocks) && NoSpecial(blocks, markdown, p)
    requires b < |blocks| && Spans(blocks[b], markdown, p)
    requires forall c: nat :: c < |blocks| ==> !InlineOver(blocks[c], markdown, p)
    ensures role == StructuralSyntax && exists c: nat :: Innermost(blocks, markdown, p, c) && owner == Some(blocks[c].id)
  {
    hide InlineNests, Holds, Verdict, Claims, Over, IsBest, Inside;
    var wide := SpannedHas(blocks, markdown, p, b, Syntax);
    VerdictDecided(blocks, markdown, p, role, owner);
    var c: nat, layer: Layer, span: Span :|
      Decides(blocks, markdown, p, c, layer, span) && role == RoleOf(layer) && owner == Some(blocks[c].id);
    if Height(layer) > 0 {
      var inline := DecidedInline(blocks, markdown, p, c, layer, span);
      SameBlock(blocks, c, inline, c, inline, markdown, p);
    }
    OwnSpan(blocks, markdown, p, c, layer, span);
    var i :| 0 <= i < |blocks[c].spans| && blocks[c].spans[i] == span;
    forall d, j | 0 <= d < |blocks| && 0 <= j < |blocks[d].spans| && Over(blocks[d].spans[j], markdown, p)
      ensures Prevails(Syntax, span, c, Syntax, blocks[d].spans[j], d)
    {
      assert Spans(blocks[d], markdown, p);
    }
    assert NarrowestIs(blocks, markdown, p, c, span);
    assert Innermost(blocks, markdown, p, c);
  }

  /** Every character of a raw or HTML block is unsupported, whatever else lies there. */
  lemma {:induction false} OpaqueIsUnsupported(blocks: seq<Block>, markdown: string, p: nat, role: Role, owner: Option<Id>, b: nat)
    requires Verdict(Claims(blocks, |blocks|), markdown, p, role, owner)
    requires b < |blocks| && (blocks[b].kind.Raw? || blocks[b].kind.Html?) && Spans(blocks[b], markdown, p)
    ensures role == Unsupported
    ensures exists c: nat :: c < |blocks| && IsOpaque(blocks[c]) && Spans(blocks[c], markdown, p) && owner == Some(blocks[c].id)
  {
    hide Holds, Verdict, Claims, Over, IsBest, Inside;
    var wide := SpannedHas(blocks, markdown, p, b, Opaque);
    VerdictDecided(blocks, markdown, p, role, owner);
    var c: nat, layer: Layer, span: Span :|
      Decides(blocks, markdown, p, c, layer, span) && role == RoleOf(layer) && owner == Some(blocks[c].id);
    OwnSpan(blocks, markdown, p, c, layer, span);
  }

  /** Every character of a metadata block or a reference definition that no raw or HTML block covers is a reference. */
  lemma {:induction false} DefinitionIsReference(blocks: seq<Block>, markdown: string, p: nat, role: Role, owner: Option<Id>, b: nat)
    requires Verdict(Claims(blocks, |blocks|), markdown, p, role, owner)
    requires b < |blocks| && (blocks[b].kind.Metadata? || blocks[b].kind.ReferenceDefinition?) && Spans(blocks[b], markdown, p)
    requires forall c: nat :: c < |blocks| && Spans(blocks[c], markdown, p) ==> !IsOpaque(blocks[c])
    ensures role == MetadataOrReference
    ensures exists c: nat :: c < |blocks| && Defines(blocks[c]) && Spans(blocks[c], markdown, p) && owner == Some(blocks[c].id)
  {
    hide Holds, Verdict, Claims, Over, IsBest, Inside;
    var wide := SpannedHas(blocks, markdown, p, b, Definition);
    VerdictDecided(blocks, markdown, p, role, owner);
    var c: nat, layer: Layer, span: Span :|
      Decides(blocks, markdown, p, c, layer, span) && role == RoleOf(layer) && owner == Some(blocks[c].id);
    OwnSpan(blocks, markdown, p, c, layer, span);
  }

  /** Source that no block spans and no inline content covers is syntax where the stretch around it is blank, and unaccounted elsewhere. */
  lemma {:induction false} UncoveredIsUnowned(blocks: seq<Block>, markdown: string, p: nat, role: Role, owner: Option<Id>)
    requires Verdict(Claims(blocks, |blocks|), markdown, p, role, owner)
    requires forall b: nat :: b < |blocks| ==> !Spans(blocks[b], markdown, p)
    requires forall b: nat, inline :: b < |blocks| && Holds(blocks[b], inline) ==> !Over(inline.span, markdown, p)
    ensures owner == None && role in {StructuralSyntax, Unaccounted}
  {
    hide Holds, Claims, Over, IsBest, Inside, BlankAround, Unclaimed;
    VerdictDecided(blocks, markdown, p, role, owner);
    if owner.Some? {
      var c: nat, layer: Layer, span: Span :|
        Decides(blocks, markdown, p, c, layer, span) && role == RoleOf(layer) && owner == Some(blocks[c].id);
      SpansOver(blocks[c], span, markdown, p);
    }
  }
}
