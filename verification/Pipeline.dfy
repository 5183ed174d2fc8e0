/** Canonicalization's passes: assemble, check, repair, assemble again, account. */
module Pipeline {
  import opened Common
  import opened Units
  import opened Documents
  import opened Assembly
  import opened Accounting
  import opened Gaps
  import opened Repair
  import Sorting

  // ---- The blocks that assembling makes

  ghost function BlocksSpans(blocks: seq<Block>, n: nat): multiset<Span>
    requires n <= |blocks|
  {
    if n == 0 then multiset{} else BlocksSpans(blocks, n - 1) + multiset(blocks[n - 1].spans)
  }

  lemma {:induction false} BlocksSame(a: seq<Block>, b: seq<Block>, n: nat)
    requires n <= |a| && n <= |b| && forall i :: 0 <= i < n ==> a[i].spans == b[i].spans
    ensures BlocksSpans(a, n) == BlocksSpans(b, n)
  {
    if n > 0 {
      BlocksSame(a, b, n - 1);
    }
  }

  lemma {:induction false} OpenedSpans(doc: Doc, node: Node, parent: Option<Id>, context: Context, title: Title)
    requires node.BlockNode?
    ensures
      var next := Opened(doc, node, parent, context, title);
      BlocksSpans(next.blocks, |next.blocks|) == BlocksSpans(doc.blocks, |doc.blocks|) + multiset{node.span}
      && |next.blocks| == |doc.blocks| + 1
  {
    hide Entered, Enclosing;
    var next := Opened(doc, node, parent, context, title);
    BlocksSame(doc.blocks, next.blocks, |doc.blocks|);
  }

  lemma {:induction false} BlockMakes(doc: Doc, node: Node, parent: Option<Id>, context: Context, title: Title)
    requires node.BlockNode? && BuiltBlock(doc, node, parent, context, title).Ok?
    ensures
      var blocks := BuiltBlock(doc, node, parent, context, title).value.doc.blocks;
      BlocksSpans(blocks, |blocks|) == BlocksSpans(doc.blocks, |doc.blocks|) + NodeSpans(node)
    decreases node, 0
  {
    hide Opened, Entered, BlocksSpans, TreeSpans;
    var id := |doc.blocks|;
    var inside, next := Entered(context, node, id, title), Opened(doc, node, parent, context, title);
    OpenedSpans(doc, node, parent, context, title);
    SiblingsMake(next, node.children, |node.children|, Some(id), inside, title);
    var inner := BuiltSiblings(next, node.children, |node.children|, Some(id), inside, title).value;
    BlocksSame(inner.doc.blocks, WithChildren(inner.doc, id, inner.out).blocks, |inner.doc.blocks|);
  }

  lemma {:induction false} SiblingsMake(doc: Doc, nodes: seq<Node>, n: nat, parent: Option<Id>, context: Context, title: Title)
    requires n <= |nodes| && BuiltSiblings(doc, nodes, n, parent, context, title).Ok?
    ensures
      var blocks := BuiltSiblings(doc, nodes, n, parent, context, title).value.doc.blocks;
      BlocksSpans(blocks, |blocks|) == BlocksSpans(doc.blocks, |doc.blocks|) + TreeSpans(nodes, n)
    decreases nodes, n
  {
    hide BlocksSpans, BuiltBlock, InlineOf;
    if n > 0 {
      SiblingsMake(doc, nodes, n - 1, parent, context, title);
      var before := BuiltSiblings(doc, nodes, n - 1, parent, context, title).value;
      if nodes[n - 1].BlockNode? {
        BlockMakes(before.doc, nodes[n - 1], parent, before.context, title);
      }
    }
  }

  /** Assembling makes one block of every block of the tree, over its span. */
  lemma {:induction false} AssembledSpans(nodes: seq<Node>, title: Title)
    requires Assembled(nodes, title).Ok?
    ensures
      var blocks := Assembled(nodes, title).value.blocks;
      BlocksSpans(blocks, |blocks|) == TreeSpans(nodes, |nodes|)
  {
    hide BuiltSiblings, TreeSpans;
    SiblingsMake(Doc([], []), nodes, |nodes|, None, [], title);
  }

  lemma {:induction false} SpanOwned(blocks: seq<Block>, n: nat, s: Span)
    requires n <= |blocks|
    ensures s in BlocksSpans(blocks, n) <==> exists i :: 0 <= i < n && s in blocks[i].spans
  {
    if n > 0 {
      SpanOwned(blocks, n - 1, s);
      assert s in multiset(blocks[n - 1].spans) <==> s in blocks[n - 1].spans;
    }
  }

  // ---- The repair leaves nothing uncovered

  /** Repaired and assembled again, a document spans what it spanned and every gap that was reported. */
  lemma {:induction false} RepairSpans(nodes: seq<Node>, title: Title, markdown: string, gaps: seq<Span>, p: nat)
    requires Assembled(nodes, title).Ok?
    requires Assembled(Preserved(nodes, markdown, Sifted(gaps), |Sifted(gaps)|), title).Ok?
    requires Spanned(Assembled(nodes, title).value.blocks, markdown, p) || exists g :: g in gaps && Keepable(markdown, g) && g.start <= p < g.end
    ensures Spanned(Assembled(Preserved(nodes, markdown, Sifted(gaps), |Sifted(gaps)|), title).value.blocks, markdown, p)
  {
    hide Assembled, Preserved, Sifted, TreeSpans, BlocksSpans;
    var repaired := Preserved(nodes, markdown, Sifted(gaps), |Sifted(gaps)|);
    var before, after := Assembled(nodes, title).value.blocks, Assembled(repaired, title).value.blocks;
    AssembledSpans(nodes, title);
    AssembledSpans(repaired, title);
    var s: Span;
    if Spanned(before, markdown, p) {
      var i, held :| 0 <= i < |before| && held in before[i].spans && held.Valid(markdown) && held.start <= p < held.end;
      SpanOwned(before, |before|, held);
      s := held;
    } else {
      var g :| g in gaps && Keepable(markdown, g) && g.start <= p < g.end;
      s := g;
    }
    RepairAdds(nodes, markdown, gaps, s);
    assert TreeSpans(repaired, |repaired|)[s] > 0;
    SpanOwned(after, |after|, s);
  }

  /** Once every uncovered stretch was reported, repairing closes them all. */
  lemma {:induction false} RepairCloses(nodes: seq<Node>, title: Title, markdown: string, gaps: seq<Span>)
    requires Assembled(nodes, title).Ok?
    requires Assembled(Preserved(nodes, markdown, Sifted(gaps), |Sifted(gaps)|), title).Ok?
    requires forall g :: g in Uncovered(Assembled(nodes, title).value.blocks, markdown) ==> g in gaps
    ensures Represented(Assembled(Preserved(nodes, markdown, Sifted(gaps), |Sifted(gaps)|), title).value.blocks, markdown)
  {
    hide Assembled, Preserved, Sifted, Spanned, Uncovered, IsWhitespace;
    var repaired := Preserved(nodes, markdown, Sifted(gaps), |Sifted(gaps)|);
    var before, after := Assembled(nodes, title).value.blocks, Assembled(repaired, title).value.blocks;
    forall p: nat | p < |markdown| && !IsWhitespace(markdown[p]) ensures Spanned(after, markdown, p) {
      if !Spanned(before, markdown, p) {
        UncoveredFinds(before, markdown, p);
        var g :| g in Uncovered(before, markdown) && g.start <= p < g.end;
        UncoveredTrue(before, markdown, g);
      }
      RepairSpans(nodes, title, markdown, gaps, p);
    }
  }

  // ---- The ledger check

  /** Whether one ledger segment is in place, nonempty, accounted for and owned by a known block. */
  predicate SegmentOk(ids: set<Id>, markdown: string, segment: Segment, cursor: nat) {
    && segment.span.start == cursor
    && segment.span.Valid(markdown)
    && segment.span.start != segment.span.end
    && segment.role != Unaccounted
    && (segment.owner.Some? ==> segment.owner.value in ids)
  }

  function CursorAfter(segments: seq<Segment>, n: nat): nat
    requires n <= |segments|
  {
    if n == 0 then 0 else segments[n - 1].span.end
  }

  /** How many findings the first n segments give. */
  function LedgerFindings(ids: set<Id>, markdown: string, segments: seq<Segment>, n: nat): nat
    requires n <= |segments|
  {
    if n == 0 then 0
    else
      LedgerFindings(ids, markdown, segments, n - 1)
      + if SegmentOk(ids, markdown, segments[n - 1], CursorAfter(segments, n - 1)) then 0 else 1
  }

  function BlockIds(blocks: seq<Block>): set<Id> {
    set b | b in blocks :: b.id
  }

  /** `check_source_ledger`: the ledger covers every character once, in order, with known blocks. */
  method CheckSourceLedger(blocks: seq<Block>, markdown: string, segments: seq<Segment>) returns (findings: nat)
    ensures findings == LedgerFindings(BlockIds(blocks), markdown, segments, |segments|)
                      + if CursorAfter(segments, |segments|) != |markdown| then 1 else 0
  {
    var ids := BlockIds(blocks);
    var cursor: nat := 0;
    findings := 0;
    for i := 0 to |segments|
      invariant cursor == CursorAfter(segments, i) && findings == LedgerFindings(ids, markdown, segments, i)
    {
      if !SegmentOk(ids, markdown, segments[i], cursor) {
        findings := findings + 1;
      }
      cursor := segments[i].span.end;
    }
    if cursor != |markdown| {
      findings := findings + 1;
    }
  }

  /** Whether a segment follows the one before, holds some of the source, says what it is and names a known block if any. */
  predicate InPlace(blocks: seq<Block>, markdown: string, segments: seq<Segment>, i: nat)
    requires i < |segments|
  {
    var segment := segments[i];
    && (if i == 0 then segment.span.start == 0 else segment.span.start == segments[i - 1].span.end)
    && segment.span.start < segment.span.end <= |markdown|
    && segment.role in {StructuralSyntax, ParsedContent, MetadataOrReference, Unsupported}
    && (segment.owner.Some? ==> exists b :: b in blocks && b.id == segment.owner.value)
  }

  function Misplaced(blocks: seq<Block>, markdown: string, segments: seq<Segment>, n: nat): set<nat>
    requires n <= |segments|
  {
    set i: nat | i < n && !InPlace(blocks, markdown, segments, i)
  }

  /** There is one finding for every segment out of place. */
  lemma {:induction false} FindingsExactly(blocks: seq<Block>, markdown: string, segments: seq<Segment>, n: nat)
    requires n <= |segments|
    ensures LedgerFindings(BlockIds(blocks), markdown, segments, n) == |Misplaced(blocks, markdown, segments, n)|
  {
    hide InPlace, SegmentOk;
    if n == 0 {
      assert Misplaced(blocks, markdown, segments, 0) == {};
    } else {
      FindingsExactly(blocks, markdown, segments, n - 1);
      PlacedOk(blocks, markdown, segments, n - 1);
      var before := Misplaced(blocks, markdown, segments, n - 1);
      if InPlace(blocks, markdown, segments, n - 1) {
        assert Misplaced(blocks, markdown, segments, n) == before;
      } else {
        assert Misplaced(blocks, markdown, segments, n) == before + {n - 1};
      }
    }
  }

  lemma {:induction false} PlacedOk(blocks: seq<Block>, markdown: string, segments: seq<Segment>, i: nat)
    requires i < |segments|
    ensures SegmentOk(BlockIds(blocks), markdown, segments[i], CursorAfter(segments, i)) <==> InPlace(blocks, markdown, segments, i)
  {
  }

  // ---- What the claims of a document are

  ghost predicate ClaimOf(blocks: seq<Block>, claim: Claim) {
    claim.role != Unaccounted && claim.owner in BlockIds(blocks)
  }

  ghost predicate ClaimsOf(blocks: seq<Block>, claims: seq<Claim>) {
    forall i :: 0 <= i < |claims| ==> ClaimOf(blocks, claims[i])
  }

  lemma {:induction false} InlineClaimsOf(blocks: seq<Block>, inline: Inline, owner: Id)
    requires owner in BlockIds(blocks)
    ensures ClaimsOf(blocks, InlineClaims(inline, owner))
    decreases inline, 1, 0
  {
    hide BlockIds;
    NestedClaimsOf(blocks, inline, owner, |inline.children|);
  }

  lemma {:induction false} NestedClaimsOf(blocks: seq<Block>, inline: Inline, owner: Id, n: nat)
    requires owner in BlockIds(blocks) && n <= |inline.children|
    ensures ClaimsOf(blocks, NestedClaims(inline, owner, n))
    decreases inline, 0, n
  {
    hide BlockIds, InlineClaims;
    if n > 0 {
      NestedClaimsOf(blocks, inline, owner, n - 1);
      InlineClaimsOf(blocks, inline.children[n - 1], owner);
    }
  }

  lemma {:induction false} SpanClaimsOf(blocks: seq<Block>, block: Block, n: nat)
    requires block in blocks && n <= |block.spans|
    ensures ClaimsOf(blocks, SpanClaims(block, n))
    ensures |SpanClaims(block, n)| == n && forall i :: 0 <= i < n ==> SpanClaims(block, n)[i].span == block.spans[i]
  {
    if n > 0 {
      SpanClaimsOf(blocks, block, n - 1);
    }
  }

  lemma {:induction false} ChildClaimsOf(blocks: seq<Block>, block: Block, n: nat)
    requires block in blocks && n <= |block.children|
    ensures ClaimsOf(blocks, ChildClaims(block, n))
  {
    hide InlineClaims, ClaimOf;
    if n > 0 {
      ChildClaimsOf(blocks, block, n - 1);
      match block.children[n - 1]
      case InlineChild(inline) => InlineClaimsOf(blocks, inline, block.id);
      case BlockChild(_) =>
    }
  }

  /** No claim of a document leaves source unaccounted, and each belongs to one of its blocks. */
  lemma {:induction false} DocumentClaims(blocks: seq<Block>, n: nat)
    requires n <= |blocks|
    ensures ClaimsOf(blocks, Claims(blocks, n))
  {
    hide SpanClaims, ChildClaims, ClaimOf;
    if n > 0 {
      DocumentClaims(blocks, n - 1);
      SpanClaimsOf(blocks, blocks[n - 1], |blocks[n - 1].spans|);
      ChildClaimsOf(blocks, blocks[n - 1], |blocks[n - 1].children|);
    }
  }

  /** Every span of every block is claimed. */
  lemma {:induction false} SpanIsClaimed(blocks: seq<Block>, n: nat, i: nat, s: Span) returns (id: nat)
    requires i < n <= |blocks| && s in blocks[i].spans
    ensures id < |Claims(blocks, n)| && Claims(blocks, n)[id].span == s
  {
    hide ClaimsOf, ChildClaims, SpanClaims;
    var before, own := Claims(blocks, n - 1), SpanClaims(blocks[n - 1], |blocks[n - 1].spans|);
    if i < n - 1 {
      id := SpanIsClaimed(blocks, n - 1, i, s);
      assert (before + own + ChildClaims(blocks[n - 1], |blocks[n - 1].children|))[id] == before[id];
    } else {
      SpanClaimsOf(blocks, blocks[i], |blocks[i].spans|);
      var k :| 0 <= k < |blocks[i].spans| && blocks[i].spans[k] == s;
      id := |before| + k;
      assert (before + own + ChildClaims(blocks[n - 1], |blocks[n - 1].children|))[id] == own[k];
    }
  }

  lemma {:induction false} SpannedIsClaimed(blocks: seq<Block>, markdown: string, p: nat)
    requires Spanned(blocks, markdown, p)
    ensures !Unclaimed(Claims(blocks, |blocks|), markdown, p)
  {
    hide Claims;
    var i, s :| 0 <= i < |blocks| && s in blocks[i].spans && s.Valid(markdown) && s.start <= p < s.end;
    var id := SpanIsClaimed(blocks, |blocks|, i, s);
    assert Covers(Claims(blocks, |blocks|)[id], markdown, p);
  }

  /** The ledger of a document that represents its source leaves nothing unaccounted. */
  lemma {:induction false} LedgerCloses(blocks: seq<Block>, markdown: string, segments: seq<Segment>, i: nat)
    requires Represented(blocks, markdown) && Ledger(Claims(blocks, |blocks|), markdown, segments, |markdown|)
    requires i < |segments|
    ensures segments[i].role != Unaccounted
    ensures segments[i].owner.Some? ==> segments[i].owner.value in BlockIds(blocks)
  {
    hide Claims, BlockIds, Wins, Spanned, Covers, Unclaimed;
    var claims, p := Claims(blocks, |blocks|), segments[i].span.start;
    DocumentClaims(blocks, |blocks|);
    assert segments[i].span.start <= p < segments[i].span.end;
    assert Verdict(claims, markdown, p, segments[i].role, segments[i].owner);
    if best: nat :| IsBest(claims, markdown, p, best) && segments[i].role == claims[best].role && segments[i].owner == Some(claims[best].owner) {
      assert ClaimOf(blocks, claims[best]);
    } else {
      BlankUnclaimed(blocks, markdown, p);
    }
  }

  lemma {:induction false} BlankUnclaimed(blocks: seq<Block>, markdown: string, p: nat)
    requires Represented(blocks, markdown)
    ensures BlankAround(Claims(blocks, |blocks|), markdown, p)
  {
    hide Claims, Spanned, Unclaimed, IsWhitespace;
    forall q: nat | q < |markdown| && Together(Claims(blocks, |blocks|), markdown, p, q) ensures IsWhitespace(markdown[q]) {
      if Spanned(blocks, markdown, q) {
        SpannedIsClaimed(blocks, markdown, q);
      }
    }
  }

  lemma {:induction false} NoLedgerFindings(blocks: seq<Block>, markdown: string, segments: seq<Segment>, n: nat)
    requires Represented(blocks, markdown) && Ledger(Claims(blocks, |blocks|), markdown, segments, |markdown|)
    requires n <= |segments|
    ensures LedgerFindings(BlockIds(blocks), markdown, segments, n) == 0
    ensures CursorAfter(segments, |segments|) == |markdown|
  {
    hide Claims, BlockIds, Verdict, Represented;
    if n > 0 {
      NoLedgerFindings(blocks, markdown, segments, n - 1);
      LedgerCloses(blocks, markdown, segments, n - 1);
      SegmentsEnd(Claims(blocks, |blocks|), markdown, segments, n - 1, |markdown|);
    }
  }

  // ---- Repairing is never refused

  /** Whether assembling can make blocks of a node: inline nodes hold inline nodes only. */
  ghost predicate Builds(node: Node)
    decreases node, 0
  {
    if node.BlockNode? then AllBuild(node.children, |node.children|) else InlineOf(node).Ok?
  }

  ghost predicate AllBuild(nodes: seq<Node>, n: nat)
    requires n <= |nodes|
    decreases nodes, n
  {
    n == 0 || (AllBuild(nodes, n - 1) && Builds(nodes[n - 1]))
  }

  lemma {:induction false} BuildsEach(nodes: seq<Node>, n: nat)
    requires n <= |nodes|
    ensures AllBuild(nodes, n) <==> forall i :: 0 <= i < n ==> Builds(nodes[i])
  {
    hide Builds;
    if n > 0 {
      BuildsEach(nodes, n - 1);
    }
  }

  /** Inline content is refused for a block inside it only. */
  lemma {:induction false} InlineRefused(node: Node)
    requires InlineOf(node).Err?
    ensures InlineOf(node).error == InlineBlock
    decreases node, 0
  {
    if node.InlineNode? {
      InlinesRefused(node.children, |node.children|);
    }
  }

  lemma {:induction false} InlinesRefused(nodes: seq<Node>, n: nat)
    requires n <= |nodes| && InlinesOf(nodes, n).Err?
    ensures InlinesOf(nodes, n).error == InlineBlock
    decreases nodes, n
  {
    if n > 0 {
      if InlinesOf(nodes, n - 1).Err? {
        InlinesRefused(nodes, n - 1);
      } else {
        InlineRefused(nodes[n - 1]);
      }
    }
  }

  lemma {:induction false} SiblingsBuild(doc: Doc, nodes: seq<Node>, n: nat, parent: Option<Id>, context: Context, title: Title)
    requires n <= |nodes|
    ensures
      var built := BuiltSiblings(doc, nodes, n, parent, context, title);
      (built.Ok? <==> AllBuild(nodes, n)) && (built.Err? ==> built.error == InlineBlock)
    decreases nodes, n
  {
    hide Entered, Opened, InlineOf;
    if n > 0 {
      SiblingsBuild(doc, nodes, n - 1, parent, context, title);
      var before, node := BuiltSiblings(doc, nodes, n - 1, parent, context, title), nodes[n - 1];
      if before.Ok? {
        match node {
          case BlockNode(_, _, _, _, children) =>
            var id := |before.value.doc.blocks|;
            SiblingsBuild(Opened(before.value.doc, node, parent, before.value.context, title), children, |children|, Some(id),
                          Entered(before.value.context, node, id, title), title);
          case InlineNode(_, _, _) =>
            if InlineOf(node).Err? {
              InlineRefused(node);
            }
        }
      }
    }
  }

  /** A node that builds is inserted without harm. */
  lemma {:induction false} InsertedBuilds(nodes: seq<Node>, node: Node)
    requires AllBuild(nodes, |nodes|) && Builds(node)
    ensures AllBuild(Inserted(nodes, node), |Inserted(nodes, node)|)
    decreases nodes
  {
    hide Builds;
    BuildsEach(nodes, |nodes|);
    var r := Inserted(nodes, node);
    match FirstHolding(nodes, node.span, 0) {
      case Some(i) => NestedBuilds(nodes, node, i);
      case None =>
        var all := nodes + [node];
        forall k | 0 <= k < |r| ensures Builds(r[k]) {
          Sorting.MemberOfEqualMultisets(r, all, r[k]);
        }
    }
    BuildsEach(r, |r|);
  }

  lemma {:induction false} NestedBuilds(nodes: seq<Node>, node: Node, i: nat)
    requires i < |nodes| && nodes[i].BlockNode? && Builds(nodes[i]) && Builds(node)
    ensures Builds(WithNested(nodes[i], Inserted(nodes[i].children, node)))
    decreases nodes, 0
  {
    hide Inserted;
    InsertedBuilds(nodes[i].children, node);
  }

  lemma {:induction false} PreservedBuilds(nodes: seq<Node>, markdown: string, gaps: seq<Span>, n: nat)
    requires n <= |gaps| && AllBuild(nodes, |nodes|)
    ensures var r := Preserved(nodes, markdown, gaps, n); AllBuild(r, |r|)
  {
    hide Inserted, AllBuild, Builds;
    if n > 0 {
      PreservedBuilds(nodes, markdown, gaps, n - 1);
      if Keepable(markdown, gaps[n - 1]) {
        RawBuilds(markdown, gaps[n - 1]);
        InsertedBuilds(Preserved(nodes, markdown, gaps, n - 1), RawNode(markdown, gaps[n - 1]));
      }
    }
  }

  lemma {:induction false} RawBuilds(markdown: string, span: Span)
    requires span.Valid(markdown)
    ensures Builds(RawNode(markdown, span))
  {
    var children := RawNode(markdown, span).children;
    assert InlinesOf(children[0].children, 0) == Ok([]);
    assert AllBuild(children, 0) && Builds(children[0]);
  }

  /** Assembling refuses blocks inside inline content, and nothing else. */
  lemma {:induction false} AssembledBuilds(nodes: seq<Node>, title: Title)
    ensures Assembled(nodes, title).Ok? <==> AllBuild(nodes, |nodes|)
    ensures Assembled(nodes, title).Err? ==> Assembled(nodes, title).error == InlineBlock
  {
    hide BuiltSiblings, AllBuild;
    SiblingsBuild(Doc([], []), nodes, |nodes|, None, [], title);
  }

  /** A tree that assembles still does once gaps are kept in it. */
  lemma {:induction false} RepairAssembles(nodes: seq<Node>, title: Title, markdown: string, gaps: seq<Span>)
    ensures Assembled(nodes, title).Ok? ==> Assembled(Preserved(nodes, markdown, Sifted(gaps), |Sifted(gaps)|), title).Ok?
  {
    hide Preserved, Sifted, Assembled, AllBuild;
    AssembledBuilds(nodes, title);
    if Assembled(nodes, title).Ok? {
      PreservedBuilds(nodes, markdown, Sifted(gaps), |Sifted(gaps)|);
      AssembledBuilds(Preserved(nodes, markdown, Sifted(gaps), |Sifted(gaps)|), title);
    }
  }

  // ---- The passes

  datatype Canonical = Canonical(doc: Doc, ledger: seq<Segment>)

  /** Whether the source ledger of a document is closed: its two checks report nothing. */
  ghost predicate Closed(c: Canonical, markdown: string) {
    && Uncovered(c.doc.blocks, markdown) == []
    && Ledger(Claims(c.doc.blocks, |c.doc.blocks|), markdown, c.ledger, |markdown|)
    && LedgerFindings(BlockIds(c.doc.blocks), markdown, c.ledger, |c.ledger|) == 0
    && CursorAfter(c.ledger, |c.ledger|) == |markdown|
    && forall i :: 0 <= i < |c.ledger| ==> c.ledger[i].role != Unaccounted
  }

  /** The document of the passes: assembled once, and again when some gap was reported. */
  function Repaired(nodes: seq<Node>, title: Title, markdown: string, reported: Doc -> seq<Span>): Result<Doc> {
    var first :- Assembled(nodes, title);
    var gaps := reported(first) + Uncovered(first.blocks, markdown);
    if gaps == [] then Ok(first)
    else Assembled(Preserved(nodes, markdown, Sifted(gaps), |Sifted(gaps)|), title)
  }

  /** Every block keeps its span, and every reported or uncovered stretch that is nonempty and valid becomes one more. */
  ghost predicate SpansKept(before: seq<Block>, after: seq<Block>, markdown: string, reported: seq<Span>) {
    forall g: Span ::
      BlocksSpans(after, |after|)[g]
      == BlocksSpans(before, |before|)[g] + if (g in reported || g in Uncovered(before, markdown)) && g.start < g.end <= |markdown| then 1 else 0
  }

  /**
   * `canonicalize`: refused only where a block stands inside inline content, which repairing never
   * brings about. Whatever else the checks report for repair, the ledger of the document is closed,
   * and its spans are those of the first assembly and the kept gaps.
   */
  method Canonicalize(nodes: seq<Node>, title: Title, markdown: string, reported: Doc -> seq<Span>) returns (r: Result<Canonical>)
    ensures r.Ok? <==> AllBuild(nodes, |nodes|)
    ensures r.Err? ==> r.error == InlineBlock
    ensures r.Ok? ==> Repaired(nodes, title, markdown, reported) == Ok(r.value.doc)
    ensures r.Ok? ==> Closed(r.value, markdown) && Represented(r.value.doc.blocks, markdown)
    ensures r.Ok? ==>
              && Assembled(nodes, title).Ok?
              && var first := Assembled(nodes, title).value;
                 SpansKept(first.blocks, r.value.doc.blocks, markdown, reported(first))
  {
    hide Assembled, Preserved, Sifted, Uncovered, Represented, TreeSpans, BlocksSpans, SpansKept, LedgerFindings, Ledger, Claims, AllBuild;
    AssembledBuilds(nodes, title);
    var first := Assemble(nodes, title);
    if first.Err? {
      return Err(first.error);
    }
    var doc := first.value;
    var uncovered := CheckUncovered(doc.blocks, markdown);
    var gaps := reported(doc) + uncovered;
    UncoveredExact(doc.blocks, markdown);
    SpansStay(nodes, title, markdown, reported(doc));
    if gaps != [] {
      var repaired := PreserveGaps(nodes, markdown, gaps);
      RepairAssembles(nodes, title, markdown, gaps);
      var second := Assemble(repaired, title);
      RepairCloses(nodes, title, markdown, gaps);
      doc := second.value;
      UncoveredExact(doc.blocks, markdown);
    }
    var claims := Gather(doc.blocks);
    var ledger := Account(claims, markdown);
    NoLedgerFindings(doc.blocks, markdown, ledger, |ledger|);
    forall i | 0 <= i < |ledger| ensures ledger[i].role != Unaccounted {
      LedgerCloses(doc.blocks, markdown, ledger, i);
    }
    r := Ok(Canonical(doc, ledger));
  }

  lemma {:induction false} SpansStay(nodes: seq<Node>, title: Title, markdown: string, reported: seq<Span>)
    requires Assembled(nodes, title).Ok?
    ensures
      var before := Assembled(nodes, title).value.blocks;
      var gaps := reported + Uncovered(before, markdown);
      && (gaps == [] ==> SpansKept(before, before, markdown, reported))
      && var repaired := Assembled(Preserved(nodes, markdown, Sifted(gaps), |Sifted(gaps)|), title);
         repaired.Ok? ==> SpansKept(before, repaired.value.blocks, markdown, reported)
  {
    hide Assembled, Preserved, Sifted, TreeSpans, BlocksSpans, Uncovered;
    var before := Assembled(nodes, title).value.blocks;
    var gaps := reported + Uncovered(before, markdown);
    var repaired := Preserved(nodes, markdown, Sifted(gaps), |Sifted(gaps)|);
    AssembledSpans(nodes, title);
    if Assembled(repaired, title).Ok? {
      AssembledSpans(repaired, title);
      forall g: Span ensures g in gaps <==> g in reported || g in Uncovered(before, markdown) {
        RepairAdds(nodes, markdown, gaps, g);
      }
      forall g: Span ensures TreeSpans(repaired, |repaired|)[g] == TreeSpans(nodes, |nodes|)[g] + if g in gaps && g.start < g.end <= |markdown| then 1 else 0 {
        RepairAdds(nodes, markdown, gaps, g);
      }
    }
  }
}
