/** The repair pass of canonicalization: what the parser dropped is kept as raw blocks, and the ledger closes. */
module Repair {
  import opened Common
  import opened Units
  import opened Documents
  import opened Assembly
  import opened Accounting
  import opened Gaps
  import Sorting

  // ---- Placing a node by its span

  predicate Holds(node: Node, span: Span) {
    node.BlockNode? && node.span.start <= span.start && span.end <= node.span.end
  }

  /** The first block among some nodes that holds a span. */
  function FirstHolding(nodes: seq<Node>, span: Span, i: nat): (r: Option<nat>)
    requires i <= |nodes|
    ensures r.Some? ==> i <= r.value < |nodes| && Holds(nodes[r.value], span)
    decreases |nodes| - i
  {
    if i == |nodes| then None else if Holds(nodes[i], span) then Some(i) else FirstHolding(nodes, span, i + 1)
  }

  function NodeStart(node: Node): Sorting.Key {
    (node.span.start, 0)
  }

  function WithNested(node: Node, children: seq<Node>): Node
    requires node.BlockNode?
  {
    BlockNode(node.kind, node.level, node.note, node.span, children)
  }

  /** `insert_definition`: a node inside the innermost block that holds its span, else in source order. */
  function Inserted(nodes: seq<Node>, node: Node): seq<Node>
    decreases nodes
  {
    match FirstHolding(nodes, node.span, 0)
    case Some(i) => nodes[i := WithNested(nodes[i], Inserted(nodes[i].children, node))]
    case None => Sorting.SortBy(nodes + [node], NodeStart)
  }

  method InsertNode(nodes: seq<Node>, node: Node) returns (r: seq<Node>)
    ensures r == Inserted(nodes, node)
    decreases nodes
  {
    var i := 0;
    while i < |nodes| && !Holds(nodes[i], node.span)
      invariant i <= |nodes| && FirstHolding(nodes, node.span, 0) == FirstHolding(nodes, node.span, i)
    {
      i := i + 1;
    }
    if i < |nodes| {
      var children := InsertNode(nodes[i].children, node);
      r := nodes[i := WithNested(nodes[i], children)];
    } else {
      r := Sorting.SortBy(nodes + [node], NodeStart);
    }
  }

  // ---- The spans of a tree's blocks

  /** The span of a block and those of the blocks inside it, inline content aside. */
  ghost function NodeSpans(node: Node): multiset<Span>
    decreases node, 0
  {
    if node.BlockNode? then multiset{node.span} + TreeSpans(node.children, |node.children|) else multiset{}
  }

  ghost function TreeSpans(nodes: seq<Node>, n: nat): multiset<Span>
    requires n <= |nodes|
    decreases nodes, n
  {
    if n == 0 then multiset{} else TreeSpans(nodes, n - 1) + NodeSpans(nodes[n - 1])
  }

  lemma {:induction false} TreePrefix(a: seq<Node>, b: seq<Node>, n: nat)
    requires n <= |a| && n <= |b| && a[..n] == b[..n]
    ensures TreeSpans(a, n) == TreeSpans(b, n)
  {
    hide NodeSpans;
    if n > 0 {
      assert a[n - 1] == a[..n][n - 1] == b[n - 1];
      assert a[..n - 1] == a[..n][..n - 1] && b[..n - 1] == b[..n][..n - 1];
      TreePrefix(a, b, n - 1);
    }
  }

  lemma {:induction false} TreeThen(a: seq<Node>, b: seq<Node>, n: nat)
    requires n <= |b|
    ensures TreeSpans(a + b, |a| + n) == TreeSpans(a, |a|) + TreeSpans(b, n)
  {
    hide NodeSpans;
    if n == 0 {
      assert (a + b)[..|a|] == a[..|a|];
      TreePrefix(a + b, a, |a|);
    } else {
      TreeThen(a, b, n - 1);
    }
  }

  lemma {:induction false} TreeOne(node: Node)
    ensures TreeSpans([node], 1) == NodeSpans(node)
  {
    hide NodeSpans;
    assert TreeSpans([node], 0) == multiset{};
  }

  lemma {:induction false} TreeFirst(node: Node, rest: seq<Node>)
    ensures TreeSpans([node] + rest, |rest| + 1) == NodeSpans(node) + TreeSpans(rest, |rest|)
  {
    hide NodeSpans, TreeSpans;
    TreeThen([node], rest, |rest|);
    TreeOne(node);
  }

  lemma {:induction false} InsertKeeps(node: Node, nodes: seq<Node>)
    ensures
      var r := Sorting.Insert(node, nodes, NodeStart);
      TreeSpans(r, |r|) == NodeSpans(node) + TreeSpans(nodes, |nodes|)
  {
    hide NodeSpans, TreeSpans;
    if nodes == [] {
      TreeFirst(node, []);
      assert [node] + [] == [node];
    } else if Sorting.Leq(NodeStart(node), NodeStart(nodes[0])) {
      TreeFirst(node, nodes);
    } else {
      InsertKeeps(node, nodes[1..]);
      TreeFirst(nodes[0], Sorting.Insert(node, nodes[1..], NodeStart));
      TreeFirst(nodes[0], nodes[1..]);
      assert nodes == [nodes[0]] + nodes[1..];
    }
  }

  lemma {:induction false} SortKeeps(nodes: seq<Node>)
    ensures
      var r := Sorting.SortBy(nodes, NodeStart);
      TreeSpans(r, |r|) == TreeSpans(nodes, |nodes|)
  {
    hide NodeSpans, TreeSpans;
    if nodes != [] {
      SortKeeps(nodes[1..]);
      InsertKeeps(nodes[0], Sorting.SortBy(nodes[1..], NodeStart));
      TreeFirst(nodes[0], nodes[1..]);
      assert nodes == [nodes[0]] + nodes[1..];
    }
  }

  lemma {:induction false} UpdateKeeps(nodes: seq<Node>, i: nat, node: Node, added: multiset<Span>)
    requires i < |nodes| && NodeSpans(node) == NodeSpans(nodes[i]) + added
    ensures TreeSpans(nodes[i := node], |nodes|) == TreeSpans(nodes, |nodes|) + added
  {
    hide NodeSpans, TreeSpans;
    var before, after := nodes[..i], nodes[i + 1..];
    assert nodes == before + ([nodes[i]] + after) && nodes[i := node] == before + ([node] + after);
    TreeThen(before, [nodes[i]] + after, |after| + 1);
    TreeThen(before, [node] + after, |after| + 1);
    TreeFirst(nodes[i], after);
    TreeFirst(node, after);
  }

  lemma {:induction false} NestedSpans(node: Node, children: seq<Node>, added: multiset<Span>)
    requires node.BlockNode? && TreeSpans(children, |children|) == TreeSpans(node.children, |node.children|) + added
    ensures NodeSpans(WithNested(node, children)) == NodeSpans(node) + added
  {
    hide TreeSpans;
  }

  /** Inserting a node adds its spans and keeps every other block's. */
  lemma {:induction false} InsertedSpans(nodes: seq<Node>, node: Node)
    ensures
      var r := Inserted(nodes, node);
      TreeSpans(r, |r|) == TreeSpans(nodes, |nodes|) + NodeSpans(node)
    decreases nodes
  {
    hide TreeSpans, NodeSpans, Sorting.SortBy, WithNested;
    match FirstHolding(nodes, node.span, 0)
    case Some(i) =>
      InsertedSpans(nodes[i].children, node);
      var children := Inserted(nodes[i].children, node);
      NestedSpans(nodes[i], children, NodeSpans(node));
      UpdateKeeps(nodes, i, WithNested(nodes[i], children), NodeSpans(node));
    case None =>
      SortKeeps(nodes + [node]);
      TreeThen(nodes, [node], 1);
      TreeOne(node);
      assert |nodes + [node]| == |nodes| + 1;
  }

  // ---- Where a node is put

  /** Nodes in source order, at every level. */
  ghost predicate SourceOrder(nodes: seq<Node>)
    decreases nodes
  {
    && (forall i, j :: 0 <= i < j < |nodes| ==> nodes[i].span.start <= nodes[j].span.start)
    && forall i :: 0 <= i < |nodes| ==> SourceOrder(nodes[i].children)
  }

  /** One node more among its siblings, after all that start no later. */
  ghost predicate JoinsAt(nodes: seq<Node>, node: Node, r: seq<Node>, p: nat) {
    && p <= |nodes| && r == nodes[..p] + [node] + nodes[p..]
    && (forall i :: 0 <= i < p ==> nodes[i].span.start <= node.span.start)
    && forall i :: p <= i < |nodes| ==> node.span.start < nodes[i].span.start
  }

  /** The first sibling that holds the node takes it in, and nothing else of it or of its siblings changes. */
  ghost predicate TakesIn(nodes: seq<Node>, node: Node, r: seq<Node>, i: nat)
    decreases nodes, 0
  {
    && i < |nodes| && |r| == |nodes| && Holds(nodes[i], node.span)
    && (forall j :: 0 <= j < i ==> !Holds(nodes[j], node.span))
    && (forall j :: 0 <= j < |nodes| && j != i ==> r[j] == nodes[j])
    && r[i] == WithNested(nodes[i], r[i].children)
    && Puts(nodes[i].children, node, r[i].children)
  }

  /** A node is put into the innermost block that holds it, there among its siblings in source order. */
  ghost predicate Puts(nodes: seq<Node>, node: Node, r: seq<Node>)
    decreases nodes, 1
  {
    || (exists i: nat :: TakesIn(nodes, node, r, i))
    || ((forall j :: 0 <= j < |nodes| ==> !Holds(nodes[j], node.span)) && exists p: nat :: JoinsAt(nodes, node, r, p))
  }

  lemma {:induction false} SortJoins(nodes: seq<Node>, node: Node) returns (p: nat)
    requires forall i, j :: 0 <= i < j < |nodes| ==> nodes[i].span.start <= nodes[j].span.start
    ensures JoinsAt(nodes, node, Sorting.SortBy(nodes + [node], NodeStart), p)
  {
    hide JoinsAt;
    if nodes == [] {
      p := 0;
      assert [] + [node] == [node] && [node][1..] == [];
      JoinsFirst(node);
    } else {
      var rest := nodes[1..];
      var q := SortJoins(rest, node);
      assert (nodes + [node])[1..] == rest + [node] && (nodes + [node])[0] == nodes[0];
      p := JoinsMore(nodes, node, Sorting.SortBy(rest + [node], NodeStart), q);
    }
  }

  lemma {:induction false} JoinsFirst(node: Node)
    ensures JoinsAt([], node, [node], 0)
  {
  }

  lemma {:induction false} JoinsMore(nodes: seq<Node>, node: Node, sorted: seq<Node>, q: nat) returns (p: nat)
    requires nodes != [] && JoinsAt(nodes[1..], node, sorted, q)
    requires forall i, j :: 0 <= i < j < |nodes| ==> nodes[i].span.start <= nodes[j].span.start
    ensures JoinsAt(nodes, node, Sorting.Insert(nodes[0], sorted, NodeStart), p)
  {
    var rest := nodes[1..];
    assert nodes == [nodes[0]] + rest;
    if q == 0 && node.span.start < nodes[0].span.start {
      p := 0;
      assert sorted == [node] + rest && sorted[1..] == rest;
      InsertFirst(nodes[0], rest);
    } else {
      p := q + 1;
      assert sorted[0] == if q == 0 then node else rest[0];
      assert Sorting.Insert(nodes[0], sorted, NodeStart) == [nodes[0]] + sorted;
      JoinsAfter(nodes, node, sorted, q);
    }
  }

  lemma {:induction false} JoinsAfter(nodes: seq<Node>, node: Node, sorted: seq<Node>, q: nat)
    requires nodes != [] && JoinsAt(nodes[1..], node, sorted, q) && nodes[0].span.start <= node.span.start
    ensures JoinsAt(nodes, node, [nodes[0]] + sorted, q + 1)
  {
    var (rest, p) := (nodes[1..], q + 1);
    assert nodes[..p] == [nodes[0]] + rest[..q] && nodes[p..] == rest[q..];
    forall i | 0 <= i < p ensures nodes[i].span.start <= node.span.start {
      assert i > 0 ==> rest[i - 1] == nodes[i];
    }
    forall i | p <= i < |nodes| ensures node.span.start < nodes[i].span.start {
      assert rest[i - 1] == nodes[i];
    }
  }

  lemma {:induction false} InsertFirst(node: Node, rest: seq<Node>)
    requires forall i :: 0 <= i < |rest| ==> node.span.start <= rest[i].span.start
    ensures Sorting.Insert(node, rest, NodeStart) == [node] + rest
  {
  }

  lemma {:induction false} FirstHolds(nodes: seq<Node>, span: Span, i: nat)
    requires i <= |nodes|
    ensures
      match FirstHolding(nodes, span, i)
      case Some(k) => forall j :: i <= j < k ==> !Holds(nodes[j], span)
      case None => forall j :: i <= j < |nodes| ==> !Holds(nodes[j], span)
    decreases |nodes| - i
  {
    if i < |nodes| && !Holds(nodes[i], span) {
      FirstHolds(nodes, span, i + 1);
    }
  }

  /** Among nodes in source order, a node is put where it belongs, and source order is kept. */
  lemma {:induction false} InsertedInOrder(nodes: seq<Node>, node: Node)
    requires SourceOrder(nodes) && SourceOrder(node.children)
    ensures Puts(nodes, node, Inserted(nodes, node)) && SourceOrder(Inserted(nodes, node))
    decreases nodes
  {
    hide Sorting.SortBy, SourceOrder, Puts, TakesIn, JoinsAt, Holds;
    FirstHolds(nodes, node.span, 0);
    OrderInside(nodes);
    match FirstHolding(nodes, node.span, 0)
    case Some(i) =>
      InsertedInOrder(nodes[i].children, node);
      TakenIn(nodes, node, i);
    case None =>
      var p := SortJoins(nodes, node);
      JoinedInOrder(nodes, node, Inserted(nodes, node), p);
  }

  lemma {:induction false} OrderInside(nodes: seq<Node>)
    requires SourceOrder(nodes)
    ensures forall i, j :: 0 <= i < j < |nodes| ==> nodes[i].span.start <= nodes[j].span.start
    ensures forall i :: 0 <= i < |nodes| ==> SourceOrder(nodes[i].children)
  {
  }

  lemma {:induction false} TakenIn(nodes: seq<Node>, node: Node, i: nat)
    requires i < |nodes| && Holds(nodes[i], node.span) && forall j :: 0 <= j < i ==> !Holds(nodes[j], node.span)
    requires SourceOrder(nodes)
    requires Puts(nodes[i].children, node, Inserted(nodes[i].children, node)) && SourceOrder(Inserted(nodes[i].children, node))
    ensures
      var r := nodes[i := WithNested(nodes[i], Inserted(nodes[i].children, node))];
      Puts(nodes, node, r) && SourceOrder(r)
  {
    hide Inserted, Sorting.SortBy;
    var r := nodes[i := WithNested(nodes[i], Inserted(nodes[i].children, node))];
    assert TakesIn(nodes, node, r, i);
  }

  lemma {:induction false} JoinedInOrder(nodes: seq<Node>, node: Node, r: seq<Node>, p: nat)
    requires JoinsAt(nodes, node, r, p) && SourceOrder(nodes) && SourceOrder(node.children)
    requires forall j :: 0 <= j < |nodes| ==> !Holds(nodes[j], node.span)
    ensures Puts(nodes, node, r) && SourceOrder(r)
  {
    assert r[p] == node;
    forall i | 0 <= i < |r| ensures SourceOrder(r[i].children) && (i < p ==> r[i] == nodes[i]) && (i > p ==> r[i] == nodes[i - 1]) {
    }
  }

  // ---- Keeping gaps

  function SpanKey(span: Span): Sorting.Key {
    (span.start, span.end)
  }

  /** A gap as a raw block that holds its text. */
  function RawNode(markdown: string, span: Span): Node
    requires span.Valid(markdown)
  {
    BlockNode(Raw, 0, NoNote, span, [InlineNode(Text(markdown[span.start..span.end]), span, [])])
  }

  predicate Keepable(markdown: string, span: Span) {
    span.start < span.end && span.Valid(markdown)
  }

  function Preserved(nodes: seq<Node>, markdown: string, gaps: seq<Span>, n: nat): seq<Node>
    requires n <= |gaps|
  {
    if n == 0 then nodes
    else
      var before := Preserved(nodes, markdown, gaps, n - 1);
      if Keepable(markdown, gaps[n - 1]) then Inserted(before, RawNode(markdown, gaps[n - 1])) else before
  }

  function Sifted(gaps: seq<Span>): seq<Span> {
    var sorted := Sorting.SortBy(gaps, SpanKey);
    Dedup(sorted, |sorted|)
  }

  /** `preserve_gaps`: each distinct gap once, in order, as a raw block where its span belongs. */
  method PreserveGaps(nodes: seq<Node>, markdown: string, gaps: seq<Span>) returns (r: seq<Node>)
    ensures r == Preserved(nodes, markdown, Sifted(gaps), |Sifted(gaps)|)
  {
    hide Inserted;
    var sorted := Sorting.SortBy(gaps, SpanKey);
    var sifted: seq<Span> := [];
    for i := 0 to |sorted|
      invariant sifted == Dedup(sorted, i)
    {
      if i == 0 || sorted[i] != sorted[i - 1] {
        sifted := sifted + [sorted[i]];
      }
    }
    r := nodes;
    for i := 0 to |sifted|
      invariant r == Preserved(nodes, markdown, sifted, i)
    {
      if sifted[i].start < sifted[i].end && sifted[i].Valid(markdown) {
        r := InsertNode(r, RawNode(markdown, sifted[i]));
      }
    }
  }

  lemma {:induction false} DedupedDistinct(gaps: seq<Span>, n: nat)
    requires n <= |gaps| && Sorting.Sorted(gaps, SpanKey)
    ensures forall g :: g in Dedup(gaps, n) <==> g in gaps[..n]
    ensures forall g :: multiset(Dedup(gaps, n))[g] <= 1
  {
    if n > 0 {
      DedupedDistinct(gaps, n - 1);
      assert gaps[..n] == gaps[..n - 1] + [gaps[n - 1]];
      if n > 1 && gaps[n - 1] == gaps[n - 2] {
        assert gaps[n - 2] in gaps[..n - 1];
      } else {
        assert gaps[n - 1] !in gaps[..n - 1] by {
          SortedApart(gaps, n);
        }
        assert gaps[n - 1] !in multiset(Dedup(gaps, n - 1));
      }
    }
  }

  lemma {:induction false} SortedApart(gaps: seq<Span>, n: nat)
    requires 0 < n <= |gaps| && Sorting.Sorted(gaps, SpanKey)
    requires n > 1 ==> gaps[n - 1] != gaps[n - 2]
    ensures gaps[n - 1] !in gaps[..n - 1]
  {
    forall i | 0 <= i < n - 1 ensures gaps[i] != gaps[n - 1] {
      if i < n - 2 {
        assert Sorting.Leq(SpanKey(gaps[i]), SpanKey(gaps[n - 2]));
      }
      assert Sorting.Leq(SpanKey(gaps[n - 2]), SpanKey(gaps[n - 1]));
    }
  }

  lemma {:induction false} SiftedAre(gaps: seq<Span>)
    ensures forall g :: g in Sifted(gaps) <==> g in gaps
    ensures forall g :: multiset(Sifted(gaps))[g] <= 1
  {
    hide Dedup;
    var sorted := Sorting.SortBy(gaps, SpanKey);
    Sorting.SortBySorted(gaps, SpanKey);
    DedupedDistinct(sorted, |sorted|);
    assert sorted[..|sorted|] == sorted;
    forall g ensures g in sorted <==> g in gaps {
      Sorting.MemberOfEqualMultisets(sorted, gaps, g);
    }
  }

  /** The gaps among the first n that become blocks. */
  ghost function Kept(markdown: string, gaps: seq<Span>, n: nat): multiset<Span>
    requires n <= |gaps|
  {
    if n == 0 then multiset{}
    else Kept(markdown, gaps, n - 1) + if Keepable(markdown, gaps[n - 1]) then multiset{gaps[n - 1]} else multiset{}
  }

  lemma {:induction false} PreservedSpans(nodes: seq<Node>, markdown: string, gaps: seq<Span>, n: nat)
    requires n <= |gaps|
    ensures
      var r := Preserved(nodes, markdown, gaps, n);
      TreeSpans(r, |r|) == TreeSpans(nodes, |nodes|) + Kept(markdown, gaps, n)
  {
    hide TreeSpans, Inserted;
    if n > 0 {
      PreservedSpans(nodes, markdown, gaps, n - 1);
      if Keepable(markdown, gaps[n - 1]) {
        InsertedSpans(Preserved(nodes, markdown, gaps, n - 1), RawNode(markdown, gaps[n - 1]));
        RawSpans(markdown, gaps[n - 1]);
      }
    }
  }

  /** The repair keeps a tree in source order. */
  lemma {:induction false} PreservedInOrder(nodes: seq<Node>, markdown: string, gaps: seq<Span>, n: nat)
    requires n <= |gaps| && SourceOrder(nodes)
    ensures SourceOrder(Preserved(nodes, markdown, gaps, n))
  {
    hide Inserted, SourceOrder;
    if n > 0 {
      PreservedInOrder(nodes, markdown, gaps, n - 1);
      if Keepable(markdown, gaps[n - 1]) {
        RawInOrder(markdown, gaps[n - 1]);
        InsertedInOrder(Preserved(nodes, markdown, gaps, n - 1), RawNode(markdown, gaps[n - 1]));
      }
    }
  }

  lemma {:induction false} RawInOrder(markdown: string, span: Span)
    requires span.Valid(markdown)
    ensures SourceOrder(RawNode(markdown, span).children)
  {
    assert RawNode(markdown, span).children[0].children == [];
  }

  // ---- What a kept gap becomes

  predicate IsRaw(node: Node, markdown: string, gap: Span) {
    && gap.Valid(markdown) && node.BlockNode? && node.kind == Raw && node.span == gap
    && InlineNode(Text(markdown[gap.start..gap.end]), gap, []) in node.children
  }

  /** Whether a tree has a raw block that holds a gap's text. */
  ghost predicate HasRaw(nodes: seq<Node>, markdown: string, gap: Span)
    decreases nodes
  {
    exists i :: 0 <= i < |nodes| && (IsRaw(nodes[i], markdown, gap) || HasRaw(nodes[i].children, markdown, gap))
  }

  lemma {:induction false} JoinedHolds(nodes: seq<Node>, node: Node)
    ensures var r := Sorting.SortBy(nodes + [node], NodeStart); node in r && forall other :: other in nodes ==> other in r
  {
    var r := Sorting.SortBy(nodes + [node], NodeStart);
    forall other ensures other in r <==> other in nodes + [node] {
      Sorting.MemberOfEqualMultisets(r, nodes + [node], other);
    }
  }

  /** A node that is put into a tree leaves every node there, with its children and perhaps one more. */
  lemma {:induction false} InsertedMembers(nodes: seq<Node>, node: Node, child: Node)
    requires child in nodes
    ensures exists other :: other in Inserted(nodes, node) && (other == child || (child.BlockNode? && other == WithNested(child, Inserted(child.children, node))))
  {
    var k :| 0 <= k < |nodes| && nodes[k] == child;
    match FirstHolding(nodes, node.span, 0)
    case Some(i) => assert Inserted(nodes, node)[k] in Inserted(nodes, node);
    case None =>
      JoinedHolds(nodes, node);
      assert child in Inserted(nodes, node);
  }

  lemma {:induction false} InsertedKeepsRaw(nodes: seq<Node>, node: Node, markdown: string, gap: Span)
    requires HasRaw(nodes, markdown, gap)
    ensures HasRaw(Inserted(nodes, node), markdown, gap)
    decreases nodes
  {
    hide Inserted, IsRaw;
    var i :| 0 <= i < |nodes| && (IsRaw(nodes[i], markdown, gap) || HasRaw(nodes[i].children, markdown, gap));
    InsertedMembers(nodes, node, nodes[i]);
    var other :| other in Inserted(nodes, node) && (other == nodes[i] || (nodes[i].BlockNode? && other == WithNested(nodes[i], Inserted(nodes[i].children, node))));
    var j :| 0 <= j < |Inserted(nodes, node)| && Inserted(nodes, node)[j] == other;
    if other != nodes[i] {
      if HasRaw(nodes[i].children, markdown, gap) {
        InsertedKeepsRaw(nodes[i].children, node, markdown, gap);
      } else {
        RawStays(nodes[i], node, markdown, gap);
      }
    }
  }

  /** A raw block that takes a node in still holds its text: a text node is no block. */
  lemma {:induction false} RawStays(raw: Node, node: Node, markdown: string, gap: Span)
    requires IsRaw(raw, markdown, gap)
    ensures IsRaw(WithNested(raw, Inserted(raw.children, node)), markdown, gap)
  {
    hide Inserted;
    InsertedMembers(raw.children, node, InlineNode(Text(markdown[gap.start..gap.end]), gap, []));
  }

  lemma {:induction false} InsertedHasRaw(nodes: seq<Node>, markdown: string, gap: Span)
    requires gap.Valid(markdown)
    ensures HasRaw(Inserted(nodes, RawNode(markdown, gap)), markdown, gap)
    decreases nodes
  {
    var r := Inserted(nodes, RawNode(markdown, gap));
    match FirstHolding(nodes, gap, 0)
    case Some(i) =>
      InsertedHasRaw(nodes[i].children, markdown, gap);
      assert HasRaw(r[i].children, markdown, gap);
    case None =>
      JoinedHolds(nodes, RawNode(markdown, gap));
      MemberHasRaw(r, markdown, gap);
  }

  lemma {:induction false} MemberHasRaw(nodes: seq<Node>, markdown: string, gap: Span)
    requires gap.Valid(markdown) && RawNode(markdown, gap) in nodes
    ensures HasRaw(nodes, markdown, gap)
  {
    var j :| 0 <= j < |nodes| && nodes[j] == RawNode(markdown, gap);
    assert IsRaw(nodes[j], markdown, gap);
  }

  lemma {:induction false} PreservedRaw(nodes: seq<Node>, markdown: string, gaps: seq<Span>, n: nat, i: nat)
    requires i < n <= |gaps| && Keepable(markdown, gaps[i])
    ensures HasRaw(Preserved(nodes, markdown, gaps, n), markdown, gaps[i])
  {
    hide Inserted, HasRaw, RawNode;
    if i < n - 1 {
      PreservedRaw(nodes, markdown, gaps, n - 1, i);
      if Keepable(markdown, gaps[n - 1]) {
        InsertedKeepsRaw(Preserved(nodes, markdown, gaps, n - 1), RawNode(markdown, gaps[n - 1]), markdown, gaps[i]);
      }
    } else {
      InsertedHasRaw(Preserved(nodes, markdown, gaps, n - 1), markdown, gaps[i]);
    }
  }

  /** After the repair every nonempty valid gap that was reported is a raw block that holds its text as it stands in the source. */
  lemma {:induction false} RepairKeepsText(nodes: seq<Node>, markdown: string, gaps: seq<Span>, gap: Span)
    requires gap in gaps && gap.start < gap.end <= |markdown|
    ensures HasRaw(Preserved(nodes, markdown, Sifted(gaps), |Sifted(gaps)|), markdown, gap)
  {
    hide Preserved, Sifted, HasRaw;
    SiftedAre(gaps);
    var i :| 0 <= i < |Sifted(gaps)| && Sifted(gaps)[i] == gap;
    PreservedRaw(nodes, markdown, Sifted(gaps), |Sifted(gaps)|, i);
  }

  lemma {:induction false} RawSpans(markdown: string, span: Span)
    requires span.Valid(markdown)
    ensures NodeSpans(RawNode(markdown, span)) == multiset{span}
  {
    var text := InlineNode(Text(markdown[span.start..span.end]), span, []);
    TreeOne(text);
    assert NodeSpans(text) == multiset{};
    assert RawNode(markdown, span).children == [text];
  }

  lemma {:induction false} KeptCounts(markdown: string, gaps: seq<Span>, n: nat, g: Span)
    requires n <= |gaps|
    ensures Kept(markdown, gaps, n)[g] == if Keepable(markdown, g) then multiset(gaps[..n])[g] else 0
  {
    if n > 0 {
      KeptCounts(markdown, gaps, n - 1, g);
      assert gaps[..n] == gaps[..n - 1] + [gaps[n - 1]];
    }
  }

  /**
   * The repair keeps every block of the tree and adds exactly one raw block for every distinct gap
   * that is nonempty and valid, whatever else was reported twice or out of order.
   */
  lemma {:induction false} RepairAdds(nodes: seq<Node>, markdown: string, gaps: seq<Span>, g: Span)
    ensures
      var r := Preserved(nodes, markdown, Sifted(gaps), |Sifted(gaps)|);
      TreeSpans(r, |r|)[g] == TreeSpans(nodes, |nodes|)[g] + if g in gaps && g.start < g.end <= |markdown| then 1 else 0
  {
    hide TreeSpans, Preserved, Sifted;
    var sifted := Sifted(gaps);
    SiftedAre(gaps);
    PreservedSpans(nodes, markdown, sifted, |sifted|);
    KeptCounts(markdown, sifted, |sifted|, g);
    assert sifted[..|sifted|] == sifted;
    assert g in sifted <==> multiset(sifted)[g] > 0;
  }
}
