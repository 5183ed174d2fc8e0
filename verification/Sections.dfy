/**
 * Checking a document's sections, and what the heading stack builds against a definition by scope.
 */
module Sections {
  import opened Common
  import opened Units
  import opened Documents
  import opened Assembly
  import opened Brackets

  // ---- The check

  datatype Finding = ParentMissing | ParentNotShallower | Inconsistent | Duplicate | BlockContext(block: Id)

  /** The heading path a section inherits from its parent, which must be an earlier, shallower one. */
  function Inherited(seen: map<Id, Section>, section: Section): (seq<string>, seq<Finding>) {
    match section.parent
    case None => ([], [])
    case Some(parent) =>
      if parent !in seen then ([], [ParentMissing])
      else (seen[parent].path, if seen[parent].level >= section.level then [ParentNotShallower] else [])
  }

  function Seen(sections: seq<Section>, n: nat): map<Id, Section>
    requires n <= |sections|
  {
    if n == 0 then map[] else Seen(sections, n - 1)[sections[n - 1].id := sections[n - 1]]
  }

  function SectionFindings(blocks: map<Id, Block>, seen: map<Id, Section>, section: Section): seq<Finding> {
    var (path, findings) := Inherited(seen, section);
    findings
    + (if || path + [section.title] != section.path
          || !(1 <= section.level <= 6)
          || section.id !in blocks || !blocks[section.id].kind.Heading? then [Inconsistent] else [])
    + if section.id in seen then [Duplicate] else []
  }

  function BlockFindings(seen: map<Id, Section>, block: Block): seq<Finding> {
    var expected :=
      if block.kind.Heading? then if block.id in seen then seen[block.id].path else []
      else if block.section.Some? && block.section.value in seen then seen[block.section.value].path else [];
    if expected != block.path || (block.section.Some? && block.section.value !in seen) then [BlockContext(block.id)] else []
  }

  /** What the first n sections report. */
  function SectionReport(doc: Doc, n: nat): seq<Finding>
    requires n <= |doc.sections|
  {
    if n == 0 then []
    else SectionReport(doc, n - 1) + SectionFindings(ById(doc.blocks, |doc.blocks|), Seen(doc.sections, n - 1), doc.sections[n - 1])
  }

  /** What the sections and then the first n blocks report. */
  function Report(doc: Doc, n: nat): seq<Finding>
    requires n <= |doc.blocks|
  {
    if n == 0 then SectionReport(doc, |doc.sections|)
    else Report(doc, n - 1) + BlockFindings(Seen(doc.sections, |doc.sections|), doc.blocks[n - 1])
  }

  /** `validate_sections`: every finding on sections, then on the blocks' heading context. */
  method ValidateSections(doc: Doc) returns (findings: seq<Finding>)
    ensures findings == Report(doc, |doc.blocks|)
  {
    hide SectionFindings, BlockFindings;
    var blocks: map<Id, Block> := map[];
    for i := 0 to |doc.blocks|
      invariant blocks == ById(doc.blocks, i)
    {
      blocks := blocks[doc.blocks[i].id := doc.blocks[i]];
    }
    findings := [];
    var seen: map<Id, Section> := map[];
    for i := 0 to |doc.sections|
      invariant seen == Seen(doc.sections, i) && findings == SectionReport(doc, i)
    {
      findings := findings + SectionFindings(blocks, seen, doc.sections[i]);
      seen := seen[doc.sections[i].id := doc.sections[i]];
    }
    for i := 0 to |doc.blocks|
      invariant findings == Report(doc, i)
    {
      findings := findings + BlockFindings(seen, doc.blocks[i]);
    }
  }

  // ---- What assembling keeps

  /** A section inside an earlier, shallower one, or at the top, with its path. */
  ghost predicate SectionSound(sections: seq<Section>, s: Section) {
    && 1 <= s.level <= 6
    && match s.parent
       case None => s.path == [s.title]
       case Some(parent) =>
         exists q :: q in sections && q.id == parent && q.id < s.id && q.level < s.level && s.path == q.path + [s.title]
  }

  /** A block with the path of its own section, if it is a heading, or of the one it lies in. */
  ghost predicate BlockSound(sections: seq<Section>, block: Block) {
    if block.kind.Heading? then
      exists s :: s in sections && s.id == block.id && s.path == block.path && s.parent == block.section
    else
      match block.section
      case None => block.path == []
      case Some(section) => exists s :: s in sections && s.id == section && s.path == block.path
  }

  ghost predicate SectionAt(doc: Doc, i: nat)
    requires i < |doc.sections|
  {
    var s := doc.sections[i];
    && SectionSound(doc.sections, s)
    && s.id < |doc.blocks| && doc.blocks[s.id].kind.Heading?
    && forall j :: 0 <= j < i ==> doc.sections[j].id < s.id
  }

  ghost predicate Sound(doc: Doc) {
    && (forall i :: 0 <= i < |doc.blocks| ==> doc.blocks[i].id == i && BlockSound(doc.sections, doc.blocks[i]))
    && forall i :: 0 <= i < |doc.sections| ==> SectionAt(doc, i)
  }

  /** A stack of sections, each inside the one below it. */
  ghost predicate ContextSound(sections: seq<Section>, context: Context) {
    forall k :: 0 <= k < |context| ==>
      context[k] in sections && context[k].path == Titles(context[..k + 1])
  }

  ghost predicate LevelsOk(node: Node)
    decreases node, 0
  {
    node.BlockNode? ==> (node.kind.Heading? ==> 1 <= node.level <= 6) && AllLevelsOk(node.children, |node.children|)
  }

  /** The levels of the headings among the first n nodes, and inside them, are Markdown's. */
  ghost predicate AllLevelsOk(nodes: seq<Node>, n: nat)
    requires n <= |nodes|
    decreases nodes, n
  {
    n > 0 ==> AllLevelsOk(nodes, n - 1) && LevelsOk(nodes[n - 1])
  }

  ghost predicate Grown(a: seq<Section>, b: seq<Section>) {
    forall s :: s in a ==> s in b
  }

  lemma {:induction false} PoppedIsPrefix(context: Context, level: nat)
    ensures |Popped(context, level)| <= |context| && Popped(context, level) == context[..|Popped(context, level)|]
    ensures Popped(context, level) != [] ==> Popped(context, level)[|Popped(context, level)| - 1].level < level
  {
    if context != [] && context[|context| - 1].level >= level {
      PoppedIsPrefix(context[..|context| - 1], level);
    }
  }

  lemma {:induction false} ContextPrefix(sections: seq<Section>, context: Context, n: nat)
    requires ContextSound(sections, context) && n <= |context|
    ensures ContextSound(sections, context[..n])
  {
    var shorter := context[..n];
    forall k | 0 <= k < n ensures shorter[k] in sections && shorter[k].path == Titles(shorter[..k + 1]) {
      assert shorter[..k + 1] == context[..k + 1];
    }
  }

  lemma {:induction false} ContextGrows(a: seq<Section>, b: seq<Section>, context: Context)
    requires ContextSound(a, context) && Grown(a, b)
    ensures ContextSound(b, context)
  {
  }

  lemma {:induction false} ContextEnters(sections: seq<Section>, context: Context, s: Section)
    requires ContextSound(sections, context) && s.path == Titles(context) + [s.title]
    ensures ContextSound(sections + [s], context + [s])
  {
    var inside := context + [s];
    forall k | 0 <= k < |inside| ensures inside[k] in sections + [s] && inside[k].path == Titles(inside[..k + 1]) {
      if k < |context| {
        assert inside[..k + 1] == context[..k + 1];
      } else {
        assert inside[..k + 1] == inside;
      }
    }
  }

  /** Where a block of a heading stack lies. */
  lemma {:induction false} TopPath(sections: seq<Section>, context: Context)
    requires ContextSound(sections, context) && context != []
    ensures context[|context| - 1] in sections && context[|context| - 1].path == Titles(context)
  {
    assert context[..|context|] == context;
  }

  lemma {:induction false} SoundGrows(doc: Doc, block: Block, added: seq<Section>)
    requires Sound(doc) && |added| <= 1 && block.id == |doc.blocks|
    requires BlockSound(doc.sections + added, block)
    requires added != [] ==> added[0].id == block.id && block.kind.Heading? && SectionSound(doc.sections + added, added[0])
    ensures Sound(Doc(doc.blocks + [block], doc.sections + added))
  {
    var next := Doc(doc.blocks + [block], doc.sections + added);
    forall i | 0 <= i < |next.blocks| ensures next.blocks[i].id == i && BlockSound(next.sections, next.blocks[i]) {
      if i < |doc.blocks| {
        BlockGrows(doc.sections, added, doc.blocks[i]);
      }
    }
    forall i | 0 <= i < |next.sections| ensures SectionAt(next, i) {
      if i < |doc.sections| {
        assert SectionAt(doc, i);
        SectionGrows(doc.sections, added, doc.sections[i]);
      } else {
        forall j | 0 <= j < i ensures next.sections[j].id < next.sections[i].id {
          assert SectionAt(doc, j);
        }
      }
    }
  }

  lemma {:induction false} BlockGrows(sections: seq<Section>, added: seq<Section>, block: Block)
    requires BlockSound(sections, block)
    ensures BlockSound(sections + added, block)
  {
    if block.kind.Heading? {
      var s :| s in sections && s.id == block.id && s.path == block.path && s.parent == block.section;
      assert s in sections + added;
    } else if block.section.Some? {
      var s :| s in sections && s.id == block.section.value && s.path == block.path;
      assert s in sections + added;
    }
  }

  lemma {:induction false} SectionGrows(sections: seq<Section>, added: seq<Section>, s: Section)
    requires SectionSound(sections, s)
    ensures SectionSound(sections + added, s)
  {
    if s.parent.Some? {
      var q :| q in sections && q.id == s.parent.value && q.id < s.id && q.level < s.level && s.path == q.path + [s.title];
      assert q in sections + added;
    }
  }

  /** Opening a block keeps the document sound, and its stack with it. */
  lemma {:induction false} OpenedSound(doc: Doc, node: Node, parent: Option<Id>, context: Context, title: Title)
    requires Sound(doc) && ContextSound(doc.sections, context) && node.BlockNode? && LevelsOk(node)
    ensures
      var next := Opened(doc, node, parent, context, title);
      && Sound(next) && ContextSound(next.sections, Entered(context, node, |doc.blocks|, title))
      && Grown(doc.sections, next.sections) && |next.blocks| == |doc.blocks| + 1
  {
    hide Popped, Sound, ContextSound, AllLevelsOk;
    var id := |doc.blocks|;
    var block := Opened(doc, node, parent, context, title).blocks[id];
    if node.kind.Heading? {
      var outer := Popped(context, node.level);
      PoppedIsPrefix(context, node.level);
      ContextPrefix(doc.sections, context, |outer|);
      var own := Section(id, LastId(outer), node.level, title(node), Titles(outer) + [title(node)]);
      ContextEnters(doc.sections, outer, own);
      if outer != [] {
        TopPath(doc.sections, outer);
        BelowBlocks(doc, outer[|outer| - 1]);
        assert outer[|outer| - 1] in doc.sections + [own];
      }
      assert own in doc.sections + [own];
      assert Titles(outer + [own]) == Titles(outer) + [own.title];
      SoundGrows(doc, block, [own]);
    } else {
      if context != [] {
        TopPath(doc.sections, context);
        assert context[|context| - 1] in doc.sections + [];
      }
      assert doc.sections + [] == doc.sections;
      SoundGrows(doc, block, []);
    }
  }

  lemma {:induction false} BelowBlocks(doc: Doc, s: Section)
    requires Sound(doc) && s in doc.sections
    ensures s.id < |doc.blocks|
  {
    var i :| 0 <= i < |doc.sections| && doc.sections[i] == s;
    assert SectionAt(doc, i);
  }

  lemma {:induction false} ChildrenSound(doc: Doc, id: nat, children: seq<Child>)
    requires Sound(doc) && id < |doc.blocks|
    ensures Sound(WithChildren(doc, id, children))
  {
    var next := WithChildren(doc, id, children);
    forall i | 0 <= i < |next.sections| ensures SectionAt(next, i) {
      assert SectionAt(doc, i);
    }
    forall i | 0 <= i < |next.blocks| ensures next.blocks[i].id == i && BlockSound(next.sections, next.blocks[i]) {
      assert BlockSound(doc.sections, doc.blocks[i]);
    }
  }

  lemma {:induction false} BlockBuildsSound(doc: Doc, node: Node, parent: Option<Id>, context: Context, title: Title)
    requires node.BlockNode? && LevelsOk(node) && Sound(doc) && ContextSound(doc.sections, context)
    requires BuiltBlock(doc, node, parent, context, title).Ok?
    ensures
      var built := BuiltBlock(doc, node, parent, context, title).value;
      Sound(built.doc) && ContextSound(built.doc.sections, built.context) && Grown(doc.sections, built.doc.sections)
    decreases node, 0
  {
    hide Sound, ContextSound, Entered, Opened;
    var id := |doc.blocks|;
    var inside := Entered(context, node, id, title);
    var next := Opened(doc, node, parent, context, title);
    OpenedSound(doc, node, parent, context, title);
    SiblingsBuildSound(next, node.children, |node.children|, Some(id), inside, title);
    var inner := BuiltSiblings(next, node.children, |node.children|, Some(id), inside, title).value;
    ChildrenSound(inner.doc, id, inner.out);
    ContextGrows(next.sections, inner.doc.sections, inside);
  }

  lemma {:induction false} SiblingsBuildSound(doc: Doc, nodes: seq<Node>, n: nat, parent: Option<Id>, context: Context, title: Title)
    requires n <= |nodes| && AllLevelsOk(nodes, n) && Sound(doc) && ContextSound(doc.sections, context)
    requires BuiltSiblings(doc, nodes, n, parent, context, title).Ok?
    ensures
      var built := BuiltSiblings(doc, nodes, n, parent, context, title).value;
      Sound(built.doc) && ContextSound(built.doc.sections, built.context) && Grown(doc.sections, built.doc.sections)
    decreases nodes, n
  {
    hide Sound, ContextSound, BuiltBlock, InlineOf;
    if n > 0 {
      SiblingsBuildSound(doc, nodes, n - 1, parent, context, title);
      if nodes[n - 1].BlockNode? {
        var before := BuiltSiblings(doc, nodes, n - 1, parent, context, title).value;
        BlockBuildsSound(before.doc, nodes[n - 1], parent, before.context, title);
      }
    }
  }

  // ---- The check accepts what is sound

  lemma {:induction false} SeenHolds(doc: Doc, n: nat)
    requires Sound(doc) && n <= |doc.sections|
    ensures forall id :: id in Seen(doc.sections, n) <==> exists i :: 0 <= i < n && doc.sections[i].id == id
    ensures forall i :: 0 <= i < n ==> doc.sections[i].id in Seen(doc.sections, n) && Seen(doc.sections, n)[doc.sections[i].id] == doc.sections[i]
  {
    hide BlockSound, SectionSound;
    if n > 0 {
      SeenHolds(doc, n - 1);
      assert SectionAt(doc, n - 1);
    }
  }

  lemma {:induction false} ByIdHolds(doc: Doc, n: nat)
    requires Sound(doc) && n <= |doc.blocks|
    ensures forall i :: 0 <= i < n ==> i in ById(doc.blocks, n) && ById(doc.blocks, n)[i] == doc.blocks[i]
  {
    hide BlockSound, SectionAt;
    if n > 0 {
      ByIdHolds(doc, n - 1);
    }
  }

  lemma {:induction false} EarlierIndex(doc: Doc, j: nat, n: nat)
    requires Sound(doc) && j < |doc.sections| && n < |doc.sections| && doc.sections[j].id < doc.sections[n].id
    ensures j < n
  {
    hide BlockSound, SectionSound;
    assert SectionAt(doc, j) && SectionAt(doc, n);
  }

  /** An earlier section is among those seen. */
  lemma {:induction false} Earlier(doc: Doc, q: Section, n: nat)
    requires Sound(doc) && n < |doc.sections| && q in doc.sections && q.id < doc.sections[n].id
    ensures q.id in Seen(doc.sections, n) && Seen(doc.sections, n)[q.id] == q
  {
    hide BlockSound, SectionSound;
    var j :| 0 <= j < |doc.sections| && doc.sections[j] == q;
    EarlierIndex(doc, j, n);
    SeenHolds(doc, n);
  }

  lemma {:induction false} NoSectionFindings(doc: Doc, n: nat)
    requires Sound(doc) && n <= |doc.sections|
    ensures SectionReport(doc, n) == []
  {
    hide Sound, SectionFindings, ById, Seen;
    if n > 0 {
      NoSectionFindings(doc, n - 1);
      NoSectionFinding(doc, n - 1);
    }
  }

  lemma {:induction false} NoSectionFinding(doc: Doc, i: nat)
    requires Sound(doc) && i < |doc.sections|
    ensures SectionFindings(ById(doc.blocks, |doc.blocks|), Seen(doc.sections, i), doc.sections[i]) == []
  {
    hide BlockSound, ById, Seen;
    var s := doc.sections[i];
    assert SectionAt(doc, i);
    ByIdHolds(doc, |doc.blocks|);
    SeenHolds(doc, i);
    assert s.id !in Seen(doc.sections, i);
    if s.parent.Some? {
      var q :| q in doc.sections && q.id == s.parent.value && q.id < s.id && q.level < s.level && s.path == q.path + [s.title];
      Earlier(doc, q, i);
    } else {
      assert [] + [s.title] == [s.title];
    }
  }

  lemma {:induction false} SeenWhole(doc: Doc, s: Section)
    requires Sound(doc) && s in doc.sections
    ensures s.id in Seen(doc.sections, |doc.sections|) && Seen(doc.sections, |doc.sections|)[s.id] == s
  {
    SeenHolds(doc, |doc.sections|);
  }

  lemma {:induction false} NoFindings(doc: Doc, n: nat)
    requires Sound(doc) && n <= |doc.blocks|
    ensures Report(doc, n) == []
  {
    hide SectionReport, Seen, Sound, BlockFindings;
    if n == 0 {
      NoSectionFindings(doc, |doc.sections|);
    } else {
      NoFindings(doc, n - 1);
      NoBlockFinding(doc, n - 1);
    }
  }

  lemma {:induction false} NoBlockFinding(doc: Doc, i: nat)
    requires Sound(doc) && i < |doc.blocks|
    ensures BlockFindings(Seen(doc.sections, |doc.sections|), doc.blocks[i]) == []
  {
    hide Seen, SectionAt;
    var block := doc.blocks[i];
    assert BlockSound(doc.sections, block);
    if block.kind.Heading? {
      var s :| s in doc.sections && s.id == block.id && s.path == block.path && s.parent == block.section;
      SeenWhole(doc, s);
      if s.parent.Some? {
        var k :| 0 <= k < |doc.sections| && doc.sections[k] == s;
        ParentSeen(doc, k);
      }
    } else if block.section.Some? {
      var s :| s in doc.sections && s.id == block.section.value && s.path == block.path;
      SeenWhole(doc, s);
    }
  }

  lemma {:induction false} ParentSeen(doc: Doc, k: nat)
    requires Sound(doc) && k < |doc.sections| && doc.sections[k].parent.Some?
    ensures doc.sections[k].parent.value in Seen(doc.sections, |doc.sections|)
  {
    hide Seen, BlockSound;
    var s := doc.sections[k];
    assert SectionAt(doc, k);
    var q :| q in doc.sections && q.id == s.parent.value && q.id < s.id && q.level < s.level && s.path == q.path + [s.title];
    SeenWhole(doc, q);
  }

  /** On every tree with Markdown's heading levels, the section check reports nothing. */
  lemma {:induction false} AssembledValidates(nodes: seq<Node>, title: Title)
    requires AllLevelsOk(nodes, |nodes|) && Assembled(nodes, title).Ok?
    ensures Report(Assembled(nodes, title).value, |Assembled(nodes, title).value.blocks|) == []
  {
    hide BuiltSiblings, Report;
    SiblingsBuildSound(Doc([], []), nodes, |nodes|, None, [], title);
    var doc := Assembled(nodes, title).value;
    NoFindings(doc, |doc.blocks|);
  }

  // ---- Sections by scope, without a stack

  /** A heading in scope. */
  datatype Mark = Mark(id: Id, level: nat)

  /** The nearest earlier heading in scope that is shallower than a level. */
  function Nearest(marks: seq<Mark>, n: nat, level: nat): Option<Id>
    requires n <= |marks|
  {
    if n == 0 then None
    else if marks[n - 1].level < level then Some(marks[n - 1].id)
    else Nearest(marks, n - 1, level)
  }

  /** How many blocks a node and its descendants make. */
  function Size(node: Node): nat
    decreases node, 0
  {
    if node.BlockNode? then 1 + SizeOf(node.children, |node.children|) else 0
  }

  function SizeOf(nodes: seq<Node>, n: nat): nat
    requires n <= |nodes|
    decreases nodes, n
  {
    if n == 0 then 0 else SizeOf(nodes, n - 1) + Size(nodes[n - 1])
  }

  /** The headings in scope after the first n of some siblings, whose blocks are numbered from `base`. */
  function InScope(marks: seq<Mark>, nodes: seq<Node>, n: nat, base: nat): seq<Mark>
    requires n <= |nodes|
  {
    if n == 0 then marks
    else
      var node := nodes[n - 1];
      InScope(marks, nodes, n - 1, base)
      + if node.BlockNode? && node.kind.Heading? then [Mark(base + SizeOf(nodes, n - 1), node.level)] else []
  }

  /** The section a block lies in: the last heading in scope, or for a heading the nearest shallower one. */
  function SectionIn(marks: seq<Mark>, node: Node): Option<Id>
    requires node.BlockNode?
  {
    if node.kind.Heading? then Nearest(marks, |marks|, node.level)
    else if marks == [] then None else Some(marks[|marks| - 1].id)
  }

  /** The section of every block of the first n siblings, in document order: scope by scope, no stack. */
  function Scoped(marks: seq<Mark>, nodes: seq<Node>, n: nat, base: nat): seq<Option<Id>>
    requires n <= |nodes|
    decreases nodes, n
  {
    if n == 0 then []
    else
      var before := Scoped(marks, nodes, n - 1, base);
      var node := nodes[n - 1];
      if node.InlineNode? then before
      else
        var id := base + SizeOf(nodes, n - 1);
        var visible := InScope(marks, nodes, n - 1, base);
        before + [SectionIn(visible, node)]
        + Scoped(InScope(marks, nodes, n, base), node.children, |node.children|, id + 1)
  }

  function Enclosures(blocks: seq<Block>): (r: seq<Option<Id>>)
    ensures |r| == |blocks|
  {
    seq(|blocks|, i requires 0 <= i < |blocks| => blocks[i].section)
  }

  /** A stack that answers every question about headings in scope. */
  ghost predicate Answers(context: Context, marks: seq<Mark>) {
    && LastId(context) == (if marks == [] then None else Some(marks[|marks| - 1].id))
    && forall level: nat :: LastId(Popped(context, level)) == Nearest(marks, |marks|, level)
  }

  lemma {:induction false} PoppedTwice(context: Context, inner: nat, outer: nat)
    requires outer <= inner
    ensures Popped(Popped(context, inner), outer) == Popped(context, outer)
  {
    if context != [] && context[|context| - 1].level >= inner {
      PoppedTwice(context[..|context| - 1], inner, outer);
    }
  }

  lemma {:induction false} NearestPrefix(marks: seq<Mark>, mark: Mark, n: nat, level: nat)
    requires n <= |marks|
    ensures Nearest(marks + [mark], n, level) == Nearest(marks, n, level)
  {
    if n > 0 {
      NearestPrefix(marks, mark, n - 1, level);
    }
  }

  lemma {:induction false} StackAnswers(context: Context, marks: seq<Mark>, s: Section)
    requires Answers(context, marks)
    ensures Answers(Popped(context, s.level) + [s], marks + [Mark(s.id, s.level)])
  {
    var inside, more := Popped(context, s.level) + [s], marks + [Mark(s.id, s.level)];
    forall level: nat ensures LastId(Popped(inside, level)) == Nearest(more, |more|, level) {
      assert inside[..|inside| - 1] == Popped(context, s.level);
      NearestPrefix(marks, Mark(s.id, s.level), |marks|, level);
      if level <= s.level {
        PoppedTwice(context, s.level, level);
      }
    }
  }

  lemma {:induction false} EnclosuresThen(blocks: seq<Block>, block: Block)
    ensures Enclosures(blocks + [block]) == Enclosures(blocks) + [block.section]
  {
  }

  lemma {:induction false} OpenedAnswers(doc: Doc, node: Node, parent: Option<Id>, context: Context, title: Title, marks: seq<Mark>)
    requires node.BlockNode? && Answers(context, marks)
    ensures
      var id := |doc.blocks|;
      var next := Opened(doc, node, parent, context, title);
      && Enclosures(next.blocks) == Enclosures(doc.blocks) + [SectionIn(marks, node)]
      && Answers(Entered(context, node, id, title), marks + if node.kind.Heading? then [Mark(id, node.level)] else [])
  {
    var id := |doc.blocks|;
    var next := Opened(doc, node, parent, context, title);
    EnclosuresThen(doc.blocks, next.blocks[id]);
    if node.kind.Heading? {
      var inside := Entered(context, node, id, title);
      StackAnswers(context, marks, inside[|inside| - 1]);
    } else {
      assert marks + [] == marks;
    }
  }

  lemma {:induction false} BlockScoped(doc: Doc, node: Node, parent: Option<Id>, context: Context, title: Title, marks: seq<Mark>)
    requires node.BlockNode? && Answers(context, marks) && BuiltBlock(doc, node, parent, context, title).Ok?
    ensures
      var id := |doc.blocks|;
      var built := BuiltBlock(doc, node, parent, context, title).value;
      var more := marks + if node.kind.Heading? then [Mark(id, node.level)] else [];
      && |built.doc.blocks| == id + Size(node)
      && Enclosures(built.doc.blocks)
         == Enclosures(doc.blocks) + [SectionIn(marks, node)] + Scoped(more, node.children, |node.children|, id + 1)
      && Answers(built.context, more)
    decreases node, 0
  {
    hide Answers, Entered, Opened, Scoped;
    var id := |doc.blocks|;
    var inside := Entered(context, node, id, title);
    var next := Opened(doc, node, parent, context, title);
    var more := marks + if node.kind.Heading? then [Mark(id, node.level)] else [];
    OpenedAnswers(doc, node, parent, context, title, marks);
    assert |Enclosures(next.blocks)| == id + 1;
    SiblingsScoped(next, node.children, |node.children|, Some(id), inside, title, more);
    var inner := BuiltSiblings(next, node.children, |node.children|, Some(id), inside, title).value;
    assert Enclosures(WithChildren(inner.doc, id, inner.out).blocks) == Enclosures(inner.doc.blocks);
  }

  lemma {:induction false} SiblingsScoped(doc: Doc, nodes: seq<Node>, n: nat, parent: Option<Id>, context: Context, title: Title, marks: seq<Mark>)
    requires n <= |nodes| && Answers(context, marks) && BuiltSiblings(doc, nodes, n, parent, context, title).Ok?
    ensures
      var built := BuiltSiblings(doc, nodes, n, parent, context, title).value;
      && |built.doc.blocks| == |doc.blocks| + SizeOf(nodes, n)
      && Enclosures(built.doc.blocks) == Enclosures(doc.blocks) + Scoped(marks, nodes, n, |doc.blocks|)
      && Answers(built.context, InScope(marks, nodes, n, |doc.blocks|))
    decreases nodes, n
  {
    hide Answers, BuiltBlock, InlineOf, Enclosures, SectionIn, Scoped, InScope;
    ScopedNone(marks, nodes, |doc.blocks|);
    if n > 0 {
      SiblingsScoped(doc, nodes, n - 1, parent, context, title, marks);
      ScopedNext(marks, nodes, n, |doc.blocks|);
      var before := BuiltSiblings(doc, nodes, n - 1, parent, context, title).value;
      var visible := InScope(marks, nodes, n - 1, |doc.blocks|);
      if nodes[n - 1].BlockNode? {
        BlockScoped(before.doc, nodes[n - 1], parent, before.context, title, visible);
        var own := [SectionIn(visible, nodes[n - 1])];
        var inner := Scoped(InScope(marks, nodes, n, |doc.blocks|), nodes[n - 1].children, |nodes[n - 1].children|, |before.doc.blocks| + 1);
        Associative(Enclosures(doc.blocks), Scoped(marks, nodes, n - 1, |doc.blocks|), own);
        Associative(Enclosures(doc.blocks), Scoped(marks, nodes, n - 1, |doc.blocks|) + own, inner);
      }
    } else {
      assert Enclosures(doc.blocks) + [] == Enclosures(doc.blocks);
    }
  }

  lemma {:induction false} ScopedNone(marks: seq<Mark>, nodes: seq<Node>, base: nat)
    ensures Scoped(marks, nodes, 0, base) == [] && InScope(marks, nodes, 0, base) == marks
  {
  }

  lemma {:induction false} InScopeNext(marks: seq<Mark>, nodes: seq<Node>, n: nat, base: nat)
    requires 0 < n <= |nodes|
    ensures
      var (node, id, visible) := (nodes[n - 1], base + SizeOf(nodes, n - 1), InScope(marks, nodes, n - 1, base));
      && InScope(marks, nodes, n, base) == visible + (if node.BlockNode? && node.kind.Heading? then [Mark(id, node.level)] else [])
      && (node.InlineNode? ==> InScope(marks, nodes, n, base) == visible)
  {
    hide SizeOf;
    var visible := InScope(marks, nodes, n - 1, base);
    assert visible + [] == visible;
  }

  lemma {:induction false} ScopedNext(marks: seq<Mark>, nodes: seq<Node>, n: nat, base: nat)
    requires 0 < n <= |nodes|
    ensures
      var (node, id, visible) := (nodes[n - 1], base + SizeOf(nodes, n - 1), InScope(marks, nodes, n - 1, base));
      && InScope(marks, nodes, n, base) == visible + (if node.BlockNode? && node.kind.Heading? then [Mark(id, node.level)] else [])
      && (node.InlineNode? ==> InScope(marks, nodes, n, base) == visible)
      && Scoped(marks, nodes, n, base)
         == if node.InlineNode? then Scoped(marks, nodes, n - 1, base)
            else
              Scoped(marks, nodes, n - 1, base) + [SectionIn(visible, node)]
              + Scoped(InScope(marks, nodes, n, base), node.children, |node.children|, id + 1)
  {
    hide SizeOf, SectionIn, InScope;
    InScopeNext(marks, nodes, n, base);
  }

  /**
   * The heading stack against the definition by scope: every block lies in the section of the last
   * heading in its lexical scope, every heading's section in that of the nearest earlier shallower
   * heading of its scope, and headings inside a container never reach its later siblings.
   */
  lemma {:induction false} AssembledScoped(nodes: seq<Node>, title: Title)
    requires Assembled(nodes, title).Ok?
    ensures Enclosures(Assembled(nodes, title).value.blocks) == Scoped([], nodes, |nodes|, 0)
  {
    hide BuiltSiblings, Scoped, Enclosures;
    SiblingsScoped(Doc([], []), nodes, |nodes|, None, [], title, []);
    EnclosuresNone();
  }

  lemma {:induction false} EnclosuresNone()
    ensures Enclosures([]) == []
    ensures forall xs: seq<Option<Id>> :: [] + xs == xs
  {
  }

  // ---- When the check is silent

  /** Whether a section is one of a kind among those before it: its own heading, inside an earlier and shallower one or at the top. */
  ghost predicate SectionHolds(doc: Doc, i: nat)
    requires i < |doc.sections|
  {
    var s := doc.sections[i];
    && 1 <= s.level <= 6
    && s.id in ById(doc.blocks, |doc.blocks|) && ById(doc.blocks, |doc.blocks|)[s.id].kind.Heading?
    && (forall j :: 0 <= j < i ==> doc.sections[j].id != s.id)
    && match s.parent
       case None => s.path == [s.title]
       case Some(parent) =>
         exists j :: 0 <= j < i && doc.sections[j].id == parent && doc.sections[j].level < s.level && s.path == doc.sections[j].path + [s.title]
  }

  /** Whether a block has the path of its own section, if it is a heading with one, or of the section that holds it. */
  ghost predicate BlockHolds(doc: Doc, block: Block) {
    && (block.section.Some? ==> exists s :: s in doc.sections && s.id == block.section.value)
    && var own := if block.kind.Heading? then Some(block.id) else block.section;
       if own.Some? && exists s :: s in doc.sections && s.id == own.value
       then exists s :: s in doc.sections && s.id == own.value && s.path == block.path
       else block.path == []
  }

  ghost predicate SectionsHold(doc: Doc, n: nat)
    requires n <= |doc.sections|
  {
    forall i :: 0 <= i < n ==> SectionHolds(doc, i)
  }

  lemma {:induction false} SeenExactly(doc: Doc, n: nat, id: Id)
    requires n <= |doc.sections| && SectionsHold(doc, n)
    ensures id in Seen(doc.sections, n) <==> exists j :: 0 <= j < n && doc.sections[j].id == id
    ensures forall j :: 0 <= j < n && doc.sections[j].id == id ==> id in Seen(doc.sections, n) && Seen(doc.sections, n)[id] == doc.sections[j]
  {
    hide ById;
    if n > 0 {
      SeenExactly(doc, n - 1, id);
      assert SectionHolds(doc, n - 1);
      var before, last := Seen(doc.sections, n - 1), doc.sections[n - 1];
      assert Seen(doc.sections, n) == before[last.id := last];
    }
  }

  lemma {:induction false} SectionSilent(doc: Doc, i: nat)
    requires i < |doc.sections| && SectionsHold(doc, i)
    ensures SectionFindings(ById(doc.blocks, |doc.blocks|), Seen(doc.sections, i), doc.sections[i]) == [] <==> SectionHolds(doc, i)
  {
    hide ById, Seen;
    var s := doc.sections[i];
    SeenExactly(doc, i, s.id);
    if s.parent.Some? {
      SeenExactly(doc, i, s.parent.value);
    }
  }

  lemma {:induction false} SectionsSilent(doc: Doc, n: nat)
    requires n <= |doc.sections|
    ensures SectionReport(doc, n) == [] <==> SectionsHold(doc, n)
  {
    hide SectionFindings, SectionHolds;
    if n > 0 {
      SectionsSilent(doc, n - 1);
      if SectionsHold(doc, n - 1) {
        SectionSilent(doc, n - 1);
      }
    }
  }

  lemma {:induction false} BlockSilent(doc: Doc, block: Block)
    requires SectionsHold(doc, |doc.sections|)
    ensures BlockFindings(Seen(doc.sections, |doc.sections|), block) == [] <==> BlockHolds(doc, block)
  {
    hide Seen, SectionsHold;
    if block.section.Some? {
      SeenIn(doc, block.section.value);
    }
    SeenIn(doc, block.id);
  }

  lemma {:induction false} SeenIn(doc: Doc, id: Id)
    requires SectionsHold(doc, |doc.sections|)
    ensures id in Seen(doc.sections, |doc.sections|) <==> exists s :: s in doc.sections && s.id == id
    ensures forall s :: s in doc.sections && s.id == id ==> id in Seen(doc.sections, |doc.sections|) && Seen(doc.sections, |doc.sections|)[id] == s
  {
    hide Seen, SectionsHold;
    SeenExactly(doc, |doc.sections|, id);
  }

  lemma {:induction false} BlocksSilent(doc: Doc, n: nat)
    requires n <= |doc.blocks| && SectionsHold(doc, |doc.sections|)
    ensures Report(doc, n) == [] <==> forall i :: 0 <= i < n ==> BlockHolds(doc, doc.blocks[i])
  {
    hide BlockFindings, BlockHolds, SectionsHold, Seen;
    SectionsSilent(doc, |doc.sections|);
    if n > 0 {
      BlocksSilent(doc, n - 1);
      BlockSilent(doc, doc.blocks[n - 1]);
    }
  }

  lemma {:induction false} ReportGrows(doc: Doc, n: nat)
    requires n <= |doc.blocks| && Report(doc, n) == []
    ensures SectionReport(doc, |doc.sections|) == []
  {
    hide BlockFindings, SectionReport;
    if n > 0 {
      ReportGrows(doc, n - 1);
    }
  }

  /** The check is silent exactly when every section and every block's heading context holds. */
  lemma {:induction false} SilentExactly(doc: Doc)
    ensures
      Report(doc, |doc.blocks|) == []
      <==> && (forall i :: 0 <= i < |doc.sections| ==> SectionHolds(doc, i))
           && forall i :: 0 <= i < |doc.blocks| ==> BlockHolds(doc, doc.blocks[i])
  {
    hide Report, SectionHolds, BlockHolds;
    SectionsSilent(doc, |doc.sections|);
    if SectionsHold(doc, |doc.sections|) {
      BlocksSilent(doc, |doc.blocks|);
    }
    if Report(doc, |doc.blocks|) == [] {
      ReportGrows(doc, |doc.blocks|);
    }
  }
}
