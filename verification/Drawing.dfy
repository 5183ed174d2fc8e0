/** What a mapped unit is made of: the pieces of its inline content, each with the source it comes from, and its wrappers. */
module Drawing {
  import opened Common
  import opened Ranges
  import opened Units
  import opened Documents
  import opened Mapping
  import Sorting

  /** A stretch of derived text and where it comes from. */
  datatype Piece = Piece(text: string, origins: seq<Origin>)

  /** What text adds, if there is any. */
  function Says(text: string, origins: seq<Origin>): seq<Piece> {
    if text == "" then [] else [Piece(text, origins)]
  }

  /** Whether an origin is the first definition block that holds the span a reference resolves to. */
  ghost predicate Defines(source: Source, reference: string, origin: Origin) {
    && source.definitions(reference) == Some(origin.span)
    && exists i :: 0 <= i < |source.blocks| && source.blocks[i].id == origin.block && IsDefinition(source.blocks[i], origin.span)
                   && forall j :: 0 <= j < i ==> !IsDefinition(source.blocks[j], origin.span)
  }

  predicate IsDefinition(block: Block, span: Span) {
    block.kind == ReferenceDefinition && span in block.spans
  }

  /** The pieces of an inline node: leaves and delimiters from the node's own source, an image's destination from its definition too. */
  ghost function PiecesOf(source: Source, block: Id, inline: Inline): seq<Piece>
    decreases inline, 0
  {
    var own := [Origin(block, inline.span)];
    var inside := AllPieces(source, block, inline.children, |inline.children|);
    match inline.content
    case Text(text) => Says(text, own)
    case CodeSpan(text) => Says(text, own)
    case Math(text) => Says(text, own)
    case InlineHtml(raw) => Says(raw, own)
    case FootnoteReference(name) => [Piece("[^" + name + "]", own)]
    case SoftBreak => [Piece("\n", own)]
    case HardBreak => [Piece("\n", own)]
    case TaskMarker(checked) => [Piece(if checked then "[x] " else "[ ] ", own)]
    case Image(destination, reference) =>
      inside + [Piece(" (" + destination + ")", if reference == "" then own else own + [DefinitionFor(source, reference)])]
    case Strikethrough => [Piece("~~", own)] + inside + [Piece("~~", own)]
    case Superscript => [Piece("^(", own)] + inside + [Piece(")", own)]
    case Subscript => [Piece("_(", own)] + inside + [Piece(")", own)]
    case Emphasis => inside
    case Strong => inside
    case Link(_) => inside
  }

  ghost function AllPieces(source: Source, block: Id, inlines: seq<Inline>, n: nat): seq<Piece>
    requires n <= |inlines|
    decreases inlines, n
  {
    if n == 0 then [] else AllPieces(source, block, inlines, n - 1) + PiecesOf(source, block, inlines[n - 1])
  }

  ghost function DefinitionFor(source: Source, reference: string): Origin {
    if origin :| Defines(source, reference, origin) then origin else Origin(0, Span(0, 0))
  }

  // ---- Pieces as text, runs and wrappers

  ghost function Texts(pieces: seq<Piece>, n: nat): string
    requires n <= |pieces|
  {
    if n == 0 then "" else Texts(pieces, n - 1) + pieces[n - 1].text
  }

  ghost function Joined(pieces: seq<Piece>): string {
    Texts(pieces, |pieces|)
  }

  /** An exact copy is of one origin that reads the same. */
  predicate IsCopy(markdown: string, piece: Piece) {
    |piece.origins| == 1 && piece.origins[0].span.Valid(markdown)
    && markdown[piece.origins[0].span.start..piece.origins[0].span.end] == piece.text
  }

  /** One run a piece, one after the other from a place on. */
  ghost function RunsOf(markdown: string, pieces: seq<Piece>, n: nat, from: nat): seq<MappingRun>
    requires n <= |pieces|
  {
    if n == 0 then []
    else
      var (start, piece) := (from + |Texts(pieces, n - 1)|, pieces[n - 1]);
      RunsOf(markdown, pieces, n - 1, from)
      + [MappingRun(TextRange(start, start + |piece.text|), if IsCopy(markdown, piece) then ExactCopy else CanonicalTransformation, piece.origins)]
  }

  /** The wrappers of an inline node drawn from a place on, the inner ones first: delimiters of two characters open them. */
  ghost function WrapsOf(source: Source, block: Id, inline: Inline, from: nat): seq<Envelope>
    decreases inline, 0
  {
    var length := |Joined(AllPieces(source, block, inline.children, |inline.children|))|;
    match inline.content
    case Strikethrough => AllWraps(source, block, inline.children, |inline.children|, from + 2) + [Around(from, length, 2)]
    case Superscript => AllWraps(source, block, inline.children, |inline.children|, from + 2) + [Around(from, length, 1)]
    case Subscript => AllWraps(source, block, inline.children, |inline.children|, from + 2) + [Around(from, length, 1)]
    case Image(_, _) => AllWraps(source, block, inline.children, |inline.children|, from)
    case Emphasis => AllWraps(source, block, inline.children, |inline.children|, from)
    case Strong => AllWraps(source, block, inline.children, |inline.children|, from)
    case Link(_) => AllWraps(source, block, inline.children, |inline.children|, from)
    case _ => []
  }

  function Around(from: nat, length: nat, closing: nat): Envelope {
    Envelope(TextRange(from, from + 2), TextRange(from + 2 + length, from + 2 + length + closing))
  }

  ghost function AllWraps(source: Source, block: Id, inlines: seq<Inline>, n: nat, from: nat): seq<Envelope>
    requires n <= |inlines|
    decreases inlines, n
  {
    if n == 0 then []
    else
      AllWraps(source, block, inlines, n - 1, from)
      + WrapsOf(source, block, inlines[n - 1], from + |Joined(AllPieces(source, block, inlines, n - 1))|)
  }

  // ---- What a drawing adds

  ghost predicate Adds(markdown: string, d: Drawn, next: Drawn, pieces: seq<Piece>, wraps: seq<Envelope>) {
    && next.text == d.text + Joined(pieces)
    && next.mappings == d.mappings + RunsOf(markdown, pieces, |pieces|, |d.text|)
    && next.envelopes == d.envelopes + wraps
  }

  lemma {:induction false} TextsConcat(a: seq<Piece>, b: seq<Piece>, n: nat)
    requires n <= |b|
    ensures Texts(a + b, |a| + n) == Joined(a) + Texts(b, n)
  {
    if n == 0 {
      TextsPrefix(a, b, |a|);
    } else {
      TextsConcat(a, b, n - 1);
    }
  }

  lemma {:induction false} TextsPrefix(a: seq<Piece>, b: seq<Piece>, n: nat)
    requires n <= |a|
    ensures Texts(a + b, n) == Texts(a, n)
  {
    if n > 0 {
      TextsPrefix(a, b, n - 1);
    }
  }

  lemma {:induction false} RunsPrefix(markdown: string, a: seq<Piece>, b: seq<Piece>, n: nat, from: nat)
    requires n <= |a|
    ensures RunsOf(markdown, a + b, n, from) == RunsOf(markdown, a, n, from)
  {
    hide IsCopy;
    if n > 0 {
      RunsPrefix(markdown, a, b, n - 1, from);
      TextsPrefix(a, b, n - 1);
    }
  }

  lemma {:induction false} RunsConcat(markdown: string, a: seq<Piece>, b: seq<Piece>, n: nat, from: nat)
    requires n <= |b|
    ensures RunsOf(markdown, a + b, |a| + n, from) == RunsOf(markdown, a, |a|, from) + RunsOf(markdown, b, n, from + |Joined(a)|)
  {
    hide IsCopy;
    if n == 0 {
      RunsPrefix(markdown, a, b, |a|, from);
    } else {
      RunsConcat(markdown, a, b, n - 1, from);
      TextsConcat(a, b, n - 1);
    }
  }

  lemma {:induction false} AddsNothing(markdown: string, d: Drawn)
    ensures Adds(markdown, d, d, [], [])
  {
  }

  lemma {:induction false} AddsTwice(markdown: string, a: Drawn, b: Drawn, c: Drawn, first: seq<Piece>, more: seq<Piece>, inner: seq<Envelope>, outer: seq<Envelope>)
    requires Adds(markdown, a, b, first, inner) && Adds(markdown, b, c, more, outer)
    ensures Adds(markdown, a, c, first + more, inner + outer)
  {
    hide RunsOf, Texts;
    TextsConcat(first, more, |more|);
    RunsConcat(markdown, first, more, |more|, |a.text|);
    assert a.text + Joined(first) + Joined(more) == a.text + (Joined(first) + Joined(more));
  }

  lemma {:induction false} AddsText(markdown: string, d: Drawn, text: string, origins: seq<Origin>)
    requires Appended(markdown, d, text, origins).Ok?
    ensures Adds(markdown, d, Appended(markdown, d, text, origins).value, Says(text, origins), [])
  {
    if text != "" {
      var piece := Piece(text, origins);
      assert Texts([piece], 0) == "" && RunsOf(markdown, [piece], 0, |d.text|) == [];
      assert Joined([piece]) == text;
    }
  }

  // ---- The drawing of inline content

  lemma {:induction false} DefinitionIs(source: Source, reference: string)
    requires DefinitionOrigin(source, reference).Ok?
    ensures DefinitionFor(source, reference) == DefinitionOrigin(source, reference).value
    ensures Defines(source, reference, DefinitionFor(source, reference))
  {
    var origin := DefinitionOrigin(source, reference).value;
    FirstDefinition(source.blocks, origin.span, 0);
    assert Defines(source, reference, origin);
    var other := DefinitionFor(source, reference);
    var i :| 0 <= i < |source.blocks| && source.blocks[i].id == origin.block && IsDefinition(source.blocks[i], origin.span)
             && forall j :: 0 <= j < i ==> !IsDefinition(source.blocks[j], origin.span);
    var k :| 0 <= k < |source.blocks| && source.blocks[k].id == other.block && IsDefinition(source.blocks[k], other.span)
             && forall j :: 0 <= j < k ==> !IsDefinition(source.blocks[j], other.span);
    assert i == k;
  }

  lemma {:induction false} FirstDefinition(blocks: seq<Block>, span: Span, i: nat)
    requires i <= |blocks| && forall j :: 0 <= j < i ==> !IsDefinition(blocks[j], span)
    ensures
      match DefinitionBlock(blocks, span, i)
      case None => true
      case Some(id) => exists k :: 0 <= k < |blocks| && blocks[k].id == id && IsDefinition(blocks[k], span)
                                   && forall j :: 0 <= j < k ==> !IsDefinition(blocks[j], span)
    decreases |blocks| - i
  {
    if i < |blocks| && !IsDefinition(blocks[i], span) {
      FirstDefinition(blocks, span, i + 1);
    }
  }

  lemma {:induction false} WrappedDraws(
      source: Source, block: Id, inline: Inline, d: Drawn, opening: string, closing: string, before: Drawn, inside: Drawn, after: Drawn)
    requires opening != "" && closing != "" && |opening| == 2
    requires Appended(source.markdown, d, opening, [Origin(block, inline.span)]) == Ok(before)
    requires
      var children := inline.children;
      Adds(source.markdown, before, inside, AllPieces(source, block, children, |children|), AllWraps(source, block, children, |children|, |d.text| + 2))
    requires Appended(source.markdown, inside, closing, [Origin(block, inline.span)]) == Ok(after)
    ensures
      var (own, pieces) := ([Origin(block, inline.span)], AllPieces(source, block, inline.children, |inline.children|));
      Adds(source.markdown, d, after.(envelopes := after.envelopes + [Envelope(TextRange(|d.text|, |before.text|), TextRange(|inside.text|, |after.text|))]),
           [Piece(opening, own)] + pieces + [Piece(closing, own)],
           AllWraps(source, block, inline.children, |inline.children|, |d.text| + 2) + [Around(|d.text|, |Joined(pieces)|, |closing|)])
  {
    hide AllPieces, AllWraps, Joined, RunsOf, ModeOf;
    var own, pieces := [Origin(block, inline.span)], AllPieces(source, block, inline.children, |inline.children|);
    var wraps := AllWraps(source, block, inline.children, |inline.children|, |d.text| + 2);
    AddsText(source.markdown, d, opening, own);
    AddsText(source.markdown, inside, closing, own);
    AddsTwice(source.markdown, d, before, inside, Says(opening, own), pieces, [], wraps);
    AddsTwice(source.markdown, d, inside, after, Says(opening, own) + pieces, Says(closing, own), wraps, []);
    assert [] + wraps == wraps && wraps + [] == wraps;
    assert after.envelopes + [Around(|d.text|, |Joined(pieces)|, |closing|)] == d.envelopes + (wraps + [Around(|d.text|, |Joined(pieces)|, |closing|)]);
  }

  /** An inline node is drawn as its pieces, in order, and its wrappers. */
  lemma {:induction false} DrawsPieces(source: Source, block: Id, inline: Inline, d: Drawn)
    requires Draw(source, block, inline, d).Ok?
    ensures
      Adds(source.markdown, d, Draw(source, block, inline, d).value, PiecesOf(source, block, inline), WrapsOf(source, block, inline, |d.text|))
    decreases inline, 0
  {
    hide Appended, DefinitionOrigin, AllPieces, AllWraps, Adds, DefinitionFor;
    var origin, children := Origin(block, inline.span), inline.children;
    if Transparent(inline.content) {
      AllDrawn(source, block, children, |children|, d);
    } else {
      match Delimiters(inline.content)
      case Some((opening, closing)) =>
        var before := Appended(source.markdown, d, opening, [origin]).value;
        AppendedLength(source.markdown, d, opening, [origin]);
        AllDrawn(source, block, children, |children|, before);
        var inside := DrawAll(source, block, children, |children|, before).value;
        WrappedDraws(source, block, inline, d, opening, closing, before, inside, Appended(source.markdown, inside, closing, [origin]).value);
      case None =>
        if inline.content.Image? {
          AllDrawn(source, block, children, |children|, d);
          var inside := DrawAll(source, block, children, |children|, d).value;
          var wraps, text := AllWraps(source, block, children, |children|, |d.text|), " (" + inline.content.destination + ")";
          if inline.content.reference != "" {
            DefinitionIs(source, inline.content.reference);
          }
          var origins := if inline.content.reference == "" then [origin] else [origin, DefinitionFor(source, inline.content.reference)];
          assert [origin] + [DefinitionFor(source, inline.content.reference)] == [origin, DefinitionFor(source, inline.content.reference)];
          AddsText(source.markdown, inside, text, origins);
          AddsTwice(source.markdown, d, inside, Appended(source.markdown, inside, text, origins).value,
                    AllPieces(source, block, children, |children|), Says(text, origins), wraps, []);
          assert wraps + [] == wraps;
        } else {
          AddsText(source.markdown, d, InlineText(inline.content, ""), [origin]);
        }
    }
  }

  lemma {:induction false} AppendedLength(markdown: string, d: Drawn, text: string, origins: seq<Origin>)
    requires Appended(markdown, d, text, origins).Ok?
    ensures |Appended(markdown, d, text, origins).value.text| == |d.text| + |text|
  {
  }

  lemma {:induction false} AllDrawn(source: Source, block: Id, inlines: seq<Inline>, n: nat, d: Drawn)
    requires n <= |inlines| && DrawAll(source, block, inlines, n, d).Ok?
    ensures
      Adds(source.markdown, d, DrawAll(source, block, inlines, n, d).value, AllPieces(source, block, inlines, n), AllWraps(source, block, inlines, n, |d.text|))
    decreases inlines, n
  {
    hide Draw, PiecesOf, WrapsOf, RunsOf, Joined;
    if n == 0 {
      AddsNothing(source.markdown, d);
    } else {
      AllDrawn(source, block, inlines, n - 1, d);
      var before := DrawAll(source, block, inlines, n - 1, d).value;
      DrawsPieces(source, block, inlines[n - 1], before);
      AddsTwice(source.markdown, d, before, Draw(source, block, inlines[n - 1], before).value,
                AllPieces(source, block, inlines, n - 1), PiecesOf(source, block, inlines[n - 1]),
                AllWraps(source, block, inlines, n - 1, |d.text|), WrapsOf(source, block, inlines[n - 1], |before.text|));
    }
  }

  // ---- Units

  /** Whether wrappers stand outermost first. */
  predicate OuterFirst(envelopes: seq<Envelope>) {
    forall i, j :: 0 <= i < j < |envelopes| ==>
      || envelopes[i].opening.start < envelopes[j].opening.start
      || (envelopes[i].opening.start == envelopes[j].opening.start && envelopes[i].closing.end >= envelopes[j].closing.end)
  }

  /** Whether a unit is an inline child of a block: its pieces, a run for each, and its wrappers, outermost first. */
  ghost predicate IsContent(source: Source, unit: SourceUnit, block: Block, index: nat) {
    && index < |block.children| && block.children[index].InlineChild?
    && unit.block == block.id && unit.field == InlineField([index]) && unit.primary
    && var inline := block.children[index].inline;
       var pieces := PiecesOf(source, block.id, inline);
       && unit.text == Joined(pieces) && unit.mappings == RunsOf(source.markdown, pieces, |pieces|, 0)
       && multiset(unit.envelopes) == multiset(WrapsOf(source, block.id, inline, 0)) && OuterFirst(unit.envelopes)
  }

  lemma {:induction false} DrawnContent(source: Source, block: Block, index: nat)
    requires index < |block.children| && block.children[index].InlineChild? && Draw(source, block.id, block.children[index].inline, Blank).Ok?
    ensures IsContent(source, UnitOf(block.id, InlineField([index]), true, Draw(source, block.id, block.children[index].inline, Blank).value), block, index)
  {
    hide Draw, PiecesOf, WrapsOf, RunsOf, Texts;
    var drawn := Draw(source, block.id, block.children[index].inline, Blank).value;
    DrawsPieces(source, block.id, block.children[index].inline, Blank);
    Sorting.SortBySorted(drawn.envelopes, EnvelopeKey);
    var sorted := Sorting.SortBy(drawn.envelopes, EnvelopeKey);
    forall i, j | 0 <= i < j < |sorted|
      ensures sorted[i].opening.start < sorted[j].opening.start
              || (sorted[i].opening.start == sorted[j].opening.start && sorted[i].closing.end >= sorted[j].closing.end)
    {
      assert Sorting.Leq(EnvelopeKey(sorted[i]), EnvelopeKey(sorted[j]));
    }
  }

  /** Whether a unit is what its block shows of itself: one run, from all of the block's spans. */
  ghost predicate IsContext(markdown: string, unit: SourceUnit, block: Block, field: UnitField, text: string) {
    && unit.block == block.id && unit.field == field && !unit.primary && unit.text == text && unit.envelopes == []
    && |unit.mappings| == 1
    && var run := unit.mappings[0];
       && run.range == TextRange(0, |text|) && |run.origins| == |block.spans|
       && (forall i :: 0 <= i < |block.spans| ==> run.origins[i] == Origin(block.id, block.spans[i]))
       && run.mode == if IsCopy(markdown, Piece(text, run.origins)) then ExactCopy else CanonicalTransformation
  }
}
