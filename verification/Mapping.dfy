/** Mapping a document into source units: derived text, where every run of it comes from, and its wrappers. */
module Mapping {
  import opened Common
  import opened Ranges
  import opened Units
  import opened Documents
  import Slices
  import Sorting
  import B = Brackets

  // ---- The text inline content reads as

  /** `inline_text`: the text of an inline node, given its children's. */
  function InlineText(kind: InlineKind, children: string): string {
    match kind
    case Text(text) => text
    case CodeSpan(text) => text
    case Math(text) => text
    case InlineHtml(raw) => raw
    case FootnoteReference(name) => "[^" + name + "]"
    case SoftBreak => "\n"
    case HardBreak => "\n"
    case TaskMarker(checked) => if checked then "[x] " else "[ ] "
    case Image(destination, _) => children + (" (" + destination + ")")
    case Strikethrough => "~~" + children + "~~"
    case Superscript => "^(" + children + ")"
    case Subscript => "_(" + children + ")"
    case Emphasis => children
    case Strong => children
    case Link(_) => children
  }

  /** `render_inline`: the text an inline node reads as, its children rendered first. */
  function RenderInline(inline: Inline): string
    decreases inline, 0
  {
    InlineText(inline.content, RenderAll(inline.children, |inline.children|))
  }

  function RenderAll(inlines: seq<Inline>, n: nat): string
    requires n <= |inlines|
    decreases inlines, n
  {
    if n == 0 then "" else RenderAll(inlines, n - 1) + RenderInline(inlines[n - 1])
  }

  // ---- The mapper's renderer

  /** What the mapper reads: the source, the blocks, and the definitions that references resolve to. */
  datatype Source = Source(markdown: string, blocks: seq<Block>, definitions: string -> Option<Span>)

  /** A unit under construction. */
  datatype Drawn = Drawn(text: string, mappings: seq<MappingRun>, envelopes: seq<Envelope>)

  function ModeOf(markdown: string, text: string, origins: seq<Origin>): OriginMode {
    if |origins| == 1 && origins[0].span.Valid(markdown) && markdown[origins[0].span.start..origins[0].span.end] == text
    then ExactCopy else CanonicalTransformation
  }

  /** `append`: text with its origins, an exact copy when it equals its single origin. */
  function Appended(markdown: string, d: Drawn, text: string, origins: seq<Origin>): Result<Drawn> {
    if text == "" then Ok(d)
    else if origins == [] || exists o :: o in origins && !o.span.Valid(markdown) then Err(InvalidMapping)
    else
      Ok(d.(text := d.text + text,
            mappings := d.mappings + [MappingRun(TextRange(|d.text|, |d.text| + |text|), ModeOf(markdown, text, origins), origins)]))
  }

  /** The first block that holds a definition's span. */
  function DefinitionBlock(blocks: seq<Block>, span: Span, i: nat): Option<Id>
    requires i <= |blocks|
    decreases |blocks| - i
  {
    if i == |blocks| then None
    else if blocks[i].kind.ReferenceDefinition? && span in blocks[i].spans then Some(blocks[i].id)
    else DefinitionBlock(blocks, span, i + 1)
  }

  /** Where a reference's resolved definition lies. */
  function DefinitionOrigin(source: Source, reference: string): Result<Origin> {
    match source.definitions(reference)
    case None => Err(InvalidMapping)
    case Some(span) =>
      match DefinitionBlock(source.blocks, span, 0)
      case None => Err(InvalidMapping)
      case Some(owner) => Ok(Origin(owner, span))
  }

  /** The delimiters a wrapper keeps around its content. */
  function Delimiters(kind: InlineKind): Option<(string, string)> {
    match kind
    case Strikethrough => Some(("~~", "~~"))
    case Superscript => Some(("^(", ")"))
    case Subscript => Some(("_(", ")"))
    case _ => None
  }

  predicate Transparent(kind: InlineKind) {
    kind.Emphasis? || kind.Strong? || kind.Link?
  }

  /** `render`: an inline node drawn into a unit. */
  function Draw(source: Source, block: Id, inline: Inline, d: Drawn): Result<Drawn>
    decreases inline, 0
  {
    var origin := Origin(block, inline.span);
    if Transparent(inline.content) then DrawAll(source, block, inline.children, |inline.children|, d)
    else
      match Delimiters(inline.content)
      case Some((opening, closing)) =>
        var before :- Appended(source.markdown, d, opening, [origin]);
        var inside :- DrawAll(source, block, inline.children, |inline.children|, before);
        var after :- Appended(source.markdown, inside, closing, [origin]);
        Ok(after.(envelopes := after.envelopes + [
             Envelope(TextRange(|d.text|, |before.text|), TextRange(|inside.text|, |after.text|))]))
      case None =>
        match inline.content
        case Image(destination, reference) =>
          var inside :- DrawAll(source, block, inline.children, |inline.children|, d);
          var origins :-
            if reference == "" then Ok([origin])
            else
              var definition :- DefinitionOrigin(source, reference);
              Ok([origin, definition]);
          Appended(source.markdown, inside, " (" + destination + ")", origins)
        case _ => Appended(source.markdown, d, InlineText(inline.content, ""), [origin])
  }

  function DrawAll(source: Source, block: Id, inlines: seq<Inline>, n: nat, d: Drawn): Result<Drawn>
    requires n <= |inlines|
    decreases inlines, n
  {
    if n == 0 then Ok(d)
    else
      var before :- DrawAll(source, block, inlines, n - 1, d);
      Draw(source, block, inlines[n - 1], before)
  }

  lemma {:induction false} DrawStops(source: Source, block: Id, inlines: seq<Inline>, n: nat, m: nat, d: Drawn)
    requires n <= m <= |inlines| && DrawAll(source, block, inlines, n, d).Err?
    ensures DrawAll(source, block, inlines, m, d) == DrawAll(source, block, inlines, n, d)
  {
    hide Draw;
    if n < m {
      DrawStops(source, block, inlines, n, m - 1, d);
    }
  }

  // ---- Both renderers agree

  lemma {:induction false} DrawText(source: Source, block: Id, inline: Inline, d: Drawn)
    requires Draw(source, block, inline, d).Ok?
    ensures Draw(source, block, inline, d).value.text == d.text + RenderInline(inline)
    decreases inline, 0
  {
    hide ModeOf, DefinitionOrigin;
    var origin, children := Origin(block, inline.span), RenderAll(inline.children, |inline.children|);
    if Transparent(inline.content) {
      DrawAllText(source, block, inline.children, |inline.children|, d);
    } else {
      match Delimiters(inline.content)
      case Some((opening, closing)) =>
        var before := Appended(source.markdown, d, opening, [origin]).value;
        DrawAllText(source, block, inline.children, |inline.children|, before);
        B.Associative(d.text, opening, children);
        B.Associative(d.text, opening + children, closing);
      case None =>
        if inline.content.Image? {
          DrawAllText(source, block, inline.children, |inline.children|, d);
          B.Associative(d.text, children, " (" + inline.content.destination + ")");
        } else if InlineText(inline.content, "") == "" {
          assert d.text + "" == d.text;
        }
    }
  }

  lemma {:induction false} DrawAllText(source: Source, block: Id, inlines: seq<Inline>, n: nat, d: Drawn)
    requires n <= |inlines| && DrawAll(source, block, inlines, n, d).Ok?
    ensures DrawAll(source, block, inlines, n, d).value.text == d.text + RenderAll(inlines, n)
    decreases inlines, n
  {
    hide Draw, RenderInline;
    if n > 0 {
      DrawAllText(source, block, inlines, n - 1, d);
      DrawText(source, block, inlines[n - 1], DrawAll(source, block, inlines, n - 1, d).value);
      B.Associative(d.text, RenderAll(inlines, n - 1), RenderInline(inlines[n - 1]));
    }
  }

  // ---- Runs tile the text

  /** A unit as drawn so far maps back to its source. */
  ghost predicate Mapped(markdown: string, d: Drawn) {
    Slices.Maps(SourceUnit(0, InlineField([]), true, d.text, d.mappings, []), markdown)
  }

  lemma {:induction false} SliceGrows(text: string, more: string, range: TextRange)
    requires InBounds(range, text)
    ensures InBounds(range, text + more) && Slice(text + more, range) == Slice(text, range)
  {
  }

  lemma {:induction false} AppendedMaps(markdown: string, d: Drawn, text: string, origins: seq<Origin>)
    requires Mapped(markdown, d) && Appended(markdown, d, text, origins).Ok?
    ensures Mapped(markdown, Appended(markdown, d, text, origins).value)
  {
    hide Slices.Justified;
    var next := Appended(markdown, d, text, origins).value;
    if text != "" {
      var before, after := SourceUnit(0, InlineField([]), true, d.text, d.mappings, []), SourceUnit(0, InlineField([]), true, next.text, next.mappings, []);
      forall i | 0 <= i < |next.mappings| ensures Slices.RunMaps(after, i, markdown) {
        if i < |d.mappings| {
          assert Slices.RunMaps(before, i, markdown);
          SliceGrows(d.text, text, d.mappings[i].range);
        } else {
          assert Slice(next.text, next.mappings[i].range) == text;
          AppendJustified(markdown, text, origins, next.mappings[i]);
        }
      }
    }
  }

  lemma {:induction false} AppendJustified(markdown: string, text: string, origins: seq<Origin>, run: MappingRun)
    requires origins != [] && forall o :: o in origins ==> o.span.Valid(markdown)
    requires run.mode == ModeOf(markdown, text, origins) && run.origins == origins
    ensures Slices.Justified(run, text, markdown)
  {
  }

  // ---- Wrappers nest

  ghost predicate Either(a: Envelope, b: Envelope) {
    Nested(a, b) || Nested(b, a)
  }

  /** Nonempty delimiters between two positions, any two wrappers apart or one inside the other. */
  ghost predicate Wraps(envelopes: seq<Envelope>, from: nat, start: nat, end: nat)
    requires from <= |envelopes|
  {
    && (forall i :: from <= i < |envelopes| ==> Delimited(end, envelopes[i]) && start <= envelopes[i].opening.start)
    && forall i, j :: from <= i < j < |envelopes| ==> Either(envelopes[i], envelopes[j])
  }

  lemma {:induction false} WrapsMore(envelopes: seq<Envelope>, from: nat, mid: nat, start: nat, between: nat, end: nat)
    requires from <= mid <= |envelopes| && start <= between <= end
    requires Wraps(envelopes[..mid], from, start, between) && Wraps(envelopes, mid, between, end)
    ensures Wraps(envelopes, from, start, end)
  {
    forall i | from <= i < |envelopes| ensures Delimited(end, envelopes[i]) && start <= envelopes[i].opening.start {
      if i < mid {
        assert envelopes[..mid][i] == envelopes[i];
      }
    }
    forall i, j | from <= i < j < |envelopes| ensures Either(envelopes[i], envelopes[j]) {
      if i < mid {
        assert envelopes[..mid][i] == envelopes[i];
        if j < mid {
          assert envelopes[..mid][j] == envelopes[j];
        }
      }
    }
  }

  /** A wrapper around everything drawn inside it. */
  lemma {:induction false} WrapsAround(envelopes: seq<Envelope>, from: nat, own: Envelope, end: nat)
    requires from <= |envelopes| && Delimited(end, own) && Wraps(envelopes, from, own.opening.end, own.closing.start)
    ensures Wraps(envelopes + [own], from, own.opening.start, end)
  {
    var all := envelopes + [own];
    forall i, j | from <= i < j < |all| ensures Either(all[i], all[j]) {
      if j < |envelopes| {
        assert Either(envelopes[i], envelopes[j]);
      }
    }
  }

  lemma {:induction false} AppendedWraps(markdown: string, d: Drawn, text: string, origins: seq<Origin>)
    requires Appended(markdown, d, text, origins).Ok?
    ensures
      var next := Appended(markdown, d, text, origins).value;
      next.envelopes == d.envelopes && |next.text| == |d.text| + |text|
  {
  }

  /** What drawing adds: text, runs that tile it, and wrappers inside it that nest. */
  ghost predicate Grows(markdown: string, d: Drawn, next: Drawn) {
    && |d.text| <= |next.text| && |d.envelopes| <= |next.envelopes|
    && next.envelopes[..|d.envelopes|] == d.envelopes
    && Wraps(next.envelopes, |d.envelopes|, |d.text|, |next.text|)
    && (Mapped(markdown, d) ==> Mapped(markdown, next))
  }

  lemma {:induction false} AppendGrows(markdown: string, d: Drawn, text: string, origins: seq<Origin>)
    requires Appended(markdown, d, text, origins).Ok?
    ensures Grows(markdown, d, Appended(markdown, d, text, origins).value)
  {
    hide Mapped;
    AppendedWraps(markdown, d, text, origins);
    if Mapped(markdown, d) {
      AppendedMaps(markdown, d, text, origins);
    }
  }

  lemma {:induction false} GrowsNothing(markdown: string, d: Drawn)
    ensures Grows(markdown, d, d)
  {
  }

  lemma {:induction false} GrowsTwice(markdown: string, a: Drawn, b: Drawn, c: Drawn)
    requires Grows(markdown, a, b) && Grows(markdown, b, c)
    ensures Grows(markdown, a, c)
  {
    hide Mapped, Wraps;
    assert c.envelopes[..|a.envelopes|] == c.envelopes[..|b.envelopes|][..|a.envelopes|];
    WrapsMore(c.envelopes, |a.envelopes|, |b.envelopes|, |a.text|, |b.text|, |c.text|);
  }

  lemma {:induction false} WrapGrows(markdown: string, d: Drawn, before: Drawn, inside: Drawn, after: Drawn)
    requires Grows(markdown, d, before) && Grows(markdown, before, inside) && Grows(markdown, inside, after)
    requires before.envelopes == d.envelopes && after.envelopes == inside.envelopes
    requires |d.text| < |before.text| && |inside.text| < |after.text|
    ensures
      var own := Envelope(TextRange(|d.text|, |before.text|), TextRange(|inside.text|, |after.text|));
      Grows(markdown, d, after.(envelopes := after.envelopes + [own]))
  {
    hide Mapped;
    var own := Envelope(TextRange(|d.text|, |before.text|), TextRange(|inside.text|, |after.text|));
    var next := after.(envelopes := after.envelopes + [own]);
    WrapsAround(after.envelopes, |d.envelopes|, own, |after.text|);
    SameRuns(markdown, after, next);
    assert next.envelopes[..|d.envelopes|] == inside.envelopes[..|d.envelopes|];
  }

  lemma {:induction false} SameRuns(markdown: string, a: Drawn, b: Drawn)
    requires b == a.(envelopes := b.envelopes)
    ensures Mapped(markdown, a) == Mapped(markdown, b)
  {
  }

  lemma {:induction false} DrawGrows(source: Source, block: Id, inline: Inline, d: Drawn)
    requires Draw(source, block, inline, d).Ok?
    ensures Grows(source.markdown, d, Draw(source, block, inline, d).value)
    decreases inline, 0
  {
    hide Grows, Appended, DefinitionOrigin, InlineText;
    var origin := Origin(block, inline.span);
    if Transparent(inline.content) {
      DrawAllGrows(source, block, inline.children, |inline.children|, d);
    } else {
      match Delimiters(inline.content)
      case Some((opening, closing)) =>
        var before := Appended(source.markdown, d, opening, [origin]).value;
        var inside := DrawAll(source, block, inline.children, |inline.children|, before).value;
        var after := Appended(source.markdown, inside, closing, [origin]).value;
        AppendGrows(source.markdown, d, opening, [origin]);
        AppendedWraps(source.markdown, d, opening, [origin]);
        DrawAllGrows(source, block, inline.children, |inline.children|, before);
        AppendGrows(source.markdown, inside, closing, [origin]);
        AppendedWraps(source.markdown, inside, closing, [origin]);
        WrapGrows(source.markdown, d, before, inside, after);
      case None =>
        if inline.content.Image? {
          var inside := DrawAll(source, block, inline.children, |inline.children|, d).value;
          DrawAllGrows(source, block, inline.children, |inline.children|, d);
          var reference, shown := inline.content.reference, " (" + inline.content.destination + ")";
          var origins := if reference == "" then [origin] else [origin, DefinitionOrigin(source, reference).value];
          AppendGrows(source.markdown, inside, shown, origins);
          GrowsTwice(source.markdown, d, inside, Appended(source.markdown, inside, shown, origins).value);
        } else {
          AppendGrows(source.markdown, d, InlineText(inline.content, ""), [origin]);
        }
    }
  }

  lemma {:induction false} DrawAllGrows(source: Source, block: Id, inlines: seq<Inline>, n: nat, d: Drawn)
    requires n <= |inlines| && DrawAll(source, block, inlines, n, d).Ok?
    ensures Grows(source.markdown, d, DrawAll(source, block, inlines, n, d).value)
    decreases inlines, n
  {
    hide Grows, Draw;
    if n == 0 {
      GrowsNothing(source.markdown, d);
    } else {
      DrawAllGrows(source, block, inlines, n - 1, d);
      var before := DrawAll(source, block, inlines, n - 1, d).value;
      DrawGrows(source, block, inlines[n - 1], before);
      GrowsTwice(source.markdown, d, before, DrawAll(source, block, inlines, n, d).value);
    }
  }

  // ---- A whole unit

  const Blank: Drawn := Drawn("", [], [])

  function EnvelopeKey(e: Envelope): Sorting.Key {
    (e.opening.start, -(e.closing.end as int))
  }

  function UnitOf(block: Id, field: UnitField, primary: bool, d: Drawn): SourceUnit {
    SourceUnit(block, field, primary, d.text, d.mappings, Sorting.SortBy(d.envelopes, EnvelopeKey))
  }

  /** Once sorted by opening, wrappers that nest are listed as the splitter needs them. */
  lemma {:induction false} SortedNests(envelopes: seq<Envelope>, end: nat)
    requires Wraps(envelopes, 0, 0, end)
    ensures WellNested(end, Sorting.SortBy(envelopes, EnvelopeKey))
  {
    var sorted := Sorting.SortBy(envelopes, EnvelopeKey);
    Sorting.SortBySorted(envelopes, EnvelopeKey);
    forall i | 0 <= i < |sorted| ensures Delimited(end, sorted[i]) {
      Sorting.MemberOfEqualMultisets(sorted, envelopes, sorted[i]);
    }
    forall i, j | 0 <= i < j < |sorted| ensures Nested(sorted[i], sorted[j]) {
      Sorting.MemberOfEqualMultisets(sorted, envelopes, sorted[i]);
      Sorting.MemberOfEqualMultisets(sorted, envelopes, sorted[j]);
      OnceEach(envelopes, sorted, i, j, end);
      var k :| 0 <= k < |envelopes| && envelopes[k] == sorted[i];
      var m :| 0 <= m < |envelopes| && envelopes[m] == sorted[j];
      assert Either(envelopes[if k < m then k else m], envelopes[if k < m then m else k]);
      assert Sorting.Leq(EnvelopeKey(sorted[i]), EnvelopeKey(sorted[j]));
    }
  }

  lemma {:induction false} OnceEach(envelopes: seq<Envelope>, sorted: seq<Envelope>, i: nat, j: nat, end: nat)
    requires Wraps(envelopes, 0, 0, end) && multiset(sorted) == multiset(envelopes) && i < j < |sorted|
    ensures sorted[i] != sorted[j]
  {
    if sorted[i] == sorted[j] {
      var e := sorted[i];
      Sorting.Twice(sorted, i, j);
      Sorting.Repeats(envelopes, e, |envelopes|);
      var k, m :| 0 <= k < m < |envelopes| && envelopes[k] == e && envelopes[m] == e;
      assert false;
    }
  }

  /** A unit that maps back to its source, with text, whose wrappers nest. */
  ghost predicate Sound(unit: SourceUnit, markdown: string) {
    unit.text != "" && Slices.Maps(unit, markdown) && WellNested(|unit.text|, unit.envelopes)
  }

  lemma {:induction false} SameMaps(a: SourceUnit, b: SourceUnit, markdown: string)
    requires a.text == b.text && a.mappings == b.mappings && Slices.Maps(a, markdown)
    ensures Slices.Maps(b, markdown)
  {
    forall i | 0 <= i < |b.mappings| ensures Slices.RunMaps(b, i, markdown) {
      assert Slices.RunMaps(a, i, markdown);
    }
  }

  lemma {:induction false} GrownSound(markdown: string, d: Drawn, block: Id, field: UnitField, primary: bool)
    requires Grows(markdown, Blank, d) && d.text != ""
    ensures Sound(UnitOf(block, field, primary, d), markdown)
  {
    hide WellNested, Slices.RunMaps;
    BlankMaps(markdown);
    SortedNests(d.envelopes, |d.text|);
    SameMaps(SourceUnit(0, InlineField([]), true, d.text, d.mappings, []), UnitOf(block, field, primary, d), markdown);
  }

  lemma {:induction false} BlankMaps(markdown: string)
    ensures Mapped(markdown, Blank)
  {
  }

  /**
   * Whatever inline tree is drawn, the unit's text is exactly what the plain renderer makes of it,
   * its runs tile that text and are justified, and its wrappers nest with nonempty delimiters: the
   * mapper's two checks on an inline unit never refuse one.
   */
  lemma {:induction false} DrawnUnit(source: Source, block: Id, index: nat, inline: Inline)
    requires Draw(source, block, inline, Blank).Ok?
    ensures
      var unit := UnitOf(block, InlineField([index]), true, Draw(source, block, inline, Blank).value);
      && unit.text == RenderInline(inline)
      && (unit.text != "" ==> Sound(unit, source.markdown))
  {
    hide Draw, RenderInline, Sound, Grows;
    DrawText(source, block, inline, Blank);
    DrawGrows(source, block, inline, Blank);
    assert "" + RenderInline(inline) == RenderInline(inline);
    var d := Draw(source, block, inline, Blank).value;
    if d.text != "" {
      GrownSound(source.markdown, d, block, InlineField([index]), true);
    }
  }

  /** A mapped unit's text lies between two clean cuts: where its whole text is kept, the packer's assumption on units holds. */
  lemma {:induction false} WholeIsClean(unit: SourceUnit, markdown: string)
    requires Sound(unit, markdown)
    ensures CleanCut(unit.envelopes, 0) && CleanCut(unit.envelopes, |unit.text|)
  {
    forall e | e in unit.envelopes
      ensures !EndsInOpening(e, 0) && !Ranges.Holds(e.closing, 0) && !EndsInOpening(e, |unit.text|) && !Ranges.Holds(e.closing, |unit.text|)
    {
      var i :| 0 <= i < |unit.envelopes| && unit.envelopes[i] == e;
      assert DelimitedAt(|unit.text|, unit.envelopes, i);
    }
  }
}
