/** From a node tree to chunks: assembled, mapped, indexed, packed and checked. */
module Chunking {
  import opened Common
  import opened Ranges
  import opened Units
  import opened Layouts
  import opened Preparation
  import opened Splitting
  import opened Coverage
  import opened Atoms
  import opened Packing
  import opened Tables
  import opened TableStarts
  import opened Absorbing
  import opened Drafts
  import opened Refusals
  import opened Replay
  import opened Acceptance
  import opened Indexing
  import opened DocumentTables
  import Documents
  import Assembly
  import Mapping
  import Mappers
  import Reaching
  import Rebuilding

  /** Which part of each unit a profile indexes. */
  type Chrome = seq<SourceUnit> -> seq<Option<TextRange>>

  /** Kept parts are whole from the unit's start to a normalized end. */
  ghost predicate FromStart(chrome: Chrome) {
    forall units: seq<SourceUnit> :: KeepsStarts(units, chrome(units))
  }

  ghost predicate KeepsStarts(units: seq<SourceUnit>, kept: seq<Option<TextRange>>) {
    forall u :: 0 <= u < |units| && u < |kept| && kept[u].Some? ==>
      && kept[u].value.start == 0
      && NormalizedRange(|units[u].text|, units[u].envelopes, 0, kept[u].value.end) == kept[u]
  }

  /** What the parser promises of a tree: shaped tables, and no blocks inside those that are not mapped. */
  ghost predicate Parsed(nodes: seq<Documents.Node>, title: Assembly.Title) {
    var doc := Assembly.Assembled(nodes, title);
    doc.Ok? ==> TablesShaped(doc.value.blocks) && Reaching.Leafy(doc.value.blocks)
  }

  /** The layout of a node tree. */
  function LayoutFrom(nodes: seq<Documents.Node>, title: Assembly.Title, markdown: string, definitions: string -> Option<Span>, chrome: Chrome, rules: Rules): Result<Layout> {
    var doc :- Assembly.Assembled(nodes, title);
    var units :- Mappers.MappedUnits(Mapping.Source(markdown, doc.blocks, definitions));
    LayoutOf(markdown, doc.blocks, units, chrome(units), rules)
  }

  /** A parsed document's layout is what packing needs. */
  lemma {:induction false} LayoutIsSound(nodes: seq<Documents.Node>, title: Assembly.Title, source: Mapping.Source, kept: seq<Option<TextRange>>, rules: Rules)
    requires Assembly.Assembled(nodes, title).Ok? && source.blocks == Assembly.Assembled(nodes, title).value.blocks
    requires Reaching.Leafy(source.blocks) && TablesShaped(source.blocks) && Mappers.MappedUnits(source).Ok?
    requires Mappers.DocumentMapped(source, Mappers.MappedUnits(source).value) && KeepsStarts(Mappers.MappedUnits(source).value, kept)
    ensures
      var layout := LayoutOf(source.markdown, source.blocks, Mappers.MappedUnits(source).value, kept, rules);
      layout.Ok? && Sound(layout.value) && TablesRegular(layout.value)
  {
    hide Assembly.Assembled, Reaching.Leafy, TablesShaped, Mappers.MappedUnits, Mappers.DocumentMapped, Ready, Paths, Documents.ById, TablesRegular, RowsRegular,
      Rebuilding.Visible, CleanLayout, NormalizedRange;
    DocumentIsReady(nodes, title, source, kept, rules);
    var l := LayoutOf(source.markdown, source.blocks, Mappers.MappedUnits(source).value, kept, rules).value;
    ReadyIsRegular(l, source.blocks);
    RowsAreRegular(l);
    MappedIsVisible(l, source);
  }

  /**
   * A node tree as the parser makes it, chunked under any rules with any counter. It is refused
   * before packing only where assembling or mapping refuses it. Coverage is always accepted. The
   * chunks are too where no step holds rows of two tables, and no rows clash if small drafts are
   * absorbed; and where every step fits one chunk, exactly there.
   */
  method ChunkTree(nodes: seq<Documents.Node>, title: Assembly.Title, markdown: string, definitions: string -> Option<Span>, chrome: Chrome, rules: Rules, t: Tools)
    returns (r: Result<Checked>, refused: Option<seq<ChunkContent>>)
    requires Parsed(nodes, title) && FromStart(chrome)
    ensures LayoutFrom(nodes, title, markdown, definitions, chrome, rules).Err? ==>
              r == Err(LayoutFrom(nodes, title, markdown, definitions, chrome, rules).error) && refused.None?
    ensures LayoutFrom(nodes, title, markdown, definitions, chrome, rules).Ok? ==>
              var l := LayoutFrom(nodes, title, markdown, definitions, chrome, rules).value;
              && (Built(l, t).Err? ==> r == Err(Built(l, t).error) && refused.None?)
              && (Built(l, t).Ok? ==> NumberedAs(Built(l, t).value, if refused.None? && r.Ok? then r.value.drafts else if refused.Some? then refused.value else []))
              && (r.Ok? ==> Exact(l, AllFragments(r.value.drafts, |r.value.drafts|)))
              && (r.Ok? ==> forall i :: 0 <= i < |r.value.drafts| ==> Accepted(l, t, r.value.drafts[i]))
              && (StepsOneTable(l) && (rules.minTokens.Some? ==> Absorbable(l)) ==> refused.None?)
              && (Built(l, t).Ok? && StepsFit(l, t) && (rules.minTokens.Some? ==> Absorbable(l)) ==> (refused.None? <==> StepsOneTable(l)))
  {
    hide Assembly.Assembled, Reaching.Leafy, TablesShaped, Mappers.MappedUnits, Mappers.DocumentMapped, Ready, Paths, Documents.ById, TablesRegular, RowsRegular,
      Rebuilding.Visible, CleanLayout, NormalizedRange, KeepsStarts, Built, StepsOneTable, Absorbable, StepsFit, Exact, Accepted, AllFragments, AllReplay,
      SameButOrdinals, CoverageOf, LaidRight, MixedStep;
    refused := None;
    var doc := Assembly.Assemble(nodes, title);
    if doc.Err? {
      return Err(doc.error), None;
    }
    var source := Mapping.Source(markdown, doc.value.blocks, definitions);
    var units := Mappers.MapUnits(source);
    if units.Err? {
      return Err(units.error), None;
    }
    assert KeepsStarts(units.value, chrome(units.value));
    LayoutIsSound(nodes, title, source, chrome(units.value), rules);
    var l := NewLayout(markdown, doc.value.blocks, units.value, chrome(units.value), rules);
    if l.Err? {
      assert false;
      return Err(Structure), None;
    }
    PackedNeeds(l.value);
    r, refused := BuildChecked(l.value, t);
  }
}
