/** The walk over a document's blocks that builds its source units, every block once. */
module Mappers {
  import opened Common
  import opened Ranges
  import opened Units
  import opened Documents
  import opened Mapping
  import Slices

  // ---- Context units

  function Decimal(n: nat): string {
    (if n < 10 then "" else Decimal(n / 10)) + [('0' as int + n % 10) as char]
  }

  /** A list item's position among its list's items. */
  function ItemPosition(blocks: map<Id, Block>, children: seq<Child>, id: Id, i: nat, before: nat): Option<nat>
    requires i <= |children|
    decreases |children| - i
  {
    if i == |children| then None
    else
      match children[i]
      case BlockChild(child) =>
        if child in blocks && blocks[child].kind.ListItem? then
          if blocks[child].id == id then Some(before) else ItemPosition(blocks, children, id, i + 1, before + 1)
        else ItemPosition(blocks, children, id, i + 1, before)
      case InlineChild(_) => ItemPosition(blocks, children, id, i + 1, before)
  }

  /** A list item's canonical marker: its ordinal after its list's first number, or a dash. */
  function MarkerOf(blocks: map<Id, Block>, block: Block): Result<string> {
    if block.parent.None? || block.parent.value !in blocks || !blocks[block.parent.value].kind.List? then Err(InvalidMapping)
    else
      var list := blocks[block.parent.value];
      match ItemPosition(blocks, list.children, block.id, 0, 0)
      case None => Err(InvalidMapping)
      case Some(position) => Ok(if list.note.First? then Decimal(list.note.number + position) + ". " else "- ")
  }

  /** What a block shows of itself before its children, and as which field. */
  function ContextOf(blocks: map<Id, Block>, block: Block): Result<Option<(UnitField, string)>> {
    if block.kind.Code? && block.note.Info? then Ok(Some((CodeInfo, block.note.text)))
    else if block.kind.ListItem? then
      var marker :- MarkerOf(blocks, block);
      Ok(Some((ListMarker, marker)))
    else if block.kind.BlockQuote? && block.note.Alert? then Ok(Some((QuoteAlert, "[!" + block.note.text + "]")))
    else if block.kind.FootnoteDefinition? && block.note.NoteName? then Ok(Some((FootnoteLabel, "[^" + block.note.text + "]:")))
    else Ok(None)
  }

  function SpanOrigins(block: Block): seq<Origin> {
    seq(|block.spans|, i requires 0 <= i < |block.spans| => Origin(block.id, block.spans[i]))
  }

  /** Blocks that are not mapped: metadata, definitions and breaks. */
  predicate Unmapped(block: Block) {
    block.kind.Metadata? || block.kind.ReferenceDefinition? || block.kind.ThematicBreak?
  }

  // ---- The walk

  /** `push`: a unit with text joins the others, once its whole text maps back to its source. */
  function Pushed(markdown: string, units: seq<SourceUnit>, unit: SourceUnit): Result<seq<SourceUnit>> {
    if unit.text == "" then Ok(units)
    else
      var _ :- Slices.MappedSlice(unit, TextRange(0, |unit.text|), markdown);
      Ok(units + [unit])
  }

  /** `context`: what a block shows of itself, from all of its spans. */
  function ContextAdded(markdown: string, units: seq<SourceUnit>, block: Block, field: UnitField, text: string): Result<seq<SourceUnit>> {
    var drawn :- Appended(markdown, Blank, text, SpanOrigins(block));
    Pushed(markdown, units, UnitOf(block.id, field, false, drawn))
  }

  /** `inline_unit`: an inline child's unit, whose text must be the plain rendering. */
  function InlineAdded(source: Source, units: seq<SourceUnit>, block: Id, index: nat, inline: Inline): Result<seq<SourceUnit>> {
    var drawn :- Draw(source, block, inline, Blank);
    if drawn.text != RenderInline(inline) then Err(InvalidMapping)
    else Pushed(source.markdown, units, UnitOf(block, InlineField([index]), true, drawn))
  }

  /** What a walk has visited and built. */
  datatype Walking = Walking(visited: set<Id>, units: seq<SourceUnit>)

  /** `walk`: a block's context unit, then its children in order; a second visit is refused. */
  function WalkedBlock(source: Source, blocks: map<Id, Block>, id: Id, w: Walking): (r: Result<Walking>)
    ensures r.Ok? ==> w.visited <= r.value.visited
    decreases blocks.Keys - w.visited, 0
  {
    if id !in blocks || id in w.visited then Err(InvalidMapping)
    else
      var block := blocks[id];
      assert blocks.Keys - (w.visited + {id}) < blocks.Keys - w.visited by {
        assert id in blocks.Keys - w.visited;
      }
      if Unmapped(block) then Ok(Walking(w.visited + {id}, w.units))
      else
        var begun :- Begun(source, blocks, block, w.units);
        WalkedChildren(source, blocks, block, |block.children|, Walking(w.visited + {id}, begun))
  }

  /** The units once a block's context unit is built. */
  function Begun(source: Source, blocks: map<Id, Block>, block: Block, units: seq<SourceUnit>): Result<seq<SourceUnit>> {
    var context :- ContextOf(blocks, block);
    match context
    case None => Ok(units)
    case Some((field, text)) => ContextAdded(source.markdown, units, block, field, text)
  }

  function WalkedChildren(source: Source, blocks: map<Id, Block>, block: Block, n: nat, w: Walking): (r: Result<Walking>)
    requires n <= |block.children|
    ensures r.Ok? ==> w.visited <= r.value.visited
    decreases blocks.Keys - w.visited, n
  {
    if n == 0 then Ok(w)
    else
      var before :- WalkedChildren(source, blocks, block, n - 1, w);
      match block.children[n - 1]
      case BlockChild(child) =>
        assert blocks.Keys - before.visited <= blocks.Keys - w.visited;
        WalkedBlock(source, blocks, child, before)
      case InlineChild(inline) =>
        var units :- InlineAdded(source, before.units, block.id, n - 1, inline);
        Ok(Walking(before.visited, units))
  }

  /** How the walk of a block goes on. */
  lemma {:induction false} WalkGoes(source: Source, blocks: map<Id, Block>, id: Id, w: Walking)
    ensures id !in blocks || id in w.visited ==> WalkedBlock(source, blocks, id, w) == Err(InvalidMapping)
    ensures id in blocks && id !in w.visited ==>
              var (block, seen) := (blocks[id], w.visited + {id});
              WalkedBlock(source, blocks, id, w) ==
                if Unmapped(block) then Ok(Walking(seen, w.units))
                else
                  match Begun(source, blocks, block, w.units)
                  case Err(error) => Err(error)
                  case Ok(begun) => WalkedChildren(source, blocks, block, |block.children|, Walking(seen, begun))
  {
    hide Begun, WalkedChildren;
  }

  lemma {:induction false} WalkStarts(source: Source, blocks: map<Id, Block>, block: Block, w: Walking)
    ensures WalkedChildren(source, blocks, block, 0, w) == Ok(w)
  {
  }

  lemma {:induction false} ChildrenGo(source: Source, blocks: map<Id, Block>, block: Block, n: nat, w: Walking, before: Walking)
    requires n < |block.children| && WalkedChildren(source, blocks, block, n, w) == Ok(before)
    ensures
      WalkedChildren(source, blocks, block, n + 1, w) ==
        match block.children[n]
        case BlockChild(child) => WalkedBlock(source, blocks, child, before)
        case InlineChild(inline) =>
          match InlineAdded(source, before.units, block.id, n, inline)
          case Err(error) => Err(error)
          case Ok(units) => Ok(Walking(before.visited, units))
  {
    hide WalkedBlock, InlineAdded;
  }

  lemma {:induction false} ChildrenStop(source: Source, blocks: map<Id, Block>, block: Block, n: nat, m: nat, w: Walking)
    requires n <= m <= |block.children| && WalkedChildren(source, blocks, block, n, w).Err?
    ensures WalkedChildren(source, blocks, block, m, w) == WalkedChildren(source, blocks, block, n, w)
  {
    hide WalkedBlock, InlineAdded;
    if n < m {
      ChildrenStop(source, blocks, block, n, m - 1, w);
    }
  }

  /** The roots among the first n blocks, walked one after the other. */
  function WalkedRoots(source: Source, n: nat): Result<Walking>
    requires n <= |source.blocks|
  {
    if n == 0 then Ok(Walking({}, []))
    else
      var before :- WalkedRoots(source, n - 1);
      if source.blocks[n - 1].parent.Some? then Ok(before)
      else WalkedBlock(source, ById(source.blocks, |source.blocks|), source.blocks[n - 1].id, before)
  }

  lemma {:induction false} RootsStop(source: Source, n: nat, m: nat)
    requires n <= m <= |source.blocks| && WalkedRoots(source, n).Err?
    ensures WalkedRoots(source, m) == WalkedRoots(source, n)
  {
    hide WalkedBlock;
    if n < m {
      RootsStop(source, n, m - 1);
    }
  }

  /** The units of a document, every block of which must have been visited. */
  function MappedUnits(source: Source): Result<seq<SourceUnit>> {
    var walked :- WalkedRoots(source, |source.blocks|);
    if |walked.visited| != |source.blocks| then Err(InvalidMapping) else Ok(walked.units)
  }

  // ---- What the walk builds

  /** The primary unit of a block's inline child, as the plain renderer reads it. */
  ghost predicate Carries(unit: SourceUnit, block: Id, index: nat, inline: Inline) {
    unit.block == block && unit.field == InlineField([index]) && unit.primary && unit.text == RenderInline(inline)
  }

  ghost predicate CarriedAt(units: seq<SourceUnit>, block: Block, index: nat)
    requires index < |block.children|
  {
    match block.children[index]
    case InlineChild(inline) => RenderInline(inline) != "" ==> exists u :: u in units && Carries(u, block.id, index, inline)
    case BlockChild(_) => true
  }

  /** Every child of a mapped block is carried: inline content with text by a unit, blocks by their own visit. */
  ghost predicate Served(units: seq<SourceUnit>, visited: set<Id>, block: Block, n: nat)
    requires n <= |block.children|
  {
    !Unmapped(block) ==>
      forall k :: 0 <= k < n ==> CarriedAt(units, block, k) && (block.children[k].BlockChild? ==> block.children[k].id in visited)
  }

  /** No two units are of one field of one block. */
  ghost predicate Apart(units: seq<SourceUnit>) {
    forall i, j :: 0 <= i < j < |units| ==> units[i].block != units[j].block || units[i].field != units[j].field
  }

  ghost predicate AllSound(units: seq<SourceUnit>, markdown: string) {
    forall i :: 0 <= i < |units| ==> Sound(units[i], markdown)
  }

  /** Every unit is of a visited block; those of one block being walked are of its context or its first n children. */
  ghost predicate OfVisited(units: seq<SourceUnit>, visited: set<Id>) {
    forall i :: 0 <= i < |units| ==> units[i].block in visited
  }

  ghost predicate FieldsBelow(units: seq<SourceUnit>, block: Id, n: nat) {
    forall i :: 0 <= i < |units| && units[i].block == block ==>
      !units[i].field.InlineField? || exists k: nat :: k < n && units[i].field == InlineField([k])
  }

  lemma {:induction false} ServedStays(units: seq<SourceUnit>, more: seq<SourceUnit>, visited: set<Id>, wider: set<Id>, block: Block, n: nat)
    requires n <= |block.children| && Served(units, visited, block, n)
    requires units <= more && visited <= wider
    ensures Served(more, wider, block, n)
  {
    if !Unmapped(block) {
      forall k | 0 <= k < n ensures CarriedAt(more, block, k) && (block.children[k].BlockChild? ==> block.children[k].id in wider) {
        assert CarriedAt(units, block, k);
        CarriedStays(units, more, block, k);
      }
    }
  }

  lemma {:induction false} CarriedStays(units: seq<SourceUnit>, more: seq<SourceUnit>, block: Block, index: nat)
    requires index < |block.children| && CarriedAt(units, block, index) && units <= more
    ensures CarriedAt(more, block, index)
  {
    match block.children[index]
    case InlineChild(inline) =>
      if RenderInline(inline) != "" {
        var u :| u in units && Carries(u, block.id, index, inline);
        assert u in more;
      }
    case BlockChild(_) =>
  }

  /** What a walk keeps: sound units, one a field, of visited blocks, every visited block served. */
  ghost predicate Kept(blocks: map<Id, Block>, markdown: string, units: seq<SourceUnit>, visited: set<Id>, walking: set<Id>) {
    && AllSound(units, markdown) && Apart(units) && OfVisited(units, visited)
    && visited <= blocks.Keys
    && forall id :: id in visited && id !in walking ==> Served(units, visited, blocks[id], |blocks[id].children|)
  }

  lemma {:induction false} KeepsUnit(blocks: map<Id, Block>, markdown: string, units: seq<SourceUnit>, visited: set<Id>, walking: set<Id>, unit: SourceUnit)
    requires Kept(blocks, markdown, units, visited, walking) && Sound(unit, markdown) && unit.block in visited
    requires forall i :: 0 <= i < |units| && units[i].block == unit.block ==> units[i].field != unit.field
    ensures Kept(blocks, markdown, units + [unit], visited, walking)
  {
    hide Sound, Served;
    forall id | id in visited && id !in walking ensures Served(units + [unit], visited, blocks[id], |blocks[id].children|) {
      ServedStays(units, units + [unit], visited, visited, blocks[id], |blocks[id].children|);
    }
  }

  lemma {:induction false} KeepsVisit(blocks: map<Id, Block>, markdown: string, units: seq<SourceUnit>, visited: set<Id>, walking: set<Id>, id: Id)
    requires Kept(blocks, markdown, units, visited, walking) && id in blocks
    ensures Kept(blocks, markdown, units, visited + {id}, walking + {id})
  {
    hide AllSound, Served, Apart;
    forall b | b in visited + {id} && b !in walking + {id} ensures Served(units, visited + {id}, blocks[b], |blocks[b].children|) {
      ServedStays(units, units, visited, visited + {id}, blocks[b], |blocks[b].children|);
    }
  }

  lemma {:induction false} KeepsServed(blocks: map<Id, Block>, markdown: string, units: seq<SourceUnit>, visited: set<Id>, walking: set<Id>, id: Id)
    requires Kept(blocks, markdown, units, visited, walking + {id}) && id in blocks && Served(units, visited, blocks[id], |blocks[id].children|)
    ensures Kept(blocks, markdown, units, visited, walking)
  {
  }

  lemma {:induction false} NoUnitsOf(blocks: map<Id, Block>, markdown: string, units: seq<SourceUnit>, visited: set<Id>, walking: set<Id>, id: Id)
    requires Kept(blocks, markdown, units, visited, walking) && id !in visited
    ensures forall i :: 0 <= i < |units| ==> units[i].block != id
    ensures FieldsBelow(units, id, 0)
    ensures visited <= blocks.Keys
  {
    hide AllSound, Apart, Served;
  }

  lemma {:induction false} ServedNothing(units: seq<SourceUnit>, visited: set<Id>, block: Block)
    ensures Served(units, visited, block, 0)
    ensures Unmapped(block) ==> Served(units, visited, block, |block.children|)
  {
  }

  lemma {:induction false} ServedNext(units: seq<SourceUnit>, visited: set<Id>, block: Block, n: nat)
    requires n < |block.children| && Served(units, visited, block, n)
    requires CarriedAt(units, block, n) && (block.children[n].BlockChild? ==> block.children[n].id in visited)
    ensures Served(units, visited, block, n + 1)
  {
    hide CarriedAt;
  }

  lemma {:induction false} FieldsStay(before: seq<SourceUnit>, after: seq<SourceUnit>, seen: set<Id>, id: Id, n: nat)
    requires before <= after && FieldsBelow(before, id, n) && id in seen
    requires forall i :: |before| <= i < |after| ==> after[i].block !in seen
    ensures FieldsBelow(after, id, n + 1)
  {
    forall i | 0 <= i < |after| && after[i].block == id && after[i].field.InlineField?
      ensures exists k: nat :: k < n + 1 && after[i].field == InlineField([k])
    {
      assert after[i] == before[i];
      var k: nat :| k < n && before[i].field == InlineField([k]);
    }
  }

  lemma {:induction false} NotYet(units: seq<SourceUnit>, id: Id, n: nat)
    requires FieldsBelow(units, id, n)
    ensures forall i :: 0 <= i < |units| && units[i].block == id ==> units[i].field != InlineField([n])
  {
    assert forall k: nat :: [k] == [n] ==> [k][0] == [n][0];
  }

  lemma {:induction false} SoundMaps(unit: SourceUnit, markdown: string)
    requires unit.text != "" ==> Sound(unit, markdown)
    ensures unit.text != "" ==> Slices.Maps(unit, markdown)
  {
  }

  lemma {:induction false} FieldsGrow(units: seq<SourceUnit>, unit: SourceUnit, id: Id, n: nat)
    requires FieldsBelow(units, id, n) && unit.block == id && unit.field == InlineField([n])
    ensures FieldsBelow(units + [unit], id, n + 1) && FieldsBelow(units, id, n + 1)
  {
    var more := units + [unit];
    forall i | 0 <= i < |more| && more[i].block == id && more[i].field.InlineField?
      ensures exists k: nat :: k < n + 1 && more[i].field == InlineField([k])
    {
      if i < |units| {
        var k: nat :| k < n && units[i].field == InlineField([k]);
        assert k < n + 1 && more[i].field == InlineField([k]);
      }
    }
    forall i | 0 <= i < |units| && units[i].block == id && units[i].field.InlineField?
      ensures exists k: nat :: k < n + 1 && units[i].field == InlineField([k])
    {
      assert more[i] == units[i];
    }
  }

  /** The mapper: a source, the blocks already walked and the units built so far. */
  class Mapper {
    const source: Source
    const blocks: map<Id, Block>
    var visited: set<Id>
    var units: seq<SourceUnit>

    constructor (source: Source)
      ensures this.source == source && blocks == ById(source.blocks, |source.blocks|)
      ensures visited == {} && units == []
    {
      this.source := source;
      blocks := ById(source.blocks, |source.blocks|);
      visited, units := {}, [];
    }

    /** `render`: an inline node drawn into a unit. */
    method Render(block: Id, inline: Inline, unit: Drawn) returns (r: Result<Drawn>)
      ensures r == Draw(source, block, inline, unit)
      decreases inline, 0
    {
      hide Appended, DefinitionOrigin, DrawAll;
      var origin := Origin(block, inline.span);
      if Transparent(inline.content) {
        r := RenderAll(block, inline.children, unit);
        return;
      }
      var delimiters := Delimiters(inline.content);
      if delimiters.Some? {
        var before := Appended(source.markdown, unit, delimiters.value.0, [origin]);
        if before.Err? {
          return Err(before.error);
        }
        var inside := RenderAll(block, inline.children, before.value);
        if inside.Err? {
          return Err(inside.error);
        }
        var closed := Appended(source.markdown, inside.value, delimiters.value.1, [origin]);
        if closed.Err? {
          return Err(closed.error);
        }
        var own := Envelope(TextRange(|unit.text|, |before.value.text|), TextRange(|inside.value.text|, |closed.value.text|));
        r := Ok(closed.value.(envelopes := closed.value.envelopes + [own]));
      } else if inline.content.Image? {
        var inside := RenderAll(block, inline.children, unit);
        if inside.Err? {
          return Err(inside.error);
        }
        var origins := [origin];
        if inline.content.reference != "" {
          var definition := DefinitionOrigin(source, inline.content.reference);
          if definition.Err? {
            return Err(definition.error);
          }
          origins := [origin, definition.value];
        }
        r := Appended(source.markdown, inside.value, " (" + inline.content.destination + ")", origins);
      } else {
        r := Appended(source.markdown, unit, InlineText(inline.content, ""), [origin]);
      }
    }

    method RenderAll(block: Id, inlines: seq<Inline>, unit: Drawn) returns (r: Result<Drawn>)
      ensures r == DrawAll(source, block, inlines, |inlines|, unit)
      decreases inlines, 1
    {
      hide Draw;
      var drawn := unit;
      for i := 0 to |inlines|
        invariant DrawAll(source, block, inlines, i, unit) == Ok(drawn)
      {
        var next := Render(block, inlines[i], drawn);
        if next.Err? {
          DrawStops(source, block, inlines, i + 1, |inlines|, unit);
          return Err(next.error);
        }
        drawn := next.value;
      }
      r := Ok(drawn);
    }

    /** `push`: keeps a unit that has text, once its whole text maps back to its source. */
    method Push(unit: SourceUnit) returns (r: Result<()>)
      modifies this`units
      ensures
        match Pushed(source.markdown, old(units), unit)
        case Ok(all) => r.Ok? && units == all
        case Err(error) => r == Err(error) && units == old(units)
      ensures r.Ok? ==> units == old(units) + if unit.text == "" then [] else [unit]
      ensures r.Err? ==> units == old(units) && unit.text != "" && !Slices.Maps(unit, source.markdown)
    {
      if unit.text != "" {
        var whole := Slices.SliceMappings(unit, TextRange(0, |unit.text|), source.markdown);
        if whole.Err? {
          return Err(whole.error);
        }
        units := units + [unit];
      }
      r := Ok(());
    }

    /** `inline_unit`: a block's inline child as a primary unit. Its checks on text and mapping never refuse. */
    method InlineUnit(block: Block, index: nat, inline: Inline, ghost walking: set<Id>) returns (r: Result<()>)
      requires Kept(blocks, source.markdown, units, visited, walking) && block.id in visited
      requires FieldsBelow(units, block.id, index)
      modifies this`units
      ensures
        match InlineAdded(source, old(units), block.id, index, inline)
        case Ok(all) => r.Ok? && units == all
        case Err(error) => r == Err(error)
      ensures r.Ok? <==> Draw(source, block.id, inline, Blank).Ok?
      ensures old(units) <= units && forall i :: |old(units)| <= i < |units| ==> units[i].block == block.id
      ensures r.Ok? ==> Kept(blocks, source.markdown, units, visited, walking)
      ensures r.Ok? ==> FieldsBelow(units, block.id, index + 1)
      ensures r.Ok? && RenderInline(inline) != "" ==> exists u :: u in units && Carries(u, block.id, index, inline)
    {
      hide Kept, Sound, Draw, RenderInline;
      var drawn := Render(block.id, inline, Blank);
      if drawn.Err? {
        return Err(drawn.error);
      }
      DrawnUnit(source, block.id, index, inline);
      var unit := UnitOf(block.id, InlineField([index]), true, drawn.value);
      var rendered := RenderInline(inline);
      if drawn.value.text != rendered {
        assert false;
        return Err(InvalidMapping);
      }
      SoundMaps(unit, source.markdown);
      FieldsGrow(units, unit, block.id, index);
      NotYet(units, block.id, index);
      r := Push(unit);
      if unit.text != "" {
        KeepsUnit(blocks, source.markdown, old(units), visited, walking, unit);
        assert units[|units| - 1] == unit;
        assert Carries(unit, block.id, index, inline) && unit in units;
      } else {
        assert old(units) + [] == old(units);
      }
    }

    /** `context`: a non-primary unit whose text comes from the whole block's source spans. */
    method Context(block: Block, field: UnitField, text: string, ghost walking: set<Id>) returns (r: Result<()>)
      requires Kept(blocks, source.markdown, units, visited, walking) && block.id in visited && !field.InlineField?
      requires forall i :: 0 <= i < |units| ==> units[i].block != block.id
      modifies this`units
      ensures
        match ContextAdded(source.markdown, old(units), block, field, text)
        case Ok(all) => r.Ok? && units == all
        case Err(error) => r == Err(error)
      ensures old(units) <= units && forall i :: |old(units)| <= i < |units| ==> units[i].block == block.id
      ensures r.Ok? ==> Kept(blocks, source.markdown, units, visited, walking) && FieldsBelow(units, block.id, 0)
    {
      hide Kept, Sound;
      var drawn := Appended(source.markdown, Blank, text, SpanOrigins(block));
      if drawn.Err? {
        return Err(drawn.error);
      }
      var unit := UnitOf(block.id, field, false, drawn.value);
      AppendGrows(source.markdown, Blank, text, SpanOrigins(block));
      r := Push(unit);
      if r.Ok? && unit.text != "" {
        GrownSound(source.markdown, drawn.value, block.id, field, false);
        KeepsUnit(blocks, source.markdown, old(units), visited, walking, unit);
      } else {
        assert old(units) + [] == old(units);
      }
    }

    /** The context unit of a block that is about to be walked, if it has one. */
    method ShowContext(block: Block, ghost walking: set<Id>) returns (r: Result<()>)
      requires Kept(blocks, source.markdown, units, visited, walking) && block.id in visited
      requires forall i :: 0 <= i < |units| ==> units[i].block != block.id
      requires FieldsBelow(units, block.id, 0)
      modifies this`units
      ensures
        match Begun(source, blocks, block, old(units))
        case Ok(all) => r.Ok? && units == all
        case Err(error) => r == Err(error)
      ensures old(units) <= units && forall i :: |old(units)| <= i < |units| ==> units[i].block == block.id
      ensures r.Ok? ==> Kept(blocks, source.markdown, units, visited, walking) && FieldsBelow(units, block.id, 0)
    {
      hide Kept, FieldsBelow, ContextAdded, MarkerOf;
      var context := ContextOf(blocks, block);
      if context.Err? {
        return Err(context.error);
      }
      if context.value.Some? {
        r := Context(block, context.value.value.0, context.value.value.1, walking);
      } else {
        r := Ok(());
      }
    }

    /** `walk`: a block's context unit first, then its children in order. */
    method Walk(id: Id, ghost walking: set<Id>) returns (r: Result<()>)
      requires Kept(blocks, source.markdown, units, visited, walking) && walking <= visited
      requires forall b :: b in blocks ==> blocks[b].id == b
      modifies this`visited, this`units
      ensures
        match WalkedBlock(source, blocks, id, Walking(old(visited), old(units)))
        case Ok(walked) => r.Ok? && visited == walked.visited && units == walked.units
        case Err(error) => r == Err(error)
      ensures old(units) <= units && old(visited) <= visited
      ensures r.Ok? ==> Kept(blocks, source.markdown, units, visited, walking) && id in visited
      ensures r.Ok? ==> forall i :: |old(units)| <= i < |units| ==> units[i].block !in old(visited)
      decreases blocks.Keys - visited
    {
      hide Kept, FieldsBelow, Served, WalkedBlock, WalkedChildren, Begun, InlineAdded, Draw, RenderInline;
      WalkGoes(source, blocks, id, Walking(visited, units));
      if id !in blocks {
        return Err(InvalidMapping);
      }
      var block := blocks[id];
      if id in visited {
        return Err(InvalidMapping);
      }
      NoUnitsOf(blocks, source.markdown, units, visited, walking, id);
      KeepsVisit(blocks, source.markdown, units, visited, walking, id);
      visited := visited + {id};
      ghost var inside := walking + {id};
      ServedNothing(units, visited, block);
      if Unmapped(block) {
        KeepsServed(blocks, source.markdown, units, visited, walking, id);
        return Ok(());
      }
      var shown := ShowContext(block, inside);
      if shown.Err? {
        return Err(shown.error);
      }
      ghost var begun := units;
      WalkStarts(source, blocks, block, Walking(old(visited) + {id}, begun));
      ServedNothing(units, visited, block);
      for index := 0 to |block.children|
        invariant old(units) <= units && old(visited) + {id} <= visited
        invariant Kept(blocks, source.markdown, units, visited, inside)
        invariant WalkedChildren(source, blocks, block, index, Walking(old(visited) + {id}, begun)) == Ok(Walking(visited, units))
        invariant FieldsBelow(units, id, index)
        invariant Served(units, visited, block, index)
        invariant forall i :: |old(units)| <= i < |units| ==> units[i].block !in old(visited)
      {
        ghost var before, seen := units, visited;
        ChildrenGo(source, blocks, block, index, Walking(old(visited) + {id}, begun), Walking(visited, units));
        match block.children[index] {
          case BlockChild(child) =>
            var walked := Walk(child, inside);
            if walked.Err? {
              ChildrenStop(source, blocks, block, index + 1, |block.children|, Walking(old(visited) + {id}, begun));
              return Err(walked.error);
            }
            FieldsStay(before, units, seen, id, index);
            ServedStays(before, units, seen, visited, block, index);
            ServedNext(units, visited, block, index);
          case InlineChild(inline) =>
            var made := InlineUnit(block, index, inline, inside);
            if made.Err? {
              ChildrenStop(source, blocks, block, index + 1, |block.children|, Walking(old(visited) + {id}, begun));
              return Err(made.error);
            }
            ServedStays(before, units, seen, visited, block, index);
            ServedNext(units, visited, block, index);
        }
      }
      KeepsServed(blocks, source.markdown, units, visited, walking, id);
      r := Ok(());
    }
  }

  // ---- A whole document

  lemma {:induction false} IndexedById(blocks: seq<Block>, n: nat)
    requires n <= |blocks|
    ensures |ById(blocks, n)| <= n
    ensures forall id :: id in ById(blocks, n) ==> ById(blocks, n)[id].id == id
    ensures |ById(blocks, n)| == n ==> forall i :: 0 <= i < n ==> blocks[i].id in ById(blocks, n) && ById(blocks, n)[blocks[i].id] == blocks[i]
  {
    if n > 0 {
      IndexedById(blocks, n - 1);
      var before, id := ById(blocks, n - 1), blocks[n - 1].id;
      if id in before {
        assert ById(blocks, n).Keys == before.Keys;
        assert |ById(blocks, n)| == |ById(blocks, n).Keys| == |before.Keys| == |before|;
      } else {
        assert ById(blocks, n).Keys == before.Keys + {id};
        assert |ById(blocks, n)| == |ById(blocks, n).Keys| == |before.Keys| + 1 == |before| + 1;
      }
    }
  }

  /** What mapping a document gives: sound units, one a field, and a unit for all inline content with text. */
  ghost predicate DocumentMapped(source: Source, units: seq<SourceUnit>) {
    && AllSound(units, source.markdown) && Apart(units)
    && forall i :: 0 <= i < |source.blocks| ==> Shown(units, source.blocks[i])
  }

  ghost predicate Shown(units: seq<SourceUnit>, block: Block) {
    !Unmapped(block) ==> forall k :: 0 <= k < |block.children| ==> CarriedAt(units, block, k)
  }

  lemma {:induction false} AllVisited(source: Source, blocks: map<Id, Block>, units: seq<SourceUnit>, visited: set<Id>)
    requires blocks == ById(source.blocks, |source.blocks|)
    requires Kept(blocks, source.markdown, units, visited, {}) && |visited| == |source.blocks|
    ensures DocumentMapped(source, units)
  {
    hide AllSound, Apart, CarriedAt;
    IndexedById(source.blocks, |source.blocks|);
    SubsetSize(visited, blocks.Keys);
    assert |blocks.Keys| == |blocks|;
    forall i | 0 <= i < |source.blocks| ensures Shown(units, source.blocks[i]) {
      var block := source.blocks[i];
      assert Served(units, visited, blocks[block.id], |blocks[block.id].children|);
    }
  }

  lemma {:induction false} SubsetSize(a: set<Id>, b: set<Id>)
    requires a <= b
    ensures |a| <= |b| && (|a| == |b| ==> a == b)
  {
    if a != {} {
      var x :| x in a;
      SubsetSize(a - {x}, b - {x});
    }
  }

  /** `map_document` up to its ledger: every root is walked, and every block must have been visited. */
  method MapUnits(source: Source) returns (r: Result<seq<SourceUnit>>)
    ensures r == MappedUnits(source)
    ensures r.Ok? ==> DocumentMapped(source, r.value)
  {
    hide Kept, DocumentMapped, WalkedBlock, ById;
    var mapper := new Mapper(source);
    IndexedById(source.blocks, |source.blocks|);
    NothingKept(mapper.blocks, source.markdown);
    for i := 0 to |source.blocks|
      invariant Kept(mapper.blocks, source.markdown, mapper.units, mapper.visited, {})
      invariant WalkedRoots(source, i) == Ok(Walking(mapper.visited, mapper.units))
    {
      if source.blocks[i].parent.None? {
        var walked := mapper.Walk(source.blocks[i].id, {});
        if walked.Err? {
          RootsStop(source, i + 1, |source.blocks|);
          return Err(walked.error);
        }
      }
    }
    if |mapper.visited| != |source.blocks| {
      return Err(InvalidMapping);
    }
    AllVisited(source, mapper.blocks, mapper.units, mapper.visited);
    r := Ok(mapper.units);
  }

  lemma {:induction false} NothingKept(blocks: map<Id, Block>, markdown: string)
    ensures Kept(blocks, markdown, [], {}, {})
  {
  }
}
