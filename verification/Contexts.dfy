/** What mapped blocks show of themselves: list markers, code infos, alerts and note labels, ahead of their content. */
module Contexts {
  import opened Common
  import opened Units
  import opened Documents
  import opened Mapping
  import opened Mappers
  import D = Drawing

  // ---- Numerals

  predicate AllDigits(text: string) {
    forall i :: 0 <= i < |text| ==> '0' <= text[i] <= '9'
  }

  /** The number that a text of digits reads as. */
  function Number(text: string): nat
    requires AllDigits(text)
  {
    if text == "" then 0 else 10 * Number(text[..|text| - 1]) + (text[|text| - 1] as int - '0' as int)
  }

  /** Digits, and no leading zero but in zero itself. */
  predicate IsNumeral(text: string) {
    text != "" && AllDigits(text) && (text[0] == '0' ==> |text| == 1)
  }

  /** A number's numeral reads back as the number. */
  lemma {:induction false} DecimalReads(n: nat)
    ensures IsNumeral(Decimal(n)) && Number(Decimal(n)) == n
    ensures Decimal(n)[0] == '0' ==> n == 0
  {
    var text := Decimal(n);
    assert text[|text| - 1] as int == '0' as int + n % 10;
    if n < 10 {
      assert text == [('0' as int + n) as char] && text[..0] == "";
    } else {
      DecimalReads(n / 10);
      assert text[..|text| - 1] == Decimal(n / 10);
      assert text[0] == Decimal(n / 10)[0];
    }
  }

  lemma {:induction false} NumberPositive(text: string)
    requires IsNumeral(text) && text[0] != '0'
    ensures Number(text) > 0
  {
    if |text| > 1 {
      NumberPositive(text[..|text| - 1]);
    } else {
      assert text[..0] == "";
    }
  }

  /** It is the only numeral that does. */
  lemma {:induction false} NumeralDecimal(text: string)
    requires IsNumeral(text)
    ensures Decimal(Number(text)) == text
  {
    var (front, last) := (text[..|text| - 1], text[|text| - 1]);
    assert text == front + [last];
    assert '0' <= last <= '9' && AllDigits(front);
    var digit := last as int - '0' as int;
    assert Number(text) == 10 * Number(front) + digit;
    assert ('0' as int + digit) as char == last;
    if front != "" {
      NumberPositive(front);
      NumeralDecimal(front);
      TenTimes(Number(front), digit);
    } else {
      assert Number(front) == 0;
    }
  }

  lemma {:induction false} TenTimes(front: nat, digit: nat)
    requires digit < 10 && front > 0
    ensures Decimal(10 * front + digit) == Decimal(front) + [('0' as int + digit) as char]
  {
    assert (10 * front + digit) / 10 == front && (10 * front + digit) % 10 == digit;
  }

  // ---- What a block shows

  predicate IsItem(index: map<Id, Block>, child: Child) {
    child.BlockChild? && child.id in index && index[child.id].kind.ListItem?
  }

  /** The places of the list items among the first j children. */
  function ItemsBefore(index: map<Id, Block>, children: seq<Child>, j: nat): set<nat>
    requires j <= |children|
  {
    set i: nat | i < j && IsItem(index, children[i])
  }

  /** Whether a block is first listed at a place. */
  predicate ListedAt(children: seq<Child>, id: Id, j: nat) {
    j < |children| && children[j] == BlockChild(id) && forall i :: 0 <= i < j ==> children[i] != BlockChild(id)
  }

  /** A list item's marker: in a list that starts at a number, its ordinal after as many items as come before it; in a bullet list, a dash. */
  ghost predicate MarkerIs(index: map<Id, Block>, item: Block, text: string) {
    && item.parent.Some? && item.parent.value in index && index[item.parent.value].kind.List?
    && var list := index[item.parent.value];
       exists j: nat :: ListedAt(list.children, item.id, j) &&
         match list.note
         case First(number) => text == Decimal(number + |ItemsBefore(index, list.children, j)|) + ". "
         case _ => text == "- "
  }

  ghost predicate ShowsAs(index: map<Id, Block>, block: Block, field: UnitField, text: string) {
    match field
    case CodeInfo => block.kind.Code? && block.note == Info(text)
    case ListMarker => block.kind.ListItem? && MarkerIs(index, block, text)
    case QuoteAlert => block.kind.BlockQuote? && block.note.Alert? && text == "[!" + block.note.text + "]"
    case FootnoteLabel => block.kind.FootnoteDefinition? && block.note.NoteName? && text == "[^" + block.note.text + "]:"
    case InlineField(_) => false
  }

  ghost predicate Identified(index: map<Id, Block>) {
    forall id :: id in index ==> index[id].id == id
  }

  lemma {:induction false} ItemsNext(index: map<Id, Block>, children: seq<Child>, i: nat)
    requires i < |children|
    ensures |ItemsBefore(index, children, i + 1)| == |ItemsBefore(index, children, i)| + if IsItem(index, children[i]) then 1 else 0
  {
    if IsItem(index, children[i]) {
      assert ItemsBefore(index, children, i + 1) == ItemsBefore(index, children, i) + {i};
    } else {
      assert ItemsBefore(index, children, i + 1) == ItemsBefore(index, children, i);
    }
  }

  lemma {:induction false} NoneBefore(index: map<Id, Block>, children: seq<Child>)
    ensures |ItemsBefore(index, children, 0)| == 0
  {
    assert ItemsBefore(index, children, 0) == {};
  }

  lemma {:induction false} PositionCounts(index: map<Id, Block>, children: seq<Child>, id: Id, i: nat, before: nat)
    requires Identified(index) && i <= |children| && before == |ItemsBefore(index, children, i)|
    requires forall k :: 0 <= k < i ==> children[k] != BlockChild(id)
    requires id in index && index[id].kind.ListItem?
    ensures
      match ItemPosition(index, children, id, i, before)
      case Some(position) => exists j: nat :: ListedAt(children, id, j) && position == |ItemsBefore(index, children, j)|
      case None => true
    decreases |children| - i
  {
    hide ItemsBefore;
    if i < |children| {
      ItemsNext(index, children, i);
      if children[i] == BlockChild(id) {
        assert ListedAt(children, id, i);
      } else {
        PositionCounts(index, children, id, i + 1, |ItemsBefore(index, children, i + 1)|);
      }
    }
  }

  /** What the mapper shows of a block is what the block shows as. */
  lemma {:induction false} ContextShows(index: map<Id, Block>, id: Id)
    requires Identified(index) && id in index && ContextOf(index, index[id]).Ok?
    ensures
      match ContextOf(index, index[id]).value
      case Some((field, text)) => forall f, t :: ShowsAs(index, index[id], f, t) <==> f == field && t == text
      case None => forall f, t :: !ShowsAs(index, index[id], f, t)
    ensures index[id].kind.ListItem? ==> ContextOf(index, index[id]).value.Some?
    ensures index[id].kind.ListItem? ==> ContextOf(index, index[id]).value.value.0 == ListMarker && ContextOf(index, index[id]).value.value.1 != ""
  {
    hide ItemsBefore;
    var block := index[id];
    if block.kind.ListItem? {
      var list := index[block.parent.value];
      NoneBefore(index, list.children);
      PositionCounts(index, list.children, id, 0, 0);
      var marker := MarkerOf(index, block).value;
      forall t ensures MarkerIs(index, block, t) <==> t == marker {
        forall j: nat, k: nat | ListedAt(list.children, id, j) && ListedAt(list.children, id, k) ensures j == k {
        }
      }
    }
  }

  // ---- Who comes first

  predicate IsSilent(block: Block) {
    block.kind in {Metadata, ReferenceDefinition, ThematicBreak}
  }

  /** Whether a block lies so many levels under another. */
  ghost predicate Under(index: map<Id, Block>, top: Id, id: Id, n: nat)
    decreases n
  {
    if n == 0 then top == id
    else
      && top in index && !IsSilent(index[top])
      && exists k :: 0 <= k < |index[top].children| && index[top].children[k].BlockChild? && Under(index, index[top].children[k].id, id, n - 1)
  }

  /** Whether a unit is what a block shows of itself: the one such unit, and ahead of every other of the block and of the blocks under it. */
  ghost predicate Leads(index: map<Id, Block>, units: seq<SourceUnit>, id: Id, u: nat, field: UnitField, text: string) {
    && u < |units| && units[u].block == id && units[u].field == field && !units[u].primary && units[u].text == text
    && (forall v: nat :: v < |units| && v != u && units[v].block == id ==> units[v].field.InlineField?)
    && forall v: nat, n: nat :: v < |units| && v != u && Under(index, id, units[v].block, n) ==> u < v
  }

  ghost predicate OnlyInline(units: seq<SourceUnit>, id: Id) {
    forall v: nat :: v < |units| && units[v].block == id ==> units[v].field.InlineField?
  }

  ghost predicate NoUnits(units: seq<SourceUnit>, id: Id) {
    forall v: nat :: v < |units| ==> units[v].block != id
  }

  /** Metadata, definitions and breaks have no units; of any other block, what it shows leads, and all else is inline content. */
  ghost predicate Introduced(index: map<Id, Block>, units: seq<SourceUnit>, id: Id)
    requires id in index
  {
    var block := index[id];
    if IsSilent(block) then NoUnits(units, id)
    else
      && (forall field: UnitField, text: string :: ShowsAs(index, block, field, text) && text != "" ==>
            exists u: nat :: Leads(index, units, id, u, field, text))
      && ((forall field: UnitField, text: string :: ShowsAs(index, block, field, text) ==> text == "") ==> OnlyInline(units, id))
      && (block.kind.ListItem? ==> exists text: string :: text != "" && ShowsAs(index, block, ListMarker, text))
  }

  lemma {:induction false} IntroducedStays(index: map<Id, Block>, units: seq<SourceUnit>, more: seq<SourceUnit>, id: Id)
    requires id in index && Introduced(index, units, id) && units <= more
    requires forall i :: |units| <= i < |more| && more[i].block == id ==> more[i].field.InlineField? && !IsSilent(index[id])
    ensures Introduced(index, more, id)
  {
    hide ShowsAs, Under;
    if IsSilent(index[id]) {
      assert NoUnits(more, id);
    } else {
      forall field: UnitField, text: string | ShowsAs(index, index[id], field, text) && text != ""
        ensures exists u: nat :: Leads(index, more, id, u, field, text)
      {
        var u: nat :| Leads(index, units, id, u, field, text);
        assert Leads(index, more, id, u, field, text);
      }
    }
  }

  // ---- The walk

  /** A walk that succeeds has visited nothing under its block before. */
  lemma {:induction false} WalkFresh(source: Source, index: map<Id, Block>, id: Id, w: Walking, c: Id, n: nat)
    requires WalkedBlock(source, index, id, w).Ok? && Under(index, id, c, n)
    ensures c !in w.visited
    decreases n
  {
    hide WalkedBlock, WalkedChildren, Begun;
    WalkGoes(source, index, id, w);
    if n > 0 {
      var block := index[id];
      var k :| 0 <= k < |block.children| && block.children[k].BlockChild? && Under(index, block.children[k].id, c, n - 1);
      var begun := Walking(w.visited + {id}, Begun(source, index, block, w.units).value);
      if WalkedChildren(source, index, block, k, begun).Err? {
        ChildrenStop(source, index, block, k, |block.children|, begun);
      }
      var before := WalkedChildren(source, index, block, k, begun).value;
      ChildrenGo(source, index, block, k, begun, before);
      if WalkedBlock(source, index, block.children[k].id, before).Err? {
        ChildrenStop(source, index, block, k + 1, |block.children|, begun);
      }
      WalkFresh(source, index, block.children[k].id, before, c, n - 1);
    }
  }

  /** Whether a unit is inline content of its block, or what its block shows of itself, with all it is made of. */
  ghost predicate Made(source: Source, index: map<Id, Block>, unit: SourceUnit) {
    && unit.block in index
    && var block := index[unit.block];
       || (exists k: nat :: D.IsContent(source, unit, block, k))
       || (D.IsContext(source.markdown, unit, block, unit.field, unit.text) && ShowsAs(index, block, unit.field, unit.text))
  }

  /** What a walk adds: units of blocks it visits, each such block introduced. */
  ghost predicate Adds(source: Source, index: map<Id, Block>, w: Walking, r: Walking) {
    && w.visited <= r.visited <= index.Keys && w.units <= r.units && OfVisited(r.units, r.visited)
    && (forall i :: |w.units| <= i < |r.units| ==> Made(source, index, r.units[i]))
    && forall b :: b in r.visited && b !in w.visited ==> Introduced(index, r.units, b)
  }

  ghost predicate OfNew(w: Walking, r: Walking, own: Option<Id>) {
    |w.units| <= |r.units| &&
    forall i :: |w.units| <= i < |r.units| && r.units[i].block in w.visited ==> own == Some(r.units[i].block) && r.units[i].field.InlineField?
  }

  lemma {:induction false} BegunIntroduces(source: Source, index: map<Id, Block>, id: Id, w: Walking)
    requires Identified(index) && OfVisited(w.units, w.visited) && w.visited <= index.Keys && WalkedBlock(source, index, id, w).Ok?
    requires id in index && id !in w.visited && !IsSilent(index[id]) && Begun(source, index, index[id], w.units).Ok?
    ensures
      var begun := Begun(source, index, index[id], w.units).value;
      && w.units <= begun && OfVisited(begun, w.visited + {id}) && Introduced(index, begun, id)
      && forall i :: |w.units| <= i < |begun| ==> begun[i].block == id && Made(source, index, begun[i])
  {
    hide WalkedBlock, Under, ShowsAs, ContextOf, Appended, Slices.MappedSlice;
    var begun := Begun(source, index, index[id], w.units).value;
    ContextShows(index, id);
    forall v: nat, n: nat | v < |w.units| ensures !Under(index, id, w.units[v].block, n) {
      if Under(index, id, w.units[v].block, n) {
        WalkFresh(source, index, id, w, w.units[v].block, n);
      }
    }
    match ContextOf(index, index[id]).value
    case None => assert OnlyInline(begun, id);
    case Some((field, text)) =>
      ContextUnit(source.markdown, w.units, index[id], field, text);
      if text == "" {
        assert OnlyInline(begun, id);
      } else {
        assert Leads(index, begun, id, |w.units|, field, text);
        assert ShowsAs(index, index[id], field, text);
      }
  }

  lemma {:induction false} ContextUnit(markdown: string, units: seq<SourceUnit>, block: Block, field: UnitField, text: string)
    requires ContextAdded(markdown, units, block, field, text).Ok?
    ensures
      var all := ContextAdded(markdown, units, block, field, text).value;
      if text == "" then all == units
      else
        && |all| == |units| + 1 && units <= all
        && D.IsContext(markdown, all[|units|], block, field, text)
  {
    hide Slices.MappedSlice;
  }

  lemma {:induction false} InlineAddsOwn(source: Source, units: seq<SourceUnit>, id: Id, k: nat, inline: Inline)
    requires InlineAdded(source, units, id, k, inline).Ok?
    ensures
      var all := InlineAdded(source, units, id, k, inline).value;
      units <= all && forall i :: |units| <= i < |all| ==> all[i].block == id && all[i].field == InlineField([k])
    ensures
      var all := InlineAdded(source, units, id, k, inline).value;
      forall block: Block :: block.id == id && k < |block.children| && block.children[k] == InlineChild(inline) ==>
        forall i :: |units| <= i < |all| ==> D.IsContent(source, all[i], block, k)
  {
    hide Draw, RenderInline, Slices.MappedSlice, D.IsContent, UnitOf;
    UnitFields(id, k, Draw(source, id, inline, Blank).value);
    forall block: Block | block.id == id && k < |block.children| && block.children[k] == InlineChild(inline)
      ensures D.IsContent(source, UnitOf(id, InlineField([k]), true, Draw(source, id, inline, Blank).value), block, k)
    {
      D.DrawnContent(source, block, k);
    }
  }

  lemma {:induction false} UnitFields(id: Id, k: nat, drawn: Drawn)
    ensures var unit := UnitOf(id, InlineField([k]), true, drawn); unit.block == id && unit.field == InlineField([k])
  {
  }

  /** One walk after another. */
  lemma {:induction false} AddsMore(source: Source, index: map<Id, Block>, w: Walking, before: Walking, after: Walking, own: Option<Id>)
    requires Adds(source, index, w, before) && OfNew(w, before, own)
    requires Adds(source, index, before, after) && OfNew(before, after, own) && (own.Some? ==> own.value in w.visited)
    ensures Adds(source, index, w, after) && OfNew(w, after, own)
  {
    hide Introduced, Made;
    forall i | |w.units| <= i < |after.units| ensures Made(source, index, after.units[i]) {
      if i < |before.units| {
        assert before.units[i] == after.units[i];
      }
    }
    forall b | b in after.visited && b !in w.visited ensures Introduced(index, after.units, b) {
      if b in before.visited {
        IntroducedStays(index, before.units, after.units, b);
      }
    }
    forall i | |w.units| <= i < |after.units| && after.units[i].block in w.visited
      ensures own == Some(after.units[i].block) && after.units[i].field.InlineField?
    {
      if i < |before.units| {
        assert before.units[i] == after.units[i];
      }
    }
  }

  lemma {:induction false} BlockIntroduces(source: Source, index: map<Id, Block>, id: Id, w: Walking)
    requires Identified(index) && OfVisited(w.units, w.visited) && w.visited <= index.Keys && WalkedBlock(source, index, id, w).Ok?
    ensures var r := WalkedBlock(source, index, id, w).value; Adds(source, index, w, r) && OfNew(w, r, None)
    decreases index.Keys - w.visited, 0
  {
    hide WalkedBlock, WalkedChildren, Begun, Introduced, Made;
    WalkGoes(source, index, id, w);
    var block := index[id];
    var seen := w.visited + {id};
    assert Unmapped(block) <==> IsSilent(block);
    var r := WalkedBlock(source, index, id, w).value;
    if Unmapped(block) {
      SilentIntroduced(index, w, id);
    } else {
      BegunIntroduces(source, index, id, w);
      var begun := Begun(source, index, block, w.units).value;
      assert index.Keys - seen < index.Keys - w.visited by { assert id in index.Keys - w.visited; }
      ChildrenIntroduce(source, index, id, |block.children|, Walking(seen, begun));
      IntroducedStays(index, begun, r.units, id);
      forall i | |w.units| <= i < |r.units| ensures r.units[i].block !in w.visited && Made(source, index, r.units[i]) {
        if i < |begun| {
          assert begun[i] == r.units[i];
        }
      }
    }
  }

  lemma {:induction false} SilentIntroduced(index: map<Id, Block>, w: Walking, id: Id)
    requires OfVisited(w.units, w.visited) && id in index && id !in w.visited && IsSilent(index[id])
    ensures Introduced(index, w.units, id)
  {
  }

  lemma {:induction false} ChildrenIntroduce(source: Source, index: map<Id, Block>, id: Id, n: nat, w: Walking)
    requires Identified(index) && OfVisited(w.units, w.visited) && w.visited <= index.Keys && id in w.visited
    requires n <= |index[id].children| && WalkedChildren(source, index, index[id], n, w).Ok?
    ensures var r := WalkedChildren(source, index, index[id], n, w).value; Adds(source, index, w, r) && OfNew(w, r, Some(id))
    decreases index.Keys - w.visited, n
  {
    hide WalkedBlock, WalkedChildren, InlineAdded, Introduced, D.IsContent, D.IsContext, ShowsAs;
    var block := index[id];
    if n == 0 {
      WalkStarts(source, index, block, w);
    } else {
      if WalkedChildren(source, index, block, n - 1, w).Err? {
        ChildrenStop(source, index, block, n - 1, n, w);
      }
      ChildrenIntroduce(source, index, id, n - 1, w);
      var before := WalkedChildren(source, index, block, n - 1, w).value;
      ChildrenGo(source, index, block, n - 1, w, before);
      var after := WalkedChildren(source, index, block, n, w).value;
      match block.children[n - 1] {
        case InlineChild(inline) => InlineAddsOwn(source, before.units, id, n - 1, inline);
        case BlockChild(c) =>
          assert index.Keys - before.visited <= index.Keys - w.visited;
          BlockIntroduces(source, index, c, before);
      }
      AddsMore(source, index, w, before, after, Some(id));
    }
  }

  lemma {:induction false} RootsIntroduce(source: Source, n: nat)
    requires n <= |source.blocks| && WalkedRoots(source, n).Ok? && Identified(ById(source.blocks, |source.blocks|))
    ensures Adds(source, ById(source.blocks, |source.blocks|), Walking({}, []), WalkedRoots(source, n).value)
  {
    hide WalkedBlock, Introduced, ById, Made;
    if n > 0 {
      RootsIntroduce(source, n - 1);
      var index, before := ById(source.blocks, |source.blocks|), WalkedRoots(source, n - 1).value;
      if source.blocks[n - 1].parent.None? {
        BlockIntroduces(source, index, source.blocks[n - 1].id, before);
        AddsMore(source, index, Walking({}, []), before, WalkedRoots(source, n).value, None);
      }
    }
  }

  // ---- A whole document

  /** In a mapped document every block's marker, info, alert or label leads its content, and every unit is made of what the block holds or shows. */
  lemma {:induction false} MappedIntroduces(source: Source, i: nat)
    requires MappedUnits(source).Ok? && i < |source.blocks|
    ensures
      var index := ById(source.blocks, |source.blocks|);
      var block := source.blocks[i];
      block.id in index && index[block.id] == block && Introduced(index, MappedUnits(source).value, block.id)
    ensures forall u :: 0 <= u < |MappedUnits(source).value| ==> Made(source, ById(source.blocks, |source.blocks|), MappedUnits(source).value[u])
  {
    hide ById, WalkedRoots, Introduced, Made;
    var index := ById(source.blocks, |source.blocks|);
    IndexedById(source.blocks, |source.blocks|);
    RootsIntroduce(source, |source.blocks|);
    var walked := WalkedRoots(source, |source.blocks|).value;
    SubsetSize(walked.visited, index.Keys);
    assert |index.Keys| == |index|;
  }

  /** Whether an item's one marker stands before all else of the item and of the blocks under it, and reads as the list counts. */
  ghost predicate Marked(index: map<Id, Block>, units: seq<SourceUnit>, item: Block) {
    exists u: nat, text: string :: Leads(index, units, item.id, u, ListMarker, text) && MarkerIs(index, item, text)
  }

  /** Every mapped list item has its marker. */
  lemma {:induction false} ItemsMarked(source: Source, i: nat)
    requires MappedUnits(source).Ok? && i < |source.blocks| && source.blocks[i].kind.ListItem?
    ensures Marked(ById(source.blocks, |source.blocks|), MappedUnits(source).value, source.blocks[i])
  {
    hide ById, MappedUnits, Leads, MarkerIs;
    MappedIntroduces(source, i);
    var index := ById(source.blocks, |source.blocks|);
    var text: string :| text != "" && ShowsAs(index, source.blocks[i], ListMarker, text);
    var u: nat :| Leads(index, MappedUnits(source).value, source.blocks[i].id, u, ListMarker, text);
  }
}
