/**
 * Blocks and units of concrete documents, and a document that packing by section turns into a draft
 * the validator refuses: two tables in a list item.
 */
module Examples {
  import opened Common
  import opened Ranges
  import opened Units
  import opened Slices
  import opened Layouts
  import opened Lookups
  import opened Preparation
  import opened Fitting
  import opened Splitting
  import opened Refining
  import opened Atoms
  import opened Packing
  import opened Tables
  import opened TableStarts
  import opened Replay
  import opened RowTexts
  import Documents

  // ---- Blocks and units

  function Made(id: Id, kind: BlockType, parent: Option<Id>, children: seq<Id>): Block {
    Documents.Block(id, kind, Documents.NoNote, parent, None, [], [],
                    seq(|children|, i requires 0 <= i < |children| => Documents.BlockChild(children[i])))
  }

  /** A cell's text, copied from a place of the source. */
  function Copied(block: Id, text: string, at: nat): SourceUnit {
    SourceUnit(block, InlineField([]), true, text,
               [MappingRun(TextRange(0, |text|), ExactCopy, [Origin(block, Span(at, at + |text|))])], [])
  }

  lemma {:induction false} CopiedMaps(markdown: string, block: Id, text: string, at: nat)
    requires text != "" && at + |text| <= |markdown| && markdown[at..at + |text|] == text
    ensures Maps(Copied(block, text, at), markdown)
  {
    var unit := Copied(block, text, at);
    assert Slice(unit.text, unit.mappings[0].range) == text;
    assert RunMaps(unit, 0, markdown);
  }

  // ---- Two tables in a list item

  const ListOfTables: string := "- |x|\n  |-|\n\n  |y|\n  |-|"

  function TheList(): Block { Made(1, List, None, [2]) }
  function TheItem(): Block { Made(2, ListItem, Some(1), [3, 6]) }
  function TableA(): Block { Made(3, Table, Some(2), [4]) }
  function HeadA(): Block { Made(4, TableHead, Some(3), [5]) }
  function CellA(): Block { Made(5, TableCell, Some(4), []) }
  function TableB(): Block { Made(6, Table, Some(2), [7]) }
  function HeadB(): Block { Made(7, TableHead, Some(6), [8]) }
  function CellB(): Block { Made(8, TableCell, Some(7), []) }

  /** The list item's marker, which its source is rewritten to. */
  function Marker(): SourceUnit {
    SourceUnit(2, ListMarker, false, "- ",
               [MappingRun(TextRange(0, 2), CanonicalTransformation, [Origin(2, Span(0, 24))])], [])
  }

  /** A list item with two tables of one cell each, packed by section. */
  function TwoTables(minTokens: Option<nat>): Layout {
    Layout(ListOfTables, [Marker(), Copied(5, "x", 3), Copied(8, "y", 16)],
           map[1 := TheList(), 2 := TheItem(), 3 := TableA(), 4 := HeadA(), 5 := CellA(), 6 := TableB(), 7 := HeadB(), 8 := CellB()],
           [[TheList(), TheItem()], [TheList(), TheItem(), TableA(), HeadA(), CellA()], [TheList(), TheItem(), TableB(), HeadB(), CellB()]],
           [Some(TextRange(0, 2)), Some(TextRange(0, 1)), Some(TextRange(0, 1))], Rules(BySection, minTokens))
  }

  ghost predicate IsTwoTables(l: Layout) {
    exists minTokens :: l == TwoTables(minTokens)
  }

  lemma {:induction false} TwoTablesCells(l: Layout)
    requires IsTwoTables(l)
    ensures l.RowCells(4) == Ok([CellA()]) && l.RowCells(7) == Ok([CellB()])
    ensures l.ChildBlocks(TableA(), 1) == [HeadA()] && l.ChildBlocks(TableB(), 1) == [HeadB()]
  {
    hide l.RowCells, l.ChildBlocks;
    RowOfOne(l, 4, 5);
    RowOfOne(l, 7, 8);
    OneChild(l, TableA(), 4);
    OneChild(l, TableB(), 7);
  }

  lemma {:induction false} TwoTablesWindows(l: Layout)
    requires IsTwoTables(l)
    ensures l.Window(1, true) == Ok(Some(TableWindow(3, 4, 0, [0]))) && l.Window(2, true) == Ok(Some(TableWindow(6, 7, 0, [0])))
    ensures l.InTable(1) && l.InTable(2) && l.Owner(1) == Ok(CellA()) && l.Owner(2) == Ok(CellB())
  {
    hide l.RowCells, l.ChildBlocks, l.Window, l.Nearest, l.InTable;
    TwoTablesCells(l);
    var (p, q) := (l.Ancestors(1), l.Ancestors(2));
    assert p[2..] == [TableA(), HeadA(), CellA()] && q[2..] == [TableB(), HeadB(), CellB()];
    WindowIs(l, 1, TableA(), [HeadA()], 0, [CellA()], 0);
    WindowIs(l, 2, TableB(), [HeadB()], 0, [CellB()], 0);
    CellNearest(l, 1, TableA(), HeadA(), CellA());
    CellNearest(l, 2, TableB(), HeadB(), CellB());
    assert seq(1, i => i) == [0];
  }

  function AtomA(): Body { Body([Fragment(Contribution(1, TextRange(0, 1)), 0)], [TableWindow(3, 4, 0, [0])]) }
  function AtomB(): Body { Body([Fragment(Contribution(2, TextRange(0, 1)), 0)], [TableWindow(6, 7, 0, [0])]) }

  lemma {:induction false} TwoTablesAtoms(l: Layout)
    requires IsTwoTables(l)
    ensures AtomsOf(l, 3).Ok? && AtomsOf(l, 3).value.0 == [AtomA(), AtomB()]
  {
    hide l.Window, l.KeyOf, l.Nearest;
    TwoTablesWindows(l);
    assert l.GroupOf(1).value.natural == 4 && l.GroupOf(2).value.natural == 7;
    assert !l.Indexed(0) && l.Indexed(1) && l.Indexed(2);
    assert AtomsOf(l, 0) == Ok(([], None));
    assert AtomsOf(l, 1) == Ok(([], None));
    assert Alone(l, NewFragment(l, 1), l.Window(1, true).value) == AtomA();
    assert Alone(l, NewFragment(l, 2), l.Window(2, true).value) == AtomB();
    assert [] + [AtomA()] == [AtomA()];
    assert AtomsOf(l, 2) == Ok(([AtomA()], Some(l.GroupOf(1).value)));
  }

  lemma {:induction false} TwoTablesSteps(l: Layout)
    requires IsTwoTables(l)
    ensures Steps(l, [AtomA(), AtomB()], 2) == [[AtomA(), AtomB()]]
  {
    hide l.Window;
    var atoms := [AtomA(), AtomB()];
    var (p, q) := (l.Ancestors(1), l.Ancestors(2));
    assert OutermostItem(p, 1) == Some(2) && OutermostItem(q, 1) == Some(2);
    assert StepOf(l, AtomA()) == Some((None, 2)) && StepOf(l, AtomB()) == Some((None, 2));
    assert Steps(l, atoms, 0) == [];
    assert Steps(l, atoms, 1) == [[AtomA()]];
    assert [AtomA()] + [AtomB()] == atoms;
    assert [[AtomA()]][0 := atoms] == [atoms];
    assert Continues(l, atoms, 1);
  }

  function BothTables(): Body { Body(AtomA().fragments + AtomB().fragments, AtomA().windows + AtomB().windows) }

  lemma {:induction false} AddsOne(windows: seq<TableWindow>, w: TableWindow)
    ensures AddWindows(windows, [w], 1) == AddWindow(windows, w)
  {
    assert AddWindows(windows, [w], 0) == windows;
  }

  lemma {:induction false} BothTablesBodied()
    ensures Bodied([AtomA(), AtomB()], 2) == BothTables()
  {
    hide MergeColumns, AddWindows;
    var atoms := [AtomA(), AtomB()];
    BodiedNext(atoms, 0);
    BodiedNext(atoms, 1);
    AddsOne([], AtomA().windows[0]);
    AddsOne(AtomA().windows, AtomB().windows[0]);
    assert [] + AtomA().windows == AtomA().windows && [] + AtomA().fragments == AtomA().fragments;
    assert Bodied(atoms, 0) == Body([], []);
    assert Combined(Body([], []), AtomA()) == AtomA();
    assert Combined(AtomA(), AtomB()) == BothTables();
  }

  /** The list and the item above a table cell. */
  lemma {:induction false} ItemAbove(list: Block, item: Block, table: Block, row: Block, cell: Block)
    requires list.kind.List? && item.kind.ListItem? && table.kind.Table? && row.kind.TableHead? && cell.kind.TableCell?
    ensures
      var path := [list, item, table, row, cell];
      NearestIn(path, 5, {ListItem}) == Some(item) && KindsOf(path, {List}, 5) == [list]
  {
    var path := [list, item, table, row, cell];
    assert NearestIn(path, 2, {ListItem}) == Some(item);
    assert NearestIn(path, 3, {ListItem}) == Some(item);
    assert NearestIn(path, 4, {ListItem}) == Some(item);
    assert KindsOf(path, {List}, 0) == [] && KindsOf(path, {List}, 1) == [list] && KindsOf(path, {List}, 2) == [list];
    assert KindsOf(path, {List}, 3) == [list] && KindsOf(path, {List}, 4) == [list];
  }

  lemma {:induction false} TwoTablesItem(l: Layout)
    requires IsTwoTables(l)
    ensures l.Nearest(1, {ListItem}) == Some(TheItem()) && ListDepth(l, 1) == 1
  {
    hide NearestIn, KindsOf;
    ItemAbove(TheList(), TheItem(), TableA(), HeadA(), CellA());
    assert l.Ancestors(1) == [TheList(), TheItem(), TableA(), HeadA(), CellA()];
  }

  lemma {:induction false} TwoTablesOwned(l: Layout)
    requires IsTwoTables(l)
    ensures OwnedUnits(l, 2, 3) == [0] && FirstMarker(l, [0], 0) == Some(0)
  {
    assert OwnedUnits(l, 2, 0) == [] && OwnedUnits(l, 2, 1) == [0] && OwnedUnits(l, 2, 2) == [0];
  }

  lemma {:induction false} TwoTablesMarker(l: Layout)
    requires IsTwoTables(l)
    ensures l.Nearest(1, {ListItem}).Some? && ItemPrefix(l, 1).Ok? && Whole(ItemPrefix(l, 1).value) == 2
  {
    hide Maps, Clipped, l.Nearest, ListDepth, OwnedUnits, FirstMarker;
    TwoTablesItem(l);
    TwoTablesOwned(l);
    MarkerMaps();
    assert Repeat("  ", 0) == "";
    assert WholePart(l, 0, StructuralContext).Ok?;
    var part := WholePart(l, 0, StructuralContext).value;
    assert |part.text| == 2;
    assert ItemPrefix(l, 1) == Ok([] + [part]);
    assert [] + [part] == [part] && Size([part], 0) == 0;
  }

  lemma {:induction false} MarkerMaps()
    ensures Maps(Marker(), ListOfTables)
  {
    assert RunMaps(Marker(), 0, ListOfTables);
  }

  lemma {:induction false} TwoTablesPlain(l: Layout)
    requires IsTwoTables(l)
    ensures AllPlain(l, Contributions(BothTables().fragments))
  {
    hide Maps;
    assert ListOfTables[3..4] == "x" && ListOfTables[16..17] == "y";
    CopiedMaps(ListOfTables, 5, "x", 3);
    CopiedMaps(ListOfTables, 8, "y", 16);
    assert OneLine(l, 1) && OneLine(l, 2);
  }

  lemma {:induction false} TwoTablesSize(l: Layout)
    requires IsTwoTables(l)
    ensures RowsSize(l, Contributions(BothTables().fragments), BothTables().windows, 1, 2) == 5
  {
    hide l.RowCells, l.Window, ListDepth;
    TwoTablesCells(l);
    TwoTablesItem(l);
    var (cs, windows) := (Contributions(BothTables().fragments), BothTables().windows);
    assert cs == [Contribution(1, TextRange(0, 1)), Contribution(2, TextRange(0, 1))];
    assert CellSize(l, cs, 5, 0) == 0 && CellSize(l, cs, 5, 1) == 1 && CellSize(l, cs, 5, 2) == 1;
    assert CellSize(l, cs, 8, 0) == 0 && CellSize(l, cs, 8, 1) == 0 && CellSize(l, cs, 8, 2) == 1;
    assert ColumnsSize(l, cs, [CellA()], [0], 0) == 0 && ColumnsSize(l, cs, [CellA()], [0], 1) == 1;
    assert ColumnsSize(l, cs, [CellB()], [0], 0) == 0 && ColumnsSize(l, cs, [CellB()], [0], 1) == 1;
    assert RowsSize(l, cs, windows, 1, 0) == 0 && RowsSize(l, cs, windows, 1, 1) == 1;
  }

  lemma {:induction false} TwoTablesPrepared(l: Layout)
    requires IsTwoTables(l)
    ensures Prepared(l, Sixty, BothTables()).Ok?
    ensures var chunk := Prepared(l, Sixty, BothTables()).value; chunk.tokenCount == 420 && chunk.windows == BothTables().windows
  {
    hide Prepared, AllPlain, RowsSize, ItemPrefix, l.RowCells, l.Window, l.Nearest, l.Owner;
    TwoTablesWindows(l);
    TwoTablesMarker(l);
    TwoTablesPlain(l);
    TwoTablesCells(l);
    TwoTablesSize(l);
    assert BothTables().fragments[0].contribution.unit == 1;
    RowsPrepared(l, BothTables());
  }

  lemma {:induction false} TwoTablesStep(minTokens: Option<nat>)
    ensures !StepsOneTable(TwoTables(minTokens))
  {
    hide AtomsOf, Steps;
    var l := TwoTables(minTokens);
    TwoTablesAtoms(l);
    TwoTablesSteps(l);
    var groups := Steps(l, [AtomA(), AtomB()], 2);
    assert !SameTable(groups[0][0], groups[0][1]);
  }

  /**
   * Packed by section, with a minimum or without, a list item that holds two tables is one idea and
   * one draft: it shows rows of both, and the window check refuses it.
   */
  lemma {:induction false} TwoTablesRefused(minTokens: Option<nat>)
    ensures
      var l := TwoTables(minTokens);
      && Built(l, Sixty).Ok? && |Built(l, Sixty).value| == 1
      && Built(l, Sixty).value[0].windows == [TableWindow(3, 4, 0, [0]), TableWindow(6, 7, 0, [0])]
      && !Accepted(l, Sixty, Built(l, Sixty).value[0])
    ensures !StepsOneTable(TwoTables(minTokens))
  {
    hide StepsOneTable, Prepared, AtomsOf, Steps, Bodied, ChunkReplay, WitnessWindows, ColumnsOk, Grown;
    var l := TwoTables(minTokens);
    TwoTablesAtoms(l);
    TwoTablesSteps(l);
    BothTablesBodied();
    TwoTablesPrepared(l);
    var atoms := [AtomA(), AtomB()];
    var chunk := Prepared(l, Sixty, BothTables()).value;
    var s := State([Idea(atoms)], None, []);
    assert Pieces([atoms], 0) == [] && Pieces([atoms], 1) == [Idea(atoms)];
    assert s.pending[1..] == [] && BodyOf(s.pending[0]) == BothTables();
    assert Opened(l, Sixty, s) == Ok(State([], Some(Draft(BothTables(), chunk)), []));
    assert Stepped(l, Sixty, s) == Ok(State([], Some(Draft(BothTables(), chunk)), []));
    assert [] + [chunk] == [chunk];
    assert Packs(l, Sixty, State([], Some(Draft(BothTables(), chunk)), [])) == Ok([chunk]);
    assert Packs(l, Sixty, s) == Ok([chunk]);
    if minTokens.Some? {
      assert Absorbed(l, Sixty, [chunk], minTokens.value, 0) == Ok([]);
      assert Absorbed(l, Sixty, [chunk], minTokens.value, 1) == Ok([chunk]);
    }
    assert !FollowsWindow(chunk.windows[0], chunk.windows[1]);
    TwoTablesStep(minTokens);
  }
}
