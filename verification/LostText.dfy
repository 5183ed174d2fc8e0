/**
 * Text beside a row's cells: source kept in a malformed row refuses packing, and a paragraph nested
 * in a cell is lost.
 */
module LostText {
  import opened Common
  import opened Ranges
  import opened Units
  import opened Slices
  import opened Layouts
  import opened Lookups
  import opened Preparation
  import opened Splitting
  import opened Coverage
  import opened Refining
  import opened Atoms
  import opened Packing
  import opened RowTexts
  import opened Examples
  import Documents
  import Repair
  import Sorting

  // ---- Source kept from a malformed row

  const Stray: string := "|y|z"

  function StrayTable(): Block { Made(1, Table, None, [2]) }
  function StrayRow(): Block { Made(2, TableRow, Some(1), [3, 4]) }
  function StrayCell(): Block { Made(3, TableCell, Some(2), []) }
  function StrayRaw(): Block { Made(4, Raw, Some(2), []) }

  /** A row of one cell with source kept after it. */
  function StrayLayout(rules: Rules): Layout {
    Layout(Stray, [Copied(3, "y", 1), Copied(4, "z", 3)], map[1 := StrayTable(), 2 := StrayRow(), 3 := StrayCell(), 4 := StrayRaw()],
           [[StrayTable(), StrayRow(), StrayCell()], [StrayTable(), StrayRow(), StrayRaw()]],
           [Some(TextRange(0, 1)), Some(TextRange(0, 1))], rules)
  }

  lemma {:induction false} StrayNearest(table: Block, row: Block, raw: Block)
    requires table.kind.Table? && row.kind.TableRow? && raw.kind.Raw?
    ensures
      var path := [table, row, raw];
      NearestIn(path, 3, {Table}) == Some(table) && NearestIn(path, 3, {TableCell}).None?
  {
    var path := [table, row, raw];
    assert NearestIn(path, 1, {Table}) == Some(table) && NearestIn(path, 2, {Table}) == Some(table);
    assert NearestIn(path, 1, {TableCell}).None? && NearestIn(path, 2, {TableCell}).None?;
  }

  /** Repair puts what a row dropped into the row itself, beside its cells. */
  lemma {:induction false} GapInRow(cell: Documents.Node, row: Documents.Node, table: Documents.Node, raw: Documents.Node)
    requires row.BlockNode? && row.children == [cell] && table.BlockNode? && table.children == [row]
    requires Repair.Holds(table, raw.span) && Repair.Holds(row, raw.span) && cell.span.start <= cell.span.end <= raw.span.start < raw.span.end
    ensures Repair.Inserted([table], raw) == [Repair.WithNested(table, [Repair.WithNested(row, [cell, raw])])]
  {
    var key := Repair.NodeStart;
    assert Repair.FirstHolding([cell], raw.span, 1).None?;
    assert [cell] + [raw] == [cell, raw] && [cell, raw][1..] == [raw] && [raw][1..] == [];
    assert Sorting.SortBy([raw], key) == [raw] by {
      assert Sorting.SortBy<Documents.Node>([], key) == [];
    }
    assert Sorting.Insert(cell, [raw], key) == [cell] + [raw];
    assert Sorting.SortBy([cell, raw], key) == [cell, raw];
    assert Repair.Inserted([cell], raw) == Sorting.SortBy([cell, raw], key);
    assert Repair.Inserted([row], raw) == [row][0 := Repair.WithNested(row, Repair.Inserted([cell], raw))];
    var inner := Repair.WithNested(row, [cell, raw]);
    assert Repair.Inserted([row], raw) == [inner];
    assert Repair.Inserted([table], raw) == [table][0 := Repair.WithNested(table, Repair.Inserted([row], raw))];
    assert [table][0 := Repair.WithNested(table, [inner])] == [Repair.WithNested(table, [inner])];
  }

  /** Such a document is never packed: its source lies in the row, and in no cell. */
  lemma {:induction false} StrayRefused(rules: Rules, t: Tools)
    ensures
      var l := StrayLayout(rules);
      && AtomsOf(l, |l.units|) == Err(Structure) && Built(l, t) == Err(Structure)
      && l.KeyOf(0) != l.KeyOf(1) && l.InTable(1) && l.Nearest(1, {TableCell}).None?
  {
    var l := StrayLayout(rules);
    hide NearestIn, KindsOf, l.Window;
    StrayNearest(StrayTable(), StrayRow(), StrayRaw());
    assert l.Indexed(1) && !InPlace(l, 1);
    PackRefusedExactly(l, 2);
    StrayKeys(rules);
  }

  lemma {:induction false} StrayContainers(table: Block, row: Block, block: Block)
    requires table.kind.Table? && row.kind.TableRow? && block.kind in {TableCell, Raw}
    ensures Ids(KindsOf([table, row, block], Containers, 3)) == if block.kind.Raw? then [table.id, block.id] else [table.id]
  {
    var path := [table, row, block];
    assert KindsOf(path, Containers, 0) == [] && KindsOf(path, Containers, 1) == [table] && KindsOf(path, Containers, 2) == [table];
  }

  lemma {:induction false} StrayKeys(rules: Rules)
    ensures StrayLayout(rules).KeyOf(0) != StrayLayout(rules).KeyOf(1)
  {
    var l := StrayLayout(rules);
    hide KindsOf, NearestIn;
    StrayContainers(StrayTable(), StrayRow(), StrayCell());
    StrayContainers(StrayTable(), StrayRow(), StrayRaw());
  }

  // ---- A paragraph nested in a cell

  const Nested: string := "xxxxxxxxxxxp"

  function NestedTable(): Block { Made(1, Table, None, [2]) }
  function NestedRow(): Block { Made(2, TableRow, Some(1), [3, 4]) }
  function NestedCell(): Block { Made(3, TableCell, Some(2), [5]) }
  function OtherCell(): Block { Made(4, TableCell, Some(2), []) }
  function NestedText(): Block { Made(5, Paragraph, Some(3), []) }

  /** A row of two cells; the first holds eleven letters and a paragraph. */
  function NestedLayout(packing: Layouts.Packing): Layout {
    Layout(Nested, [Copied(3, "xxxxxxxxxxx", 0), Copied(5, "p", 11)],
           map[1 := NestedTable(), 2 := NestedRow(), 3 := NestedCell(), 4 := OtherCell(), 5 := NestedText()],
           [[NestedTable(), NestedRow(), NestedCell()], [NestedTable(), NestedRow(), NestedCell(), NestedText()]],
           [Some(TextRange(0, 11)), Some(TextRange(0, 1))], Rules(packing, None))
  }

  function Wide2(): TableWindow { TableWindow(1, 2, 0, [0, 1]) }
  function Letters(): Fragment { Fragment(Contribution(0, TextRange(0, 11)), 0) }
  function Lost(): Fragment { Fragment(Contribution(1, TextRange(0, 1)), 0) }
  function NestedAtom(): Body { Body([Letters(), Lost()], [Wide2()]) }
  function KeptBody(): Body { Body([Letters()], [TableWindow(1, 2, 0, [0])]) }

  lemma {:induction false} NestedPath(table: Block, row: Block, cell: Block, text: Block)
    requires table.kind.Table? && row.kind.TableRow? && cell.kind.TableCell? && text.kind.Paragraph?
    ensures
      var path := [table, row, cell, text];
      && NearestIn(path, 4, {Table}) == Some(table) && NearestIn(path, 4, Rows) == Some(row) && NearestIn(path, 4, {TableCell}) == Some(cell)
      && NearestIn(path, 4, {ListItem}).None? && KindsOf(path, Containers, 4) == [table]
  {
    var path := [table, row, cell, text];
    assert NearestIn(path, 1, {Table}) == Some(table) && NearestIn(path, 2, {Table}) == Some(table) && NearestIn(path, 3, {Table}) == Some(table);
    assert NearestIn(path, 2, Rows) == Some(row) && NearestIn(path, 3, Rows) == Some(row) && NearestIn(path, 3, {TableCell}) == Some(cell);
    assert NearestIn(path, 1, {ListItem}).None? && NearestIn(path, 2, {ListItem}).None? && NearestIn(path, 3, {ListItem}).None?;
    assert KindsOf(path, Containers, 0) == [] && KindsOf(path, Containers, 1) == [table] && KindsOf(path, Containers, 2) == [table];
    assert KindsOf(path, Containers, 3) == [table];
  }

  lemma {:induction false} CellPath(table: Block, row: Block, cell: Block)
    requires table.kind.Table? && row.kind.TableRow? && cell.kind.TableCell?
    ensures
      var path := [table, row, cell];
      && NearestIn(path, 3, {Table}) == Some(table) && NearestIn(path, 3, Rows) == Some(row) && NearestIn(path, 3, {TableCell}) == Some(cell)
      && NearestIn(path, 3, {ListItem}).None? && NearestIn(path, 3, {Code}).None? && KindsOf(path, Containers, 3) == [table]
  {
    var path := [table, row, cell];
    assert NearestIn(path, 1, {Table}) == Some(table) && NearestIn(path, 2, {Table}) == Some(table) && NearestIn(path, 2, Rows) == Some(row);
    assert NearestIn(path, 1, {ListItem}).None? && NearestIn(path, 2, {ListItem}).None?;
    assert NearestIn(path, 1, {Code}).None? && NearestIn(path, 2, {Code}).None?;
    assert KindsOf(path, Containers, 0) == [] && KindsOf(path, Containers, 1) == [table] && KindsOf(path, Containers, 2) == [table];
  }

  lemma {:induction false} NestedCells(l: Layout)
    requires exists packing :: l == NestedLayout(packing)
    ensures l.RowCells(2) == Ok([NestedCell(), OtherCell()]) && l.ChildBlocks(NestedTable(), 1) == [NestedRow()]
  {
    hide l.RowCells, l.ChildBlocks;
    RowOfTwo(l, 2, 3, 4);
    OneChild(l, NestedTable(), 2);
  }

  lemma {:induction false} NestedWindows(l: Layout)
    requires exists packing :: l == NestedLayout(packing)
    ensures l.Window(0, true) == Ok(Some(Wide2())) && l.Window(1, true) == Ok(Some(Wide2()))
    ensures l.GroupOf(0).Ok? && l.GroupOf(0) == l.GroupOf(1) && l.InTable(0) && l.InTable(1)
    ensures l.Nearest(0, {ListItem}).None? && l.Nearest(0, {Code}).None? && l.Owner(0).Ok?
  {
    hide NearestIn, KindsOf, l.RowCells, l.ChildBlocks, PositionFrom;
    NestedPath(NestedTable(), NestedRow(), NestedCell(), NestedText());
    CellPath(NestedTable(), NestedRow(), NestedCell());
    NestedCells(l);
    AllOfKind([NestedRow()], Rows, 1);
    assert [NestedRow()][..1] == [NestedRow()];
    FoundFrom(Ids([NestedCell(), OtherCell()]), 0, 0);
    FoundFrom(Ids([NestedRow()]), 0, 0);
    assert seq(2, i => i) == [0, 1];
  }

  /** Packing makes one atom of both, though the paragraph lies in no cell itself. */
  lemma {:induction false} NestedAtoms(l: Layout)
    requires exists packing :: l == NestedLayout(packing)
    ensures AtomsOf(l, 2).Ok? && AtomsOf(l, 2).value.0 == [NestedAtom()] && IsAtom(l, NestedAtom())
  {
    hide l.Window, l.GroupOf, IsAtom;
    NestedWindows(l);
    assert l.Indexed(0) && l.Indexed(1);
    var first := Body([Letters()], [Wide2()]);
    assert AtomsOf(l, 0) == Ok(([], None));
    assert Alone(l, NewFragment(l, 0), l.Window(0, true).value) == first;
    assert [] + [first] == [first];
    assert AtomsOf(l, 1) == Ok(([first], Some(l.GroupOf(0).value)));
    assert Joined(first, NewFragment(l, 1)) == NestedAtom();
    assert [first][0 := NestedAtom()] == [NestedAtom()];
    AtomsOfAre(l, 2);
    OnlyAtom(l, [NestedAtom()], AtomsOf(l, 2).value.1);
  }

  lemma {:induction false} OnlyAtom(l: Layout, atoms: seq<Body>, previous: Option<Group>)
    requires |atoms| == 1 && 2 <= |l.units| && AtomsUpTo(l, atoms, previous, 2)
    ensures IsAtom(l, atoms[0])
  {
    hide IsAtom, AtomsApart, LastIn, KeptContributions;
  }

  lemma {:induction false} NestedRefines(l: Layout)
    requires exists packing :: l == NestedLayout(packing)
    ensures Refined(l, NestedAtom()) == Ok(Some([KeptBody()])) && BodiesFragments([KeptBody()], 1) != NestedAtom().fragments
    ensures Refined(l, KeptBody()) == Ok(None)
  {
    hide l.RowCells;
    NestedCells(l);
    var (w, cells, fragments) := (Wide2(), [NestedCell(), OtherCell()], NestedAtom().fragments);
    assert cells[0].id == 3 && cells[1].id == 4;
    assert FragmentsIn(l, fragments, 3, 0) == [] && FragmentsIn(l, fragments, 4, 0) == [];
    assert FragmentsIn(l, fragments, 3, 1) == [Letters()] && FragmentsIn(l, fragments, 4, 1) == [];
    assert FragmentsIn(l, fragments, 3, 2) == [Letters()] && FragmentsIn(l, fragments, 4, 2) == [];
    assert [] + [KeptBody()] == [KeptBody()];
    assert ColumnBodies(l, NestedAtom(), w, cells, 0) == Ok([]);
    assert ColumnBodies(l, NestedAtom(), w, cells, 1) == Ok([KeptBody()]);
    assert ColumnBodies(l, NestedAtom(), w, cells, 2) == Ok([KeptBody()]);
    assert BodiesFragments([KeptBody()], 0) == [];
  }

  lemma {:induction false} NestedPlain(l: Layout)
    requires exists packing :: l == NestedLayout(packing)
    ensures AllPlain(l, Contributions([Letters(), Lost()])) && AllPlain(l, Contributions([Letters()]))
  {
    hide Maps;
    assert Nested[0..11] == "xxxxxxxxxxx" && Nested[11..12] == "p";
    CopiedMaps(Nested, 3, "xxxxxxxxxxx", 0);
    CopiedMaps(Nested, 5, "p", 11);
    assert OneLine(l, 0) && OneLine(l, 1);
  }

  /** The whole row counts over the maximum, its first cell does not. */
  lemma {:induction false} NestedCounts(l: Layout)
    requires exists packing :: l == NestedLayout(packing)
    ensures Prepared(l, Sixty, NestedAtom()).Ok? && Prepared(l, Sixty, NestedAtom()).value.tokenCount == 720
    ensures Prepared(l, Sixty, KeptBody()).Ok? && Prepared(l, Sixty, KeptBody()).value.tokenCount == 660
    ensures Prepared(l, Sixty, KeptBody()).value.fragments == [Letters()]
  {
    hide Prepared, AllPlain, l.RowCells, l.Nearest, l.InTable, l.Owner, l.Window, l.GroupOf, ListDepth;
    NestedWindows(l);
    NestedCells(l);
    NestedPlain(l);
    var (both, one) := (Contributions([Letters(), Lost()]), Contributions([Letters()]));
    assert both == [Letters().contribution, Lost().contribution] && one == [Letters().contribution];
    var cells := [NestedCell(), OtherCell()];
    assert cells[0].id == 3 && cells[1].id == 4;
    assert CellSize(l, both, 3, 0) == 0 && CellSize(l, both, 3, 1) == 11 && CellSize(l, both, 3, 2) == 11;
    assert CellSize(l, both, 4, 0) == 0 && CellSize(l, both, 4, 1) == 0 && CellSize(l, both, 4, 2) == 0;
    assert CellSize(l, one, 3, 0) == 0 && CellSize(l, one, 3, 1) == 11;
    assert ColumnsSize(l, both, cells, [0, 1], 0) == 0 && ColumnsSize(l, both, cells, [0, 1], 1) == 11;
    assert ColumnsSize(l, both, cells, [0, 1], 2) == 12;
    assert ColumnsSize(l, one, cells, [0], 0) == 0 && ColumnsSize(l, one, cells, [0], 1) == 11;
    assert RowsSize(l, both, NestedAtom().windows, 0, 0) == 0 && RowsSize(l, both, NestedAtom().windows, 0, 1) == 12;
    assert RowsSize(l, one, KeptBody().windows, 0, 0) == 0 && RowsSize(l, one, KeptBody().windows, 0, 1) == 11;
    RowsPrepared(l, NestedAtom());
    RowsPrepared(l, KeptBody());
  }

  lemma {:induction false} NestedSteps(l: Layout)
    requires exists packing :: l == NestedLayout(packing)
    ensures Steps(l, [NestedAtom()], 1) == [[NestedAtom()]] && Pieces([[NestedAtom()]], 1) == [Atom(NestedAtom())]
  {
    hide StepOf;
    assert Steps(l, [NestedAtom()], 0) == [] && Pieces([[NestedAtom()]], 0) == [];
  }

  /**
   * Packed by container or by section, the row is refined by its columns, the paragraph is in no
   * draft, and the coverage check refuses the document.
   */
  lemma {:induction false} NestedIsLost(packing: Layouts.Packing)
    ensures
      var l := NestedLayout(packing);
      && Built(l, Sixty).Ok? && |Built(l, Sixty).value| == 1 && Built(l, Sixty).value[0].fragments == [Letters()]
      && l.Indexed(1) && ValidCoverage(l, Built(l, Sixty).value).Err?
  {
    hide Prepared, AtomsOf, Steps, Packs, IsAtom, Refined, ValidCoverage;
    var l := NestedLayout(packing);
    NestedAtoms(l);
    NestedRefines(l);
    NestedCounts(l);
    NestedSteps(l);
    var chunk := Prepared(l, Sixty, KeptBody()).value;
    var s := State([Atom(NestedAtom())], None, []);
    var next := State([Atom(KeptBody())], None, []);
    var last := State([], None, [chunk]);
    assert s.pending[1..] == [] && Requeued([KeptBody()], []) == next.pending;
    assert Stepped(l, Sixty, s) == Ok(next);
    assert next.pending[1..] == [] && [] + [chunk] == [chunk];
    assert Stepped(l, Sixty, next) == Ok(last);
    PacksAre(l, s, next, last);
    NotCovered(l, chunk);
  }

  lemma {:induction false} PacksAre(l: Layout, s: State, next: State, last: State)
    requires s.pending != [] && Stepped(l, Sixty, s) == Ok(next) && next.pending != [] && Stepped(l, Sixty, next) == Ok(last)
    requires last.pending == [] && last.current.None?
    ensures Packs(l, Sixty, s) == Ok(last.result)
  {
    hide Stepped;
    assert Packs(l, Sixty, last) == Ok(last.result);
    assert Packs(l, Sixty, next) == Ok(last.result);
  }

  lemma {:induction false} NotCovered(l: Layout, chunk: ChunkContent)
    requires exists packing :: l == NestedLayout(packing)
    requires chunk.fragments == [Letters()]
    ensures ValidCoverage(l, [chunk]).Err?
  {
    hide ValidCoverage;
    var cs := Contributions([Letters()]);
    assert AllFragments([chunk], 0) == [];
    assert AllFragments([chunk], 1) == [Letters()];
    assert RangesIn(cs, 1, 0) == [] && RangesIn(cs, 1, 1) == [];
    assert l.units[1].primary && l.Kept(1) == Some(TextRange(0, 1));
    if ValidCoverage(l, [chunk]).Ok? {
      AcceptedOnce(l, [chunk], 1, 0);
    }
  }
}
