/**
 * A table with an empty cell that packing by section turns into a draft the validator refuses.
 * Absorbing small drafts joins the end of one row to the start of the next, and then to a piece of
 * that row's second column.
 */
module EmptyCells {
  import opened Common
  import opened Ranges
  import opened Units
  import opened Slices
  import opened Layouts
  import opened Lookups
  import opened Preparation
  import opened Fitting
  import opened Splitting
  import opened Refining
  import opened Atoms
  import opened Packing
  import opened Tables
  import opened TableTurns
  import opened TableStarts
  import opened Absorbing
  import opened Replay
  import opened RowTexts
  import opened Examples
  import Documents

  // ---- The document

  const Letters: string := "aaaaaaaaaaaa"
  const Note: string := "! bbbbbbbbbb"
  const Source: string := "|||\n|-|-|\n|" + Letters + "||\n|" + "y" + "|" + Note + "|"

  function TheTable(): Block { Made(1, Table, None, [2, 3, 4]) }
  function TheHead(): Block { Made(2, TableHead, Some(1), [5, 6]) }
  function RowX(): Block { Made(3, TableRow, Some(1), [7, 8]) }
  function RowY(): Block { Made(4, TableRow, Some(1), [9, 10]) }
  function HeadCell(id: Id): Block { Made(id, TableCell, Some(2), []) }
  function CellX(id: Id): Block { Made(id, TableCell, Some(3), []) }
  function CellY(id: Id): Block { Made(id, TableCell, Some(4), []) }

  /** Twelve letters beside an empty cell; below them one letter, and a note that may be cut after its first two scalars. */
  function EmptyCell(): Layout {
    Layout(Source, [Copied(7, Letters, 11), Copied(9, "y", 27), Copied(10, Note, 29)],
           map[1 := TheTable(), 2 := TheHead(), 3 := RowX(), 4 := RowY(), 5 := HeadCell(5), 6 := HeadCell(6),
               7 := CellX(7), 8 := CellX(8), 9 := CellY(9), 10 := CellY(10)],
           [[TheTable(), RowX(), CellX(7)], [TheTable(), RowY(), CellY(9)], [TheTable(), RowY(), CellY(10)]],
           [Some(TextRange(0, 12)), Some(TextRange(0, 1)), Some(TextRange(0, 12))], Rules(BySection, Some(150)))
  }

  function WX(columns: seq<nat>): TableWindow { TableWindow(1, 3, 1, columns) }
  function WY(columns: seq<nat>): TableWindow { TableWindow(1, 4, 2, columns) }

  lemma {:induction false} Rows()
    ensures
      var l := EmptyCell();
      && l.RowCells(3) == Ok([CellX(7), CellX(8)]) && l.RowCells(4) == Ok([CellY(9), CellY(10)])
      && l.ChildBlocks(TheTable(), 3) == [TheHead(), RowX(), RowY()]
  {
    var l := EmptyCell();
    hide l.RowCells, l.ChildBlocks;
    RowOfTwo(l, 3, 7, 8);
    RowOfTwo(l, 4, 9, 10);
    ThreeChildren(l, TheTable(), 2, 3, 4);
  }

  lemma {:induction false} Paths()
    ensures
      var l := EmptyCell();
      && InCellOf(l, 0, TheTable(), RowX(), CellX(7)) && InCellOf(l, 1, TheTable(), RowY(), CellY(9))
      && InCellOf(l, 2, TheTable(), RowY(), CellY(10))
  {
    var l := EmptyCell();
    var (p, q, r) := (l.Ancestors(0), l.Ancestors(1), l.Ancestors(2));
    assert p[0..] == p && q[0..] == q && r[0..] == r;
  }

  lemma {:induction false} Windows()
    ensures
      var l := EmptyCell();
      && l.Window(0, true) == Ok(Some(WX([0, 1]))) && l.Window(0, false) == Ok(Some(WX([0])))
      && l.Window(1, true) == Ok(Some(WY([0, 1]))) && l.Window(1, false) == Ok(Some(WY([0])))
      && l.Window(2, true) == Ok(Some(WY([0, 1]))) && l.Window(2, false) == Ok(Some(WY([1])))
  {
    var l := EmptyCell();
    hide l.RowCells, l.ChildBlocks, l.Window, InCellOf;
    Rows();
    Paths();
    var rows := [TheHead(), RowX(), RowY()];
    WindowIs(l, 0, TheTable(), rows, 1, [CellX(7), CellX(8)], 0);
    WindowIs(l, 1, TheTable(), rows, 2, [CellY(9), CellY(10)], 0);
    WindowIs(l, 2, TheTable(), rows, 2, [CellY(9), CellY(10)], 1);
    assert seq(2, i => i) == [0, 1];
  }

  /** A table at the top of a document: no list above its cells, and one container. */
  lemma {:induction false} TopTable(table: Block, row: Block, cell: Block)
    requires table.kind.Table? && row.kind.TableRow? && cell.kind.TableCell?
    ensures
      var path := [table, row, cell];
      && NearestIn(path, 3, {ListItem}).None? && NearestIn(path, 3, {Code}).None?
      && KindsOf(path, {List}, 3) == [] && KindsOf(path, Containers, 3) == [table] && OutermostItem(path, 0).None?
  {
    var path := [table, row, cell];
    forall kinds: set<BlockType> | Table !in kinds && TableRow !in kinds && TableCell !in kinds ensures NearestIn(path, 3, kinds).None? {
      assert NearestIn(path, 1, kinds).None? && NearestIn(path, 2, kinds).None?;
    }
    assert KindsOf(path, {List}, 1) == [] && KindsOf(path, {List}, 2) == [];
    assert KindsOf(path, Containers, 0) == [] && KindsOf(path, Containers, 1) == [table] && KindsOf(path, Containers, 2) == [table];
    assert OutermostItem(path, 3).None? && OutermostItem(path, 2).None? && OutermostItem(path, 1).None?;
  }

  /** What every unit of such a table has in common. */
  ghost predicate AtTop(l: Layout, unit: nat, table: Id) {
    && l.Nearest(unit, {ListItem}).None? && l.Nearest(unit, {Code}).None? && ListDepth(l, unit) == 0
    && l.KeyOf(unit) == Key(None, [table]) && OutermostItem(l.Ancestors(unit), 0).None? && l.InTable(unit) && l.Owner(unit).Ok?
    && l.SectionOf(unit) == None
  }

  lemma {:induction false} TopOf(l: Layout, unit: nat, table: Block, row: Block, cell: Block)
    requires l.Ancestors(unit) == [table, row, cell] && table.kind.Table? && row.kind.TableRow? && cell.kind.TableCell? && cell.section.None?
    ensures AtTop(l, unit, table.id)
  {
    hide NearestIn, KindsOf, OutermostItem;
    TopTable(table, row, cell);
    var path := l.Ancestors(unit);
    assert path[0..] == path;
    CellNearest(l, unit, table, row, cell);
    assert Ids([table]) == [table.id];
  }

  lemma {:induction false} Top(unit: nat)
    requires unit < 3
    ensures AtTop(EmptyCell(), unit, 1)
  {
    hide AtTop;
    var l := EmptyCell();
    if unit == 0 {
      TopOf(l, 0, TheTable(), RowX(), CellX(7));
    } else if unit == 1 {
      TopOf(l, 1, TheTable(), RowY(), CellY(9));
    } else {
      TopOf(l, 2, TheTable(), RowY(), CellY(10));
    }
  }

  lemma {:induction false} Places()
    ensures |Source| == 42 && Source[11..23] == Letters && Source[27..28] == "y" && Source[29..41] == Note
  {
    var front := "|||\n|-|-|\n|";
    assert Source[11..23] == Letters;
    assert Source[27..28] == "y";
    assert Source[29..41] == Note;
  }

  lemma {:induction false} PlainUnits()
    ensures OneLine(EmptyCell(), 0) && OneLine(EmptyCell(), 1) && OneLine(EmptyCell(), 2)
  {
    hide Maps;
    Places();
    CopiedMaps(Source, 7, Letters, 11);
    CopiedMaps(Source, 9, "y", 27);
    CopiedMaps(Source, 10, Note, 29);
  }

  // ---- Atoms and steps

  function Stretch(unit: nat, start: nat, end: nat): Fragment { Fragment(Contribution(unit, TextRange(start, end)), 0) }

  function AtomX(): Body { Body([Stretch(0, 0, 12)], [WX([0, 1])]) }
  function AtomY(): Body { Body([Stretch(1, 0, 1), Stretch(2, 0, 12)], [WY([0, 1])]) }

  lemma {:induction false} Groups()
    ensures EmptyCell().GroupOf(0) == Ok(Group(3, Key(None, [1])))
    ensures EmptyCell().GroupOf(1) == Ok(Group(4, Key(None, [1]))) && EmptyCell().GroupOf(2) == Ok(Group(4, Key(None, [1])))
  {
    var l := EmptyCell();
    hide l.Window, l.KeyOf, l.Nearest, l.SectionOf, l.InTable;
    Windows();
    Top(0);
    Top(1);
    Top(2);
  }

  lemma {:induction false} AtomsAre()
    ensures AtomsOf(EmptyCell(), 3).Ok? && AtomsOf(EmptyCell(), 3).value.0 == [AtomX(), AtomY()]
  {
    var l := EmptyCell();
    hide l.Window, l.GroupOf;
    Windows();
    Groups();
    var g := Group(4, Key(None, [1]));
    assert l.Indexed(0) && l.Indexed(1) && l.Indexed(2);
    var first := Body([Stretch(1, 0, 1)], [WY([0, 1])]);
    assert AtomsOf(l, 0) == Ok(([], None));
    assert Alone(l, NewFragment(l, 0), l.Window(0, true).value) == AtomX();
    assert [] + [AtomX()] == [AtomX()];
    assert AtomsOf(l, 1) == Ok(([AtomX()], Some(Group(3, Key(None, [1])))));
    assert Alone(l, NewFragment(l, 1), l.Window(1, true).value) == first;
    assert [AtomX()] + [first] == [AtomX(), first];
    assert AtomsOf(l, 2) == Ok(([AtomX(), first], Some(g)));
    assert Joined(first, NewFragment(l, 2)) == AtomY();
    assert [AtomX(), first][1 := AtomY()] == [AtomX(), AtomY()];
  }

  lemma {:induction false} StepsAre()
    ensures Steps(EmptyCell(), [AtomX(), AtomY()], 2) == [[AtomX()], [AtomY()]]
  {
    var l := EmptyCell();
    hide l.Nearest, l.KeyOf, l.InTable, l.SectionOf, OutermostItem;
    Top(0);
    Top(1);
    var atoms := [AtomX(), AtomY()];
    assert StepOf(l, AtomX()).None? && StepOf(l, AtomY()).None?;
    assert Steps(l, atoms, 0) == [] && Steps(l, atoms, 1) == [[AtomX()]];
  }

  // ---- What bodies count

  ghost predicate GoodStretch(f: Fragment) {
    f.contribution.unit < 3 && f.contribution.range.start < f.contribution.range.end <= (if f.contribution.unit == 1 then 1 else 12)
  }

  ghost predicate GoodColumns(window: TableWindow) {
    window.row in {3, 4} && forall i :: 0 <= i < |window.columns| ==> window.columns[i] < 2
  }

  ghost predicate Good(body: Body) {
    && body.fragments != []
    && (forall i :: 0 <= i < |body.fragments| ==> GoodStretch(body.fragments[i]))
    && forall k :: 0 <= k < |body.windows| ==> GoodColumns(body.windows[k])
  }

  function SizeOf(body: Body): nat
    requires body.fragments != []
  {
    RowsSize(EmptyCell(), Contributions(body.fragments), body.windows, body.fragments[0].contribution.unit, |body.windows|)
  }

  /** A body of the table counts sixty for every character of its rows. */
  lemma {:induction false} CountIs(body: Body)
    requires Good(body) && SizeOf(body) > 0
    ensures Prepared(EmptyCell(), Sixty, body).Ok?
    ensures
      var chunk := Prepared(EmptyCell(), Sixty, body).value;
      chunk.tokenCount == 60 * SizeOf(body) && chunk.fragments == body.fragments && chunk.windows == body.windows
  {
    var l := EmptyCell();
    hide Prepared, RowsSize, l.RowCells, l.Nearest, l.InTable, l.Owner, OneLine, l.KeyOf, OutermostItem, l.SectionOf, ListDepth;
    PlainUnits();
    Rows();
    var cs := Contributions(body.fragments);
    forall i | 0 <= i < |cs| ensures PlainPart(l, cs[i]) && l.InTable(cs[i].unit) {
      assert GoodStretch(body.fragments[i]);
      Top(cs[i].unit);
    }
    forall k | 0 <= k < |body.windows| ensures RowTexts.WindowHolds(l, body.windows[k]) {
      assert GoodColumns(body.windows[k]);
    }
    assert GoodStretch(body.fragments[0]);
    Top(body.fragments[0].contribution.unit);
    RowsPrepared(l, body);
  }

  /** The size of one row by its columns. */
  lemma {:induction false} OneColumn(cs: seq<Contribution>, cells: seq<Block>, c: nat)
    requires c < |cells|
    ensures ColumnsSize(EmptyCell(), cs, cells, [c], 1) == CellSize(EmptyCell(), cs, cells[c].id, |cs|)
  {
    hide CellSize;
    assert ColumnsSize(EmptyCell(), cs, cells, [c], 0) == 0;
  }

  lemma {:induction false} TwoColumns(cs: seq<Contribution>, cells: seq<Block>)
    requires |cells| == 2
    ensures ColumnsSize(EmptyCell(), cs, cells, [0, 1], 2)
         == CellSize(EmptyCell(), cs, cells[0].id, |cs|) + 1 + CellSize(EmptyCell(), cs, cells[1].id, |cs|)
  {
    hide CellSize;
    assert ColumnsSize(EmptyCell(), cs, cells, [0, 1], 0) == 0;
    assert ColumnsSize(EmptyCell(), cs, cells, [0, 1], 1) == CellSize(EmptyCell(), cs, cells[0].id, |cs|);
  }

  /** How much of one fragment is in a cell. */
  function OfCell(f: Fragment, cell: Id): nat {
    var c := f.contribution;
    if EmptyCell().InBlock(c.unit, cell) && c.range.start < c.range.end then c.range.end - c.range.start else 0
  }

  lemma {:induction false} OneFragment(f: Fragment, cell: Id)
    ensures CellSize(EmptyCell(), Contributions([f]), cell, 1) == OfCell(f, cell)
  {
    var cs := Contributions([f]);
    assert CellSize(EmptyCell(), cs, cell, 0) == 0;
  }

  lemma {:induction false} TwoFragments(f: Fragment, g: Fragment, cell: Id)
    ensures CellSize(EmptyCell(), Contributions([f, g]), cell, 2) == OfCell(f, cell) + OfCell(g, cell)
  {
    var cs := Contributions([f, g]);
    assert CellSize(EmptyCell(), cs, cell, 0) == 0 && CellSize(EmptyCell(), cs, cell, 1) == OfCell(f, cell);
  }

  lemma {:induction false} ThreeFragments(f: Fragment, g: Fragment, h: Fragment, cell: Id)
    ensures CellSize(EmptyCell(), Contributions([f, g, h]), cell, 3) == OfCell(f, cell) + OfCell(g, cell) + OfCell(h, cell)
  {
    var cs := Contributions([f, g, h]);
    assert CellSize(EmptyCell(), cs, cell, 0) == 0 && CellSize(EmptyCell(), cs, cell, 1) == OfCell(f, cell);
    assert CellSize(EmptyCell(), cs, cell, 2) == OfCell(f, cell) + OfCell(g, cell);
  }

  lemma {:induction false} OfCellIs(f: Fragment)
    requires GoodStretch(f)
    ensures
      var (c, length) := (f.contribution, f.contribution.range.end - f.contribution.range.start);
      && OfCell(f, 7) == (if c.unit == 0 then length else 0) && OfCell(f, 8) == 0
      && OfCell(f, 9) == (if c.unit == 1 then length else 0) && OfCell(f, 10) == (if c.unit == 2 then length else 0)
  {
  }

  lemma {:induction false} RowsOne(cs: seq<Contribution>, w: TableWindow, unit: nat)
    ensures RowsSize(EmptyCell(), cs, [w], unit, 1) == ColumnsSize(EmptyCell(), cs, CellsOfRow(EmptyCell(), w.row), w.columns, |w.columns|)
  {
    hide ColumnsSize, CellsOfRow;
    assert RowsSize(EmptyCell(), cs, [w], unit, 0) == 0;
  }

  lemma {:induction false} RowsTwo(cs: seq<Contribution>, v: TableWindow, w: TableWindow, unit: nat)
    requires unit < 3
    ensures RowsSize(EmptyCell(), cs, [v, w], unit, 2)
         == ColumnsSize(EmptyCell(), cs, CellsOfRow(EmptyCell(), v.row), v.columns, |v.columns|) + 1
            + ColumnsSize(EmptyCell(), cs, CellsOfRow(EmptyCell(), w.row), w.columns, |w.columns|)
  {
    var l := EmptyCell();
    hide ColumnsSize, CellsOfRow, ListDepth, l.Nearest, l.InTable, l.Owner, l.KeyOf, OutermostItem, l.SectionOf;
    Top(unit);
    assert RowsSize(l, cs, [v, w], unit, 0) == 0;
    assert RowsSize(l, cs, [v, w], unit, 1) == ColumnsSize(l, cs, CellsOfRow(l, v.row), v.columns, |v.columns|);
  }

  /** A stretch of one cell under its own column. */
  lemma {:induction false} NarrowCounts(f: Fragment, w: TableWindow)
    requires GoodStretch(f) && w == (if f.contribution.unit == 0 then WX([0]) else if f.contribution.unit == 1 then WY([0]) else WY([1]))
    ensures Prepared(EmptyCell(), Sixty, Body([f], [w])).Ok?
    ensures
      var chunk := Prepared(EmptyCell(), Sixty, Body([f], [w])).value;
      && chunk.tokenCount == 60 * (f.contribution.range.end - f.contribution.range.start)
      && chunk.fragments == [f] && chunk.windows == [w]
  {
    var l := EmptyCell();
    hide Prepared, RowsSize, ColumnsSize, CellSize, OfCell, l.RowCells;
    Rows();
    var cs, cells := Contributions([f]), CellsOfRow(EmptyCell(), w.row);
    RowsOne(cs, w, f.contribution.unit);
    OneColumn(cs, cells, w.columns[0]);
    OneFragment(f, cells[w.columns[0]].id);
    OfCellIs(f);
    CountIs(Body([f], [w]));
  }

  /** The whole first row: twelve letters, a tab and an empty cell. */
  lemma {:induction false} WholeX()
    ensures Prepared(EmptyCell(), Sixty, AtomX()).Ok? && Prepared(EmptyCell(), Sixty, AtomX()).value.tokenCount == 780
  {
    var l := EmptyCell();
    hide Prepared, RowsSize, ColumnsSize, CellSize, OfCell, l.RowCells;
    Rows();
    var f := Stretch(0, 0, 12);
    var cs := Contributions([f]);
    RowsOne(cs, WX([0, 1]), 0);
    TwoColumns(cs, [CellX(7), CellX(8)]);
    OneFragment(f, 7);
    OneFragment(f, 8);
    OfCellIs(f);
    CountIs(AtomX());
  }

  /** The letter and a stretch of the note, as one row. */
  lemma {:induction false} PairY(length: nat)
    requires 0 < length <= 12
    ensures
      var body := Body([Stretch(1, 0, 1), Stretch(2, 0, length)], [WY([0, 1])]);
      Prepared(EmptyCell(), Sixty, body).Ok? && Prepared(EmptyCell(), Sixty, body).value.tokenCount == 60 * (length + 2)
  {
    var l := EmptyCell();
    hide Prepared, RowsSize, ColumnsSize, CellSize, OfCell, l.RowCells;
    Rows();
    var (f, g) := (Stretch(1, 0, 1), Stretch(2, 0, length));
    var cs := Contributions([f, g]);
    RowsOne(cs, WY([0, 1]), 1);
    TwoColumns(cs, [CellY(9), CellY(10)]);
    TwoFragments(f, g, 9);
    TwoFragments(f, g, 10);
    OfCellIs(f);
    OfCellIs(g);
    CountIs(Body([f, g], [WY([0, 1])]));
  }

  /** The rest of the letters and the one below them. */
  lemma {:induction false} JoinedXY()
    ensures
      var body := Body([Stretch(0, 6, 12), Stretch(1, 0, 1)], [WX([0]), WY([0])]);
      && Prepared(EmptyCell(), Sixty, body).Ok? && Prepared(EmptyCell(), Sixty, body).value.tokenCount == 480
      && Prepared(EmptyCell(), Sixty, body).value.fragments == body.fragments && Prepared(EmptyCell(), Sixty, body).value.windows == body.windows
  {
    var l := EmptyCell();
    hide Prepared, RowsSize, ColumnsSize, CellSize, OfCell, l.RowCells;
    Rows();
    var (f, g) := (Stretch(0, 6, 12), Stretch(1, 0, 1));
    var cs := Contributions([f, g]);
    RowsTwo(cs, WX([0]), WY([0]), 0);
    OneColumn(cs, [CellX(7), CellX(8)], 0);
    OneColumn(cs, [CellY(9), CellY(10)], 0);
    TwoFragments(f, g, 7);
    TwoFragments(f, g, 9);
    OfCellIs(f);
    OfCellIs(g);
    CountIs(Body([f, g], [WX([0]), WY([0])]));
  }

  function Spoiled(): Body { Body([Stretch(0, 6, 12), Stretch(1, 0, 1), Stretch(2, 0, 2)], [WX([0]), WY([0, 1])]) }

  lemma {:induction false} JoinedXYZ()
    ensures
      && Prepared(EmptyCell(), Sixty, Spoiled()).Ok? && Prepared(EmptyCell(), Sixty, Spoiled()).value.tokenCount == 660
      && Prepared(EmptyCell(), Sixty, Spoiled()).value.windows == Spoiled().windows
  {
    var l := EmptyCell();
    hide Prepared, RowsSize, ColumnsSize, CellSize, OfCell, l.RowCells;
    Rows();
    var (f, g, h) := (Stretch(0, 6, 12), Stretch(1, 0, 1), Stretch(2, 0, 2));
    var cs := Contributions([f, g, h]);
    RowsTwo(cs, WX([0]), WY([0, 1]), 0);
    OneColumn(cs, [CellX(7), CellX(8)], 0);
    TwoColumns(cs, [CellY(9), CellY(10)]);
    ThreeFragments(f, g, h, 7);
    ThreeFragments(f, g, h, 9);
    ThreeFragments(f, g, h, 10);
    OfCellIs(f);
    OfCellIs(g);
    OfCellIs(h);
    CountIs(Spoiled());
  }

  // ---- Splitting

  /** A stretch of one cell as a body of its own. */
  function Piece1(unit: nat, start: nat, end: nat): Body {
    Body([Stretch(unit, start, end)], [if unit == 0 then WX([0]) else if unit == 1 then WY([0]) else WY([1])])
  }

  function Chunk1(unit: nat, start: nat, end: nat): ChunkContent
    requires unit < 3 && start < end <= (if unit == 1 then 1 else 12)
  {
    NarrowCounts(Stretch(unit, start, end), Piece1(unit, start, end).windows[0]);
    Prepared(EmptyCell(), Sixty, Piece1(unit, start, end)).value
  }

  lemma {:induction false} Chunk1Is(unit: nat, start: nat, end: nat)
    requires unit < 3 && start < end <= (if unit == 1 then 1 else 12)
    ensures Prepared(EmptyCell(), Sixty, Piece1(unit, start, end)) == Ok(Chunk1(unit, start, end))
    ensures
      var chunk := Chunk1(unit, start, end);
      && chunk.tokenCount == 60 * (end - start) && chunk.fragments == Piece1(unit, start, end).fragments
      && chunk.windows == Piece1(unit, start, end).windows
  {
    hide Prepared;
    NarrowCounts(Stretch(unit, start, end), Piece1(unit, start, end).windows[0]);
  }

  lemma {:induction false} PieceAtIs(unit: nat, start: nat, length: nat)
    requires unit < 3 && 0 < length && start + length <= (if unit == 1 then 1 else 12)
    ensures PieceAt(EmptyCell(), Piece1(unit, 0, if unit == 1 then 1 else 12), start, length) == Some(Piece1(unit, start, start + length))
    ensures Fits(EmptyCell(), Sixty, Piece1(unit, 0, if unit == 1 then 1 else 12), start, length) == Ok(60 * length <= MaxTokens)
  {
    hide Prepared, NormalizedRange;
    var text := EmptyCell().units[unit].text;
    PlainRange(|text|, TextRange(start, start + length));
    Chunk1Is(unit, start, start + length);
  }

  lemma {:induction false} NoCuts(text: string, n: nat)
    requires n <= |text| && forall i :: 0 <= i < |text| ==> !IsWhitespace(text[i])
    ensures WhitespaceCuts(text, n) == [] && MeaningfulCuts(text, false, n) == []
  {
    hide IsWhitespace;
    if n > 0 {
      NoCuts(text, n - 1);
    }
  }

  /** A text whose one whitespace comes second, after a sentence end. */
  lemma {:induction false} SecondCut(text: string, n: nat)
    requires 2 <= n <= |text| && IsSentenceEnd(text[0]) && forall i :: 0 <= i < |text| ==> (IsWhitespace(text[i]) <==> i == 1)
    ensures WhitespaceCuts(text, n) == [2] && MeaningfulCuts(text, false, n) == [2]
  {
    hide IsWhitespace, IsSentenceEnd;
    if n == 2 {
      assert WhitespaceCuts(text, 0) == [] && MeaningfulCuts(text, false, 0) == [];
      assert WhitespaceCuts(text, 1) == [] && MeaningfulCuts(text, false, 1) == [];
    } else {
      SecondCut(text, n - 1);
    }
  }

  lemma {:induction false} LetterCuts()
    ensures WhitespaceCuts(Letters[0..12], 12) == [] && MeaningfulCuts(Letters[0..12], false, 12) == []
  {
    assert forall i :: 0 <= i < 12 ==> Letters[0..12][i] == 'a';
    NoCuts(Letters[0..12], 12);
  }

  lemma {:induction false} NoteCuts()
    ensures WhitespaceCuts(Note[0..12], 12) == [2] && MeaningfulCuts(Note[0..12], false, 12) == [2]
  {
    assert Note[0..12] == Note;
    SecondCut(Note, 12);
  }

  lemma {:induction false} WholeLength(l: Layout, t: Tools, body: Body, code: bool, start: nat, stop: nat)
    requires |body.fragments| == 1 && body.fragments[0].contribution.unit < |l.units|
    requires start < stop <= |l.units[body.fragments[0].contribution.unit].text|
    requires Fits(l, t, body, start, stop - start) == Ok(true)
    ensures LengthOf(l, t, body, code, start, stop) == Ok(stop - start)
  {
    hide Fits, WhitespaceCuts, MeaningfulCuts;
    var fits := Fitter(l, t, body, start);
    assert fits(stop - start) == Ok(true);
  }

  /** Half of a text that does not fit whole, moved back to its last cut when there is one. */
  lemma {:induction false} HalfLength(l: Layout, t: Tools, body: Body, start: nat, half: nat, cut: nat)
    requires |body.fragments| == 1 && body.fragments[0].contribution.unit < |l.units|
    requires 0 < cut <= half && start + 2 * half <= |l.units[body.fragments[0].contribution.unit].text|
    requires Fits(l, t, body, start, 2 * half) == Ok(false) && Fits(l, t, body, start, half) == Ok(true) && Fits(l, t, body, start, cut) == Ok(true)
    requires
      var text := l.units[body.fragments[0].contribution.unit].text[start..start + 2 * half];
      var cuts := if cut < half then [cut] else [];
      WhitespaceCuts(text, 2 * half) == cuts && MeaningfulCuts(text, false, 2 * half) == cuts
    ensures LengthOf(l, t, body, false, start, start + 2 * half) == Ok(cut)
  {
    hide Fits, WhitespaceCuts, MeaningfulCuts;
    var fits := Fitter(l, t, body, start);
    assert fits(2 * half) == Ok(false) && fits(half) == Ok(true) && fits(cut) == Ok(true);
    var cuts := if cut < half then [cut] else [];
    assert LastOf(cuts, |cuts|, half) == if cut < half then Some(cut) else None;
    assert Fitted(2 * half, cuts, fits, half) == Ok(Some(cut));
    assert Fitted(2 * half, cuts, fits, 2 * half) == Ok(Some(cut));
    var text := l.units[body.fragments[0].contribution.unit].text[start..start + 2 * half];
    assert |text| == 2 * half;
  }

  lemma {:induction false} CutHere(unit: nat, start: nat, length: nat, stop: nat)
    requires unit < 3 && 0 < length && start + length <= stop <= (if unit == 1 then 1 else 12)
    requires LengthOf(EmptyCell(), Sixty, Piece1(unit, 0, if unit == 1 then 1 else 12), false, start, stop) == Ok(length)
    ensures Cut(EmptyCell(), Sixty, Piece1(unit, 0, if unit == 1 then 1 else 12), false, start, stop) == Ok(Chunk1(unit, start, start + length))
  {
    hide Prepared, LengthOf, Chunk1, PieceAt;
    PieceAtIs(unit, start, length);
    Chunk1Is(unit, start, start + length);
  }

  lemma {:induction false} TwoCuts(l: Layout, t: Tools, body: Body, code: bool, start: nat, mid: nat, stop: nat, a: ChunkContent, b: ChunkContent)
    requires |body.fragments| == 1 && body.fragments[0].contribution.unit < |l.units|
    requires start < mid < stop <= |l.units[body.fragments[0].contribution.unit].text|
    requires Cut(l, t, body, code, start, stop) == Ok(a) && |a.fragments| == 1 && RangeOf(a).end == mid
    requires Cut(l, t, body, code, mid, stop) == Ok(b) && |b.fragments| == 1 && RangeOf(b).end == stop
    ensures SplitFrom(l, t, body, code, start, stop) == Ok([a, b])
  {
    hide Cut;
    assert SplitFrom(l, t, body, code, stop, stop) == Ok([]);
    assert [b] + [] == [b];
    assert SplitFrom(l, t, body, code, mid, stop) == Ok([b]);
    assert [a] + [b] == [a, b];
  }

  /** The letters do not fit whole: half of them is cut off, then the rest. */
  lemma {:induction false} SplitX()
    ensures Split(EmptyCell(), Sixty, Piece1(0, 0, 12)) == Ok([Chunk1(0, 0, 6), Chunk1(0, 6, 12)])
  {
    var l := EmptyCell();
    var body := Piece1(0, 0, 12);
    hide Prepared, Chunk1, WhitespaceCuts, MeaningfulCuts, PieceAt, Fits, IsWhitespace, l.Nearest, l.InTable, LengthOf, Cut, SplitFrom;
    Top(0);
    Chunk1Is(0, 0, 6);
    Chunk1Is(0, 6, 12);
    PieceAtIs(0, 0, 12);
    PieceAtIs(0, 0, 6);
    PieceAtIs(0, 6, 6);
    LetterCuts();
    HalfLength(l, Sixty, body, 0, 6, 6);
    WholeLength(l, Sixty, body, false, 6, 12);
    CutHere(0, 0, 6, 12);
    CutHere(0, 6, 6, 12);
    TwoCuts(l, Sixty, body, false, 0, 6, 12, Chunk1(0, 0, 6), Chunk1(0, 6, 12));
  }

  /** The note does not fit whole: what fits is cut back to its sentence end. */
  lemma {:induction false} SplitZ()
    ensures Split(EmptyCell(), Sixty, Piece1(2, 0, 12)) == Ok([Chunk1(2, 0, 2), Chunk1(2, 2, 12)])
  {
    var l := EmptyCell();
    var body := Piece1(2, 0, 12);
    hide Prepared, Chunk1, WhitespaceCuts, MeaningfulCuts, PieceAt, Fits, IsWhitespace, l.Nearest, l.InTable, LengthOf, Cut, SplitFrom;
    Top(2);
    Chunk1Is(2, 0, 2);
    Chunk1Is(2, 2, 12);
    PieceAtIs(2, 0, 12);
    PieceAtIs(2, 0, 6);
    PieceAtIs(2, 0, 2);
    PieceAtIs(2, 2, 10);
    NoteCuts();
    HalfLength(l, Sixty, body, 0, 6, 2);
    WholeLength(l, Sixty, body, false, 2, 12);
    CutHere(2, 0, 2, 12);
    CutHere(2, 2, 10, 12);
    TwoCuts(l, Sixty, body, false, 0, 2, 12, Chunk1(2, 0, 2), Chunk1(2, 2, 12));
  }

  // ---- Packing

  lemma {:induction false} RefinedX()
    ensures Refined(EmptyCell(), AtomX()) == Ok(Some([Piece1(0, 0, 12)])) && Refined(EmptyCell(), Piece1(0, 0, 12)) == Ok(None)
  {
    var l := EmptyCell();
    hide l.RowCells;
    Rows();
    var (w, cells, fragments) := (WX([0, 1]), [CellX(7), CellX(8)], AtomX().fragments);
    assert FragmentsIn(l, fragments, 7, 0) == [] && FragmentsIn(l, fragments, 8, 0) == [];
    assert FragmentsIn(l, fragments, 7, 1) == fragments && FragmentsIn(l, fragments, 8, 1) == [];
    assert cells[0].id == 7 && cells[1].id == 8;
    assert [] + [Piece1(0, 0, 12)] == [Piece1(0, 0, 12)];
    assert ColumnBodies(l, AtomX(), w, cells, 0) == Ok([]);
    assert ColumnBodies(l, AtomX(), w, cells, 1) == Ok([Piece1(0, 0, 12)]);
    assert ColumnBodies(l, AtomX(), w, cells, 2) == Ok([Piece1(0, 0, 12)]);
  }

  lemma {:induction false} RefinedY()
    ensures Refined(EmptyCell(), AtomY()) == Ok(Some([Piece1(1, 0, 1), Piece1(2, 0, 12)])) && Refined(EmptyCell(), Piece1(2, 0, 12)) == Ok(None)
  {
    var l := EmptyCell();
    hide l.RowCells;
    Rows();
    var (w, cells, fragments) := (WY([0, 1]), [CellY(9), CellY(10)], AtomY().fragments);
    var (f, g) := (fragments[0], fragments[1]);
    assert FragmentsIn(l, fragments, 9, 0) == [] && FragmentsIn(l, fragments, 10, 0) == [];
    assert FragmentsIn(l, fragments, 9, 1) == [f] && FragmentsIn(l, fragments, 10, 1) == [];
    assert FragmentsIn(l, fragments, 9, 2) == [f] && FragmentsIn(l, fragments, 10, 2) == [g];
    assert cells[0].id == 9 && cells[1].id == 10;
    assert [] + [Piece1(1, 0, 1)] == [Piece1(1, 0, 1)];
    assert [Piece1(1, 0, 1)] + [Piece1(2, 0, 12)] == [Piece1(1, 0, 1), Piece1(2, 0, 12)];
    assert ColumnBodies(l, AtomY(), w, cells, 0) == Ok([]);
    assert ColumnBodies(l, AtomY(), w, cells, 1) == Ok([Piece1(1, 0, 1)]);
    assert ColumnBodies(l, AtomY(), w, cells, 2) == Ok([Piece1(1, 0, 1), Piece1(2, 0, 12)]);
  }

  lemma {:induction false} MergedYZ()
    ensures MergeColumns([0], [1]) == [0, 1]
  {
    hide MergeColumns;
    MergedColumns([0], [1]);
    var merged := MergeColumns([0], [1]);
    forall c ensures c in merged <==> c in [0, 1] {
    }
    AscendingUnique(merged, [0, 1]);
  }

  function Packed(): seq<ChunkContent> {
    [Chunk1(0, 0, 6), Chunk1(0, 6, 12), Chunk1(1, 0, 1), Chunk1(2, 0, 2), Chunk1(2, 2, 12)]
  }

  /** The first row is too long, and is split in two. */
  lemma {:induction false} PacksX()
    ensures Packs(EmptyCell(), Sixty, State([Atom(AtomX()), Atom(AtomY())], None, []))
         == Packs(EmptyCell(), Sixty, State([Atom(AtomY())], None, [Chunk1(0, 0, 6), Chunk1(0, 6, 12)]))
  {
    var l := EmptyCell();
    hide Prepared, Refined, Split, Chunk1, Packs;
    WholeX();
    RefinedX();
    SplitX();
    Chunk1Is(0, 0, 12);
    var rest := [Atom(AtomY())];
    var s := State([Atom(AtomX())] + rest, None, []);
    assert s.pending == [Atom(AtomX()), Atom(AtomY())] && s.pending[1..] == rest;
    var next := State([Atom(Piece1(0, 0, 12))] + rest, None, []);
    assert Requeued([Piece1(0, 0, 12)], rest) == next.pending;
    assert Stepped(l, Sixty, s) == Ok(next);
    assert next.pending[1..] == rest;
    var last := State(rest, None, [Chunk1(0, 0, 6), Chunk1(0, 6, 12)]);
    assert [] + last.result == last.result;
    assert Stepped(l, Sixty, next) == Ok(last);
    PacksNext(s, next);
    PacksNext(next, last);
  }

  lemma {:induction false} PacksNext(s: State, next: State)
    requires s.pending != [] && Stepped(EmptyCell(), Sixty, s) == Ok(next)
    ensures Packs(EmptyCell(), Sixty, s) == Packs(EmptyCell(), Sixty, next)
  {
    hide Stepped;
  }

  /** The second row is too long: its cells are packed one by one. */
  lemma {:induction false} BreaksY(result: seq<ChunkContent>)
    ensures Stepped(EmptyCell(), Sixty, State([Atom(AtomY())], None, result))
         == Ok(State([Atom(Piece1(1, 0, 1)), Atom(Piece1(2, 0, 12))], None, result))
  {
    hide Prepared, Refined, Split;
    PairY(12);
    RefinedY();
    var s := State([Atom(AtomY())], None, result);
    assert s.pending[1..] == [];
    assert Requeued([Piece1(1, 0, 1), Piece1(2, 0, 12)], []) == [Atom(Piece1(1, 0, 1)), Atom(Piece1(2, 0, 12))];
  }

  /** The letter opens a draft. */
  lemma {:induction false} OpensY(result: seq<ChunkContent>)
    ensures Stepped(EmptyCell(), Sixty, State([Atom(Piece1(1, 0, 1)), Atom(Piece1(2, 0, 12))], None, result))
         == Ok(State([Atom(Piece1(2, 0, 12))], Some(Draft(Piece1(1, 0, 1), Chunk1(1, 0, 1))), result))
  {
    hide Prepared, Refined, Split, Chunk1;
    Chunk1Is(1, 0, 1);
    var s := State([Atom(Piece1(1, 0, 1)), Atom(Piece1(2, 0, 12))], None, result);
    assert s.pending[1..] == [Atom(Piece1(2, 0, 12))];
  }

  /** The note does not fit beside it, nor alone: it is split. */
  lemma {:induction false} SplitsY(result: seq<ChunkContent>)
    ensures Stepped(EmptyCell(), Sixty, State([Atom(Piece1(2, 0, 12))], Some(Draft(Piece1(1, 0, 1), Chunk1(1, 0, 1))), result))
         == Ok(State([], None, result + [Chunk1(1, 0, 1)] + [Chunk1(2, 0, 2), Chunk1(2, 2, 12)]))
  {
    hide Prepared, Refined, Split, Chunk1, Compatible, Combined;
    PairY(12);
    CombinedYZ();
    RefinedY();
    SplitZ();
    Chunk1Is(2, 0, 12);
    var s := State([Atom(Piece1(2, 0, 12))], Some(Draft(Piece1(1, 0, 1), Chunk1(1, 0, 1))), result);
    assert s.pending[1..] == [];
    assert Grown(EmptyCell(), Sixty, Piece1(1, 0, 1), Piece1(2, 0, 12)) == Ok(None);
  }

  lemma {:induction false} PacksY()
    ensures Packs(EmptyCell(), Sixty, State([Atom(AtomY())], None, [Chunk1(0, 0, 6), Chunk1(0, 6, 12)])) == Ok(Packed())
  {
    hide Prepared, Chunk1, Packs, Stepped;
    var result := [Chunk1(0, 0, 6), Chunk1(0, 6, 12)];
    BreaksY(result);
    OpensY(result);
    SplitsY(result);
    assert result + [Chunk1(1, 0, 1)] + [Chunk1(2, 0, 2), Chunk1(2, 2, 12)] == Packed();
    var (y, z) := (Atom(Piece1(1, 0, 1)), Atom(Piece1(2, 0, 12)));
    PacksNext(State([Atom(AtomY())], None, result), State([y, z], None, result));
    PacksNext(State([y, z], None, result), State([z], Some(Draft(Piece1(1, 0, 1), Chunk1(1, 0, 1))), result));
    PacksNext(State([z], Some(Draft(Piece1(1, 0, 1), Chunk1(1, 0, 1))), result), State([], None, Packed()));
    PacksDone(Packed());
  }

  lemma {:induction false} PacksDone(result: seq<ChunkContent>)
    ensures Packs(EmptyCell(), Sixty, State([], None, result)) == Ok(result)
  {
  }

  lemma {:induction false} CombinedYZ()
    ensures Combined(Piece1(1, 0, 1), Piece1(2, 0, 12)) == AtomY()
  {
    hide MergeColumns;
    MergedYZ();
    AddsOne([WY([0])], WY([1]));
    assert [WY([0])][..0] == [];
    assert Piece1(1, 0, 1).fragments + Piece1(2, 0, 12).fragments == AtomY().fragments;
  }

  // ---- Absorbing

  lemma {:induction false} Near()
    ensures Compatible(EmptyCell(), Piece1(0, 6, 12), Piece1(1, 0, 1))
    ensures Compatible(EmptyCell(), Body([Stretch(0, 6, 12), Stretch(1, 0, 1)], [WX([0]), WY([0])]), Piece1(2, 0, 2))
  {
    var l := EmptyCell();
    hide l.KeyOf, l.Nearest, l.InTable, l.Owner, l.SectionOf, OutermostItem;
    Top(0);
    Top(1);
    Top(2);
  }

  function Joined2(): ChunkContent {
    JoinedXY();
    Prepared(EmptyCell(), Sixty, Body([Stretch(0, 6, 12), Stretch(1, 0, 1)], [WX([0]), WY([0])])).value
  }

  function Joined3(): ChunkContent {
    JoinedXYZ();
    Prepared(EmptyCell(), Sixty, Spoiled()).value
  }

  /** The letter joins the end of the row above it: both show the first column. */
  lemma {:induction false} FirstJoin()
    ensures Grown(EmptyCell(), Sixty, Piece1(0, 6, 12), Piece1(1, 0, 1))
         == Ok(Some(Draft(Body([Stretch(0, 6, 12), Stretch(1, 0, 1)], [WX([0]), WY([0])]), Joined2())))
  {
    hide Prepared, Compatible;
    Near();
    JoinedXY();
    AddsOne([WX([0])], WY([0]));
    assert [WX([0])] + [WY([0])] == [WX([0]), WY([0])];
    assert Piece1(0, 6, 12).fragments + Piece1(1, 0, 1).fragments == [Stretch(0, 6, 12), Stretch(1, 0, 1)];
  }

  /** The start of the note joins too: it is of the letter's row. */
  lemma {:induction false} SecondJoin()
    ensures Grown(EmptyCell(), Sixty, Body([Stretch(0, 6, 12), Stretch(1, 0, 1)], [WX([0]), WY([0])]), Piece1(2, 0, 2))
         == Ok(Some(Draft(Spoiled(), Joined3())))
  {
    hide Prepared, Compatible, MergeColumns;
    Near();
    JoinedXYZ();
    MergedYZ();
    var windows := [WX([0]), WY([0])];
    AddsOne(windows, WY([1]));
    assert windows[..1] + [WY([0, 1])] == Spoiled().windows;
    assert [Stretch(0, 6, 12), Stretch(1, 0, 1)] + Piece1(2, 0, 2).fragments == Spoiled().fragments;
  }

  lemma {:induction false} AbsorbedSome(n: nat)
    requires n <= 5
    ensures Absorbed(EmptyCell(), Sixty, Packed(), 150, n)
         == Ok(if n == 0 then [] else if n == 1 then [Chunk1(0, 0, 6)] else if n == 2 then [Chunk1(0, 0, 6), Chunk1(0, 6, 12)]
               else if n == 3 then [Chunk1(0, 0, 6), Joined2()] else if n == 4 then [Chunk1(0, 0, 6), Joined3()]
               else [Chunk1(0, 0, 6), Joined3(), Chunk1(2, 2, 12)])
  {
    hide Prepared, Grown, Chunk1, Joined2, Joined3;
    if n > 0 {
      AbsorbedSome(n - 1);
      var (front, a) := (Chunk1(0, 0, 6), Chunk1(0, 6, 12));
      if n == 1 {
        Chunk1Is(0, 0, 6);
        assert [] + [front] == [front];
      } else if n == 2 {
        Chunk1Is(0, 6, 12);
        assert [front] + [a] == [front, a];
      } else if n == 3 {
        Chunk1Is(0, 6, 12);
        Chunk1Is(1, 0, 1);
        FirstJoin();
        assert [front, a][1 := Joined2()] == [front, Joined2()];
      } else if n == 4 {
        Chunk1Is(2, 0, 2);
        SecondJoin();
        Joined2Is();
        assert [front, Joined2()][1 := Joined3()] == [front, Joined3()];
      } else {
        Chunk1Is(2, 2, 12);
        assert [front, Joined3()] + [Chunk1(2, 2, 12)] == [front, Joined3(), Chunk1(2, 2, 12)];
      }
    }
  }

  lemma {:induction false} Joined2Is()
    ensures Joined2().fragments == [Stretch(0, 6, 12), Stretch(1, 0, 1)] && Joined2().windows == [WX([0]), WY([0])]
  {
    hide Prepared;
    JoinedXY();
  }

  lemma {:induction false} Joined3Is()
    ensures Joined3().windows == [WX([0]), WY([0, 1])]
  {
    hide Prepared;
    JoinedXYZ();
  }

  /**
   * One table, no list, a counter that grows with the text: absorbing joins the end of the first
   * row to the second row's letter, whose columns are equal, and then the start of the note, whose
   * row is the same. The draft shows one column of a row and two of the next, and is refused.
   */
  lemma {:induction false} EmptyCellRefused()
    ensures
      var l := EmptyCell();
      && Built(l, Sixty) == Ok([Chunk1(0, 0, 6), Joined3(), Chunk1(2, 2, 12)])
      && Joined3().windows == [WX([0]), WY([0, 1])] && !Accepted(l, Sixty, Joined3())
  {
    hide Prepared, AtomsOf, Steps, ChunkReplay, WitnessWindows, ColumnsOk, Packs, Absorbed, Chunk1, Joined3, Packed;
    var l := EmptyCell();
    AtomsAre();
    StepsAre();
    PacksX();
    PacksY();
    StartIs();
    AbsorbedSome(5);
    Joined3Is();
    assert !FollowsWindow(Joined3().windows[0], Joined3().windows[1]);
  }

  lemma {:induction false} StartIs()
    ensures Pieces([[AtomX()], [AtomY()]], 2) == [Atom(AtomX()), Atom(AtomY())] && |Packed()| == 5
  {
    var groups := [[AtomX()], [AtomY()]];
    assert Pieces(groups, 0) == [] && Pieces(groups, 1) == [Atom(AtomX())];
  }

  // ---- The rows that clash

  /** Row and column of each unit. */
  function RowOf(unit: nat): Id { if unit == 0 then 3 else 4 }
  function ColumnOfUnit(unit: nat): nat { if unit == 2 then 1 else 0 }

  lemma {:induction false} UnitIsCell(unit: nat)
    requires unit < 3
    ensures
      var l := EmptyCell();
      && TableText(l, unit) && OwnWindow(l, unit) == TableWindow(1, RowOf(unit), if unit == 0 then 1 else 2, [ColumnOfUnit(unit)])
      && ColumnOf(l, unit) == ColumnOfUnit(unit)
  {
    var l := EmptyCell();
    hide l.Window, l.RowCells, l.InTable, l.KeyOf, l.Nearest, l.SectionOf, l.Owner, OutermostItem, ListDepth;
    Windows();
    Rows();
    Top(unit);
    assert DistinctIds([CellX(7), CellX(8)]) && DistinctIds([CellY(9), CellY(10)]);
    assert l.units[0].block == CellX(7).id && l.units[1].block == CellY(9).id && l.units[2].block == CellY(10).id;
  }

  lemma {:induction false} RowsApart()
    ensures DisjointRows(EmptyCell(), 3, 4)
  {
    var l := EmptyCell();
    hide l.RowCells;
    Rows();
    var (x, y) := (l.RowCells(3).value, l.RowCells(4).value);
    assert x[0].id == 7 && x[1].id == 8 && y[0].id == 9 && y[1].id == 10;
  }

  lemma {:induction false} UnitsInOrder(i: nat, j: nat)
    requires i <= j < 3
    ensures TableText(EmptyCell(), i) && TableText(EmptyCell(), j) && InTableOrder(EmptyCell(), i, j)
  {
    var l := EmptyCell();
    hide l.Window, l.RowCells, l.InTable, l.GroupOf, DisjointRows, l.Indexed, ColumnOf, CellUnit;
    UnitIsCell(i);
    UnitIsCell(j);
    Groups();
    RowsApart();
  }

  /** The table is as regular as packing needs: what fails is only that its rows clash. */
  lemma {:induction false} RegularButClashing()
    ensures TablesRegular(EmptyCell()) && EvenRows(EmptyCell()) && StepsOneTable(EmptyCell()) && !NoClash(EmptyCell())
  {
    hide TablesRegular, EvenRows, StepsOneTable, NoClash;
    IsRegular();
    IsEven();
    OneTableEach();
    Clashes();
  }

  lemma {:induction false} IsRegular()
    ensures TablesRegular(EmptyCell())
  {
    var l := EmptyCell();
    hide l.Window, l.RowCells, l.InTable, l.GroupOf, DisjointRows, l.Indexed, InTableOrder, SameGroup, l.InBlock, OwnWindow;
    forall u | 0 <= u < 3 ensures TableText(l, u) && l.InTable(u) && OwnWindow(l, u).table == 1 {
      UnitIsCell(u);
      Top(u);
    }
    forall i, j | 0 <= i <= j < 3 ensures TableText(l, i) && TableText(l, j) && InTableOrder(l, i, j) {
      UnitsInOrder(i, j);
    }
    assert |l.units| == 3;
  }

  lemma {:induction false} IsEven()
    ensures EvenRows(EmptyCell())
  {
    var l := EmptyCell();
    hide l.Window, l.RowCells, l.InTable, l.Indexed, CellUnit, TableText;
    Rows();
    forall u, v | 0 <= u < |l.units| && 0 <= v < |l.units| ensures EvenAt(l, u, v) {
      UnitIsCell(u);
      UnitIsCell(v);
    }
  }

  lemma {:induction false} OneTableEach()
    ensures StepsOneTable(EmptyCell())
  {
    hide AtomsOf, Steps;
    AtomsAre();
    StepsAre();
  }

  lemma {:induction false} Clashes()
    ensures ClashAt(EmptyCell(), 0, 1, 2) && !NoClash(EmptyCell())
  {
    var l := EmptyCell();
    hide l.Window, l.RowCells, l.InTable, l.Indexed, CellUnit, ColumnOf;
    UnitIsCell(0);
    UnitIsCell(1);
    UnitIsCell(2);
    forall c: nat ensures ColumnShown(l, 0, 1, 3, c) <==> c == 0 {
      if c == 0 {
        assert RowText(l, 0, 3, 0);
      }
    }
    forall c: nat ensures ColumnShown(l, 0, 1, 4, c) <==> c == 0 {
      if c == 0 {
        assert RowText(l, 1, 4, 0);
      }
    }
    ClashIn(l, 0, 1, 2);
  }
}
