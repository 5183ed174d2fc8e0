/** The tables of an assembled and mapped document are as regular as packing needs. */
module DocumentTables {
  import opened Common
  import opened Ranges
  import opened Units
  import opened Layouts
  import opened Lookups
  import opened Hanging
  import opened Indexing
  import opened WalkOrder
  import opened Tables
  import opened Refining
  import opened Atoms
  import opened Replay
  import Documents
  import Reaching
  import Assembly
  import Mapping
  import Mappers

  // ---- What the parser makes of tables

  const TableKinds: set<BlockType> := {Table, TableHead, TableRow, TableCell}

  ghost predicate AllKids(blocks: seq<Block>, block: Block, kinds: set<BlockType>) {
    forall k :: 0 <= k < |block.children| ==>
      block.children[k].BlockChild? && block.children[k].id < |blocks| && blocks[block.children[k].id].kind in kinds
  }

  /** Tables hold rows, rows hold cells and cells hold inline content; rows and cells are nowhere else. */
  ghost predicate ShapedAt(blocks: seq<Block>, i: nat)
    requires i < |blocks|
  {
    var block := blocks[i];
    && (block.kind in Rows ==> block.parent.Some? && block.parent.value < |blocks| && blocks[block.parent.value].kind.Table?)
    && (block.kind.TableCell? ==> block.parent.Some? && block.parent.value < |blocks| && blocks[block.parent.value].kind in Rows)
    && (block.kind.Table? ==> AllKids(blocks, block, Rows))
    && (block.kind in Rows ==> AllKids(blocks, block, {TableCell}))
    && (block.kind.TableCell? ==> forall k :: 0 <= k < |block.children| ==> block.children[k].InlineChild?)
  }

  ghost predicate TablesShaped(blocks: seq<Block>) {
    forall i: nat :: i < |blocks| ==> ShapedAt(blocks, i)
  }

  ghost predicate Covered(blocks: seq<Block>, i: nat) {
    exists end: nat :: Reaching.Covers(blocks, i, end)
  }

  /** A layout of a document that hangs together, whose units the walk over its blocks built. */
  ghost predicate Ready(l: Layout, blocks: seq<Block>) {
    && Wired(blocks) && TablesShaped(blocks) && Reaching.Placed(l.blocks, blocks)
    && (forall i: nat :: i < |blocks| ==> Covered(blocks, i))
    && Run(blocks, l.units, 0, -1, 0, |blocks|)
    && |l.ancestry| == |l.units|
    && forall u: nat :: u < |l.units| ==> LineHere(l, blocks, u)
  }

  ghost predicate LineHere(l: Layout, blocks: seq<Block>, u: nat)
    requires u < |l.units| == |l.ancestry|
  {
    l.units[u].block < |blocks| && l.ancestry[u] == LineOf(blocks, l.units[u].block)
  }

  lemma {:induction false} ShapeOf(blocks: seq<Block>, i: nat)
    requires TablesShaped(blocks) && i < |blocks|
    ensures ShapedAt(blocks, i)
  {
  }

  // ---- Paths

  lemma {:induction false} NearestPrefix(a: seq<Block>, b: seq<Block>, n: nat, kinds: set<BlockType>)
    requires n <= |a|
    ensures NearestIn(a + b, n, kinds) == NearestIn(a, n, kinds)
  {
    if n > 0 {
      NearestPrefix(a, b, n - 1, kinds);
    }
  }

  lemma {:induction false} LineThen(blocks: seq<Block>, i: nat)
    requires Wired(blocks) && i < |blocks|
    ensures LineOf(blocks, i) == (match blocks[i].parent case Some(p) => (if p < i then LineOf(blocks, p) else []) + [blocks[i]] case None => [blocks[i]])
    ensures blocks[i].parent.Some? ==> blocks[i].parent.value < i && Documents.BlockChild(i) in blocks[blocks[i].parent.value].children
  {
    hide Wired;
    if blocks[i].parent.Some? {
      EarlierParent(blocks, i);
    }
  }

  /** A block lies in a table exactly when it is a table, a row or a cell. */
  lemma {:induction false} LineTable(blocks: seq<Block>, i: nat)
    requires Wired(blocks) && TablesShaped(blocks) && i < |blocks|
    ensures NearestIn(LineOf(blocks, i), |LineOf(blocks, i)|, {Table}).Some? <==> blocks[i].kind in TableKinds
  {
    hide Wired, TablesShaped, LineOf;
    LineThen(blocks, i);
    ShapeOf(blocks, i);
    if blocks[i].parent.Some? {
      var p := blocks[i].parent.value;
      LineTable(blocks, p);
      ShapeOf(blocks, p);
      var line := LineOf(blocks, p);
      NearestPrefix(line, [blocks[i]], |line|, {Table});
      assert LineOf(blocks, i) == line + [blocks[i]];
      var k :| 0 <= k < |blocks[p].children| && blocks[p].children[k] == Documents.BlockChild(i);
    } else {
      assert NearestIn(LineOf(blocks, i), 0, {Table}).None?;
    }
  }

  // ---- A unit's place

  lemma {:induction false} UnitBacked(l: Layout, blocks: seq<Block>, u: nat)
    requires Ready(l, blocks) && u < |l.units|
    ensures l.units[u].block < |blocks| && Backed(blocks, l.units[u]) && l.Ancestors(u) == LineOf(blocks, l.units[u].block)
  {
    hide Wired, TablesShaped, Reaching.Placed, Backed, Grouped, InTurn, Covered, LineOf;
    assert LineHere(l, blocks, u);
  }

  /** A unit lies in a table exactly when its block is a cell. */
  lemma {:induction false} InTableExactly(l: Layout, blocks: seq<Block>, u: nat)
    requires Ready(l, blocks) && u < |l.units|
    ensures l.units[u].block < |blocks|
    ensures l.InTable(u) <==> blocks[l.units[u].block].kind.TableCell?
  {
    hide Ready, LineOf, NearestIn, TablesShaped, Wired;
    UnitBacked(l, blocks, u);
    ReadyHas(l, blocks);
    var b := l.units[u].block;
    LineTable(blocks, b);
    ShapeOf(blocks, b);
  }

  lemma {:induction false} ReadyHas(l: Layout, blocks: seq<Block>)
    requires Ready(l, blocks)
    ensures Wired(blocks) && TablesShaped(blocks) && Reaching.Placed(l.blocks, blocks) && Run(blocks, l.units, 0, -1, 0, |blocks|)
  {
    hide Wired, TablesShaped, Reaching.Placed, Run, Covered, LineHere;
  }

  /** A cell's row and table. */
  ghost function RowAbove(blocks: seq<Block>, cell: nat): nat
    requires TablesShaped(blocks) && cell < |blocks| && blocks[cell].kind.TableCell?
    ensures RowAbove(blocks, cell) < |blocks| && blocks[RowAbove(blocks, cell)].kind in Rows
  {
    ShapeOf(blocks, cell);
    blocks[cell].parent.value
  }

  ghost function TableAbove(blocks: seq<Block>, cell: nat): nat
    requires TablesShaped(blocks) && cell < |blocks| && blocks[cell].kind.TableCell?
    ensures TableAbove(blocks, cell) < |blocks| && blocks[TableAbove(blocks, cell)].kind.Table?
  {
    ShapeOf(blocks, RowAbove(blocks, cell));
    blocks[RowAbove(blocks, cell)].parent.value
  }

  lemma {:induction false} CellPath(l: Layout, blocks: seq<Block>, u: nat)
    requires Ready(l, blocks) && u < |l.units| && TablesShaped(blocks)
    requires l.units[u].block < |blocks| && blocks[l.units[u].block].kind.TableCell?
    ensures
      var cell := l.units[u].block;
      InCellOf(l, u, blocks[TableAbove(blocks, cell)], blocks[RowAbove(blocks, cell)], blocks[cell])
  {
    hide Ready, LineOf, TablesShaped, Wired;
    UnitBacked(l, blocks, u);
    ReadyHas(l, blocks);
    var cell := l.units[u].block;
    var (row, table) := (RowAbove(blocks, cell), TableAbove(blocks, cell));
    ShapeOf(blocks, cell);
    ShapeOf(blocks, row);
    LineThen(blocks, cell);
    LineThen(blocks, row);
    var path := l.Ancestors(u);
    var line := LineOf(blocks, table);
    assert path == line + [blocks[row]] + [blocks[cell]];
    assert line[|line| - 1] == blocks[table];
    assert path[|path| - 3..] == [blocks[table], blocks[row], blocks[cell]];
  }

  // ---- Rows and cells

  /** The child blocks of a block that holds blocks only. */
  ghost function Kids(blocks: seq<Block>, block: Block, kinds: set<BlockType>): (r: seq<Block>)
    requires AllKids(blocks, block, kinds)
    ensures |r| == |block.children|
    ensures forall k :: 0 <= k < |r| ==> r[k] == blocks[block.children[k].id] && r[k].kind in kinds
  {
    seq(|block.children|, k requires 0 <= k < |block.children| => blocks[block.children[k].id])
  }

  lemma {:induction false} KidsAre(l: Layout, blocks: seq<Block>, block: Block, kinds: set<BlockType>, n: nat)
    requires Reaching.Placed(l.blocks, blocks) && AllKids(blocks, block, kinds) && n <= |block.children|
    ensures l.ChildBlocks(block, n) == Kids(blocks, block, kinds)[..n]
  {
    hide Reaching.Placed;
    if n > 0 {
      KidsAre(l, blocks, block, kinds, n - 1);
      Here(blocks, l.blocks, block.children[n - 1].id);
    }
  }

  lemma {:induction false} RowCellsAre(l: Layout, blocks: seq<Block>, row: nat)
    requires Reaching.Placed(l.blocks, blocks) && row < |blocks| && AllKids(blocks, blocks[row], {TableCell})
    ensures l.RowCells(row) == Ok(Kids(blocks, blocks[row], {TableCell}))
  {
    hide Reaching.Placed, l.ChildBlocks;
    Here(blocks, l.blocks, row);
    var kids := Kids(blocks, blocks[row], {TableCell});
    KidsAre(l, blocks, blocks[row], {TableCell}, |blocks[row].children|);
    assert kids[..|kids|] == kids;
    AllOfKind(kids, {TableCell}, |kids|);
  }

  /** Children stand in the order of their stretches. */
  lemma {:induction false} TilesIncrease(blocks: seq<Block>, children: seq<Documents.Child>, n: nat, from: nat, to: nat, k: nat, m: nat)
    requires n <= |children| && Reaching.Tiles(blocks, children, n, from, to) && k < m < n && children[k].BlockChild? && children[m].BlockChild?
    ensures children[k].id < children[m].id < to
  {
    hide Reaching.Covers;
    match children[n - 1] {
      case InlineChild(_) => TilesIncrease(blocks, children, n - 1, from, to, k, m);
      case BlockChild(c) =>
        if m < n - 1 {
          TilesIncrease(blocks, children, n - 1, from, c, k, m);
        } else {
          TilesBelow(blocks, children, n - 1, from, c, k);
        }
    }
  }

  lemma {:induction false} TilesBelow(blocks: seq<Block>, children: seq<Documents.Child>, n: nat, from: nat, to: nat, k: nat)
    requires n <= |children| && Reaching.Tiles(blocks, children, n, from, to) && k < n && children[k].BlockChild?
    ensures from <= children[k].id < to
  {
    hide Reaching.Covers;
    match children[n - 1] {
      case InlineChild(_) => TilesBelow(blocks, children, n - 1, from, to, k);
      case BlockChild(c) =>
        if k < n - 1 {
          TilesBelow(blocks, children, n - 1, from, c, k);
        }
        Reaching.TilesForward(blocks, children, n - 1, from, c);
    }
  }

  /** The children of a block are in increasing order. */
  lemma {:induction false} ChildrenIncrease(l: Layout, blocks: seq<Block>, i: nat, k: nat, m: nat)
    requires Ready(l, blocks) && i < |blocks| && k < m < |blocks[i].children|
    requires blocks[i].children[k].BlockChild? && blocks[i].children[m].BlockChild?
    ensures blocks[i].children[k].id < blocks[i].children[m].id
  {
    hide Wired, TablesShaped, Reaching.Placed, Run, Reaching.Tiles, LineHere;
    assert Covered(blocks, i);
    var end: nat :| Reaching.Covers(blocks, i, end);
    TilesIncrease(blocks, blocks[i].children, |blocks[i].children|, i + 1, end, k, m);
  }

  lemma {:induction false} IdIs(l: Layout, blocks: seq<Block>, i: nat)
    requires Ready(l, blocks) && i < |blocks|
    ensures blocks[i].id == i
  {
    hide Hung, Inside, TablesShaped, Reaching.Placed, Run, Covered, LineHere;
  }

  lemma {:induction false} KidsApart(l: Layout, blocks: seq<Block>, i: nat, kinds: set<BlockType>)
    requires Ready(l, blocks) && i < |blocks| && AllKids(blocks, blocks[i], kinds)
    ensures AllApart(Ids(Kids(blocks, blocks[i], kinds)))
    ensures forall k, m :: 0 <= k < m < |blocks[i].children| ==> Kids(blocks, blocks[i], kinds)[k].id < Kids(blocks, blocks[i], kinds)[m].id
  {
    hide Ready;
    var (children, kids) := (blocks[i].children, Kids(blocks, blocks[i], kinds));
    forall k, m | 0 <= k < m < |children| ensures kids[k].id < kids[m].id {
      ChildrenIncrease(l, blocks, i, k, m);
      IdIs(l, blocks, children[k].id);
      IdIs(l, blocks, children[m].id);
    }
  }

  /** Where a block stands among its parent's children. */
  lemma {:induction false} PlaceOf(l: Layout, blocks: seq<Block>, i: nat, kinds: set<BlockType>) returns (k: nat)
    requires Ready(l, blocks) && i < |blocks| && blocks[i].parent.Some? && blocks[i].parent.value < |blocks|
    requires AllKids(blocks, blocks[blocks[i].parent.value], kinds)
    ensures k < |blocks[blocks[i].parent.value].children| && Kids(blocks, blocks[blocks[i].parent.value], kinds)[k] == blocks[i]
  {
    hide Ready, Wired;
    ReadyHas(l, blocks);
    LineThen(blocks, i);
    var children := blocks[blocks[i].parent.value].children;
    k :| 0 <= k < |children| && children[k] == Documents.BlockChild(i);
  }

  /** A unit of a cell: its table, its row's place in it and the cell's place in the row. */
  lemma {:induction false} CellPlace(l: Layout, blocks: seq<Block>, u: nat) returns (rowIndex: nat, column: nat)
    requires Ready(l, blocks) && u < |l.units| && TablesShaped(blocks)
    requires l.units[u].block < |blocks| && blocks[l.units[u].block].kind.TableCell?
    ensures
      var cell := l.units[u].block;
      var (row, table) := (RowAbove(blocks, cell), TableAbove(blocks, cell));
      && AllKids(blocks, blocks[table], Rows) && AllKids(blocks, blocks[row], {TableCell})
      && rowIndex < |blocks[table].children| && Kids(blocks, blocks[table], Rows)[rowIndex] == blocks[row]
      && column < |blocks[row].children| && Kids(blocks, blocks[row], {TableCell})[column] == blocks[cell]
      && CellUnit(l, u) && OwnWindow(l, u) == TableWindow(table, row, rowIndex, [column])
  {
    hide Ready, TablesShaped, l.RowCells, l.Window, InCellOf, Reaching.Placed, l.ChildBlocks;
    ReadyHas(l, blocks);
    var cell := l.units[u].block;
    var (row, table) := (RowAbove(blocks, cell), TableAbove(blocks, cell));
    ShapeOf(blocks, cell);
    ShapeOf(blocks, row);
    ShapeOf(blocks, table);
    rowIndex := PlaceOf(l, blocks, row, Rows);
    column := PlaceOf(l, blocks, cell, {TableCell});
    var (rows, cells) := (Kids(blocks, blocks[table], Rows), Kids(blocks, blocks[row], {TableCell}));
    KidsApart(l, blocks, table, Rows);
    KidsApart(l, blocks, row, {TableCell});
    KidsAre(l, blocks, blocks[table], Rows, |rows|);
    assert rows[..|rows|] == rows;
    RowCellsAre(l, blocks, row);
    CellPath(l, blocks, u);
    IdIs(l, blocks, row);
    IdIs(l, blocks, table);
    IdIs(l, blocks, cell);
    WindowIs(l, u, blocks[table], rows, rowIndex, cells, column);
    CellUnitIs(l, u, cells);
  }

  lemma {:induction false} CellUnitIs(l: Layout, u: nat, cells: seq<Block>)
    requires u < |l.units| && l.Window(u, false).Ok? && l.Window(u, false).value.Some?
    requires
      var own := OwnWindow(l, u);
      && |own.columns| == 1 && l.RowCells(own.row) == Ok(cells) && AllApart(Ids(cells))
      && own.columns[0] < |cells| && l.units[u].block == cells[own.columns[0]].id
    ensures CellUnit(l, u)
  {
    hide l.Window, l.RowCells;
    assert DistinctIds(cells) by {
      forall a, b | 0 <= a < b < |cells| ensures cells[a].id != cells[b].id {
        assert Ids(cells)[a] == cells[a].id && Ids(cells)[b] == cells[b].id;
      }
    }
  }

  // ---- Order

  /** A cell's stretch is the cell alone. */
  lemma {:induction false} CellEnds(blocks: seq<Block>, cell: nat, end: nat)
    requires TablesShaped(blocks) && cell < |blocks| && blocks[cell].kind.TableCell? && Reaching.Covers(blocks, cell, end)
    ensures end == cell + 1
  {
    hide TablesShaped;
    ShapeOf(blocks, cell);
    Reaching.NoBlocks(blocks, blocks[cell].children, |blocks[cell].children|, cell + 1, end);
  }

  /** Units before one of a cell are of that cell or of an earlier block. */
  lemma {:induction false} CellsInTurn(l: Layout, blocks: seq<Block>, i: nat, j: nat)
    requires Ready(l, blocks) && i <= j < |l.units| && l.units[j].block < |blocks| && blocks[l.units[j].block].kind.TableCell?
    ensures l.units[i].block <= l.units[j].block
  {
    hide Wired, TablesShaped, Reaching.Placed, Covered, LineHere, Grouped, Backed, Reaching.Covers;
    if i < j && l.units[i].block > l.units[j].block {
      var cell := l.units[j].block;
      assert Holder(blocks, cell, l.units[i].block);
      var end: nat :| Reaching.Covers(blocks, cell, end) && cell <= l.units[i].block < end;
      CellEnds(blocks, cell, end);
    }
  }

  lemma {:induction false} StretchOf(l: Layout, blocks: seq<Block>, i: nat) returns (end: nat)
    requires Ready(l, blocks) && i < |blocks|
    ensures Reaching.Covers(blocks, i, end)
  {
    hide Wired, TablesShaped, Reaching.Placed, Run, LineHere, Reaching.Covers;
    assert Covered(blocks, i);
    end :| Reaching.Covers(blocks, i, end);
  }

  /** A child lies in its parent's stretch. */
  lemma {:induction false} ChildInStretch(blocks: seq<Block>, p: nat, end: nat, c: nat)
    requires Reaching.Covers(blocks, p, end) && Documents.BlockChild(c) in blocks[p].children
    ensures p < c < end
  {
    var k :| 0 <= k < |blocks[p].children| && blocks[p].children[k] == Documents.BlockChild(c);
    TilesBelow(blocks, blocks[p].children, |blocks[p].children|, p + 1, end, k);
  }

  /** A row's stretch holds the row and its cells. */
  lemma {:induction false} RowHolds(blocks: seq<Block>, row: nat, end: nat, x: nat)
    requires TablesShaped(blocks) && row < |blocks| && blocks[row].kind in Rows && Reaching.Covers(blocks, row, end) && row < x < end
    ensures x < |blocks| && blocks[x].kind.TableCell? && Documents.BlockChild(x) in blocks[row].children
  {
    hide TablesShaped, Reaching.Covers;
    RowTiles(blocks, row, end);
    var c, next := TileHolds(blocks, blocks[row].children, |blocks[row].children|, row + 1, end, x);
    ShapeOf(blocks, row);
    var k :| 0 <= k < |blocks[row].children| && blocks[row].children[k] == Documents.BlockChild(c);
    CellEnds(blocks, c, next);
  }

  lemma {:induction false} RowTiles(blocks: seq<Block>, id: nat, end: nat)
    requires Reaching.Covers(blocks, id, end)
    ensures id < |blocks| && Reaching.Tiles(blocks, blocks[id].children, |blocks[id].children|, id + 1, end)
  {
  }

  /** A table's stretch holds the table, its rows and their cells. */
  lemma {:induction false} TableHolds(l: Layout, blocks: seq<Block>, table: nat, end: nat, x: nat)
    requires Ready(l, blocks) && TablesShaped(blocks) && table < |blocks| && blocks[table].kind.Table? && Reaching.Covers(blocks, table, end) && table < x < end
    ensures x < |blocks| && blocks[x].kind in TableKinds
    ensures blocks[x].kind.TableCell? ==> TableAbove(blocks, x) == table
  {
    hide Ready, TablesShaped, Reaching.Covers, Reaching.Tiles;
    RowTiles(blocks, table, end);
    var row, next := TileHolds(blocks, blocks[table].children, |blocks[table].children|, table + 1, end, x);
    ShapeOf(blocks, table);
    var k :| 0 <= k < |blocks[table].children| && blocks[table].children[k] == Documents.BlockChild(row);
    ParentIs(l, blocks, table, row);
    if x > row {
      RowHolds(blocks, row, next, x);
      ParentIs(l, blocks, row, x);
    }
  }

  lemma {:induction false} ParentIs(l: Layout, blocks: seq<Block>, p: nat, c: nat)
    requires Ready(l, blocks) && p < |blocks| && Documents.BlockChild(c) in blocks[p].children
    ensures p < c < |blocks| && blocks[c].parent == Some(p)
  {
    hide TablesShaped, Reaching.Placed, Run, Covered, LineHere, Inside, OneSection;
    assert Hung(blocks, p);
  }

  lemma {:induction false} CellListed(l: Layout, blocks: seq<Block>, cell: nat)
    requires Ready(l, blocks) && TablesShaped(blocks) && cell < |blocks| && blocks[cell].kind.TableCell?
    ensures Documents.BlockChild(cell) in blocks[RowAbove(blocks, cell)].children
    ensures Documents.BlockChild(RowAbove(blocks, cell)) in blocks[TableAbove(blocks, cell)].children
  {
    hide Ready, TablesShaped, Wired;
    ReadyHas(l, blocks);
    LineThen(blocks, cell);
    ShapeOf(blocks, cell);
    ShapeOf(blocks, RowAbove(blocks, cell));
    LineThen(blocks, RowAbove(blocks, cell));
  }

  /** Of two cells of different rows the earlier one's row comes first. */
  lemma {:induction false} RowsInTurn(l: Layout, blocks: seq<Block>, a: nat, b: nat)
    requires Ready(l, blocks) && TablesShaped(blocks) && a < b < |blocks| && blocks[a].kind.TableCell? && blocks[b].kind.TableCell?
    requires RowAbove(blocks, a) != RowAbove(blocks, b)
    ensures RowAbove(blocks, a) < RowAbove(blocks, b)
  {
    hide Ready, TablesShaped, Reaching.Covers;
    var (ra, rb) := (RowAbove(blocks, a), RowAbove(blocks, b));
    var ea := StretchOf(l, blocks, ra);
    var eb := StretchOf(l, blocks, rb);
    CellListed(l, blocks, a);
    CellListed(l, blocks, b);
    ChildInStretch(blocks, ra, ea, a);
    ChildInStretch(blocks, rb, eb, b);
    if rb < ra {
      RowHolds(blocks, rb, eb, ra);
    }
  }

  /** Children's order is the order of their identifiers. */
  lemma {:induction false} PlacesInTurn(l: Layout, blocks: seq<Block>, p: nat, kinds: set<BlockType>, k: nat, m: nat)
    requires Ready(l, blocks) && p < |blocks| && AllKids(blocks, blocks[p], kinds) && k < |blocks[p].children| && m < |blocks[p].children|
    ensures Kids(blocks, blocks[p], kinds)[k].id < Kids(blocks, blocks[p], kinds)[m].id <==> k < m
  {
    hide Ready;
    KidsApart(l, blocks, p, kinds);
  }

  // ---- Groups

  lemma {:induction false} KindsThen(path: seq<Block>, block: Block, kinds: set<BlockType>, n: nat)
    requires n <= |path|
    ensures KindsOf(path + [block], kinds, n) == KindsOf(path, kinds, n)
  {
    if n > 0 {
      KindsThen(path, block, kinds, n - 1);
    }
  }

  lemma {:induction false} CellKinds(path: seq<Block>, cell: Block)
    requires cell.kind.TableCell?
    ensures KindsOf(path + [cell], Containers, |path| + 1) == KindsOf(path + [cell], Containers, |path|)
  {
  }

  /** What a cell's units have in common: their row, its section and its containers. */
  lemma {:induction false} CellGroup(l: Layout, blocks: seq<Block>, u: nat)
    requires Ready(l, blocks) && u < |l.units| && TablesShaped(blocks)
    requires l.units[u].block < |blocks| && blocks[l.units[u].block].kind.TableCell?
    ensures
      var (cell, line) := (l.units[u].block, LineOf(blocks, RowAbove(blocks, l.units[u].block)));
      l.GroupOf(u) == Ok(Group(RowAbove(blocks, cell), Key(blocks[cell].section, Ids(KindsOf(line, Containers, |line|)))))
  {
    hide Ready, TablesShaped, l.Window, l.RowCells, LineOf, Wired, NearestIn, InCellOf, l.Nearest, KindsOf, l.Owner;
    ReadyHas(l, blocks);
    UnitBacked(l, blocks, u);
    var cell := l.units[u].block;
    var row := RowAbove(blocks, cell);
    ShapeOf(blocks, cell);
    LineThen(blocks, cell);
    var line := LineOf(blocks, row);
    assert l.Ancestors(u) == line + [blocks[cell]];
    KindsThen(line, blocks[cell], Containers, |line|);
    CellKinds(line, blocks[cell]);
    var r, c := CellPlace(l, blocks, u);
    WindowBoth(l, u);
    CellPath(l, blocks, u);
    CellNearest(l, u, blocks[TableAbove(blocks, cell)], blocks[row], blocks[cell]);
  }

  lemma {:induction false} RowSection(l: Layout, blocks: seq<Block>, a: nat, b: nat)
    requires Ready(l, blocks) && TablesShaped(blocks) && a < |blocks| && b < |blocks| && blocks[a].kind.TableCell? && blocks[b].kind.TableCell?
    requires RowAbove(blocks, a) == RowAbove(blocks, b)
    ensures blocks[a].section == blocks[b].section
  {
    hide TablesShaped, Reaching.Placed, Run, Covered, LineHere, Inside;
    CellListed(l, blocks, a);
    CellListed(l, blocks, b);
    var row := RowAbove(blocks, a);
    assert Hung(blocks, row);
    RowLevel(blocks, row);
    var section :| AllSection(blocks, blocks[row].children, section);
  }

  lemma {:induction false} RowLevel(blocks: seq<Block>, row: nat)
    requires TablesShaped(blocks) && row < |blocks| && blocks[row].kind in Rows
    ensures NoHeading(blocks, blocks[row].children)
  {
    hide TablesShaped;
    ShapeOf(blocks, row);
    forall c: Id | Documents.BlockChild(c) in blocks[row].children ensures c < |blocks| && !blocks[c].kind.Heading? {
      var k :| 0 <= k < |blocks[row].children| && blocks[row].children[k] == Documents.BlockChild(c);
    }
  }

  // ---- Regular tables

  lemma {:induction false} RowsDisjoint(l: Layout, blocks: seq<Block>, a: nat, b: nat)
    requires Ready(l, blocks) && a < |blocks| && b < |blocks| && a != b
    requires AllKids(blocks, blocks[a], {TableCell}) && AllKids(blocks, blocks[b], {TableCell})
    ensures DisjointRows(l, a, b)
  {
    hide Ready, l.RowCells, Reaching.Placed;
    ReadyHas(l, blocks);
    RowCellsAre(l, blocks, a);
    RowCellsAre(l, blocks, b);
    var (x, y) := (Kids(blocks, blocks[a], {TableCell}), Kids(blocks, blocks[b], {TableCell}));
    forall i, j | 0 <= i < |x| && 0 <= j < |y| ensures x[i].id != y[j].id {
      var (c, d) := (blocks[a].children[i].id, blocks[b].children[j].id);
      assert Documents.BlockChild(c) in blocks[a].children && Documents.BlockChild(d) in blocks[b].children;
      ParentIs(l, blocks, a, c);
      ParentIs(l, blocks, b, d);
      IdIs(l, blocks, c);
      IdIs(l, blocks, d);
    }
  }

  lemma {:induction false} TextIsCell(l: Layout, blocks: seq<Block>, u: nat)
    requires Ready(l, blocks) && u < |l.units| && l.InTable(u)
    ensures l.units[u].block < |blocks| && blocks[l.units[u].block].kind.TableCell? && TablesShaped(blocks)
  {
    hide Ready, l.InTable, TablesShaped;
    ReadyHas(l, blocks);
    InTableExactly(l, blocks, u);
  }

  lemma {:induction false} InOrderHere(l: Layout, blocks: seq<Block>, i: nat, j: nat)
    requires Ready(l, blocks) && i <= j < |l.units| && l.InTable(i) && l.InTable(j)
    ensures CellUnit(l, i) && CellUnit(l, j) && InTableOrder(l, i, j)
  {
    hide Ready, TablesShaped, l.Window, l.RowCells, l.InTable, l.GroupOf, CellUnit, DisjointRows;
    TextIsCell(l, blocks, i);
    TextIsCell(l, blocks, j);
    var (a, b) := (l.units[i].block, l.units[j].block);
    var ri, ci := CellPlace(l, blocks, i);
    var rj, cj := CellPlace(l, blocks, j);
    CellsInTurn(l, blocks, i, j);
    var (ra, rb, t) := (RowAbove(blocks, a), RowAbove(blocks, b), TableAbove(blocks, a));
    IdsHere(l, blocks, a, b);
    if ra == rb {
      PlacesInTurn(l, blocks, ra, {TableCell}, cj, ci);
      PlacesInTurn(l, blocks, t, Rows, ri, rj);
      PlacesInTurn(l, blocks, t, Rows, rj, ri);
      CellGroup(l, blocks, i);
      CellGroup(l, blocks, j);
      RowSection(l, blocks, a, b);
    } else {
      RowsInTurn(l, blocks, a, b);
      RowsDisjoint(l, blocks, ra, rb);
      if TableAbove(blocks, b) == t {
        PlacesInTurn(l, blocks, t, Rows, ri, rj);
      }
    }
  }

  lemma {:induction false} IdsHere(l: Layout, blocks: seq<Block>, a: nat, b: nat)
    requires Ready(l, blocks) && TablesShaped(blocks) && a < |blocks| && b < |blocks| && blocks[a].kind.TableCell? && blocks[b].kind.TableCell?
    ensures blocks[a].id == a && blocks[b].id == b
    ensures blocks[RowAbove(blocks, a)].id == RowAbove(blocks, a) && blocks[RowAbove(blocks, b)].id == RowAbove(blocks, b)
  {
    hide Ready, TablesShaped;
    IdIs(l, blocks, a);
    IdIs(l, blocks, b);
    IdIs(l, blocks, RowAbove(blocks, a));
    IdIs(l, blocks, RowAbove(blocks, b));
  }

  /** What stands between two texts of a table is of that table. */
  lemma {:induction false} RunHere(l: Layout, blocks: seq<Block>, i: nat, k: nat, j: nat)
    requires Ready(l, blocks) && i <= k <= j < |l.units|
    ensures TableRun(l, i, k, j)
  {
    hide Ready, TablesShaped, l.Window, l.RowCells, l.InTable, l.Indexed, Reaching.Covers, Run;
    if TableText(l, i) && TableText(l, j) && OwnWindow(l, i).table == OwnWindow(l, j).table && l.Indexed(k) {
      TextIsCell(l, blocks, i);
      TextIsCell(l, blocks, j);
      var (a, b) := (l.units[i].block, l.units[j].block);
      var ri, ci := CellPlace(l, blocks, i);
      var rj, cj := CellPlace(l, blocks, j);
      var t := TableAbove(blocks, a);
      var end := StretchOf(l, blocks, t);
      InStretch(l, blocks, a, end);
      InStretch(l, blocks, b, end);
      Between(l, blocks, t, end, i, k, j);
      UnitBacked(l, blocks, k);
      var x := l.units[k].block;
      if x > t {
        TableHolds(l, blocks, t, end, x);
      }
      TableBacked(l, blocks, k);
      InTableExactly(l, blocks, k);
      var rk, ck := CellPlace(l, blocks, k);
    }
  }

  /** A cell lies in its table's stretch. */
  lemma {:induction false} InStretch(l: Layout, blocks: seq<Block>, cell: nat, end: nat)
    requires Ready(l, blocks) && TablesShaped(blocks) && cell < |blocks| && blocks[cell].kind.TableCell?
    requires Reaching.Covers(blocks, TableAbove(blocks, cell), end)
    ensures TableAbove(blocks, cell) < cell < end
  {
    hide Ready, TablesShaped, Reaching.Covers;
    var (row, table) := (RowAbove(blocks, cell), TableAbove(blocks, cell));
    CellListed(l, blocks, cell);
    ChildInStretch(blocks, table, end, row);
    var next := StretchOf(l, blocks, row);
    ChildInStretch(blocks, row, next, cell);
    CoversInside(blocks, table, end, row, next);
  }

  /** Units of a stretch come in one run. */
  lemma {:induction false} Between(l: Layout, blocks: seq<Block>, t: nat, end: nat, i: nat, k: nat, j: nat)
    requires Ready(l, blocks) && Reaching.Covers(blocks, t, end) && i <= k <= j < |l.units|
    requires t <= l.units[i].block < end && t <= l.units[j].block < end
    ensures t <= l.units[k].block < end
  {
    hide Wired, TablesShaped, Reaching.Placed, Covered, LineHere, InTurn, Backed, Reaching.Covers;
    StretchEnds(blocks, t, end);
    assert OneRun(l.units, 0, t, end);
    var p: nat, q: nat :| RunIs(l.units, 0, t, end, p, q);
  }

  lemma {:induction false} StretchEnds(blocks: seq<Block>, t: nat, end: nat)
    requires Reaching.Covers(blocks, t, end)
    ensures end <= |blocks|
  {
  }

  /** A unit of a block of a table is of one of its cells. */
  lemma {:induction false} TableBacked(l: Layout, blocks: seq<Block>, u: nat)
    requires Ready(l, blocks) && u < |l.units| && l.units[u].block < |blocks| && blocks[l.units[u].block].kind in TableKinds
    ensures blocks[l.units[u].block].kind.TableCell?
  {
    hide Ready, TablesShaped;
    ReadyHas(l, blocks);
    UnitBacked(l, blocks, u);
    ShapeOf(blocks, l.units[u].block);
  }

  lemma {:induction false} HoldsHere(l: Layout, blocks: seq<Block>, u: nat, v: nat)
    requires Ready(l, blocks) && u < |l.units| && v < |l.units|
    ensures CellsHoldTables(l, u, v)
  {
    hide Ready, TablesShaped, l.Window, l.RowCells, l.InTable, l.Indexed, Reaching.Placed;
    if TableText(l, v) && l.Indexed(u) && !NotInRow(l, u, CellsOfRow(l, OwnWindow(l, v).row)) {
      ReadyHas(l, blocks);
      TextIsCell(l, blocks, v);
      var r, c := CellPlace(l, blocks, v);
      var row := RowAbove(blocks, l.units[v].block);
      RowCellsAre(l, blocks, row);
      var cells := Kids(blocks, blocks[row], {TableCell});
      var k :| 0 <= k < |cells| && l.InBlock(u, cells[k].id);
      IdIs(l, blocks, blocks[row].children[k].id);
      InTableExactly(l, blocks, u);
    }
  }

  /** Units that share an atom with a cell's are of a cell. */
  lemma {:induction false} TogetherHere(l: Layout, blocks: seq<Block>, i: nat, j: nat)
    requires Ready(l, blocks) && i < |l.units| && j < |l.units| && SameGroup(l, i, j) && l.InTable(i)
    ensures l.InTable(j)
  {
    hide Ready, TablesShaped, l.RowCells, l.InTable, l.KeyOf, Reaching.Placed, Wired, NearestIn, LineOf;
    if !l.InTable(j) {
      ReadyHas(l, blocks);
      TextIsCell(l, blocks, i);
      CellGroup(l, blocks, i);
      var row := RowAbove(blocks, l.units[i].block);
      WindowBoth(l, j);
      UnitBacked(l, blocks, j);
      var natural := l.GroupOf(j).value.natural;
      assert natural == row;
      match l.Nearest(j, {ListItem, DefinitionDescription}) {
        case Some(item) =>
          LineMember(l, blocks, j, item);
        case None =>
          TableBacked(l, blocks, j);
      }
    }
  }

  lemma {:induction false} LineMember(l: Layout, blocks: seq<Block>, u: nat, item: Block)
    requires Ready(l, blocks) && u < |l.units| && item in l.Ancestors(u)
    ensures item.id < |blocks| && blocks[item.id] == item
  {
    hide Ready, LineOf;
    UnitBacked(l, blocks, u);
    InLine(l, blocks, l.units[u].block, item);
  }

  lemma {:induction false} InLine(l: Layout, blocks: seq<Block>, i: nat, item: Block)
    requires Ready(l, blocks) && i < |blocks| && item in LineOf(blocks, i)
    ensures item.id < |blocks| && blocks[item.id] == item
  {
    hide Ready;
    IdIs(l, blocks, i);
    if item != blocks[i] {
      InLine(l, blocks, blocks[i].parent.value, item);
    }
  }

  /** The layout of a document that hangs together, with tables as the parser makes them, has regular tables. */
  lemma {:induction false} ReadyIsRegular(l: Layout, blocks: seq<Block>)
    requires Ready(l, blocks)
    ensures TablesRegular(l)
  {
    hide Ready, l.InTable, CellUnit, SameGroup, InTableOrder, TableRun, CellsHoldTables, l.Indexed;
    forall u | 0 <= u < |l.units| && l.Indexed(u) && l.InTable(u) ensures CellUnit(l, u) {
      InOrderHere(l, blocks, u, u);
    }
    forall i, j | 0 <= i < |l.units| && 0 <= j < |l.units| && SameGroup(l, i, j) ensures l.InTable(i) == l.InTable(j) {
      GroupBoth(l, i, j);
      if l.InTable(i) {
        TogetherHere(l, blocks, i, j);
      }
      if l.InTable(j) {
        TogetherHere(l, blocks, j, i);
      }
    }
    forall i, j | 0 <= i <= j < |l.units| && TableText(l, i) && TableText(l, j) ensures InTableOrder(l, i, j) {
      InOrderHere(l, blocks, i, j);
    }
    forall i, k, j | 0 <= i <= k <= j < |l.units| ensures TableRun(l, i, k, j) {
      RunHere(l, blocks, i, k, j);
    }
    forall u, v | 0 <= u < |l.units| && 0 <= v < |l.units| ensures CellsHoldTables(l, u, v) {
      HoldsHere(l, blocks, u, v);
    }
  }

  lemma {:induction false} GroupBoth(l: Layout, i: nat, j: nat)
    requires SameGroup(l, i, j)
    ensures SameGroup(l, j, i)
  {
    hide l.GroupOf;
  }

  // ---- From the node tree

  /** Every block of a part of the document has a stretch. */
  lemma {:induction false} AllCovered(blocks: seq<Block>, children: seq<Documents.Child>, from: nat, to: nat, x: nat)
    requires Reaching.Tiles(blocks, children, |children|, from, to) && from <= x < to
    ensures Covered(blocks, x)
    decreases if to > from then to - from else 0
  {
    hide Reaching.Covers, Reaching.Tiles;
    var c, end := TileHolds(blocks, children, |children|, from, to, x);
    if c < x {
      RowTiles(blocks, c, end);
      AllCovered(blocks, blocks[c].children, c + 1, end, x);
    }
  }

  /** The layout of an assembled and mapped document: it exists, and its tables are regular. */
  lemma {:induction false} DocumentIsReady(nodes: seq<Documents.Node>, title: Assembly.Title, source: Mapping.Source, kept: seq<Option<TextRange>>, rules: Rules)
    requires Assembly.Assembled(nodes, title).Ok? && source.blocks == Assembly.Assembled(nodes, title).value.blocks
    requires Reaching.Leafy(source.blocks) && TablesShaped(source.blocks) && Mappers.MappedUnits(source).Ok?
    ensures
      var layout := LayoutOf(source.markdown, source.blocks, Mappers.MappedUnits(source).value, kept, rules);
      layout.Ok? && Ready(layout.value, source.blocks)
  {
    hide Wired, TablesShaped, Reaching.Leafy, Reaching.Placed, Reaching.Tiles, Reaching.Parented, LineOf, Mappers.MappedUnits, Documents.ById, Grouped,
      InTurn, Backed, Assembly.Assembled, Paths;
    var (blocks, units) := (source.blocks, Mappers.MappedUnits(source).value);
    var roots := AssembledWired(nodes, title);
    WiredIds(blocks);
    Reaching.PlacedById(blocks, |blocks|);
    assert blocks[..|blocks|] == blocks;
    MappedRun(source, roots);
    forall i: nat | i < |blocks| ensures Covered(blocks, i) {
      AllCovered(blocks, roots, 0, |blocks|, i);
    }
    forall i | 0 <= i < |units| ensures units[i].block < |blocks| {
      BackedHere(blocks, units[i]);
    }
    PathsAre(blocks, Documents.ById(blocks, |blocks|), units, |units|);
  }

  lemma {:induction false} BackedHere(blocks: seq<Block>, unit: SourceUnit)
    requires Backed(blocks, unit)
    ensures unit.block < |blocks|
  {
  }

  lemma {:induction false} WiredIds(blocks: seq<Block>)
    requires Wired(blocks)
    ensures forall i :: 0 <= i < |blocks| ==> blocks[i].id == i
  {
    hide Hung, Inside;
  }
}
