/**
 * Finding a unit's table, row and column: what a layout's lookups give for a cell that its row and
 * table list.
 */
module Lookups {
  import opened Common
  import opened Units
  import opened Layouts
  import Documents

  lemma {:induction false} TwoChildren(l: Layout, block: Block, a: Id, b: Id)
    requires block.children == [Documents.BlockChild(a), Documents.BlockChild(b)] && a in l.blocks && b in l.blocks
    ensures l.ChildBlocks(block, 2) == [l.blocks[a], l.blocks[b]]
  {
    assert l.ChildBlocks(block, 0) == [];
    assert l.ChildBlocks(block, 1) == [l.blocks[a]];
  }

  lemma {:induction false} ThreeChildren(l: Layout, block: Block, a: Id, b: Id, c: Id)
    requires block.children == [Documents.BlockChild(a), Documents.BlockChild(b), Documents.BlockChild(c)]
    requires a in l.blocks && b in l.blocks && c in l.blocks
    ensures l.ChildBlocks(block, 3) == [l.blocks[a], l.blocks[b], l.blocks[c]]
  {
    assert l.ChildBlocks(block, 0) == [];
    assert l.ChildBlocks(block, 1) == [l.blocks[a]];
    assert l.ChildBlocks(block, 2) == [l.blocks[a], l.blocks[b]];
  }

  lemma {:induction false} AllOfKind(blocks: seq<Block>, kinds: set<BlockType>, n: nat)
    requires n <= |blocks| && forall i :: 0 <= i < |blocks| ==> blocks[i].kind in kinds
    ensures KindsOf(blocks, kinds, n) == blocks[..n]
  {
    if n > 0 {
      AllOfKind(blocks, kinds, n - 1);
    }
  }

  lemma {:induction false} FoundFrom(ids: seq<Id>, i: nat, k: nat)
    requires i <= k < |ids| && forall a, b :: 0 <= a < b < |ids| ==> ids[a] != ids[b]
    ensures PositionFrom(ids, ids[k], i) == Some(k)
    decreases k - i
  {
    if i < k {
      FoundFrom(ids, i + 1, k);
    }
  }

  /** The blocks of a unit in a cell of a table. */
  ghost predicate InCellOf(l: Layout, unit: nat, table: Block, row: Block, cell: Block) {
    && table.kind.Table? && row.kind in Rows && cell.kind.TableCell?
    && var path := l.Ancestors(unit);
       |path| >= 3 && path[|path| - 3..] == [table, row, cell]
  }

  lemma {:induction false} CellNearest(l: Layout, unit: nat, table: Block, row: Block, cell: Block)
    requires InCellOf(l, unit, table, row, cell)
    ensures l.Nearest(unit, {Table}) == Some(table) && l.Nearest(unit, Rows) == Some(row) && l.Nearest(unit, {TableCell}) == Some(cell)
    ensures l.Owner(unit) == Ok(cell) && l.InTable(unit)
  {
    var path := l.Ancestors(unit);
    var n := |path|;
    var tail := path[n - 3..];
    assert path[n - 1] == tail[2] && path[n - 2] == tail[1] && path[n - 3] == tail[0];
    forall kinds: set<BlockType> ensures
      NearestIn(path, n, kinds) == if cell.kind in kinds then Some(cell) else if row.kind in kinds then Some(row)
                                   else if table.kind in kinds then Some(table) else NearestIn(path, n - 3, kinds)
    {
      assert NearestIn(path, n - 1, kinds) == if row.kind in kinds then Some(row) else NearestIn(path, n - 2, kinds);
    }
  }

  ghost predicate AllApart(ids: seq<Id>) {
    forall a, b :: 0 <= a < b < |ids| ==> ids[a] != ids[b]
  }

  /** A unit's window: its table, row and column. */
  lemma {:induction false} WindowIs(l: Layout, unit: nat, table: Block, rows: seq<Block>, r: nat, cells: seq<Block>, c: nat)
    requires r < |rows| && c < |cells| && InCellOf(l, unit, table, rows[r], cells[c])
    requires l.ChildBlocks(table, |table.children|) == rows && l.RowCells(rows[r].id) == Ok(cells)
    requires (forall i :: 0 <= i < |rows| ==> rows[i].kind in Rows) && AllApart(Ids(rows)) && AllApart(Ids(cells))
    ensures l.Window(unit, true) == Ok(Some(TableWindow(table.id, rows[r].id, r, seq(|cells|, i => i))))
    ensures l.Window(unit, false) == Ok(Some(TableWindow(table.id, rows[r].id, r, [c])))
  {
    hide l.RowCells, l.Nearest;
    CellNearest(l, unit, table, rows[r], cells[c]);
    AllOfKind(rows, Rows, |rows|);
    assert rows[..|rows|] == rows;
    FoundFrom(Ids(rows), 0, r);
    FoundFrom(Ids(cells), 0, c);
  }

  lemma {:induction false} OneChild(l: Layout, block: Block, a: Id)
    requires block.children == [Documents.BlockChild(a)] && a in l.blocks
    ensures l.ChildBlocks(block, 1) == [l.blocks[a]]
  {
    assert l.ChildBlocks(block, 0) == [];
  }

  lemma {:induction false} RowOfOne(l: Layout, row: Id, cell: Id)
    requires row in l.blocks && l.blocks[row].children == [Documents.BlockChild(cell)]
    requires cell in l.blocks && l.blocks[cell].kind.TableCell?
    ensures l.RowCells(row) == Ok([l.blocks[cell]])
  {
    OneChild(l, l.blocks[row], cell);
    var cells := [l.blocks[cell]];
    AllOfKind(cells, {TableCell}, 1);
    assert cells[..1] == cells;
  }

  lemma {:induction false} RowOfTwo(l: Layout, row: Id, a: Id, b: Id)
    requires row in l.blocks && l.blocks[row].children == [Documents.BlockChild(a), Documents.BlockChild(b)]
    requires a in l.blocks && l.blocks[a].kind.TableCell? && b in l.blocks && l.blocks[b].kind.TableCell?
    ensures l.RowCells(row) == Ok([l.blocks[a], l.blocks[b]])
  {
    TwoChildren(l, l.blocks[row], a, b);
    var cells := [l.blocks[a], l.blocks[b]];
    AllOfKind(cells, {TableCell}, 2);
    assert cells[..2] == cells;
  }
}
