/**
 * A document's structure indexed for chunking, and the bodies packed from it: units with their
 * ancestor blocks and kept parts, sections and containers, table rows as windows, and what two
 * bodies must share to share a chunk.
 */
module Layouts {
  import opened Common
  import opened Ranges
  import opened Units
  import Documents
  import Sorting

  type Block = Documents.Block

  /** Which blocks share a chunk. */
  datatype Packing = ByContainer | BySection

  datatype Rules = Rules(packing: Packing, minTokens: Option<nat>)

  /** The rows and columns of one table that a body holds; the header is row 0. */
  datatype TableWindow = TableWindow(table: Id, row: Id, rowIndex: nat, columns: seq<nat>)

  datatype Fragment = Fragment(contribution: Contribution, partOrdinal: nat)

  /** The source a chunk carries: its fragments and the table windows they fall in. */
  datatype Body = Body(fragments: seq<Fragment>, windows: seq<TableWindow>)

  function Contributions(fragments: seq<Fragment>): (r: seq<Contribution>)
    ensures |r| == |fragments|
    ensures forall i :: 0 <= i < |r| ==> r[i] == fragments[i].contribution
  {
    seq(|fragments|, i requires 0 <= i < |fragments| => fragments[i].contribution)
  }

  /** The innermost block of one of some kinds among the first n of a path. */
  function NearestIn(path: seq<Block>, n: nat, kinds: set<BlockType>): (r: Option<Block>)
    requires n <= |path|
    ensures r.Some? ==> r.value in path && r.value.kind in kinds
  {
    if n == 0 then None
    else if path[n - 1].kind in kinds then Some(path[n - 1])
    else NearestIn(path, n - 1, kinds)
  }

  function KindsOf(blocks: seq<Block>, kinds: set<BlockType>, n: nat): seq<Block>
    requires n <= |blocks|
  {
    if n == 0 then []
    else KindsOf(blocks, kinds, n - 1) + if blocks[n - 1].kind in kinds then [blocks[n - 1]] else []
  }

  function Ids(blocks: seq<Block>): seq<Id> {
    seq(|blocks|, i requires 0 <= i < |blocks| => blocks[i].id)
  }

  /** The first position of an identifier. */
  function PositionFrom(ids: seq<Id>, id: Id, i: nat): (r: Option<nat>)
    requires i <= |ids|
    ensures r.Some? ==> i <= r.value < |ids| && ids[r.value] == id
    ensures r.None? ==> forall k :: i <= k < |ids| ==> ids[k] != id
    decreases |ids| - i
  {
    if i == |ids| then None else if ids[i] == id then Some(i) else PositionFrom(ids, id, i + 1)
  }

  const Containers: set<BlockType> :=
    {List, Code, Table, BlockQuote, FootnoteDefinition, DefinitionList, Html, Raw}

  const Rows: set<BlockType> := {TableHead, TableRow}

  /** What two units must share to share a chunk: their section and their enclosing containers. */
  datatype Key = Key(section: Option<Id>, containers: seq<Id>)

  /** What two units must share to share an atom: a table row, list item or block, and a key. */
  datatype Group = Group(natural: Id, key: Key)

  datatype Layout = Layout(
    markdown: string, units: seq<SourceUnit>, blocks: map<Id, Block>,
    ancestry: seq<seq<Block>>, kept: seq<Option<TextRange>>, rules: Rules)
  {
    /** A unit's blocks from the outermost to the one that owns it; none for an unknown unit. */
    function Ancestors(unit: nat): seq<Block> {
      if unit < |ancestry| then ancestry[unit] else []
    }

    function Owner(unit: nat): Result<Block> {
      var path := Ancestors(unit);
      if path == [] then Err(Structure) else Ok(path[|path| - 1])
    }

    /** The innermost ancestor of a unit with one of some kinds. */
    function Nearest(unit: nat, kinds: set<BlockType>): Option<Block> {
      NearestIn(Ancestors(unit), |Ancestors(unit)|, kinds)
    }

    /** The heading whose section holds a unit: the unit's own heading, or its owner's section. */
    function SectionOf(unit: nat): Option<Id> {
      match Owner(unit)
      case Ok(owner) => if owner.kind.Heading? then Some(owner.id) else owner.section
      case Err(_) => None
    }

    function KeyOf(unit: nat): Key {
      Key(SectionOf(unit), Ids(KindsOf(Ancestors(unit), Containers, |Ancestors(unit)|)))
    }

    /** The part of a unit's text the profile indexes. */
    function Kept(unit: nat): Option<TextRange> {
      if unit < |kept| then kept[unit] else None
    }

    function UnitAt(unit: nat): Result<SourceUnit> {
      if unit < |units| then Ok(units[unit]) else Err(Structure)
    }

    predicate InBlock(unit: nat, id: Id) {
      unit < |units| && units[unit].block == id
    }

    predicate InTable(unit: nat) {
      Nearest(unit, {Table}).Some?
    }

    function ChildBlocks(block: Block, n: nat): seq<Block>
      requires n <= |block.children|
    {
      if n == 0 then []
      else
        var before := ChildBlocks(block, n - 1);
        match block.children[n - 1]
        case BlockChild(id) => if id in blocks then before + [blocks[id]] else before
        case InlineChild(_) => before
    }

    /** The cells of a table row, in column order. */
    function RowCells(row: Id): Result<seq<Block>> {
      if row !in blocks then Err(Structure)
      else
        var children := ChildBlocks(blocks[row], |blocks[row].children|);
        Ok(KindsOf(children, {TableCell}, |children|))
    }

    /** The table window of a unit inside a table, with its own column or the whole row. */
    function Window(unit: nat, wholeRow: bool): Result<Option<TableWindow>> {
      match Nearest(unit, {Table})
      case None => Ok(None)
      case Some(table) =>
        var row := Nearest(unit, Rows);
        var cell := Nearest(unit, {TableCell});
        if row.None? || cell.None? then Err(Structure)
        else
          var children := ChildBlocks(table, |table.children|);
          var rows := Ids(KindsOf(children, Rows, |children|));
          var cells :- RowCells(row.value.id);
          var column := PositionFrom(Ids(cells), cell.value.id, 0);
          var rowIndex := PositionFrom(rows, row.value.id, 0);
          if column.None? || rowIndex.None? then Err(Structure)
          else
            Ok(Some(TableWindow(table.id, row.value.id, rowIndex.value,
                                if wholeRow then seq(|cells|, i => i) else [column.value])))
    }

    /** What a unit's atom has in common. */
    function GroupOf(unit: nat): Result<Group> {
      var window :- Window(unit, true);
      var own :- UnitAt(unit);
      var natural :=
        if window.Some? then window.value.row
        else
          match Nearest(unit, {ListItem, DefinitionDescription})
          case Some(item) => item.id
          case None => own.block;
      Ok(Group(natural, KeyOf(unit)))
    }

    /** Whether a unit is primary text the profile indexes. */
    predicate Indexed(unit: nat) {
      unit < |units| && units[unit].primary && Kept(unit).Some?
    }
  }

  /** The cells of a row, none where there is no such row. */
  function CellsOfRow(l: Layout, row: Id): seq<Block> {
    match l.RowCells(row) case Ok(cells) => cells case Err(_) => []
  }

  // ---- Bodies

  /** Two column lists of one row as one, in order and without repetition. */
  function MergeColumns(left: seq<nat>, right: seq<nat>): seq<nat> {
    var sorted := Sorting.SortBy(left + right, (c: nat) => (c as int, 0));
    Dedup(sorted, |sorted|)
  }

  /** A window appended: merged into the last one when both are of one row. */
  function AddWindow(windows: seq<TableWindow>, window: TableWindow): seq<TableWindow> {
    if windows != [] && windows[|windows| - 1].row == window.row then
      var last := windows[|windows| - 1];
      windows[..|windows| - 1] + [last.(columns := MergeColumns(last.columns, window.columns))]
    else windows + [window]
  }

  function AddWindows(windows: seq<TableWindow>, added: seq<TableWindow>, n: nat): seq<TableWindow>
    requires n <= |added|
  {
    if n == 0 then windows else AddWindow(AddWindows(windows, added, n - 1), added[n - 1])
  }

  /** `Body::combined`: the body with another appended. */
  function Combined(left: Body, right: Body): Body {
    Body(left.fragments + right.fragments, AddWindows(left.windows, right.windows, |right.windows|))
  }

  /** Whether two bodies may share a chunk. */
  predicate Compatible(l: Layout, left: Body, right: Body) {
    && left.fragments != [] && right.fragments != []
    && var (a, b) := (left.fragments[0].contribution.unit, right.fragments[0].contribution.unit);
       var sections := l.rules.packing.BySection?;
       && (if sections then l.SectionOf(a) == l.SectionOf(b) else l.KeyOf(a) == l.KeyOf(b))
       && if left.windows != [] && right.windows != [] then
            var (last, first) := (left.windows[|left.windows| - 1], right.windows[0]);
            last.table == first.table && (last.row == first.row || last.columns == first.columns)
          else (left.windows == [] && right.windows == []) || sections
  }
}
