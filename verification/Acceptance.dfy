/** The validator accepts what the packer builds: when, and in which layouts always. */
module Acceptance {
  import opened Common
  import opened Ranges
  import opened Brackets
  import opened Units
  import opened Layouts
  import opened Preparation
  import opened Splitting
  import opened Conservation
  import opened Coverage
  import opened Refining
  import opened Atoms
  import opened Packing
  import opened Tables
  import opened TableTurns
  import opened TableStarts
  import opened Absorbing
  import opened Drafts
  import opened Refusals
  import opened Replay
  import opened Rebuilding
  import opened Ordering
  import Mapping
  import Mappers

  // ---- What every draft holds

  lemma {:induction false} OffsetsBelow(l: Layout, n: nat)
    requires n <= |l.units|
    ensures Distinct(AllCells(KeptContributions(l, n)))
  {
    hide CellsOf;
    if n > 0 {
      OffsetsBelow(l, n - 1);
      KeptCells(l, n - 1);
      var before := KeptContributions(l, n - 1);
      if l.Indexed(n - 1) {
        var last := Contribution(n - 1, l.Kept(n - 1).value);
        CellsConcat(before, [last]);
        CellsOne(last);
        CellsApart(AllCells(before), last);
      } else {
        assert KeptContributions(l, n) == before;
      }
    }
  }

  lemma {:induction false} CellsApart(before: seq<Cell>, c: Contribution)
    requires Distinct(before) && forall i :: 0 <= i < |before| ==> before[i].0 < c.unit
    ensures Distinct(before + CellsOf(c))
  {
  }

  lemma {:induction false} DistinctPart(a: seq<Cell>, b: seq<Cell>, c: seq<Cell>)
    requires Distinct(a + b + c)
    ensures Distinct(b)
  {
    forall i, j | 0 <= i < j < |b| ensures b[i] != b[j] {
      assert b[i] == (a + b + c)[|a| + i] && b[j] == (a + b + c)[|a| + j];
    }
  }

  /** The characters of one chunk among those of all. */
  lemma {:induction false} ChunkCells(chunks: seq<ChunkContent>, i: nat, n: nat) returns (before: seq<Contribution>, after: seq<Contribution>)
    requires i < n <= |chunks|
    ensures Contributions(AllFragments(chunks, n)) == before + Contributions(chunks[i].fragments) + after
  {
    if i == n - 1 {
      before, after := Contributions(AllFragments(chunks, n - 1)), [];
      ContributionsConcat(AllFragments(chunks, n - 1), chunks[i].fragments);
      assert before + Contributions(chunks[i].fragments) + [] == before + Contributions(chunks[i].fragments);
    } else {
      var rest: seq<Contribution>;
      before, rest := ChunkCells(chunks, i, n - 1);
      ContributionsConcat(AllFragments(chunks, n - 1), chunks[n - 1].fragments);
      after := rest + Contributions(chunks[n - 1].fragments);
      Associative(before + Contributions(chunks[i].fragments), rest, Contributions(chunks[n - 1].fragments));
    }
  }

  /** Every draft's fragments are primary text, and name no character twice. */
  lemma {:induction false} DraftReady(l: Layout, chunks: seq<ChunkContent>, i: nat)
    requires KeptParts(l) && Exact(l, AllFragments(chunks, |chunks|)) && i < |chunks|
    ensures
      var cs := Contributions(chunks[i].fragments);
      AllPrimary(l, cs) && InText(l, cs) && Distinct(AllCells(cs))
  {
    hide AllFragments, KeptContributions, AllCells, Numbered, l.Kept;
    var all, cs := Contributions(AllFragments(chunks, |chunks|)), Contributions(chunks[i].fragments);
    var before, after := ChunkCells(chunks, i, |chunks|);
    forall k | 0 <= k < |cs|
      ensures cs[k].unit < |l.units| && l.units[cs[k].unit].primary && cs[k].range.start < cs[k].range.end
      ensures InBounds(cs[k].range, l.units[cs[k].unit].text)
    {
      assert all[|before| + k] == cs[k];
      FragmentKept(l, all, |before| + k);
    }
    OffsetsBelow(l, |l.units|);
    CellsConcat(before, cs);
    CellsConcat(before + cs, after);
    DistinctPart(AllCells(before), AllCells(cs), AllCells(after));
  }

  // ---- A body of table rows is laid out in order

  lemma {:induction false} CellTakes(l: Layout, cs: seq<Contribution>, c: Contribution, cell: Id, n: nat)
    requires n <= |cs|
    ensures InCell(l, cs + [c], cell, n) == InCell(l, cs, cell, n)
  {
    if n > 0 {
      CellTakes(l, cs, c, cell, n - 1);
    }
  }

  lemma {:induction false} CellTakesLast(l: Layout, cs: seq<Contribution>, c: Contribution, cell: Id)
    ensures InCell(l, cs + [c], cell, |cs| + 1) == InCell(l, cs, cell, |cs|) + if l.InBlock(c.unit, cell) then [c] else []
  {
    CellTakes(l, cs, c, cell, |cs|);
  }

  lemma {:induction false} CellEmpty(l: Layout, cs: seq<Contribution>, cell: Id, n: nat)
    requires n <= |cs| && forall i :: 0 <= i < |cs| ==> !l.InBlock(cs[i].unit, cell)
    ensures InCell(l, cs, cell, n) == []
  {
    if n > 0 {
      CellEmpty(l, cs, cell, n - 1);
    }
  }

  /** Whether no contribution lies in a column of a row later than some column. */
  ghost predicate NoneBeyond(l: Layout, cs: seq<Contribution>, cells: seq<Block>, column: nat) {
    forall i, c :: 0 <= i < |cs| && column < c < |cells| ==> !l.InBlock(cs[i].unit, cells[c].id)
  }

  /** One more contribution of a row joins its column's, and none stands in a later column. */
  lemma {:induction false} ColumnsTake(l: Layout, cs: seq<Contribution>, c: Contribution, cells: seq<Block>, columns: seq<nat>, column: nat, n: nat)
    requires n <= |columns| && Ascending(columns) && DistinctIds(cells) && column < |cells|
    requires l.InBlock(c.unit, cells[column].id) && NoneBeyond(l, cs, cells, column)
    ensures InColumns(l, cs + [c], cells, columns, n) == InColumns(l, cs, cells, columns, n) + if column in columns[..n] then [c] else []
    ensures column in columns[..n] && n > 0 && columns[n - 1] > column && columns[n - 1] < |cells| ==> InCell(l, cs, cells[columns[n - 1]].id, |cs|) == []
  {
    hide InCell, l.InBlock;
    if n > 0 {
      ColumnsTake(l, cs, c, cells, columns, column, n - 1);
      assert columns[..n] == columns[..n - 1] + [columns[n - 1]];
      var last := columns[n - 1];
      if last < |cells| {
        CellTakesLast(l, cs, c, cells[last].id);
        OtherCell(l, c.unit, cells, column, last);
        if column < last {
          CellEmpty(l, cs, cells[last].id, |cs|);
        }
      }
      if column in columns[..n - 1] {
        var k :| 0 <= k < n - 1 && columns[..n - 1][k] == column;
        assert columns[k] < columns[n - 1];
      }
    }
  }

  lemma {:induction false} OtherCell(l: Layout, unit: nat, cells: seq<Block>, a: nat, b: nat)
    requires DistinctIds(cells) && a < |cells| && b < |cells| && l.InBlock(unit, cells[a].id)
    ensures l.InBlock(unit, cells[b].id) <==> a == b
  {
    if a < b {
      assert cells[a].id != cells[b].id;
    } else if b < a {
      assert cells[b].id != cells[a].id;
    }
  }

  lemma {:induction false} ColumnsPass(l: Layout, cs: seq<Contribution>, c: Contribution, cells: seq<Block>, columns: seq<nat>, n: nat)
    requires n <= |columns| && NotInRow(l, c.unit, cells)
    ensures InColumns(l, cs + [c], cells, columns, n) == InColumns(l, cs, cells, columns, n)
  {
    hide InCell, l.InBlock;
    if n > 0 {
      ColumnsPass(l, cs, c, cells, columns, n - 1);
      if columns[n - 1] < |cells| {
        CellTakesLast(l, cs, c, cells[columns[n - 1]].id);
      }
    }
  }

  lemma {:induction false} ColumnsEmpty(l: Layout, cs: seq<Contribution>, cells: seq<Block>, columns: seq<nat>, n: nat)
    requires n <= |columns| && forall i :: 0 <= i < |cs| ==> NotInRow(l, cs[i].unit, cells)
    ensures InColumns(l, cs, cells, columns, n) == []
  {
    hide InCell, l.InBlock;
    if n > 0 {
      ColumnsEmpty(l, cs, cells, columns, n - 1);
      if columns[n - 1] < |cells| {
        forall i | 0 <= i < |cs| ensures !l.InBlock(cs[i].unit, cells[columns[n - 1]].id) {
          assert NotInRow(l, cs[i].unit, cells);
        }
        CellEmpty(l, cs, cells[columns[n - 1]].id, |cs|);
      }
    }
  }

  lemma {:induction false} FallsBlock(l: Layout, window: TableWindow, unit: nat)
    requires Falls(l, window, unit)
    ensures l.RowCells(window.row).Ok? && ColumnOf(l, unit) < |l.RowCells(window.row).value| && DistinctIds(l.RowCells(window.row).value)
    ensures l.InBlock(unit, l.RowCells(window.row).value[ColumnOf(l, unit)].id)
  {
    hide l.Window, l.RowCells;
  }

  /** A text of one window lies in no cell of another row of the table. */
  lemma {:induction false} NotInOther(l: Layout, windows: seq<TableWindow>, k: nat, m: nat, a: nat, b: nat)
    requires TablesRegular(l) && k < |windows| && m < |windows| && k != m && RowsInOrder(l, windows)
    requires TableText(l, a) && TableText(l, b) && Falls(l, windows[k], a) && Falls(l, windows[m], b)
    ensures NotInRow(l, a, CellsOfRow(l, windows[m].row))
  {
    hide l.Window, l.Indexed, l.InTable, SameGroup, ColumnsOk, l.RowCells;
    FallsBlock(l, windows[k], a);
    FallsBlock(l, windows[m], b);
    TextInLayout(l, a);
    TextInLayout(l, b);
    assert FollowsWindow(windows[if k < m then k else m], windows[if k < m then m else k]);
    assert InTableOrder(l, if a <= b then a else b, if a <= b then b else a);
    var cells, own := CellsOfRow(l, windows[m].row), l.RowCells(windows[k].row).value;
    forall c | 0 <= c < |cells| ensures !l.InBlock(a, cells[c].id) {
      assert own[ColumnOf(l, a)].id != cells[c].id;
    }
  }

  ghost predicate HasText(l: Layout, window: TableWindow) {
    exists u :: TableText(l, u) && Falls(l, window, u)
  }

  /** A unit in no cell of the rows that windows show. */
  ghost predicate Outside(l: Layout, windows: seq<TableWindow>, unit: nat) {
    forall m :: 0 <= m < |windows| ==> NotInRow(l, unit, CellsOfRow(l, windows[m].row))
  }

  /** Windows of rows in order, each with some text. */
  ghost predicate RowsShown(l: Layout, windows: seq<TableWindow>) {
    TablesRegular(l) && RowsInOrder(l, windows) && forall m :: 0 <= m < |windows| ==> HasText(l, windows[m])
  }

  /** Contributions that each fall in some window or outside all rows, none later than a unit. */
  ghost predicate Sorted(l: Layout, cs: seq<Contribution>, windows: seq<TableWindow>, unit: nat) {
    forall i :: 0 <= i < |cs| ==>
      cs[i].unit <= unit && (Outside(l, windows, cs[i].unit) || (TableText(l, cs[i].unit) && FallsIn(l, windows, cs[i].unit)))
  }

  /** Earlier texts of the same row lie in no later column. */
  lemma {:induction false} NoneInLater(l: Layout, window: TableWindow, cs: seq<Contribution>, unit: nat)
    requires TablesRegular(l) && TableText(l, unit) && Falls(l, window, unit)
    requires forall i :: 0 <= i < |cs| ==>
               || NotInRow(l, cs[i].unit, CellsOfRow(l, window.row))
               || (TableText(l, cs[i].unit) && cs[i].unit <= unit && Falls(l, window, cs[i].unit))
    ensures NoneBeyond(l, cs, CellsOfRow(l, window.row), ColumnOf(l, unit))
  {
    hide l.Window, l.RowCells, l.Indexed, l.InTable, SameGroup, DisjointRows, l.InBlock;
    FallsBlock(l, window, unit);
    var cells := CellsOfRow(l, window.row);
    forall i, column | 0 <= i < |cs| && ColumnOf(l, unit) < column < |cells| ensures !l.InBlock(cs[i].unit, cells[column].id) {
      if !NotInRow(l, cs[i].unit, cells) {
        FallsBlock(l, window, cs[i].unit);
        TextInLayout(l, unit);
        assert InTableOrder(l, cs[i].unit, unit);
        OtherCell(l, cs[i].unit, cells, ColumnOf(l, cs[i].unit), column);
      }
    }
  }

  /** No text of a later row comes before one of an earlier row. */
  lemma {:induction false} AtOrBefore(l: Layout, windows: seq<TableWindow>, k: nat, x: nat, a: nat, b: nat)
    requires TablesRegular(l) && RowsInOrder(l, windows) && k < |windows| && x < |windows|
    requires TableText(l, a) && TableText(l, b) && a <= b && Falls(l, windows[x], a) && Falls(l, windows[k], b)
    ensures x <= k
  {
    hide l.Window, l.RowCells, l.Indexed, l.InTable, ColumnsOk, SameGroup, DisjointRows;
    TextInLayout(l, b);
    assert InTableOrder(l, a, b);
  }

  lemma {:induction false} ElsewhereFree(l: Layout, windows: seq<TableWindow>, x: nat, m: nat, unit: nat)
    requires RowsShown(l, windows) && x < |windows| && m < |windows| && x != m
    requires TableText(l, unit) && Falls(l, windows[x], unit)
    ensures NotInRow(l, unit, CellsOfRow(l, windows[m].row))
  {
    hide l.Window, l.RowCells, l.Indexed, l.InTable, RowsInOrder, TablesRegular, NotInRow, Falls, TableText;
    assert HasText(l, windows[m]);
    var u :| TableText(l, u) && Falls(l, windows[m], u);
    NotInOther(l, windows, x, m, unit, u);
  }

  lemma {:induction false} EarlierElsewhere(l: Layout, cs: seq<Contribution>, unit: nat, windows: seq<TableWindow>, k: nat, m: nat, i: nat)
    requires RowsShown(l, windows) && Sorted(l, cs, windows, unit) && k <= m < |windows| && i < |cs|
    requires TableText(l, unit) && Falls(l, windows[k], unit)
    ensures
      || NotInRow(l, cs[i].unit, CellsOfRow(l, windows[m].row))
      || (m == k && TableText(l, cs[i].unit) && cs[i].unit <= unit && Falls(l, windows[m], cs[i].unit))
  {
    hide l.Window, l.RowCells, l.Indexed, l.InTable, RowsInOrder, TablesRegular, NotInRow, Falls, TableText;
    if !Outside(l, windows, cs[i].unit) {
      var x :| 0 <= x < |windows| && Falls(l, windows[x], cs[i].unit);
      AtOrBefore(l, windows, k, x, cs[i].unit, unit);
      if x != m {
        ElsewhereFree(l, windows, x, m, cs[i].unit);
      }
    }
  }

  lemma {:induction false} RowTakes(l: Layout, cs: seq<Contribution>, c: Contribution, windows: seq<TableWindow>, k: nat)
    requires RowsShown(l, windows) && Sorted(l, cs, windows, c.unit) && k < |windows| && TableText(l, c.unit) && Falls(l, windows[k], c.unit)
    ensures
      var (cells, columns) := (CellsOfRow(l, windows[k].row), windows[k].columns);
      InColumns(l, cs + [c], cells, columns, |columns|) == InColumns(l, cs, cells, columns, |columns|) + [c]
  {
    hide l.Window, l.RowCells, l.Indexed, l.InTable, TablesRegular, NotInRow, TableText, InColumns, CellUnit, NoneBeyond, Sorted, HasText, ColumnsOk;
    var window := windows[k];
    FallsBlock(l, window, c.unit);
    forall i | 0 <= i < |cs|
      ensures
        || NotInRow(l, cs[i].unit, CellsOfRow(l, window.row))
        || (TableText(l, cs[i].unit) && cs[i].unit <= c.unit && Falls(l, window, cs[i].unit))
    {
      EarlierElsewhere(l, cs, c.unit, windows, k, k, i);
    }
    NoneInLater(l, window, cs, c.unit);
    ColumnsAscend(l, window);
    assert window.columns[..|window.columns|] == window.columns;
    ColumnsTake(l, cs, c, CellsOfRow(l, window.row), window.columns, ColumnOf(l, c.unit), |window.columns|);
  }

  /** One more contribution, later than all others in its table, is laid out last. */
  lemma {:induction false} RowsTake(l: Layout, cs: seq<Contribution>, c: Contribution, windows: seq<TableWindow>, k: nat, n: nat)
    requires RowsShown(l, windows) && Sorted(l, cs, windows, c.unit) && k < |windows| && TableText(l, c.unit) && Falls(l, windows[k], c.unit)
    requires n <= |windows|
    ensures InRows(l, cs + [c], windows, n) == InRows(l, cs, windows, n) + if k < n then [c] else []
  {
    hide RowsShown, Sorted, NotInRow, TableText, InColumns, Falls, CellsOfRow;
    if n > 0 {
      RowsTake(l, cs, c, windows, k, n - 1);
      var m := n - 1;
      var cells, columns := CellsOfRow(l, windows[m].row), windows[m].columns;
      if m == k {
        RowTakes(l, cs, c, windows, k);
      } else {
        ElsewhereFree(l, windows, k, m, c.unit);
        ColumnsPass(l, cs, c, cells, columns, |columns|);
        if k < m {
          forall i | 0 <= i < |cs| ensures NotInRow(l, cs[i].unit, cells) {
            EarlierElsewhere(l, cs, c.unit, windows, k, m, i);
          }
          ColumnsEmpty(l, cs, cells, columns, |columns|);
        }
      }
    }
  }

  /** Text outside the rows is not laid out with them. */
  lemma {:induction false} RowsPass(l: Layout, cs: seq<Contribution>, c: Contribution, windows: seq<TableWindow>, n: nat)
    requires Outside(l, windows, c.unit) && n <= |windows|
    ensures InRows(l, cs + [c], windows, n) == InRows(l, cs, windows, n)
  {
    hide NotInRow, InColumns, CellsOfRow;
    if n > 0 {
      RowsPass(l, cs, c, windows, n - 1);
      ColumnsPass(l, cs, c, CellsOfRow(l, windows[n - 1].row), windows[n - 1].columns, |windows[n - 1].columns|);
    }
  }

  // ---- Text, one run of a table, and text

  /** Of the first n contributions, those in a table. */
  ghost function TableOnly(l: Layout, cs: seq<Contribution>, n: nat): seq<Contribution>
    requires n <= |cs|
  {
    if n == 0 then [] else TableOnly(l, cs, n - 1) + if l.InTable(cs[n - 1].unit) then [cs[n - 1]] else []
  }

  lemma {:induction false} BodyShown(l: Layout, body: Body)
    requires TablesRegular(l) && Tabular(l, body)
    ensures RowsShown(l, body.windows)
  {
    hide l.Indexed, l.InTable, FallsIn, Falls, TableText, TablesRegular, Tabular, RowsInOrder;
    BodyRows(l, body);
    forall m | 0 <= m < |body.windows| ensures HasText(l, body.windows[m]) {
      var i := WindowText(l, body, m);
    }
  }

  /** Text outside tables lies in no cell of the rows a body shows. */
  lemma {:induction false} TextOutside(l: Layout, windows: seq<TableWindow>, unit: nat)
    requires RowsShown(l, windows) && l.Indexed(unit) && !l.InTable(unit)
    ensures Outside(l, windows, unit)
  {
    hide l.Window, l.RowCells, l.InTable, RowsInOrder, NotInRow, TableText, InTableOrder, TableRun, CellUnit;
    forall m | 0 <= m < |windows| ensures NotInRow(l, unit, CellsOfRow(l, windows[m].row)) {
      assert HasText(l, windows[m]);
      var v :| TableText(l, v) && Falls(l, windows[m], v);
      TextInLayout(l, v);
      OwnRow(l, windows[m], v);
      assert CellsHoldTables(l, unit, v);
    }
  }

  lemma {:induction false} BodyPart(l: Layout, body: Body, i: nat)
    requires Tabular(l, body) && i < |body.fragments|
    ensures
      var unit := body.fragments[i].contribution.unit;
      l.Indexed(unit) && (l.InTable(unit) ==> TableText(l, unit) && FallsIn(l, body.windows, unit))
    ensures forall k :: 0 <= k < i ==> body.fragments[k].contribution.unit <= body.fragments[i].contribution.unit
  {
    hide l.Indexed, l.InTable, FallsIn, TableText, RowsInOrder, Witness;
  }

  lemma {:induction false} BodySorted(l: Layout, body: Body, n: nat)
    requires TablesRegular(l) && Tabular(l, body) && n < |body.fragments|
    ensures Sorted(l, Contributions(body.fragments)[..n], body.windows, body.fragments[n].contribution.unit)
  {
    hide l.Indexed, l.InTable, FallsIn, TableText, TablesRegular, Tabular, Outside, RowsShown;
    BodyShown(l, body);
    BodyPart(l, body, n);
    forall i | 0 <= i < n
      ensures
        var unit := body.fragments[i].contribution.unit;
        Outside(l, body.windows, unit) || (TableText(l, unit) && FallsIn(l, body.windows, unit))
    {
      BodyPart(l, body, i);
      if !l.InTable(body.fragments[i].contribution.unit) {
        TextOutside(l, body.windows, body.fragments[i].contribution.unit);
      }
    }
  }

  /** A body's rows hold its table text, in order. */
  lemma {:induction false} RowsLaid(l: Layout, body: Body, n: nat)
    requires TablesRegular(l) && Tabular(l, body) && n <= |body.fragments|
    ensures
      var cs := Contributions(body.fragments);
      InRows(l, cs[..n], body.windows, |body.windows|) == TableOnly(l, cs, n)
  {
    hide l.Indexed, l.InTable, InRows, Falls, TableText, TablesRegular, Tabular, Outside, RowsShown, Sorted;
    var cs, windows := Contributions(body.fragments), body.windows;
    if n == 0 {
      RowsNothing(l, windows, |windows|);
      assert cs[..0] == [];
    } else {
      RowsLaid(l, body, n - 1);
      BodyShown(l, body);
      BodyPart(l, body, n - 1);
      var before, c := cs[..n - 1], cs[n - 1];
      assert cs[..n] == before + [c];
      if l.InTable(c.unit) {
        BodySorted(l, body, n - 1);
        var k :| 0 <= k < |windows| && Falls(l, windows[k], c.unit);
        RowsTake(l, before, c, windows, k, |windows|);
      } else {
        TextOutside(l, windows, c.unit);
        RowsPass(l, before, c, windows, |windows|);
      }
    }
  }

  lemma {:induction false} NothingInRow(l: Layout, w: TableWindow)
    ensures InColumns(l, [], CellsOfRow(l, w.row), w.columns, |w.columns|) == []
  {
    hide InColumns, NotInRow, CellsOfRow;
    ColumnsEmpty(l, [], CellsOfRow(l, w.row), w.columns, |w.columns|);
  }

  lemma {:induction false} RowsNothing(l: Layout, windows: seq<TableWindow>, n: nat)
    requires n <= |windows|
    ensures InRows(l, [], windows, n) == []
  {
    hide InColumns, CellsOfRow;
    if n > 0 {
      RowsNothing(l, windows, n - 1);
      NothingInRow(l, windows[n - 1]);
    }
  }

  /** Between table texts of a body lies table text only. */
  lemma {:induction false} RunOfTable(l: Layout, body: Body, a: nat, k: nat, b: nat)
    requires TablesRegular(l) && Tabular(l, body) && a <= k <= b < |body.fragments|
    requires l.InTable(body.fragments[a].contribution.unit) && l.InTable(body.fragments[b].contribution.unit)
    ensures l.InTable(body.fragments[k].contribution.unit)
  {
    hide l.Window, l.RowCells, l.Indexed, l.InTable, Tabular, CellUnit, InTableOrder, Falls, CellsHoldTables, RowsInOrder;
    BodyPart(l, body, a);
    BodyPart(l, body, k);
    BodyPart(l, body, b);
    var (u, w, v) := (body.fragments[a].contribution.unit, body.fragments[k].contribution.unit, body.fragments[b].contribution.unit);
    var x :| 0 <= x < |body.windows| && Falls(l, body.windows[x], u);
    var y :| 0 <= y < |body.windows| && Falls(l, body.windows[y], v);
    BodyRows(l, body);
    OneTableRows(l, body.windows, x, y);
    OwnRow(l, body.windows[x], u);
    OwnRow(l, body.windows[y], v);
    TextInLayout(l, v);
    assert u <= w by { if a < k { BodyPart(l, body, k); } }
    assert w <= v by { if k < b { BodyPart(l, body, b); } }
    assert TableRun(l, u, w, v);
    TextIs(l, w);
  }

  lemma {:induction false} OneTableRows(l: Layout, windows: seq<TableWindow>, x: nat, y: nat)
    requires RowsInOrder(l, windows) && x < |windows| && y < |windows|
    ensures windows[x].table == windows[y].table
  {
    hide ColumnsOk;
    assert x < y ==> FollowsWindow(windows[x], windows[y]);
    assert y < x ==> FollowsWindow(windows[y], windows[x]);
  }

  /** Where a body's run of table text starts and ends. */
  ghost predicate RunIs(l: Layout, cs: seq<Contribution>, from: nat, to: nat) {
    from <= to <= |cs| && forall i :: 0 <= i < |cs| ==> (l.InTable(cs[i].unit) <==> from <= i < to)
  }

  lemma {:induction false} FindRun(l: Layout, body: Body) returns (from: nat, to: nat)
    requires TablesRegular(l) && Tabular(l, body)
    ensures RunIs(l, Contributions(body.fragments), from, to)
  {
    hide TablesRegular, Tabular, l.InTable;
    var cs := Contributions(body.fragments);
    from, to := 0, |cs|;
    while from < |cs| && !l.InTable(cs[from].unit)
      invariant from <= |cs| && forall i :: 0 <= i < from ==> !l.InTable(cs[i].unit)
    {
      from := from + 1;
    }
    while to > from && !l.InTable(cs[to - 1].unit)
      invariant from <= to <= |cs| && forall i :: to <= i < |cs| ==> !l.InTable(cs[i].unit)
    {
      to := to - 1;
    }
    forall i | from <= i < to ensures l.InTable(cs[i].unit) {
      RunOfTable(l, body, from, i, to - 1);
    }
  }

  lemma {:induction false} RunTableOnly(l: Layout, cs: seq<Contribution>, from: nat, to: nat, n: nat)
    requires RunIs(l, cs, from, to) && n <= |cs|
    ensures TableOnly(l, cs, n) == if n <= from then [] else cs[from..if n < to then n else to]
    ensures LastInTable(l, cs, n).Some? <==> from < to && from < n
  {
    hide l.InTable;
    if n > 0 {
      RunTableOnly(l, cs, from, to, n - 1);
    }
  }

  /** Text, one run of a table, and text: laid out in order when the rows hold the run in order. */
  lemma {:induction false} RunLaid(l: Layout, cs: seq<Contribution>, windows: seq<TableWindow>, from: nat, to: nat, n: nat)
    requires RunIs(l, cs, from, to) && n <= |cs| && InRows(l, cs, windows, |windows|) == cs[from..to]
    ensures LaidOrder(l, cs, windows, n) == if n <= from then cs[..n] else if n < to then cs[..to] else cs[..n]
  {
    hide l.InTable, InRows;
    if n > 0 {
      RunLaid(l, cs, windows, from, to, n - 1);
      RunTableOnly(l, cs, from, to, n - 1);
    }
  }

  /** A body of one run of table rows, with text around them, is laid out in its fragments' order. */
  lemma {:induction false} TabularInOrder(l: Layout, body: Body)
    requires TablesRegular(l) && Tabular(l, body)
    ensures InOrder(l, Contributions(body.fragments), body.windows)
  {
    hide l.InTable, InRows, LaidOrder, Tabular, TablesRegular, RunIs;
    var cs := Contributions(body.fragments);
    assert cs[..|cs|] == cs;
    var from, to := FindRun(l, body);
    RowsLaid(l, body, |cs|);
    RunTableOnly(l, cs, from, to, |cs|);
    RunEnds(l, cs, from, to);
    assert InRows(l, cs, body.windows, |body.windows|) == cs[from..to];
    RunLaid(l, cs, body.windows, from, to, |cs|);
  }

  lemma {:induction false} RunEnds(l: Layout, cs: seq<Contribution>, from: nat, to: nat)
    requires RunIs(l, cs, from, to)
    ensures from <= to <= |cs|
  {
  }

  // ---- Its windows are witnessed

  lemma {:induction false} MatchesOne(l: Layout, windows: seq<TableWindow>, unit: nat, k: nat, n: nat)
    requires RowsInOrder(l, windows) && k < |windows| && Falls(l, windows[k], unit) && n <= |windows|
    ensures Matching(windows, OwnWindow(l, unit), n) == if k < n then [k] else []
  {
    hide l.Window, l.RowCells, ColumnsOk;
    if n > 0 {
      MatchesOne(l, windows, unit, k, n - 1);
      if n - 1 != k {
        assert FollowsWindow(windows[if k < n - 1 then k else n - 1], windows[if k < n - 1 then n - 1 else k]);
      }
    }
  }

  /** The windows that the first n fragments of a body fall in. */
  ghost predicate Met(l: Layout, body: Body, n: nat, k: nat)
    requires n <= |body.fragments|
  {
    k < |body.windows| && exists i :: 0 <= i < n && Falls(l, body.windows[k], body.fragments[i].contribution.unit)
  }

  /** What witnessing meets at one fragment: the one window of its cell, or text that may stand beside a table. */
  lemma {:induction false} FragmentWitness(l: Layout, body: Body, n: nat)
    requires Tabular(l, body) && n < |body.fragments|
    ensures
      var unit := body.fragments[n].contribution.unit;
      && unit < |l.units| && l.Window(unit, false).Ok? && (l.Window(unit, false).value.Some? <==> l.InTable(unit))
      && (l.InTable(unit) ==>
            && MatchingWindow(body.windows, OwnWindow(l, unit)).Ok?
            && Falls(l, body.windows[MatchingWindow(body.windows, OwnWindow(l, unit)).value], unit))
      && (!l.InTable(unit) ==> !CellUnit(l, unit) && (body.windows == [] || !l.rules.packing.ByContainer?))
  {
    hide l.Window, l.RowCells, l.InTable, Matching, RowsInOrder, Witness, FallsIn;
    var unit := body.fragments[n].contribution.unit;
    BodyPart(l, body, n);
    BodyRows(l, body);
    OutsideTable(l, unit);
    WindowBoth(l, unit);
    if l.InTable(unit) {
      var k := WhereFalls(l, body.windows, unit);
      MatchesOne(l, body.windows, unit, k, |body.windows|);
    }
  }

  lemma {:induction false} WhereFalls(l: Layout, windows: seq<TableWindow>, unit: nat) returns (k: nat)
    requires FallsIn(l, windows, unit)
    ensures k < |windows| && Falls(l, windows[k], unit)
  {
    hide Falls;
    k :| 0 <= k < |windows| && Falls(l, windows[k], unit);
  }

  lemma {:induction false} OneWindow(l: Layout, windows: seq<TableWindow>, unit: nat, k: nat, m: nat)
    requires RowsInOrder(l, windows) && k < |windows| && m < |windows| && Falls(l, windows[k], unit) && Falls(l, windows[m], unit)
    ensures k == m
  {
    hide l.Window, l.RowCells, ColumnsOk, CellUnit;
    assert k < m ==> FollowsWindow(windows[k], windows[m]);
    assert m < k ==> FollowsWindow(windows[m], windows[k]);
  }

  lemma {:induction false} FallsIsCell(l: Layout, window: TableWindow, unit: nat)
    requires Falls(l, window, unit)
    ensures CellUnit(l, unit)
  {
  }

  lemma {:induction false} BodyWitnessed(l: Layout, body: Body, n: nat)
    requires Tabular(l, body) && n <= |body.fragments|
    ensures
      var witnessed := Witnessed(l, Contributions(body.fragments), body.windows, n);
      witnessed.Ok? && forall k: nat :: k in witnessed.value <==> Met(l, body, n, k)
  {
    hide l.Window, Falls, MatchingWindow, Tabular, l.InTable, CellUnit;
    if n > 0 {
      BodyWitnessed(l, body, n - 1);
      FragmentWitness(l, body, n - 1);
      BodyRows(l, body);
      var unit := body.fragments[n - 1].contribution.unit;
      forall k: nat ensures
        Met(l, body, n, k) <==> Met(l, body, n - 1, k) || (l.InTable(unit) && k == MatchingWindow(body.windows, OwnWindow(l, unit)).value)
      {
        if k < |body.windows| && Falls(l, body.windows[k], unit) {
          FallsIsCell(l, body.windows[k], unit);
          OneWindow(l, body.windows, unit, k, MatchingWindow(body.windows, OwnWindow(l, unit)).value);
        }
      }
    }
  }

  lemma {:induction false} OutsideTable(l: Layout, unit: nat)
    ensures !l.InTable(unit) ==> l.Window(unit, false) == Ok(None)
  {
    hide l.RowCells;
  }

  lemma {:induction false} SetUpTo(s: set<nat>, n: nat)
    requires forall k: nat :: k in s <==> k < n
    ensures |s| == n
  {
    if n > 0 {
      SetUpTo(s - {n - 1}, n - 1);
    } else {
      assert s == {};
    }
  }

  /** Every fragment in a table falls in one window, and every window holds one; the windows are in order. */
  lemma {:induction false} TabularWitnessed(l: Layout, body: Body)
    requires Tabular(l, body)
    ensures WitnessWindows(l, Contributions(body.fragments), body.windows).Ok? && WindowsOrdered(l, body.windows)
  {
    hide l.Window, Witnessed, Falls, ColumnsOk, Tabular;
    var n := |body.fragments|;
    BodyWitnessed(l, body, n);
    BodyRows(l, body);
    InOrderSteps(l, body.windows);
    var witnessed := Witnessed(l, Contributions(body.fragments), body.windows, n).value;
    forall k: nat ensures k in witnessed <==> k < |body.windows| {
      if k < |body.windows| {
        var i := WindowText(l, body, k);
      }
    }
    SetUpTo(witnessed, |body.windows|);
  }

  // ---- What the validator accepts

  /** What is left for a draft's replay to decide: the order it is laid out in, and its windows. */
  ghost predicate LaidRight(l: Layout, chunk: ChunkContent) {
    && InOrder(l, Contributions(chunk.fragments), chunk.windows)
    && WitnessWindows(l, Contributions(chunk.fragments), chunk.windows).Ok?
    && WindowsOrdered(l, chunk.windows)
  }

  /** A draft passes every check exactly when it lays its fragments out in order under windows that show them. */
  lemma {:induction false} AcceptedExactly(l: Layout, t: Tools, chunks: seq<ChunkContent>, i: nat)
    requires Visible(l) && KeptParts(l) && Exact(l, AllFragments(chunks, |chunks|)) && AllReplay(l, t, chunks) && i < |chunks|
    ensures Accepted(l, t, chunks[i]) <==> LaidRight(l, chunks[i])
  {
    hide Prepared, Visible, KeptParts, Exact, ChunkReplay, InOrder, WitnessWindows, WindowsOrdered, Distinct, AllCells;
    assert Replays(l, t, chunks[i]);
    DraftReady(l, chunks, i);
    ReplayDecides(l, t, chunks[i]);
  }

  lemma {:induction false} TabularAccepted(l: Layout, t: Tools, chunks: seq<ChunkContent>, i: nat)
    requires Visible(l) && KeptParts(l) && Exact(l, AllFragments(chunks, |chunks|)) && AllReplay(l, t, chunks) && i < |chunks|
    requires TablesRegular(l) && DraftTabular(l, ResultBody(chunks[i]))
    ensures Accepted(l, t, chunks[i])
  {
    hide Visible, KeptParts, Exact, AllReplay, TablesRegular, Tabular, Accepted, InOrder, WitnessWindows, WindowsOrdered;
    var body := ResultBody(chunks[i]);
    AcceptedExactly(l, t, chunks, i);
    TabularInOrder(l, body);
    TabularWitnessed(l, body);
  }

  datatype Checked = Checked(drafts: seq<ChunkContent>, coverage: seq<UnitCoverage>)

  /** What documents give a layout: visible and well-nested units, kept between clean cuts, and table rows in order. */
  ghost predicate Sound(l: Layout) {
    Visible(l) && CleanLayout(l) && RowsRegular(l)
  }

  /** A kept part as the chrome rules give it: from the unit's start, normalized. */
  ghost predicate KeptFromStart(l: Layout, unit: nat)
    requires unit < |l.units| && l.Kept(unit).Some?
  {
    var (u, kept) := (l.units[unit], l.Kept(unit).value);
    kept.start == 0 && NormalizedRange(|u.text|, u.envelopes, 0, kept.end) == Some(kept)
  }

  /** What mapping establishes of its units is what packing needs of them. */
  lemma {:induction false} MappedIsVisible(l: Layout, source: Mapping.Source)
    requires Mappers.DocumentMapped(source, l.units)
    requires forall u :: 0 <= u < |l.units| && l.Kept(u).Some? ==> KeptFromStart(l, u)
    ensures Visible(l) && CleanLayout(l)
  {
    hide WellNested, CleanCut, NormalizedRange, l.Kept;
    forall u | 0 <= u < |l.units|
      ensures VisibleUnit(l, u) && (l.Indexed(u) ==> CleanStretch(l, Contribution(u, l.Kept(u).value)))
    {
      var unit := l.units[u];
      assert Mapping.Sound(unit, source.markdown);
      WrappersShow(unit);
      if l.Kept(u).Some? {
        assert KeptFromStart(l, u);
        Mapping.WholeIsClean(unit, source.markdown);
        NormalizedRangeCuts(|unit.text|, unit.envelopes, 0, l.Kept(u).value.end);
      }
    }
  }

  lemma {:induction false} WrappersShow(unit: SourceUnit)
    requires WellNested(|unit.text|, unit.envelopes)
    ensures forall e :: e in unit.envelopes ==> e.opening.start < e.opening.end && e.closing.start < e.closing.end
  {
    forall e | e in unit.envelopes ensures e.opening.start < e.opening.end && e.closing.start < e.closing.end {
      var i :| 0 <= i < |unit.envelopes| && unit.envelopes[i] == e;
      assert DelimitedAt(|unit.text|, unit.envelopes, i);
    }
  }

  /** Whether drafts are built ones with their parts numbered. */
  ghost predicate NumberedAs(built: seq<ChunkContent>, drafts: seq<ChunkContent>) {
    |drafts| == |built| && forall i :: 0 <= i < |built| ==> SameButOrdinals(built[i], drafts[i])
  }

  /**
   * Packing and its two checks, as a batch runs them on one document. Coverage is always accepted.
   * Drafts are refused only when one lays its fragments out in another order or under wrong
   * windows. None does, for any token counter, in a layout that packs well: regular tables, steps
   * that hold no rows of two tables, and no rows that absorbing could spoil. One does whenever a
   * step that fits a chunk holds rows of two tables: so where every step fits, steps of one table
   * each are exactly what acceptance needs.
   */
  method BuildChecked(l: Layout, t: Tools) returns (r: Result<Checked>, refused: Option<seq<ChunkContent>>)
    requires Sound(l)
    ensures
      match Built(l, t)
      case Err(error) => r == Err(error) && refused.None?
      case Ok(built) =>
        && (r.Ok? <==> refused.None?)
        && NumberedAs(built, if r.Ok? then r.value.drafts else refused.value)
    ensures r.Ok? ==> r.value.coverage == CoverageOf(l, Contributions(AllFragments(r.value.drafts, |r.value.drafts|)), |l.units|)
    ensures r.Ok? ==> AllReplay(l, t, r.value.drafts) && Exact(l, AllFragments(r.value.drafts, |r.value.drafts|))
    ensures r.Ok? ==> forall i :: 0 <= i < |r.value.drafts| ==> Accepted(l, t, r.value.drafts[i])
    ensures refused.Some? ==> r.Err? && !forall i :: 0 <= i < |refused.value| ==> LaidRight(l, refused.value[i])
    ensures PackedWell(l) ==> refused.None?
    ensures TablesRegular(l) && Built(l, t).Ok? && (exists g: nat :: MixedStep(l, t, g)) ==> refused.Some?
    ensures TablesRegular(l) && Built(l, t).Ok? && StepsFit(l, t) && (l.rules.minTokens.Some? ==> Absorbable(l)) ==>
              (refused.None? <==> StepsOneTable(l))
  {
    hide TablesRegular, StepsFit, StepsOneTable, Absorbable, MixedStep, Visible, CleanLayout, RowsRegular, PackedWell, AllReplay, Exact, Accepted, LaidRight, AllFragments, DraftTabular, Solid, Built, SameButOrdinals;
    refused := None;
    var drafts := BuildDrafts(l, t);
    if drafts.Err? {
      return Err(drafts.error), None;
    }
    assert NumberedAs(Built(l, t).value, drafts.value);
    CleanIsKept(l);
    var coverage := ValidateCoverage(l, drafts.value);
    if coverage.Err? {
      assert false;
      return Err(InvalidChunks), None;
    }
    MixedNeeded(l, t);
    PackedNeeds(l);
    if exists g: nat :: MixedStep(l, t, g) {
      var g: nat :| MixedStep(l, t, g);
      if TablesRegular(l) {
        MixedAccepted(l, t, drafts.value, g);
      }
    }
    var ok := ValidateChunks(l, t, drafts.value);
    forall i | 0 <= i < |drafts.value| ensures Accepted(l, t, drafts.value[i]) <==> LaidRight(l, drafts.value[i]) {
      AcceptedExactly(l, t, drafts.value, i);
    }
    if !ok {
      if PackedWell(l) {
        PackedAccepted(l, t, drafts.value);
      }
      return Err(InvalidChunks), Some(drafts.value);
    }
    r := Ok(Checked(drafts.value, coverage.value));
  }

  /** Every step fits one chunk as a whole. */
  ghost predicate StepsFit(l: Layout, t: Tools) {
    var atoms := AtomsOf(l, |l.units|);
    atoms.Ok? ==>
      var groups := Steps(l, atoms.value.0, |atoms.value.0|);
      forall g :: 0 <= g < |groups| ==> FitsWhole(l, t, BodyOf(PieceOf(groups[g])))
  }

  lemma {:induction false} MixedNeeded(l: Layout, t: Tools)
    ensures StepsFit(l, t) && !StepsOneTable(l) ==> exists g: nat :: MixedStep(l, t, g)
  {
    hide FitsWhole, OneTable, Steps, AtomsOf;
    if StepsFit(l, t) && !StepsOneTable(l) {
      var groups := Steps(l, AtomsOf(l, |l.units|).value.0, |AtomsOf(l, |l.units|).value.0|);
      var g: nat :| g < |groups| && !OneTable(groups[g]);
      assert MixedStep(l, t, g);
    }
  }

  lemma {:induction false} PackedNeeds(l: Layout)
    ensures PackedWell(l) <==> TablesRegular(l) && StepsOneTable(l) && (l.rules.minTokens.Some? ==> Absorbable(l))
  {
    hide TablesRegular, StepsOneTable, Absorbable;
  }

  /** A mixed step is refused. */
  lemma {:induction false} MixedAccepted(l: Layout, t: Tools, drafts: seq<ChunkContent>, g: nat)
    requires TablesRegular(l) && MixedStep(l, t, g) && Built(l, t).Ok? && NumberedAs(Built(l, t).value, drafts)
    ensures exists i :: 0 <= i < |drafts| && !Accepted(l, t, drafts[i])
  {
    hide TablesRegular, MixedStep, Built, AtomsOf, WitnessWindows, WindowsOrdered, ChunkReplay, Prepared, AreAtoms, AtomsApart, KeptContributions;
    assert AtomsOf(l, |l.units|).Ok? by { MixedHas(l, t, g); }
    AtomsOfAre(l, |l.units|);
    var i := MixedStepRefused(l, t, g);
    assert drafts[i].windows == Built(l, t).value[i].windows;
    assert !Accepted(l, t, drafts[i]);
  }

  lemma {:induction false} MixedHas(l: Layout, t: Tools, g: nat)
    requires MixedStep(l, t, g)
    ensures AtomsOf(l, |l.units|).Ok?
  {
    hide AtomsOf, Steps, OneTable, FitsWhole;
  }

  lemma {:induction false} PackedAccepted(l: Layout, t: Tools, drafts: seq<ChunkContent>)
    requires Visible(l) && KeptParts(l) && PackedWell(l) && Exact(l, AllFragments(drafts, |drafts|)) && AllReplay(l, t, drafts)
    requires forall i :: 0 <= i < |drafts| ==> DraftTabular(l, ResultBody(drafts[i]))
    ensures forall i :: 0 <= i < |drafts| ==> Accepted(l, t, drafts[i])
  {
    hide Visible, KeptParts, Exact, AllReplay, TablesRegular, DraftTabular, Accepted, StepsOneTable, Absorbable;
    forall i | 0 <= i < |drafts| ensures Accepted(l, t, drafts[i]) {
      TabularAccepted(l, t, drafts, i);
    }
  }
}
