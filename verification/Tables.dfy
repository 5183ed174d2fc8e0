/** Bodies that hold rows of a table, with text around them: their windows, and what combining and refining keep. */
module Tables {
  import opened Common
  import opened Ranges
  import opened Units
  import opened Layouts
  import opened Preparation
  import opened Coverage
  import opened Refining
  import opened Atoms
  import opened Replay
  import Sorting

  /** The table cell a unit lies in, as a window of its own column. */
  function OwnWindow(l: Layout, unit: nat): TableWindow
    requires l.Window(unit, false).Ok? && l.Window(unit, false).value.Some?
  {
    l.Window(unit, false).value.value
  }

  /** A unit that is the text of one cell of a table row. */
  ghost predicate CellUnit(l: Layout, unit: nat) {
    && unit < |l.units| && l.Window(unit, false).Ok? && l.Window(unit, false).value.Some?
    && var own := OwnWindow(l, unit);
       && |own.columns| == 1 && l.RowCells(own.row).Ok?
       && var cells := l.RowCells(own.row).value;
          && DistinctIds(cells) && own.columns[0] < |cells|
          && l.units[unit].block == cells[own.columns[0]].id
  }

  function ColumnOf(l: Layout, unit: nat): nat
    requires CellUnit(l, unit)
  {
    OwnWindow(l, unit).columns[0]
  }

  ghost predicate SameRow(a: TableWindow, b: TableWindow) {
    a.table == b.table && a.row == b.row && a.rowIndex == b.rowIndex
  }

  /** Of two units of one table, the later one lies in a later row, or in the same row and atom and no earlier column. */
  ghost predicate InTableOrder(l: Layout, i: nat, j: nat)
    requires CellUnit(l, i) && CellUnit(l, j)
  {
    var (a, b) := (OwnWindow(l, i), OwnWindow(l, j));
    && (a.row == b.row ==> a.table == b.table)
    && (a.table == b.table ==>
      || (a.rowIndex < b.rowIndex && a.row != b.row && DisjointRows(l, a.row, b.row))
      || (SameRow(a, b) && ColumnOf(l, i) <= ColumnOf(l, j) && SameGroup(l, i, j)))
  }

  ghost predicate DisjointRows(l: Layout, a: Id, b: Id) {
    l.RowCells(a).Ok? && l.RowCells(b).Ok? ==>
      forall x, y :: 0 <= x < |l.RowCells(a).value| && 0 <= y < |l.RowCells(b).value| ==>
        l.RowCells(a).value[x].id != l.RowCells(b).value[y].id
  }

  /** What lies between two texts of one table is text of that table. */
  ghost predicate TableRun(l: Layout, i: nat, k: nat, j: nat) {
    TableText(l, i) && TableText(l, j) && OwnWindow(l, i).table == OwnWindow(l, j).table && i <= k <= j && l.Indexed(k) ==>
      TableText(l, k) && OwnWindow(l, k).table == OwnWindow(l, i).table
  }

  /** Text in a cell of a row that holds table text is in a table itself. */
  ghost predicate CellsHoldTables(l: Layout, u: nat, v: nat) {
    TableText(l, v) && l.Indexed(u) && !NotInRow(l, u, CellsOfRow(l, OwnWindow(l, v).row)) ==> l.InTable(u)
  }

  /** No cell of a row holds a unit. */
  ghost predicate NotInRow(l: Layout, unit: nat, cells: seq<Block>) {
    forall c :: 0 <= c < |cells| ==> !l.InBlock(unit, cells[c].id)
  }

  /**
   * Table text is cell text, and comes in one run a table, row by row and column by column; units
   * that share an atom all lie in tables, or none does.
   */
  ghost predicate TablesRegular(l: Layout) {
    && (forall u :: 0 <= u < |l.units| && l.Indexed(u) && l.InTable(u) ==> CellUnit(l, u))
    && (forall i, j :: 0 <= i < |l.units| && 0 <= j < |l.units| && SameGroup(l, i, j) ==> l.InTable(i) == l.InTable(j))
    && (forall i, j :: 0 <= i <= j < |l.units| && TableText(l, i) && TableText(l, j) ==> InTableOrder(l, i, j))
    && (forall i, k, j :: 0 <= i <= k <= j < |l.units| ==> TableRun(l, i, k, j))
    && forall u, v :: 0 <= u < |l.units| && 0 <= v < |l.units| ==> CellsHoldTables(l, u, v)
  }

  ghost predicate TableText(l: Layout, unit: nat) {
    l.Indexed(unit) && l.InTable(unit) && CellUnit(l, unit)
  }

  // ---- The shape of a body

  /** Whether a unit's cell is one that a window shows. */
  ghost predicate Falls(l: Layout, window: TableWindow, unit: nat) {
    CellUnit(l, unit) && SameRow(OwnWindow(l, unit), window) && ColumnOf(l, unit) in window.columns
  }

  ghost predicate FallsIn(l: Layout, windows: seq<TableWindow>, unit: nat) {
    exists k :: 0 <= k < |windows| && Falls(l, windows[k], unit)
  }

  ghost predicate Witness(l: Layout, window: TableWindow, fragments: seq<Fragment>) {
    exists i :: 0 <= i < |fragments| && Falls(l, window, fragments[i].contribution.unit)
  }

  /** Windows that follow the rows of one table in order, over the same columns. */
  ghost predicate RowsInOrder(l: Layout, windows: seq<TableWindow>) {
    && (forall k :: 0 <= k < |windows| ==> ColumnsOk(l, windows[k]))
    && forall k, m :: 0 <= k < m < |windows| ==> FollowsWindow(windows[k], windows[m])
  }

  ghost predicate UnitsAscend(fragments: seq<Fragment>) {
    forall i, j :: 0 <= i < j < |fragments| ==> fragments[i].contribution.unit <= fragments[j].contribution.unit
  }

  /**
   * A body whose table text its windows show exactly: every text in a table falls in one of them,
   * every one shows some text, and they follow the rows of one table over the same columns. What
   * is not in the table stands before or after it; packed by container there is no such text.
   */
  ghost predicate Tabular(l: Layout, body: Body) {
    && body.fragments != [] && UnitsAscend(body.fragments)
    && (forall i :: 0 <= i < |body.fragments| ==> l.Indexed(body.fragments[i].contribution.unit))
    && (forall i :: 0 <= i < |body.fragments| && l.InTable(body.fragments[i].contribution.unit) ==>
          TableText(l, body.fragments[i].contribution.unit) && FallsIn(l, body.windows, body.fragments[i].contribution.unit))
    && (forall k :: 0 <= k < |body.windows| ==> Witness(l, body.windows[k], body.fragments))
    && RowsInOrder(l, body.windows)
    && (l.rules.packing.ByContainer? ==> Unmixed(l, body))
  }

  /** A body without windows, or without text outside tables. */
  ghost predicate Unmixed(l: Layout, body: Body) {
    body.windows != [] ==> forall i :: 0 <= i < |body.fragments| ==> l.InTable(body.fragments[i].contribution.unit)
  }

  /** The text of one row or part of one, or text outside tables. */
  ghost predicate RowBody(l: Layout, body: Body) {
    Tabular(l, body) && |body.windows| <= 1 && Unmixed(l, body)
  }

  // ---- Merging columns

  ghost predicate Ascending(columns: seq<nat>) {
    forall i, j :: 0 <= i < j < |columns| ==> columns[i] < columns[j]
  }

  lemma {:induction false} DedupAscends(columns: seq<nat>, n: nat)
    requires n <= |columns| && forall i, j :: 0 <= i < j < |columns| ==> columns[i] <= columns[j]
    ensures Ascending(Dedup(columns, n))
    ensures forall c :: c in Dedup(columns, n) <==> c in columns[..n]
    ensures n > 0 ==> Dedup(columns, n) != [] && Dedup(columns, n)[|Dedup(columns, n)| - 1] == columns[n - 1]
  {
    if n > 0 {
      DedupAscends(columns, n - 1);
      assert columns[..n] == columns[..n - 1] + [columns[n - 1]];
      if n > 1 && columns[n - 1] == columns[n - 2] {
        assert columns[n - 2] in columns[..n - 1];
      }
    }
  }

  lemma {:induction false} MergedColumns(left: seq<nat>, right: seq<nat>)
    ensures Ascending(MergeColumns(left, right))
    ensures forall c :: c in MergeColumns(left, right) <==> c in left || c in right
  {
    var key := (c: nat) => (c as int, 0);
    var both := left + right;
    var sorted := Sorting.SortBy(both, key);
    Sorting.SortBySorted(both, key);
    assert forall i, j :: 0 <= i < j < |sorted| ==> Sorting.Leq(key(sorted[i]), key(sorted[j]));
    DedupAscends(sorted, |sorted|);
    assert sorted[..|sorted|] == sorted;
    forall c ensures c in sorted <==> c in both {
      Sorting.MemberOfEqualMultisets(sorted, both, c);
    }
  }

  /** Ascending lists of the same columns are equal. */
  lemma {:induction false} AscendingUnique(a: seq<nat>, b: seq<nat>)
    requires Ascending(a) && Ascending(b) && forall c :: c in a <==> c in b
    ensures a == b
  {
    FirstIn(a);
    FirstIn(b);
    if a != [] {
      assert a[0] == b[0];
      forall c ensures c in a[1..] <==> c in b[1..] {
        RestHolds(a, c);
        RestHolds(b, c);
      }
      AscendingUnique(a[1..], b[1..]);
    }
  }

  lemma {:induction false} FirstIn(a: seq<nat>)
    ensures a != [] ==> a[0] in a
  {
  }

  lemma {:induction false} RestHolds(a: seq<nat>, c: nat)
    requires a != [] && Ascending(a)
    ensures c in a[1..] <==> c in a && c != a[0]
  {
    assert a == [a[0]] + a[1..];
  }

  /** Merging columns that are there already changes nothing. */
  lemma {:induction false} MergeWithin(left: seq<nat>, right: seq<nat>)
    requires Ascending(left) && Ascending(right)
    ensures (forall c :: c in right ==> c in left) ==> MergeColumns(left, right) == left
    ensures (forall c :: c in left ==> c in right) ==> MergeColumns(left, right) == right
  {
    hide MergeColumns, Ascending;
    MergedColumns(left, right);
    if forall c :: c in right ==> c in left {
      AscendingUnique(MergeColumns(left, right), left);
    }
    if forall c :: c in left ==> c in right {
      AscendingUnique(MergeColumns(left, right), right);
    }
  }

  lemma {:induction false} ColumnsAscend(l: Layout, window: TableWindow)
    requires ColumnsOk(l, window)
    ensures Ascending(window.columns)
  {
    hide l.RowCells;
    AscendsBySteps(window.columns, |window.columns|);
  }

  lemma {:induction false} AscendsBySteps(columns: seq<nat>, n: nat)
    requires n <= |columns| && forall i :: 0 <= i < |columns| - 1 ==> columns[i] < columns[i + 1]
    ensures forall i, j :: 0 <= i < j < n ==> columns[i] < columns[j]
  {
    if n > 1 {
      AscendsBySteps(columns, n - 1);
      var i := n - 2;
      assert columns[i] < columns[i + 1];
    }
  }

  lemma {:induction false} MergedColumnsOk(l: Layout, a: TableWindow, b: TableWindow)
    requires ColumnsOk(l, a) && ColumnsOk(l, b) && a.row == b.row
    ensures ColumnsOk(l, a.(columns := MergeColumns(a.columns, b.columns)))
  {
    hide l.RowCells, MergeColumns;
    MergedColumns(a.columns, b.columns);
    var merged := MergeColumns(a.columns, b.columns);
    assert a.columns[0] in a.columns;
    assert a.columns[0] in merged;
    forall i | 0 <= i < |merged| ensures merged[i] < |l.RowCells(a.row).value| {
      assert merged[i] in merged;
    }
  }

  // ---- Combining

  lemma {:induction false} FallsMore(l: Layout, window: TableWindow, wider: TableWindow, unit: nat)
    requires Falls(l, window, unit) && SameRow(window, wider) && forall c :: c in window.columns ==> c in wider.columns
    ensures Falls(l, wider, unit)
  {
    hide l.Window, l.RowCells;
  }

  /** The later fragment of a body comes before another's first. */
  ghost predicate Precedes(left: Body, right: Body) {
    forall i, j :: 0 <= i < |left.fragments| && 0 <= j < |right.fragments| ==>
      left.fragments[i].contribution.unit <= right.fragments[j].contribution.unit
  }

  lemma {:induction false} BothAscend(left: Body, right: Body)
    requires UnitsAscend(left.fragments) && UnitsAscend(right.fragments) && Precedes(left, right)
    ensures UnitsAscend(left.fragments + right.fragments)
  {
  }

  function LastWindow(windows: seq<TableWindow>): TableWindow
    requires windows != []
  {
    windows[|windows| - 1]
  }

  /** What falls in a window lies in a table. */
  lemma {:induction false} FallsInTable(l: Layout, window: TableWindow, unit: nat)
    requires Falls(l, window, unit)
    ensures l.InTable(unit)
  {
    hide l.Window, l.RowCells, l.InTable;
    WindowBoth(l, unit);
  }

  /** A text of the body in one of its windows. */
  lemma {:induction false} WindowText(l: Layout, body: Body, k: nat) returns (i: nat)
    requires Tabular(l, body) && k < |body.windows|
    ensures i < |body.fragments| && Falls(l, body.windows[k], body.fragments[i].contribution.unit)
    ensures TableText(l, body.fragments[i].contribution.unit)
  {
    hide l.Window, l.RowCells, l.Indexed, l.InTable, FallsIn, RowsInOrder, CellUnit, Falls, TableText;
    assert Witness(l, body.windows[k], body.fragments);
    i :| 0 <= i < |body.fragments| && Falls(l, body.windows[k], body.fragments[i].contribution.unit);
    FallsInTable(l, body.windows[k], body.fragments[i].contribution.unit);
  }

  /** Of two windows of bodies one after the other, the first shows the same row or an earlier one. */
  lemma {:induction false} RowsMeet(l: Layout, left: Body, right: Body, k: nat, m: nat)
    requires TablesRegular(l) && Tabular(l, left) && Tabular(l, right) && Precedes(left, right)
    requires k < |left.windows| && m < |right.windows|
    ensures
      var (a, b) := (left.windows[k], right.windows[m]);
      && (a.row == b.row ==> SameRow(a, b))
      && (a.table == b.table && a.row != b.row ==> a.rowIndex < b.rowIndex)
  {
    hide l.Window, l.RowCells, l.Indexed, l.InTable, RowsInOrder, CellUnit, Tabular, DisjointRows, SameGroup;
    var i := WindowText(l, left, k);
    var j := WindowText(l, right, m);
    var u, v := left.fragments[i].contribution.unit, right.fragments[j].contribution.unit;
    TextInLayout(l, v);
    assert InTableOrder(l, u, v);
  }

  lemma {:induction false} TextInLayout(l: Layout, unit: nat)
    requires TableText(l, unit)
    ensures unit < |l.units|
  {
    hide l.Window, l.RowCells;
  }

  /** A body's windows show different rows. */
  lemma {:induction false} RowsDiffer(l: Layout, body: Body, k: nat, m: nat)
    requires TablesRegular(l) && Tabular(l, body) && k < m < |body.windows|
    ensures body.windows[k].row != body.windows[m].row
  {
    hide l.Window, l.RowCells, l.Indexed, l.InTable, CellUnit, DisjointRows, SameGroup, ColumnsOk, FallsIn, Witness, TableText;
    var i := WindowText(l, body, k);
    var j := WindowText(l, body, m);
    var u, v := body.fragments[i].contribution.unit, body.fragments[j].contribution.unit;
    TextInLayout(l, u);
    TextInLayout(l, v);
    assert FollowsWindow(body.windows[k], body.windows[m]);
    assert InTableOrder(l, if u <= v then u else v, if u <= v then v else u);
  }

  /** Fragments and windows that fit, once each window of two bodies is covered by one of the combined windows. */
  ghost predicate Widens(l: Layout, windows: seq<TableWindow>, wider: seq<TableWindow>) {
    forall k :: 0 <= k < |windows| ==> WidenedIn(windows[k], wider)
  }

  ghost predicate WidenedIn(window: TableWindow, wider: seq<TableWindow>) {
    exists m :: 0 <= m < |wider| && WidenedBy(window, wider[m])
  }

  ghost predicate WidenedBy(window: TableWindow, wider: TableWindow) {
    SameRow(window, wider) && forall c :: c in window.columns ==> c in wider.columns
  }

  lemma {:induction false} FallsWider(l: Layout, windows: seq<TableWindow>, wider: seq<TableWindow>, unit: nat)
    requires Widens(l, windows, wider) && FallsIn(l, windows, unit)
    ensures FallsIn(l, wider, unit)
  {
    hide Falls;
    var k :| 0 <= k < |windows| && Falls(l, windows[k], unit);
    assert WidenedIn(windows[k], wider);
    var m :| 0 <= m < |wider| && WidenedBy(windows[k], wider[m]);
    FallsMore(l, windows[k], wider[m], unit);
  }

  lemma {:induction false} WitnessIn(l: Layout, window: TableWindow, fragments: seq<Fragment>, more: seq<Fragment>)
    requires Witness(l, window, fragments) && forall f :: f in fragments ==> f in more
    ensures Witness(l, window, more)
  {
    hide Falls;
    var i :| 0 <= i < |fragments| && Falls(l, window, fragments[i].contribution.unit);
    assert fragments[i] in more;
    var j :| 0 <= j < |more| && more[j] == fragments[i];
  }

  lemma {:induction false} WitnessWider(l: Layout, window: TableWindow, wider: TableWindow, fragments: seq<Fragment>)
    requires Witness(l, window, fragments) && WidenedBy(window, wider)
    ensures Witness(l, wider, fragments)
  {
    hide Falls;
    var i :| 0 <= i < |fragments| && Falls(l, window, fragments[i].contribution.unit);
    FallsMore(l, window, wider, fragments[i].contribution.unit);
  }

  // ---- The windows of a combined body

  /** Two windows of one row as one. */
  function Merged(a: TableWindow, b: TableWindow): TableWindow {
    a.(columns := MergeColumns(a.columns, b.columns))
  }

  /** Windows after others: the first merges into the last when both are of one row. */
  function Appended(windows: seq<TableWindow>, added: seq<TableWindow>): seq<TableWindow> {
    if windows != [] && added != [] && LastWindow(windows).row == added[0].row then
      windows[..|windows| - 1] + [Merged(LastWindow(windows), added[0])] + added[1..]
    else windows + added
  }

  /** One more window, of another row than the last. */
  lemma {:induction false} AppendedNext(windows: seq<TableWindow>, added: seq<TableWindow>, next: TableWindow)
    requires added != [] ==> LastWindow(added).row != next.row
    ensures AddWindow(Appended(windows, added), next) == Appended(windows, added + [next])
  {
    hide MergeColumns;
    if added == [] {
      assert windows + [] == windows && ([] + [next])[1..] == [];
      if windows != [] && LastWindow(windows).row == next.row {
        var all := windows[..|windows| - 1] + [Merged(LastWindow(windows), next)];
        assert all + [] == all;
      }
    } else {
      LastAppended(windows, added);
      assert AddWindow(Appended(windows, added), next) == Appended(windows, added) + [next];
      assert (added + [next])[0] == added[0] && (added + [next])[1..] == added[1..] + [next];
    }
  }

  lemma {:induction false} AddedAre(windows: seq<TableWindow>, added: seq<TableWindow>, n: nat)
    requires n <= |added| && forall k, m :: 0 <= k < m < |added| ==> added[k].row != added[m].row
    ensures AddWindows(windows, added, n) == Appended(windows, added[..n])
  {
    hide Appended, AddWindow;
    if n == 0 {
      assert added[..0] == [];
      AppendedNothing(windows);
    } else {
      AddedAre(windows, added, n - 1);
      var before := added[..n - 1];
      assert added[..n] == before + [added[n - 1]];
      if before != [] {
        assert LastWindow(before) == added[n - 2];
      }
      AppendedNext(windows, before, added[n - 1]);
    }
  }

  lemma {:induction false} AppendedNothing(windows: seq<TableWindow>)
    ensures Appended(windows, []) == windows
  {
    assert windows + [] == windows;
  }

  lemma {:induction false} LastAppended(windows: seq<TableWindow>, added: seq<TableWindow>)
    requires added != []
    ensures Appended(windows, added) != [] && LastWindow(Appended(windows, added)).row == LastWindow(added).row
  {
    hide MergeColumns;
  }

  /**
   * Whether the windows of a body may follow those of another: a later row of the same table over
   * the same columns, or the same row, and then a side with other rows already shows the row's
   * columns of both.
   */
  ghost predicate Joinable(left: Body, right: Body) {
    left.windows != [] && right.windows != [] ==>
      var (last, first) := (LastWindow(left.windows), right.windows[0]);
      && last.table == first.table
      && if last.row == first.row then
           && (|left.windows| > 1 ==> Within(first.columns, last.columns))
           && (|right.windows| > 1 ==> Within(last.columns, first.columns))
         else last.columns == first.columns
  }

  ghost predicate Within(columns: seq<nat>, wider: seq<nat>) {
    forall c :: c in columns ==> c in wider
  }

  /** The windows of a body followed by another's. */
  function JoinedWindows(left: Body, right: Body): seq<TableWindow> {
    AddWindows(left.windows, right.windows, |right.windows|)
  }

  lemma {:induction false} JoinedAre(l: Layout, left: Body, right: Body)
    requires TablesRegular(l) && Tabular(l, right)
    ensures JoinedWindows(left, right) == Appended(left.windows, right.windows)
  {
    hide TablesRegular, Tabular, Appended, AddWindows;
    forall k, m | 0 <= k < m < |right.windows| ensures right.windows[k].row != right.windows[m].row {
      RowsDiffer(l, right, k, m);
    }
    AddedAre(left.windows, right.windows, |right.windows|);
    assert right.windows[..|right.windows|] == right.windows;
  }

  lemma {:induction false} FollowsTwice(a: TableWindow, b: TableWindow, c: TableWindow)
    requires FollowsWindow(a, b) && FollowsWindow(b, c)
    ensures FollowsWindow(a, c)
  {
  }

  /** Rows in order, followed by rows in order of which the first follows the last. */
  lemma {:induction false} RowsThenRows(l: Layout, a: seq<TableWindow>, b: seq<TableWindow>)
    requires RowsInOrder(l, a) && RowsInOrder(l, b) && (a != [] && b != [] ==> FollowsWindow(LastWindow(a), b[0]))
    ensures RowsInOrder(l, a + b)
  {
    hide ColumnsOk, FollowsWindow;
    var all := a + b;
    forall k, m | 0 <= k < m < |all| ensures FollowsWindow(all[k], all[m]) {
      if k < |a| <= m {
        if k < |a| - 1 {
          FollowsTwice(a[k], LastWindow(a), b[0]);
        }
        if m > |a| {
          FollowsTwice(a[k], b[0], b[m - |a|]);
        }
      }
    }
  }

  lemma {:induction false} RowsPart(l: Layout, windows: seq<TableWindow>, from: nat, to: nat)
    requires RowsInOrder(l, windows) && from <= to <= |windows|
    ensures RowsInOrder(l, windows[from..to])
  {
    hide ColumnsOk, FollowsWindow;
  }

  /** The merged window of a row that both sides show is in order between the rows around it. */
  lemma {:induction false} MergedInOrder(l: Layout, left: Body, right: Body)
    requires RowsInOrder(l, left.windows) && RowsInOrder(l, right.windows) && left.windows != [] && right.windows != []
    requires SameRow(LastWindow(left.windows), right.windows[0]) && Joinable(left, right)
    ensures RowsInOrder(l, Appended(left.windows, right.windows))
  {
    hide ColumnsOk, MergeColumns, Within;
    var (a, b) := (left.windows[..|left.windows| - 1], right.windows[1..]);
    var (last, first) := (LastWindow(left.windows), right.windows[0]);
    var merged := Merged(last, first);
    MergedColumnsOk(l, last, first);
    ColumnsAscend(l, last);
    ColumnsAscend(l, first);
    MergeWithinEither(last.columns, first.columns);
    RowsPart(l, left.windows, 0, |left.windows| - 1);
    RowsPart(l, right.windows, 1, |right.windows|);
    assert RowsInOrder(l, [merged]);
    RowsThenRows(l, a, [merged]);
    RowsThenRows(l, a + [merged], b);
  }

  lemma {:induction false} MergeWithinEither(left: seq<nat>, right: seq<nat>)
    requires Ascending(left) && Ascending(right)
    ensures Within(right, left) ==> MergeColumns(left, right) == left
    ensures Within(left, right) ==> MergeColumns(left, right) == right
  {
    hide MergeColumns, Ascending;
    MergeWithin(left, right);
  }

  /** Combined windows are in order exactly when the bodies may follow one another. */
  lemma {:induction false} JoinsExactly(l: Layout, left: Body, right: Body)
    requires TablesRegular(l) && Tabular(l, left) && Tabular(l, right) && Precedes(left, right)
    ensures WindowsOrdered(l, JoinedWindows(left, right)) <==> Joinable(left, right)
    ensures Joinable(left, right) ==> RowsInOrder(l, JoinedWindows(left, right))
  {
    hide TablesRegular, Tabular, Precedes, ColumnsOk, MergeColumns, Within;
    JoinedAre(l, left, right);
    BodyRows(l, left);
    BodyRows(l, right);
    if left.windows != [] && right.windows != [] {
      RowsMeet(l, left, right, |left.windows| - 1, 0);
      var (last, first, all) := (LastWindow(left.windows), right.windows[0], Appended(left.windows, right.windows));
      var n := |left.windows|;
      if last.row == first.row {
        if Joinable(left, right) {
          MergedInOrder(l, left, right);
        } else if WindowsOrdered(l, all) {
          OrderedMerge(l, left, right);
        }
      } else {
        assert WindowsOrdered(l, all) ==> FollowsWindow(all[n - 1], all[n]);
        if Joinable(left, right) {
          RowsThenRows(l, left.windows, right.windows);
        }
      }
    } else {
      assert left.windows + [] == left.windows && [] + right.windows == right.windows;
    }
    if RowsInOrder(l, JoinedWindows(left, right)) {
      InOrderSteps(l, JoinedWindows(left, right));
    }
  }

  lemma {:induction false} InOrderSteps(l: Layout, windows: seq<TableWindow>)
    requires RowsInOrder(l, windows)
    ensures WindowsOrdered(l, windows)
  {
    hide ColumnsOk, FollowsWindow;
  }

  lemma {:induction false} OrderedMerge(l: Layout, left: Body, right: Body)
    requires RowsInOrder(l, left.windows) && RowsInOrder(l, right.windows) && left.windows != [] && right.windows != []
    requires SameRow(LastWindow(left.windows), right.windows[0]) && WindowsOrdered(l, Appended(left.windows, right.windows))
    ensures Joinable(left, right)
  {
    hide ColumnsOk, MergeColumns;
    var (last, first, all) := (LastWindow(left.windows), right.windows[0], Appended(left.windows, right.windows));
    var n := |left.windows|;
    MergedColumns(last.columns, first.columns);
    if n > 1 {
      assert FollowsWindow(all[n - 2], all[n - 1]) && FollowsWindow(left.windows[n - 2], left.windows[n - 1]);
    }
    if |right.windows| > 1 {
      assert FollowsWindow(all[n - 1], all[n]) && FollowsWindow(right.windows[0], right.windows[1]);
    }
  }

  lemma {:induction false} BodyRows(l: Layout, body: Body)
    requires Tabular(l, body)
    ensures RowsInOrder(l, body.windows)
  {
  }

  // ---- Combining

  lemma {:induction false} AppendedWidens(l: Layout, left: seq<TableWindow>, right: seq<TableWindow>)
    requires left != [] && right != [] && LastWindow(left).row == right[0].row ==> SameRow(LastWindow(left), right[0])
    ensures Widens(l, left, Appended(left, right)) && Widens(l, right, Appended(left, right))
  {
    hide MergeColumns;
    var all := Appended(left, right);
    if left != [] && right != [] {
      MergedColumns(LastWindow(left).columns, right[0].columns);
    }
    forall k | 0 <= k < |left| ensures WidenedIn(left[k], all) {
      assert WidenedBy(left[k], all[k]);
    }
    forall k | 0 <= k < |right| ensures WidenedIn(right[k], all) {
      assert WidenedBy(right[k], all[|all| - |right| + k]);
    }
  }

  lemma {:induction false} AppendedWitness(l: Layout, left: Body, right: Body, m: nat)
    requires left.windows != [] && right.windows != [] && LastWindow(left.windows).row == right.windows[0].row ==>
               SameRow(LastWindow(left.windows), right.windows[0])
    requires forall k :: 0 <= k < |left.windows| ==> Witness(l, left.windows[k], left.fragments)
    requires forall k :: 0 <= k < |right.windows| ==> Witness(l, right.windows[k], right.fragments)
    requires m < |Appended(left.windows, right.windows)|
    ensures Witness(l, Appended(left.windows, right.windows)[m], left.fragments + right.fragments)
  {
    hide MergeColumns, Witness;
    var (all, both) := (Appended(left.windows, right.windows), left.fragments + right.fragments);
    var shift := |all| - |right.windows|;
    if m < |left.windows| {
      if all[m] == left.windows[m] {
        WitnessIn(l, left.windows[m], left.fragments, both);
      } else {
        MergedColumns(LastWindow(left.windows).columns, right.windows[0].columns);
        WitnessIn(l, LastWindow(left.windows), left.fragments, both);
        WitnessWider(l, LastWindow(left.windows), all[m], both);
      }
    } else {
      assert all[m] == right.windows[m - shift];
      WitnessIn(l, right.windows[m - shift], right.fragments, both);
    }
  }

  /** What a body's shape says of one of its fragments. */
  lemma {:induction false} FragmentFalls(l: Layout, body: Body, i: nat)
    requires Tabular(l, body) && i < |body.fragments| && l.InTable(body.fragments[i].contribution.unit)
    ensures TableText(l, body.fragments[i].contribution.unit) && FallsIn(l, body.windows, body.fragments[i].contribution.unit)
  {
  }

  /** Combining bodies of which one may follow the other keeps the shape. */
  lemma {:induction false} CombinedTabular(l: Layout, left: Body, right: Body)
    requires TablesRegular(l) && Tabular(l, left) && Tabular(l, right) && Precedes(left, right)
    requires (l.rules.packing.ByContainer? ==> Compatible(l, left, right)) && Joinable(left, right)
    ensures Tabular(l, Combined(left, right))
  {
    hide l.Window, l.RowCells, l.SectionOf, l.KeyOf, l.Indexed, l.InTable, TablesRegular, ColumnsOk, Witness, FallsIn, TableText, RowsInOrder, Widens,
      AddWindows, Appended;
    BothAscend(left, right);
    var all := left.fragments + right.fragments;
    var windows := JoinedWindows(left, right);
    JoinsExactly(l, left, right);
    JoinedAre(l, left, right);
    LastMeets(l, left, right);
    AppendedWidens(l, left.windows, right.windows);
    forall m | 0 <= m < |windows| ensures Witness(l, windows[m], all) {
      AppendedWitness(l, left, right, m);
    }
    forall i | 0 <= i < |all|
      ensures l.Indexed(all[i].contribution.unit)
      ensures l.InTable(all[i].contribution.unit) ==> TableText(l, all[i].contribution.unit) && FallsIn(l, windows, all[i].contribution.unit)
    {
      CombinedFalls(l, left, right, i);
    }
    if l.rules.packing.ByContainer? {
      BothUnmixed(l, left, right);
    }
  }

  lemma {:induction false} LastMeets(l: Layout, left: Body, right: Body)
    requires TablesRegular(l) && Tabular(l, left) && Tabular(l, right) && Precedes(left, right)
    ensures left.windows != [] && right.windows != [] && LastWindow(left.windows).row == right.windows[0].row ==>
              SameRow(LastWindow(left.windows), right.windows[0])
  {
    hide TablesRegular, Tabular, Precedes;
    if left.windows != [] && right.windows != [] {
      RowsMeet(l, left, right, |left.windows| - 1, 0);
    }
  }

  lemma {:induction false} CombinedFalls(l: Layout, left: Body, right: Body, i: nat)
    requires Tabular(l, left) && Tabular(l, right) && i < |left.fragments| + |right.fragments|
    requires Widens(l, left.windows, JoinedWindows(left, right)) && Widens(l, right.windows, JoinedWindows(left, right))
    ensures
      var unit := (left.fragments + right.fragments)[i].contribution.unit;
      && l.Indexed(unit)
      && (l.InTable(unit) ==> TableText(l, unit) && FallsIn(l, JoinedWindows(left, right), unit))
  {
    hide l.Indexed, l.InTable, Witness, FallsIn, TableText, RowsInOrder, Widens, AddWindows;
    var unit := (left.fragments + right.fragments)[i].contribution.unit;
    if l.InTable(unit) {
      if i < |left.fragments| {
        FallsWider(l, left.windows, JoinedWindows(left, right), unit);
      } else {
        assert unit == right.fragments[i - |left.fragments|].contribution.unit;
        FallsWider(l, right.windows, JoinedWindows(left, right), unit);
      }
    }
  }

  lemma {:induction false} BothUnmixed(l: Layout, left: Body, right: Body)
    requires l.rules.packing.ByContainer? && Compatible(l, left, right) && Unmixed(l, left) && Unmixed(l, right)
    ensures Unmixed(l, Combined(left, right))
  {
    hide l.SectionOf, l.KeyOf, l.InTable;
    if left.windows == [] {
      assert AddWindows(left.windows, right.windows, 0) == left.windows;
    }
    forall i | 0 <= i < |left.fragments + right.fragments| && left.windows != []
      ensures l.InTable((left.fragments + right.fragments)[i].contribution.unit)
    {
      if i >= |left.fragments| {
        assert (left.fragments + right.fragments)[i] == right.fragments[i - |left.fragments|];
      }
    }
  }

  // ---- Atoms

  /** A unit's own cell and its whole row, as windows. */
  lemma {:induction false} WindowBoth(l: Layout, unit: nat)
    ensures l.Window(unit, true).Ok? <==> l.Window(unit, false).Ok?
    ensures l.Window(unit, true).Ok? ==> (l.Window(unit, true).value.Some? <==> l.Window(unit, false).value.Some?)
    ensures l.Window(unit, false).Ok? ==> (l.Window(unit, false).value.Some? <==> l.InTable(unit))
    ensures l.Window(unit, false).Ok? && l.Window(unit, false).value.Some? ==>
              var (whole, own) := (l.Window(unit, true).value.value, OwnWindow(l, unit));
              && SameRow(own, whole) && |own.columns| == 1
              && l.RowCells(whole.row).Ok? && own.columns[0] < |l.RowCells(whole.row).value|
              && whole.columns == seq(|l.RowCells(whole.row).value|, i => i)
  {
    hide l.RowCells;
  }

  lemma {:induction false} WholeRowFalls(l: Layout, unit: nat)
    requires CellUnit(l, unit)
    ensures l.Window(unit, true).Ok? && l.Window(unit, true).value.Some?
    ensures
      var whole := l.Window(unit, true).value.value;
      Falls(l, whole, unit) && ColumnsOk(l, whole)
  {
    hide l.Window, l.RowCells;
    WindowBoth(l, unit);
    var whole := l.Window(unit, true).value.value;
    assert whole.columns[ColumnOf(l, unit)] == ColumnOf(l, unit);
  }

  lemma {:induction false} AtomTabular(l: Layout, atom: Body)
    requires TablesRegular(l) && RowsRegular(l) && IsAtom(l, atom)
    ensures RowBody(l, atom)
  {
    hide l.Window, l.RowCells, l.GroupOf, l.Indexed, l.InTable, CellUnit, RowRegular, InTableOrder, TablesRegular, FallsIn, Witness;
    var first := atom.fragments[0].contribution.unit;
    assert WholeFragment(l, atom.fragments[0]);
    WindowBoth(l, first);
    forall i | 0 <= i < |atom.fragments|
      ensures l.Indexed(atom.fragments[i].contribution.unit)
      ensures l.InTable(atom.fragments[i].contribution.unit) == l.InTable(first)
    {
      AtomTogether(l, atom, i);
    }
    if atom.windows != [] {
      forall i | 0 <= i < |atom.fragments|
        ensures TableText(l, atom.fragments[i].contribution.unit) && FallsIn(l, atom.windows, atom.fragments[i].contribution.unit)
      {
        AtomFalls(l, atom, i);
        FallsOne(l, atom.windows, 0, atom.fragments[i].contribution.unit);
      }
      AtomTogether(l, atom, 0);
      InTableIsCell(l, first);
      WholeRowFalls(l, first);
      AtomFalls(l, atom, 0);
      WitnessOne(l, atom.windows[0], atom.fragments, 0);
      assert RowsInOrder(l, atom.windows);
    }
  }

  lemma {:induction false} FallsOne(l: Layout, windows: seq<TableWindow>, k: nat, unit: nat)
    requires k < |windows| && Falls(l, windows[k], unit)
    ensures FallsIn(l, windows, unit)
  {
  }

  lemma {:induction false} WitnessOne(l: Layout, window: TableWindow, fragments: seq<Fragment>, i: nat)
    requires i < |fragments| && Falls(l, window, fragments[i].contribution.unit)
    ensures Witness(l, window, fragments)
  {
  }

  lemma {:induction false} InTableIsCell(l: Layout, unit: nat)
    requires TablesRegular(l) && unit < |l.units| && l.Indexed(unit) && l.InTable(unit)
    ensures CellUnit(l, unit)
  {
  }

  lemma {:induction false} AtomTogether(l: Layout, atom: Body, i: nat)
    requires TablesRegular(l) && IsAtom(l, atom) && i < |atom.fragments|
    ensures l.Indexed(atom.fragments[i].contribution.unit) && atom.fragments[i].contribution.unit < |l.units|
    ensures l.InTable(atom.fragments[i].contribution.unit) == l.InTable(atom.fragments[0].contribution.unit)
  {
    hide l.Window, l.RowCells, l.GroupOf, l.InTable, CellUnit, InTableOrder;
    assert WholeFragment(l, atom.fragments[0]) && WholeFragment(l, atom.fragments[i]);
    assert SameGroup(l, atom.fragments[0].contribution.unit, atom.fragments[i].contribution.unit);
  }

  lemma {:induction false} AtomFalls(l: Layout, atom: Body, i: nat)
    requires TablesRegular(l) && RowsRegular(l) && IsAtom(l, atom) && i < |atom.fragments| && atom.windows != []
    ensures TableText(l, atom.fragments[i].contribution.unit) && Falls(l, atom.windows[0], atom.fragments[i].contribution.unit)
  {
    hide l.Window, l.RowCells, l.GroupOf, l.InTable, CellUnit, InTableOrder, CellColumn;
    var first, unit := atom.fragments[0].contribution.unit, atom.fragments[i].contribution.unit;
    assert WholeFragment(l, atom.fragments[0]) && WholeFragment(l, atom.fragments[i]);
    assert first <= unit && SameGroup(l, first, unit);
    assert RowRegular(l, first, unit);
    WindowBoth(l, first);
    AtomTogether(l, atom, i);
    InTableIsCell(l, unit);
    WholeRowFalls(l, unit);
  }

  // ---- Refining and splitting

  /** A body in the row of another, or both outside tables. */
  ghost predicate SamePlace(part: Body, body: Body) {
    && (part.windows == [] <==> body.windows == [])
    && (body.windows != [] ==> |part.windows| == 1 && SameRow(part.windows[0], body.windows[0]))
  }

  lemma {:induction false} OnlyWindow(l: Layout, body: Body, i: nat)
    requires RowBody(l, body) && body.windows != [] && i < |body.fragments|
    ensures TableText(l, body.fragments[i].contribution.unit) && Falls(l, body.windows[0], body.fragments[i].contribution.unit)
  {
    hide Falls, TableText, Witness, RowsInOrder, l.InTable, l.Indexed;
    assert FallsIn(l, body.windows, body.fragments[i].contribution.unit);
  }

  /** A body of texts that fall in one window. */
  lemma {:induction false} RowBodyOf(l: Layout, body: Body)
    requires body.fragments != [] && UnitsAscend(body.fragments) && |body.windows| == 1 && ColumnsOk(l, body.windows[0])
    requires forall i :: 0 <= i < |body.fragments| ==>
               TableText(l, body.fragments[i].contribution.unit) && Falls(l, body.windows[0], body.fragments[i].contribution.unit)
    ensures RowBody(l, body)
  {
    hide Falls, ColumnsOk, l.InTable, l.Indexed, TableText, FallsIn, Witness;
    WitnessOne(l, body.windows[0], body.fragments, 0);
    forall i | 0 <= i < |body.fragments|
      ensures FallsIn(l, body.windows, body.fragments[i].contribution.unit)
      ensures l.Indexed(body.fragments[i].contribution.unit) && l.InTable(body.fragments[i].contribution.unit)
    {
      FallsOne(l, body.windows, 0, body.fragments[i].contribution.unit);
      TextIs(l, body.fragments[i].contribution.unit);
    }
  }

  lemma {:induction false} TextIs(l: Layout, unit: nat)
    requires TableText(l, unit)
    ensures l.Indexed(unit) && l.InTable(unit)
  {
  }

  /** A body without windows, of text outside tables. */
  lemma {:induction false} TextBodyOf(l: Layout, body: Body)
    requires body.fragments != [] && UnitsAscend(body.fragments) && body.windows == []
    requires forall i :: 0 <= i < |body.fragments| ==>
               l.Indexed(body.fragments[i].contribution.unit) && !l.InTable(body.fragments[i].contribution.unit)
    ensures RowBody(l, body)
  {
  }

  lemma {:induction false} FragmentTabular(l: Layout, body: Body, i: nat)
    requires TablesRegular(l) && RowBody(l, body) && i < |body.fragments|
    requires FragmentBody(l, body.fragments[i]).Ok?
    ensures
      var part := FragmentBody(l, body.fragments[i]).value;
      RowBody(l, part) && SamePlace(part, body)
  {
    hide l.Window, l.RowCells, l.Indexed, l.InTable, TablesRegular, RowBody, CellUnit, Falls, ColumnsOk;
    var unit, part := body.fragments[i].contribution.unit, FragmentBody(l, body.fragments[i]).value;
    WindowBoth(l, unit);
    BodyIndexed(l, body, i);
    if body.windows != [] {
      OnlyWindow(l, body, i);
      OwnFalls(l, unit);
      OwnRow(l, body.windows[0], unit);
      assert part.windows == [OwnWindow(l, unit)];
      RowBodyOf(l, part);
    } else {
      TextBodyOf(l, part);
    }
  }

  lemma {:induction false} BodyIndexed(l: Layout, body: Body, i: nat)
    requires RowBody(l, body) && i < |body.fragments|
    ensures l.Indexed(body.fragments[i].contribution.unit)
    ensures body.windows == [] ==> !l.InTable(body.fragments[i].contribution.unit)
  {
    hide l.InTable, l.Indexed, RowsInOrder, Witness, TableText;
  }

  lemma {:induction false} OwnRow(l: Layout, window: TableWindow, unit: nat)
    requires Falls(l, window, unit)
    ensures SameRow(OwnWindow(l, unit), window)
  {
  }

  lemma {:induction false} OwnFalls(l: Layout, unit: nat)
    requires CellUnit(l, unit)
    ensures Falls(l, OwnWindow(l, unit), unit) && ColumnsOk(l, OwnWindow(l, unit))
  {
    hide l.Window, l.RowCells;
    var own := OwnWindow(l, unit);
    assert own.columns[0] in own.columns;
  }

  lemma {:induction false} FragmentsInAre(l: Layout, fragments: seq<Fragment>, block: Id, n: nat)
    requires n <= |fragments| && UnitsAscend(fragments)
    ensures UnitsAscend(FragmentsIn(l, fragments, block, n))
    ensures forall f :: f in FragmentsIn(l, fragments, block, n) ==> f in fragments[..n] && l.InBlock(f.contribution.unit, block)
  {
    if n > 0 {
      FragmentsInAre(l, fragments, block, n - 1);
      assert fragments[..n] == fragments[..n - 1] + [fragments[n - 1]];
      var before := FragmentsIn(l, fragments, block, n - 1);
      forall i | 0 <= i < |before| ensures before[i].contribution.unit <= fragments[n - 1].contribution.unit {
        assert before[i] in fragments[..n - 1];
        var k :| 0 <= k < n - 1 && fragments[..n - 1][k] == before[i];
        assert fragments[k] == before[i];
      }
    }
  }

  /** A cell's fragments fall in their own column of the row. */
  lemma {:induction false} CellFalls(l: Layout, window: TableWindow, column: nat, unit: nat)
    requires Falls(l, window, unit) && l.RowCells(window.row).Ok? && column < |l.RowCells(window.row).value|
    requires l.InBlock(unit, l.RowCells(window.row).value[column].id)
    ensures Falls(l, window.(columns := [column]), unit)
  {
    hide l.Window, l.RowCells;
    var cells := l.RowCells(window.row).value;
    assert cells[ColumnOf(l, unit)].id == cells[column].id;
    assert ColumnOf(l, unit) == column;
  }

  lemma {:induction false} ColumnTabular(l: Layout, body: Body, column: nat)
    requires RowBody(l, body) && body.windows != []
    requires l.RowCells(body.windows[0].row).Ok? && column < |l.RowCells(body.windows[0].row).value|
    requires FragmentsIn(l, body.fragments, l.RowCells(body.windows[0].row).value[column].id, |body.fragments|) != []
    ensures
      var cell := l.RowCells(body.windows[0].row).value[column].id;
      var part := Body(FragmentsIn(l, body.fragments, cell, |body.fragments|), [body.windows[0].(columns := [column])]);
      RowBody(l, part) && SamePlace(part, body)
  {
    hide l.Window, l.RowCells, l.Indexed, l.InTable, CellUnit, l.InBlock, Falls, TableText, FallsIn, Witness, RowsInOrder;
    var window, cell := body.windows[0], l.RowCells(body.windows[0].row).value[column].id;
    var fragments := FragmentsIn(l, body.fragments, cell, |body.fragments|);
    var part := Body(fragments, [window.(columns := [column])]);
    FragmentsInAre(l, body.fragments, cell, |body.fragments|);
    forall i | 0 <= i < |fragments|
      ensures TableText(l, fragments[i].contribution.unit)
      ensures Falls(l, part.windows[0], fragments[i].contribution.unit)
    {
      assert fragments[i] in fragments;
      var k :| 0 <= k < |body.fragments| && body.fragments[k] == fragments[i];
      OnlyWindow(l, body, k);
      CellFalls(l, window, column, fragments[i].contribution.unit);
    }
    assert ColumnsOk(l, part.windows[0]);
    RowBodyOf(l, part);
  }

  ghost predicate AllTabular(l: Layout, parts: seq<Body>, body: Body) {
    forall i :: 0 <= i < |parts| ==> RowBody(l, parts[i]) && SamePlace(parts[i], body)
  }

  lemma {:induction false} ColumnsTabular(l: Layout, body: Body, cells: seq<Block>, n: nat)
    requires RowBody(l, body) && body.windows != [] && l.RowCells(body.windows[0].row) == Ok(cells)
    requires n <= |body.windows[0].columns| && ColumnBodies(l, body, body.windows[0], cells, n).Ok?
    ensures AllTabular(l, ColumnBodies(l, body, body.windows[0], cells, n).value, body)
  {
    hide RowBody, FragmentsIn, l.RowCells;
    if n > 0 {
      ColumnsTabular(l, body, cells, n - 1);
      var column := body.windows[0].columns[n - 1];
      if FragmentsIn(l, body.fragments, cells[column].id, |body.fragments|) != [] {
        ColumnTabular(l, body, column);
      }
    }
  }

  lemma {:induction false} FragmentsTabular(l: Layout, body: Body, n: nat)
    requires TablesRegular(l) && RowBody(l, body)
    requires n <= |body.fragments| && FragmentBodies(l, body.fragments, n).Ok?
    ensures AllTabular(l, FragmentBodies(l, body.fragments, n).value, body)
  {
    hide RowBody, TablesRegular, FragmentBody;
    if n > 0 {
      FragmentsTabular(l, body, n - 1);
      FragmentTabular(l, body, n - 1);
    }
  }

  /** Refining keeps the shape, and every smaller body stays in its row. */
  lemma {:induction false} RefinedTabular(l: Layout, body: Body)
    requires TablesRegular(l) && RowBody(l, body)
    requires Refined(l, body).Ok? && Refined(l, body).value.Some?
    ensures AllTabular(l, Refined(l, body).value.value, body)
  {
    hide Tabular, TablesRegular, ColumnBodies, FragmentBodies, l.RowCells;
    if Wide(body) && Columns(l, body).value != [] {
      var cells := l.RowCells(body.windows[0].row).value;
      ColumnsTabular(l, body, cells, |body.windows[0].columns|);
    } else {
      FragmentsTabular(l, body, |body.fragments|);
    }
  }

  /** A body of the same units and windows has the same shape. */
  lemma {:induction false} SameShape(l: Layout, a: Body, b: Body)
    requires Tabular(l, a) && b.windows == a.windows && |b.fragments| == |a.fragments|
    requires forall i :: 0 <= i < |a.fragments| ==> b.fragments[i].contribution.unit == a.fragments[i].contribution.unit
    ensures Tabular(l, b)
  {
    hide Falls, TableText, l.Indexed, l.InTable, ColumnsOk;
    forall k | 0 <= k < |a.windows| ensures Witness(l, b.windows[k], b.fragments) {
      assert Witness(l, a.windows[k], a.fragments);
      var i :| 0 <= i < |a.fragments| && Falls(l, a.windows[k], a.fragments[i].contribution.unit);
      assert Falls(l, b.windows[k], b.fragments[i].contribution.unit);
    }
    forall i | 0 <= i < |b.fragments| ensures b.fragments[i].contribution.unit == a.fragments[i].contribution.unit {
    }
  }
}
