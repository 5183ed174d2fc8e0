/** Joining small drafts: which joins spoil the table rows of a chunk, and the layouts where none does. */
module Absorbing {
  import opened Common
  import opened Ranges
  import opened Brackets
  import opened Units
  import opened Layouts
  import opened Preparation
  import opened Splitting
  import opened Conservation
  import opened Coverage
  import opened Refining
  import opened Atoms
  import opened Packing
  import opened Tables
  import opened TableTurns
  import opened Replay

  // ---- What absorbing needs of tables

  /** Whether text between two units shows a column of a row. */
  ghost predicate ColumnShown(l: Layout, from: nat, to: nat, row: Id, column: nat) {
    exists v :: from <= v <= to && RowText(l, v, row, column)
  }

  ghost predicate RowText(l: Layout, unit: nat, row: Id, column: nat) {
    TableText(l, unit) && OwnWindow(l, unit).row == row && ColumnOf(l, unit) == column
  }

  ghost predicate InRowOf(l: Layout, unit: nat, a: Id, b: Id) {
    TableText(l, unit) && OwnWindow(l, unit).row in {a, b}
  }

  /**
   * From i on a row ends over the very columns that the next row shows up to j, and k is text of
   * that next row in another column: a draft from i to j and one with k would be joined.
   */
  ghost predicate ClashAt(l: Layout, i: nat, j: nat, k: nat) {
    && i <= j < k < |l.units| && TableText(l, i) && TableText(l, j) && TableText(l, k)
    && var (a, b) := (OwnWindow(l, i), OwnWindow(l, j));
       && a.table == b.table && a.row != b.row && OwnWindow(l, k).row == b.row
       && (forall u :: i <= u <= j && l.Indexed(u) ==> InRowOf(l, u, a.row, b.row))
       && (forall c: nat :: ColumnShown(l, i, j, a.row, c) <==> ColumnShown(l, i, j, b.row, c))
       && !ColumnShown(l, i, j, b.row, ColumnOf(l, k))
  }

  ghost predicate NoClash(l: Layout) {
    forall i, j, k :: 0 <= i <= j < k < |l.units| ==> !ClashAt(l, i, j, k)
  }

  /** Every cell of a row that holds text holds some. */
  ghost predicate Filled(l: Layout) {
    forall u: nat, c: nat :: FilledAt(l, u, c)
  }

  ghost predicate FilledAt(l: Layout, unit: nat, c: nat) {
    TableText(l, unit) && c < |CellsOfRow(l, OwnWindow(l, unit).row)| ==> exists v: nat :: RowText(l, v, OwnWindow(l, unit).row, c)
  }

  /** Rows without empty cells do not clash. */
  lemma {:induction false} FilledDoNotClash(l: Layout)
    requires TablesRegular(l) && EvenRows(l) && Filled(l)
    ensures NoClash(l)
  {
    hide TablesRegular, EvenRows, Filled, ClashAt;
    forall i, j, k | 0 <= i <= j < k < |l.units| && ClashAt(l, i, j, k) ensures false {
      FilledHere(l, i, j, k);
    }
  }

  lemma {:induction false} FilledHere(l: Layout, i: nat, j: nat, k: nat)
    requires TablesRegular(l) && EvenRows(l) && Filled(l)
    ensures !ClashAt(l, i, j, k)
  {
    hide l.Window, l.RowCells, l.Indexed, l.InTable, TablesRegular, EvenRows;
    if ClashAt(l, i, j, k) {
      var (a, b, c) := (OwnWindow(l, i).row, OwnWindow(l, j).row, ColumnOf(l, k));
      EvenHere(l, i, j);
      CellColumns(l, k);
      assert FilledAt(l, i, c);
      var v: nat :| RowText(l, v, a, c);
      ColumnsInOrder(l, i, j);
      ColumnsInOrder(l, j, v);
      ColumnsInOrder(l, v, i);
      assert RowText(l, i, a, ColumnOf(l, i));
      assert ColumnShown(l, i, j, b, ColumnOf(l, i));
      var w :| i <= w <= j && RowText(l, w, b, ColumnOf(l, i));
      ColumnsInOrder(l, w, k);
    }
  }

  /** Two texts, one after the other: of one row in column order, of one table in row order. */
  lemma {:induction false} ColumnsInOrder(l: Layout, u: nat, v: nat)
    requires TablesRegular(l) && TableText(l, u) && TableText(l, v)
    ensures
      var (a, b) := (OwnWindow(l, u), OwnWindow(l, v));
      && (u <= v && a.row == b.row ==> ColumnOf(l, u) <= ColumnOf(l, v))
      && (u <= v && a.table == b.table && a.row != b.row ==> a.rowIndex < b.rowIndex)
      && (a.row == b.row ==> a.table == b.table && a.rowIndex == b.rowIndex)
  {
    hide l.Window, l.RowCells, l.Indexed, l.InTable, CellUnit, DisjointRows, SameGroup;
    TextInLayout(l, u);
    TextInLayout(l, v);
    assert InTableOrder(l, if u <= v then u else v, if u <= v then v else u);
  }

  lemma {:induction false} CellColumns(l: Layout, unit: nat)
    requires CellUnit(l, unit)
    ensures ColumnOf(l, unit) < |CellsOfRow(l, OwnWindow(l, unit).row)|
  {
    hide l.Window, l.RowCells;
  }

  // ---- A draft holds every indexed unit between two of its own

  ghost predicate HasUnit(body: Body, unit: nat) {
    exists i :: 0 <= i < |body.fragments| && body.fragments[i].contribution.unit == unit
  }

  ghost predicate Contiguous(l: Layout, body: Body) {
    forall a, b, u: nat ::
      0 <= a < |body.fragments| && 0 <= b < |body.fragments| && l.Indexed(u) ==>
        body.fragments[a].contribution.unit <= u <= body.fragments[b].contribution.unit ==> HasUnit(body, u)
  }

  // ---- A join that spoils the rows shows a clash

  /** The first fragment that falls in a window. */
  lemma {:induction false} FirstFalling(l: Layout, body: Body, window: TableWindow, n: nat) returns (first: nat)
    requires n < |body.fragments| && Falls(l, window, body.fragments[n].contribution.unit)
    ensures first <= n && Falls(l, window, body.fragments[first].contribution.unit)
    ensures forall i :: 0 <= i < first ==> !Falls(l, window, body.fragments[i].contribution.unit)
  {
    hide Falls;
    first := 0;
    while !Falls(l, window, body.fragments[first].contribution.unit)
      invariant first <= n && forall i :: 0 <= i < first ==> !Falls(l, window, body.fragments[i].contribution.unit)
      decreases n - first
    {
      first := first + 1;
    }
  }

  /** The last fragment that falls in a window. */
  lemma {:induction false} LastFalling(l: Layout, body: Body, window: TableWindow, n: nat) returns (last: nat)
    requires n < |body.fragments| && Falls(l, window, body.fragments[n].contribution.unit)
    ensures n <= last < |body.fragments| && Falls(l, window, body.fragments[last].contribution.unit)
    ensures forall i :: last < i < |body.fragments| ==> !Falls(l, window, body.fragments[i].contribution.unit)
  {
    hide Falls;
    last := |body.fragments| - 1;
    while !Falls(l, window, body.fragments[last].contribution.unit)
      invariant n <= last < |body.fragments|
      invariant forall i :: last < i < |body.fragments| ==> !Falls(l, window, body.fragments[i].contribution.unit)
      decreases last
    {
      last := last - 1;
    }
  }

  /** A text of the body in a row that a window shows falls in that window. */
  lemma {:induction false} FallsOfRow(l: Layout, body: Body, k: nat, i: nat)
    requires TablesRegular(l) && Tabular(l, body) && k < |body.windows| && i < |body.fragments|
    requires TableText(l, body.fragments[i].contribution.unit)
    requires OwnWindow(l, body.fragments[i].contribution.unit).row == body.windows[k].row
    ensures Falls(l, body.windows[k], body.fragments[i].contribution.unit)
  {
    hide l.Window, l.RowCells, l.Indexed, TablesRegular, RowsInOrder, Witness, TableText, Tabular;
    var unit := body.fragments[i].contribution.unit;
    TextIs(l, unit);
    FragmentFalls(l, body, i);
    var m :| 0 <= m < |body.windows| && Falls(l, body.windows[m], unit);
    OwnRow(l, body.windows[m], unit);
    if m < k {
      RowsDiffer(l, body, m, k);
    } else if k < m {
      RowsDiffer(l, body, k, m);
    }
  }

  /** The stretch of units a body holds of two of its rows. */
  ghost predicate Stretches(l: Layout, body: Body, a: TableWindow, b: TableWindow, from: nat, to: nat) {
    && from <= to < |body.fragments| && Falls(l, a, body.fragments[from].contribution.unit) && Falls(l, b, body.fragments[to].contribution.unit)
    && (forall i :: 0 <= i < |body.fragments| && Falls(l, a, body.fragments[i].contribution.unit) ==> from <= i <= to)
    && forall i :: 0 <= i < |body.fragments| && Falls(l, b, body.fragments[i].contribution.unit) ==> from <= i <= to
  }

  lemma {:induction false} RowBeforeRow(l: Layout, body: Body, k: nat, x: nat, y: nat)
    requires TablesRegular(l) && Tabular(l, body) && k + 1 < |body.windows| && x < |body.fragments| && y < |body.fragments|
    requires Falls(l, body.windows[k], body.fragments[x].contribution.unit) && Falls(l, body.windows[k + 1], body.fragments[y].contribution.unit)
    ensures x < y
  {
    hide l.Window, l.RowCells, l.Indexed, l.InTable, Witness, CellUnit, DisjointRows, SameGroup, ColumnsOk, FallsIn, TableText;
    var u, v := body.fragments[x].contribution.unit, body.fragments[y].contribution.unit;
    FallsText(l, body, k, x);
    FallsText(l, body, k + 1, y);
    TextInLayout(l, u);
    TextInLayout(l, v);
    assert FollowsWindow(body.windows[k], body.windows[k + 1]);
    assert v <= u ==> InTableOrder(l, v, u);
  }

  lemma {:induction false} FallsText(l: Layout, body: Body, k: nat, x: nat)
    requires Tabular(l, body) && k < |body.windows| && x < |body.fragments| && Falls(l, body.windows[k], body.fragments[x].contribution.unit)
    ensures TableText(l, body.fragments[x].contribution.unit)
  {
    hide l.Window, l.RowCells, l.InTable, Witness, CellUnit, Falls, RowsInOrder, FallsIn, TableText;
    FallsInTable(l, body.windows[k], body.fragments[x].contribution.unit);
  }

  lemma {:induction false} RowsStretch(l: Layout, body: Body, k: nat) returns (from: nat, to: nat)
    requires TablesRegular(l) && Tabular(l, body) && k + 1 < |body.windows|
    ensures from <= to < |body.fragments| && Stretches(l, body, body.windows[k], body.windows[k + 1], from, to)
  {
    hide Falls, TablesRegular, Tabular;
    var x := WindowText(l, body, k);
    var y := WindowText(l, body, k + 1);
    from := FirstFalling(l, body, body.windows[k], x);
    to := LastFalling(l, body, body.windows[k + 1], y);
    RowBeforeRow(l, body, k, from, to);
    forall i | 0 <= i < |body.fragments| && Falls(l, body.windows[k], body.fragments[i].contribution.unit) ensures from <= i <= to {
      RowBeforeRow(l, body, k, i, to);
    }
    forall i | 0 <= i < |body.fragments| && Falls(l, body.windows[k + 1], body.fragments[i].contribution.unit) ensures from <= i <= to {
      RowBeforeRow(l, body, k, from, i);
    }
  }

  /** In that stretch a row's columns with text are those of its window, when the window shows no other. */
  lemma {:induction false} StretchColumns(l: Layout, body: Body, k: nat, m: nat, from: nat, to: nat, c: nat)
    requires TablesRegular(l) && Tabular(l, body) && Contiguous(l, body) && k + 1 < |body.windows| && m in {k, k + 1}
    requires Stretches(l, body, body.windows[k], body.windows[k + 1], from, to) && ExactWindow(l, body.fragments, body.windows[m])
    ensures ColumnShown(l, body.fragments[from].contribution.unit, body.fragments[to].contribution.unit, body.windows[m].row, c)
       <==> c in body.windows[m].columns
  {
    hide l.Window, l.RowCells, l.Indexed, l.InTable, TablesRegular, Tabular, CellUnit, Contiguous, TableText;
    var (w, i, j) := (body.windows[m], body.fragments[from].contribution.unit, body.fragments[to].contribution.unit);
    Ascends(l, body);
    if c in w.columns {
      assert ShowsColumn(l, body.fragments, w, c);
      var x :| 0 <= x < |body.fragments| && Falls(l, w, body.fragments[x].contribution.unit) && ColumnOf(l, body.fragments[x].contribution.unit) == c;
      FallsText(l, body, m, x);
      assert RowText(l, body.fragments[x].contribution.unit, w.row, c);
    }
    if ColumnShown(l, i, j, w.row, c) {
      var v :| i <= v <= j && RowText(l, v, w.row, c);
      var x := UnitHere(l, body, from, to, v);
      FallsOfRow(l, body, m, x);
    }
  }

  lemma {:induction false} Ascends(l: Layout, body: Body)
    requires Tabular(l, body)
    ensures UnitsAscend(body.fragments)
  {
  }

  lemma {:induction false} UnitHere(l: Layout, body: Body, from: nat, to: nat, v: nat) returns (x: nat)
    requires Contiguous(l, body) && from < |body.fragments| && to < |body.fragments| && TableText(l, v)
    requires body.fragments[from].contribution.unit <= v <= body.fragments[to].contribution.unit
    ensures x < |body.fragments| && body.fragments[x].contribution.unit == v
  {
    hide l.Window, l.Indexed, l.InTable, CellUnit;
    assert HasUnit(body, v);
    x :| 0 <= x < |body.fragments| && body.fragments[x].contribution.unit == v;
  }

  /** Every indexed unit of the stretch lies in one of the two rows. */
  lemma {:induction false} StretchRows(l: Layout, body: Body, k: nat, from: nat, to: nat, u: nat)
    requires TablesRegular(l) && Tabular(l, body) && Contiguous(l, body) && k + 1 < |body.windows|
    requires Stretches(l, body, body.windows[k], body.windows[k + 1], from, to) && l.Indexed(u)
    requires body.fragments[from].contribution.unit <= u <= body.fragments[to].contribution.unit
    ensures InRowOf(l, u, body.windows[k].row, body.windows[k + 1].row)
  {
    hide l.Window, l.RowCells, l.Indexed, l.InTable, Tabular, CellUnit, DisjointRows, SameGroup, Contiguous, TableText, CellsHoldTables, InTableOrder;
    var (i, j) := (body.fragments[from].contribution.unit, body.fragments[to].contribution.unit);
    FallsText(l, body, k, from);
    FallsText(l, body, k + 1, to);
    TextInLayout(l, j);
    BodyRows(l, body);
    assert FollowsWindow(body.windows[k], body.windows[k + 1]);
    assert TableRun(l, i, u, j);
    var x := UnitHere(l, body, from, to, u);
    TextIs(l, u);
    FragmentFalls(l, body, x);
    var m :| 0 <= m < |body.windows| && Falls(l, body.windows[m], u);
    RowsAround(l, i, u, j);
    assert m < k ==> FollowsWindow(body.windows[m], body.windows[k]);
    assert m > k + 1 ==> FollowsWindow(body.windows[k + 1], body.windows[m]);
  }

  lemma {:induction false} RowsAround(l: Layout, i: nat, u: nat, j: nat)
    requires TablesRegular(l) && i <= u <= j < |l.units| && TableText(l, i) && TableText(l, u) && TableText(l, j)
    requires OwnWindow(l, i).table == OwnWindow(l, u).table == OwnWindow(l, j).table
    ensures OwnWindow(l, i).rowIndex <= OwnWindow(l, u).rowIndex <= OwnWindow(l, j).rowIndex
  {
    hide l.Window, l.RowCells, l.Indexed, l.InTable, CellUnit, DisjointRows, SameGroup;
    assert InTableOrder(l, i, u) && InTableOrder(l, u, j);
  }

  /** Drafts of one row, of which the first has other rows too, that would not join in order show a clash. */
  lemma {:induction false} SpoiledClashes(l: Layout, left: Body, right: Body, c: nat) returns (i: nat, j: nat, k: nat)
    requires TablesRegular(l) && EvenRows(l) && DraftTabular(l, left) && DraftTabular(l, right) && Precedes(left, right)
    requires Contiguous(l, left) && |left.windows| > 1 && right.windows != [] && SharedExact(l, left.windows, right)
    requires LastWindow(left.windows).row == right.windows[0].row && c in right.windows[0].columns && c !in LastWindow(left.windows).columns
    ensures ClashAt(l, i, j, k)
  {
    hide l.Window, l.RowCells, l.Indexed, l.InTable, TablesRegular, EvenRows, Tabular, CellUnit, Contiguous, TableText, ExactWindow, Full,
      Precedes, Stretches, Falls;
    var n := |left.windows| - 2;
    var (prev, last, first) := (left.windows[n], left.windows[n + 1], right.windows[0]);
    LastAreExact(l, left, right, c);
    var from, to := RowsStretch(l, left, n);
    i, j := left.fragments[from].contribution.unit, left.fragments[to].contribution.unit;
    assert last.row in RowsIn(left.windows);
    assert ExactWindow(l, right.fragments, first);
    var x := ColumnText(l, right, 0, c);
    k := right.fragments[x].contribution.unit;
    StretchEnds(l, left, n, from, to);
    LaterUnit(left, right, to, x);
    BodyRows(l, left);
    PrevLike(l, left, n);
    forall u | i <= u <= j && l.Indexed(u) ensures InRowOf(l, u, prev.row, last.row) {
      StretchRows(l, left, n, from, to, u);
    }
    forall d: nat ensures ColumnShown(l, i, j, prev.row, d) <==> ColumnShown(l, i, j, last.row, d) {
      StretchColumns(l, left, n, n, from, to, d);
      StretchColumns(l, left, n, n + 1, from, to, d);
    }
    StretchColumns(l, left, n, n + 1, from, to, c);
    NotShownLater(l, i, j, k, last.row, c);
    TextInLayout(l, k);
  }

  lemma {:induction false} NotShownLater(l: Layout, i: nat, j: nat, k: nat, row: Id, c: nat)
    requires j <= k && TableText(l, j) && i <= j && OwnWindow(l, j).row == row && RowText(l, k, row, c) && !ColumnShown(l, i, j, row, c)
    ensures j < k
  {
    hide l.Window, l.RowCells, l.Indexed, l.InTable, CellUnit;
    assert j == k ==> !RowText(l, j, row, c);
  }

  lemma {:induction false} LaterUnit(left: Body, right: Body, to: nat, x: nat)
    requires Precedes(left, right) && to < |left.fragments| && x < |right.fragments|
    ensures left.fragments[to].contribution.unit <= right.fragments[x].contribution.unit
  {
  }

  lemma {:induction false} PrevLike(l: Layout, body: Body, n: nat)
    requires TablesRegular(l) && Tabular(l, body) && n + 1 < |body.windows|
    ensures FollowsWindow(body.windows[n], body.windows[n + 1]) && body.windows[n].row != body.windows[n + 1].row
  {
    hide TablesRegular, Witness, ColumnsOk, FallsIn, TableText;
    RowsDiffer(l, body, n, n + 1);
  }

  lemma {:induction false} StretchEnds(l: Layout, body: Body, n: nat, from: nat, to: nat)
    requires Tabular(l, body) && n + 1 < |body.windows| && Stretches(l, body, body.windows[n], body.windows[n + 1], from, to)
    ensures
      var (i, j) := (body.fragments[from].contribution.unit, body.fragments[to].contribution.unit);
      && i <= j && TableText(l, i) && TableText(l, j)
      && SameRow(OwnWindow(l, i), body.windows[n]) && SameRow(OwnWindow(l, j), body.windows[n + 1])
  {
    hide l.Window, l.RowCells, l.Indexed, l.InTable, Tabular, CellUnit, TableText, Falls;
    FallsText(l, body, n, from);
    FallsText(l, body, n + 1, to);
    OwnRow(l, body.windows[n], body.fragments[from].contribution.unit);
    OwnRow(l, body.windows[n + 1], body.fragments[to].contribution.unit);
    Ascends(l, body);
  }

  lemma {:induction false} ColumnText(l: Layout, body: Body, m: nat, c: nat) returns (x: nat)
    requires Tabular(l, body) && m < |body.windows| && ExactWindow(l, body.fragments, body.windows[m]) && c in body.windows[m].columns
    ensures x < |body.fragments| && RowText(l, body.fragments[x].contribution.unit, body.windows[m].row, c)
  {
    hide l.Window, l.RowCells, l.Indexed, l.InTable, Tabular, CellUnit, TableText;
    assert ShowsColumn(l, body.fragments, body.windows[m], c);
    x :| 0 <= x < |body.fragments| && Falls(l, body.windows[m], body.fragments[x].contribution.unit)
         && ColumnOf(l, body.fragments[x].contribution.unit) == c;
    FallsText(l, body, m, x);
  }

  /** The last two windows of such a draft show no column without text. */
  lemma {:induction false} LastAreExact(l: Layout, left: Body, right: Body, c: nat)
    requires TablesRegular(l) && EvenRows(l) && DraftTabular(l, left) && DraftTabular(l, right) && |left.windows| > 1 && right.windows != []
    requires LastWindow(left.windows).row == right.windows[0].row && c in right.windows[0].columns && c !in LastWindow(left.windows).columns
    ensures ExactWindow(l, left.fragments, left.windows[|left.windows| - 2]) && ExactWindow(l, left.fragments, LastWindow(left.windows))
  {
    hide TablesRegular, EvenRows, Tabular, ExactWindow, l.RowCells, l.Window, TableText, ColumnsOk;
    var n := |left.windows| - 2;
    WindowsOk(l, right, 0);
    ColumnInRow(l, right.windows[0], c);
    PrevLike(l, left, n);
    if Full(l, left.windows[n]) {
      EvenFull(l, left, n);
    }
  }

  lemma {:induction false} EvenFull(l: Layout, body: Body, n: nat)
    requires EvenRows(l) && Tabular(l, body) && n + 1 < |body.windows| && Full(l, body.windows[n])
    requires FollowsWindow(body.windows[n], body.windows[n + 1])
    ensures Full(l, body.windows[n + 1])
  {
    hide l.Window, l.RowCells, Tabular, l.Indexed, l.InTable, EvenRows, TableText, CellUnit, Falls;
    var i := WindowText(l, body, n);
    var j := WindowText(l, body, n + 1);
    var u, v := body.fragments[i].contribution.unit, body.fragments[j].contribution.unit;
    TextInLayout(l, u);
    TextInLayout(l, v);
    OwnRow(l, body.windows[n], u);
    OwnRow(l, body.windows[n + 1], v);
    EvenHere(l, u, v);
  }

  /** Where no rows clash, a small draft and the one before it join in order. */
  lemma {:induction false} AbsorbsJoinable(l: Layout, left: Body, right: Body)
    requires TablesRegular(l) && EvenRows(l) && NoClash(l) && DraftTabular(l, left) && DraftTabular(l, right) && WholeRows(l, right)
    requires Precedes(left, right) && Contiguous(l, left) && SharedExact(l, left.windows, right) && Compatible(l, left, right)
    ensures Joinable(left, right)
  {
    hide l.KeyOf, l.SectionOf, TablesRegular, EvenRows, Tabular, ExactWindow, Contiguous, Precedes, ClashAt, ColumnsOk, l.RowCells, RowsIn;
    if left.windows != [] && right.windows != [] && LastWindow(left.windows).row == right.windows[0].row {
      var (last, first) := (LastWindow(left.windows), right.windows[0]);
      if |right.windows| > 1 {
        WindowsOk(l, left, |left.windows| - 1);
        forall c | c in last.columns ensures c in first.columns {
          ColumnInRow(l, last, c);
          assert Full(l, first);
        }
      }
      if |left.windows| > 1 {
        forall c | c in first.columns ensures c in last.columns {
          if c !in last.columns {
            var i, j, k := SpoiledClashes(l, left, right, c);
            ClashIn(l, i, j, k);
          }
        }
      }
    }
  }

  lemma {:induction false} ClashIn(l: Layout, i: nat, j: nat, k: nat)
    requires ClashAt(l, i, j, k)
    ensures !NoClash(l)
  {
    hide ClashAt, l.Window;
    ClashOrder(l, i, j, k);
  }

  lemma {:induction false} ClashOrder(l: Layout, i: nat, j: nat, k: nat)
    requires ClashAt(l, i, j, k)
    ensures i <= j < k < |l.units|
  {
  }

  // ---- A block of what is held

  lemma {:induction false} IndexedHeld(l: Layout, cs: seq<Contribution>, u: nat) returns (x: nat)
    requires KeptParts(l) && AllCells(cs) == IndexedCells(l) && l.Indexed(u)
    ensures x < |cs| && cs[x].unit == u
  {
    hide KeptContributions, CellsOf;
    var i := KeptAt(l, u, |l.units|);
    var p := CellAmong(KeptContributions(l, |l.units|), i, 0);
    x := CellHolder(cs, |cs|, p);
  }

  lemma {:induction false} KeptAt(l: Layout, u: nat, n: nat) returns (i: nat)
    requires l.Indexed(u) && u < n <= |l.units|
    ensures i < |KeptContributions(l, n)| && KeptContributions(l, n)[i] == Contribution(u, l.Kept(u).value)
  {
    if u < n - 1 {
      i := KeptAt(l, u, n - 1);
    } else {
      i := |KeptContributions(l, n - 1)|;
    }
  }

  /** The contribution that names a character. */
  lemma {:induction false} CellHolder(cs: seq<Contribution>, n: nat, p: nat) returns (x: nat)
    requires n <= |cs| && p < |Cells(cs, n)|
    ensures x < n && cs[x].unit == Cells(cs, n)[p].0
  {
    if p < |Cells(cs, n - 1)| {
      x := CellHolder(cs, n - 1, p);
    } else {
      x := n - 1;
    }
  }

  /** A block of contributions that hold the indexed characters in order, and the block after it. */
  lemma {:induction false} BlocksInOrder(l: Layout, before: seq<Contribution>, left: Body, right: Body, after: seq<Contribution>)
    requires KeptParts(l)
    requires AllCells(before + Contributions(left.fragments) + Contributions(right.fragments) + after) == IndexedCells(l)
    requires Nonempty(before + Contributions(left.fragments) + Contributions(right.fragments) + after)
    ensures Precedes(left, right) && Contiguous(l, left)
  {
    hide AllCells, IndexedCells, KeptParts, l.Indexed;
    var cs := before + Contributions(left.fragments) + Contributions(right.fragments) + after;
    forall i, j | 0 <= i < |left.fragments| && 0 <= j < |right.fragments|
      ensures left.fragments[i].contribution.unit <= right.fragments[j].contribution.unit
    {
      var a, b := |before| + i, |before| + |left.fragments| + j;
      assert cs[a] == left.fragments[i].contribution && cs[b] == right.fragments[j].contribution;
      HeldOrdered(l, cs, a, b);
    }
    forall a, b, u: nat |
      0 <= a < |left.fragments| && 0 <= b < |left.fragments| && l.Indexed(u)
      && left.fragments[a].contribution.unit <= u <= left.fragments[b].contribution.unit
      ensures HasUnit(left, u)
    {
      InBlock(l, cs, |before|, left, a, b, u);
    }
  }

  ghost predicate Nonempty(cs: seq<Contribution>) {
    forall i :: 0 <= i < |cs| ==> cs[i].range.start < cs[i].range.end
  }

  lemma {:induction false} InBlock(l: Layout, cs: seq<Contribution>, from: nat, body: Body, a: nat, b: nat, u: nat)
    requires KeptParts(l) && AllCells(cs) == IndexedCells(l) && Nonempty(cs) && from + |body.fragments| <= |cs|
    requires forall i :: 0 <= i < |body.fragments| ==> cs[from + i] == body.fragments[i].contribution
    requires a < |body.fragments| && b < |body.fragments| && l.Indexed(u)
    requires body.fragments[a].contribution.unit <= u <= body.fragments[b].contribution.unit
    ensures HasUnit(body, u)
  {
    hide AllCells, IndexedCells, KeptParts, l.Indexed;
    var x := IndexedHeld(l, cs, u);
    assert cs[from + a] == body.fragments[a].contribution && cs[from + b] == body.fragments[b].contribution;
    if x < from {
      HeldOrdered(l, cs, x, from + a);
      assert body.fragments[a].contribution.unit == u;
    } else if x >= from + |body.fragments| {
      HeldOrdered(l, cs, from + b, x);
      assert body.fragments[b].contribution.unit == u;
    } else {
      assert cs[from + (x - from)] == body.fragments[x - from].contribution;
    }
  }

  // ---- The absorbing loop

  /** What absorbing needs: even rows that do not clash. */
  ghost predicate Absorbable(l: Layout) {
    EvenRows(l) && NoClash(l)
  }

  ghost predicate DraftsReady(l: Layout, drafts: seq<ChunkContent>) {
    && (forall i :: 0 <= i < |drafts| ==> ResultTabular(l, drafts[i]) && Solid(l, drafts[i].fragments))
    && ResultsApart(l, drafts)
    && AllCells(ResultContributions(drafts)) == IndexedCells(l)
  }

  /** The first n drafts absorbed: in order, and sharing rows with later drafts only by columns with text. */
  ghost predicate AbsorbedWell(l: Layout, drafts: seq<ChunkContent>, before: seq<ChunkContent>, n: nat)
    requires n <= |drafts|
  {
    && (forall i :: 0 <= i < |before| ==> DraftTabular(l, ResultBody(before[i])))
    && (forall i, j :: 0 <= i < |before| && n <= j < |drafts| ==> SharedExact(l, before[i].windows, ResultBody(drafts[j])))
    && ResultContributions(before) == ResultContributions(drafts[..n])
  }

  lemma {:induction false} SharedUnion(l: Layout, a: seq<TableWindow>, b: seq<TableWindow>, both: seq<TableWindow>, body: Body)
    requires SharedExact(l, a, body) && SharedExact(l, b, body) && RowsIn(both) == RowsIn(a) + RowsIn(b)
    ensures SharedExact(l, both, body)
  {
    hide RowsIn, ExactWindow;
  }

  lemma {:induction false} SolidHeld(l: Layout, drafts: seq<ChunkContent>, n: nat)
    requires n <= |drafts| && forall i :: 0 <= i < |drafts| ==> Solid(l, drafts[i].fragments)
    ensures Nonempty(ChunkContributions(drafts, n))
  {
    hide CleanStretch;
    if n > 0 {
      SolidHeld(l, drafts, n - 1);
      var own := drafts[n - 1].fragments;
      forall i | 0 <= i < |own| ensures own[i].contribution.range.start < own[i].contribution.range.end {
        SolidNonempty(l, own, i);
      }
    }
  }

  /** The last absorbed draft and the next one among all that is held. */
  lemma {:induction false} HeldBlocks(l: Layout, drafts: seq<ChunkContent>, before: seq<ChunkContent>, n: nat)
    requires KeptParts(l) && DraftsReady(l, drafts) && n < |drafts| && AbsorbedWell(l, drafts, before, n) && before != []
    ensures Precedes(ResultBody(before[|before| - 1]), ResultBody(drafts[n])) && Contiguous(l, ResultBody(before[|before| - 1]))
  {
    hide KeptParts, ResultTabular, AllCells, IndexedCells, ChunkContributions, SharedExact, Solid, Contiguous, DraftTabular;
    var (front, last, next, rest) := (before[..|before| - 1], before[|before| - 1], drafts[n], drafts[n + 1..]);
    assert before == front + [last];
    ResultThen(front, last);
    assert drafts == (drafts[..n] + [next]) + rest;
    ResultThen(drafts[..n], next);
    ChunkContributionsThen(drafts[..n] + [next], rest, |rest|);
    SolidHeld(l, drafts, |drafts|);
    BlocksInOrder(l, ResultContributions(front), ResultBody(last), ResultBody(next), ResultContributions(rest));
  }

  lemma {:induction false} JoinedWell(l: Layout, drafts: seq<ChunkContent>, before: seq<ChunkContent>, n: nat, joined: ChunkContent)
    requires TablesRegular(l) && Absorbable(l) && KeptParts(l) && DraftsReady(l, drafts) && n < |drafts|
    requires AbsorbedWell(l, drafts, before, n) && before != []
    requires
      var (left, right) := (ResultBody(before[|before| - 1]), ResultBody(drafts[n]));
      Compatible(l, left, right) && ResultBody(joined) == Combined(left, right)
    ensures AbsorbedWell(l, drafts, before[|before| - 1 := joined], n + 1)
  {
    hide TablesRegular, Absorbable, KeptParts, DraftTabular, SharedExact, Compatible, Combined, ChunkContributions, Precedes, Contiguous, WholeRows, RowsIn,
      Solid, AllCells, IndexedCells, Joinable;
    var last := |before| - 1;
    var (left, right, after) := (ResultBody(before[last]), ResultBody(drafts[n]), before[last := joined]);
    HeldBlocks(l, drafts, before, n);
    AbsorbHere(l, left, right, drafts, before, n);
    CombinedDraft(l, left, right);
    forall i, j | 0 <= i < |after| && n + 1 <= j < |drafts| ensures SharedExact(l, after[i].windows, ResultBody(drafts[j])) {
      if i == last {
        SharedUnion(l, before[last].windows, drafts[n].windows, joined.windows, ResultBody(drafts[j]));
      }
    }
    CombinedFragments(left, right);
    JoinedContributions(before, drafts, n, joined);
  }

  lemma {:induction false} CombinedFragments(left: Body, right: Body)
    ensures Combined(left, right).fragments == left.fragments + right.fragments
  {
  }

  lemma {:induction false} AbsorbHere(l: Layout, left: Body, right: Body, drafts: seq<ChunkContent>, before: seq<ChunkContent>, n: nat)
    requires TablesRegular(l) && Absorbable(l) && DraftsReady(l, drafts) && n < |drafts| && AbsorbedWell(l, drafts, before, n) && before != []
    requires left == ResultBody(before[|before| - 1]) && right == ResultBody(drafts[n])
    requires Compatible(l, left, right) && Precedes(left, right) && Contiguous(l, left)
    ensures Joinable(left, right) && DraftTabular(l, left) && DraftTabular(l, right)
  {
    hide TablesRegular, EvenRows, NoClash, DraftTabular, SharedExact, Compatible, ChunkContributions, Precedes, Contiguous, WholeRows, RowsIn,
      Solid, AllCells, IndexedCells, Joinable;
    AbsorbsJoinable(l, left, right);
  }

  lemma {:induction false} JoinedContributions(before: seq<ChunkContent>, drafts: seq<ChunkContent>, n: nat, joined: ChunkContent)
    requires before != [] && n < |drafts| && ResultContributions(before) == ResultContributions(drafts[..n])
    requires joined.fragments == before[|before| - 1].fragments + drafts[n].fragments
    ensures ResultContributions(before[|before| - 1 := joined]) == ResultContributions(drafts[..n + 1])
  {
    hide ChunkContributions;
    var (front, last) := (before[..|before| - 1], before[|before| - 1]);
    assert before == front + [last] && before[|before| - 1 := joined] == front + [joined] && drafts[..n + 1] == drafts[..n] + [drafts[n]];
    ResultThen(front, last);
    ResultThen(front, joined);
    ResultThen(drafts[..n], drafts[n]);
    ContributionsConcat(last.fragments, drafts[n].fragments);
    Associative(ResultContributions(front), Contributions(last.fragments), Contributions(drafts[n].fragments));
  }

  lemma {:induction false} KeptWell(l: Layout, drafts: seq<ChunkContent>, before: seq<ChunkContent>, n: nat)
    requires DraftsReady(l, drafts) && n < |drafts| && AbsorbedWell(l, drafts, before, n)
    ensures AbsorbedWell(l, drafts, before + [drafts[n]], n + 1)
  {
    hide DraftTabular, SharedExact, ChunkContributions, Solid, AllCells, IndexedCells, WholeRows;
    assert drafts[..n + 1] == drafts[..n] + [drafts[n]];
    ResultThen(drafts[..n], drafts[n]);
    ResultThen(before, drafts[n]);
  }

  /** Where rows do not clash, absorbing small drafts leaves every chunk's table rows in order. */
  lemma {:induction false} AbsorbedTabular(l: Layout, t: Tools, drafts: seq<ChunkContent>, minTokens: nat, n: nat)
    requires TablesRegular(l) && Absorbable(l) && KeptParts(l) && DraftsReady(l, drafts)
    requires n <= |drafts| && Absorbed(l, t, drafts, minTokens, n).Ok?
    ensures AbsorbedWell(l, drafts, Absorbed(l, t, drafts, minTokens, n).value, n)
  {
    hide TablesRegular, Absorbable, KeptParts, DraftsReady, AbsorbedWell, Prepared, Compatible, Combined;
    if n == 0 {
      NothingAbsorbed(l, drafts);
    } else {
      AbsorbedTabular(l, t, drafts, minTokens, n - 1);
      var before, draft := Absorbed(l, t, drafts, minTokens, n - 1).value, drafts[n - 1];
      KeptWell(l, drafts, before, n - 1);
      if draft.tokenCount < minTokens && before != [] {
        var last := before[|before| - 1];
        var joined := Grown(l, t, ResultBody(last), ResultBody(draft)).value;
        if joined.Some? {
          GrownHolds(l, t, ResultBody(last), ResultBody(draft), joined.value);
          JoinedWell(l, drafts, before, n - 1, joined.value.chunk);
        }
      }
    }
  }

  lemma {:induction false} GrownHolds(l: Layout, t: Tools, left: Body, right: Body, joined: Draft)
    requires Grown(l, t, left, right) == Ok(Some(joined))
    ensures Compatible(l, left, right) && ResultBody(joined.chunk) == Combined(left, right)
  {
    hide Prepared, Compatible, Combined;
    PreparedHolds(l, t, joined.body);
  }

  lemma {:induction false} NothingAbsorbed(l: Layout, drafts: seq<ChunkContent>)
    ensures AbsorbedWell(l, drafts, [], 0)
  {
    assert drafts[..0] == [];
  }
}
