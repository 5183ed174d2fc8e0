/** Every turn of the packing loop keeps the table rows of its bodies in order, by container and by section. */
module TableTurns {
  import opened Common
  import opened Ranges
  import opened Units
  import opened Layouts
  import opened Preparation
  import opened Splitting
  import opened Conservation
  import opened Coverage
  import opened Refining
  import opened Atoms
  import opened Packing
  import opened Tables
  import opened Replay

  // ---- Rows and columns of windows

  /** The rows that windows show. */
  function RowsIn(windows: seq<TableWindow>): set<Id> {
    set k | 0 <= k < |windows| :: windows[k].row
  }

  /** A window that shows every cell of its row. */
  ghost predicate Full(l: Layout, window: TableWindow) {
    forall c: nat :: c in window.columns <==> c < |CellsOfRow(l, window.row)|
  }

  ghost predicate AllFull(l: Layout, windows: seq<TableWindow>) {
    forall k :: 0 <= k < |windows| ==> Full(l, windows[k])
  }

  ghost predicate ShowsColumn(l: Layout, fragments: seq<Fragment>, window: TableWindow, column: nat) {
    exists i :: 0 <= i < |fragments| && Falls(l, window, fragments[i].contribution.unit) && ColumnOf(l, fragments[i].contribution.unit) == column
  }

  /** A window that shows no column without text of the body. */
  ghost predicate ExactWindow(l: Layout, fragments: seq<Fragment>, window: TableWindow) {
    forall c :: c in window.columns ==> ShowsColumn(l, fragments, window, c)
  }

  ghost predicate AllExact(l: Layout, body: Body) {
    forall k :: 0 <= k < |body.windows| ==> ExactWindow(l, body.fragments, body.windows[k])
  }

  /** The windows of a body on rows that others show too show no column without text. */
  ghost predicate SharedExact(l: Layout, others: seq<TableWindow>, body: Body) {
    forall k :: 0 <= k < |body.windows| && body.windows[k].row in RowsIn(others) ==> ExactWindow(l, body.fragments, body.windows[k])
  }

  /** Rows of one table have equally many cells. */
  ghost predicate EvenRows(l: Layout) {
    forall u, v :: 0 <= u < |l.units| && 0 <= v < |l.units| ==> EvenAt(l, u, v)
  }

  ghost predicate EvenAt(l: Layout, u: nat, v: nat) {
    TableText(l, u) && TableText(l, v) && OwnWindow(l, u).table == OwnWindow(l, v).table ==>
      |CellsOfRow(l, OwnWindow(l, u).row)| == |CellsOfRow(l, OwnWindow(l, v).row)|
  }

  /** What every draft keeps: its shape, and that a window shows its whole row or only columns with text. */
  ghost predicate DraftTabular(l: Layout, body: Body) {
    && Tabular(l, body)
    && (forall k :: 0 <= k < |body.windows| ==> Full(l, body.windows[k]) || ExactWindow(l, body.fragments, body.windows[k]))
  }

  /** What drafts keep until small ones are absorbed: several rows are whole ones. */
  ghost predicate WholeRows(l: Layout, body: Body) {
    EvenRows(l) && |body.windows| > 1 ==> AllFull(l, body.windows)
  }

  ghost function ResultBody(chunk: ChunkContent): Body {
    Body(chunk.fragments, chunk.windows)
  }

  // ---- Growing a body

  lemma {:induction false} RowsAppended(left: seq<TableWindow>, right: seq<TableWindow>)
    ensures RowsIn(Appended(left, right)) == RowsIn(left) + RowsIn(right)
  {
    hide MergeColumns;
    var all := Appended(left, right);
    var shift := |all| - |right|;
    forall id ensures id in RowsIn(all) <==> id in RowsIn(left) || id in RowsIn(right) {
      if id in RowsIn(left) {
        var k :| 0 <= k < |left| && left[k].row == id;
        assert all[k].row == id;
      }
      if id in RowsIn(right) {
        var k :| 0 <= k < |right| && right[k].row == id;
        assert all[shift + k].row == id;
      }
      if id in RowsIn(all) {
        var k :| 0 <= k < |all| && all[k].row == id;
        if k < |left| {
          assert left[k].row == id;
        } else {
          assert right[k - shift].row == id;
        }
      }
    }
  }

  lemma {:induction false} ShowsMore(l: Layout, fragments: seq<Fragment>, more: seq<Fragment>, window: TableWindow, wider: TableWindow, column: nat)
    requires ShowsColumn(l, fragments, window, column) && WidenedBy(window, wider) && forall f :: f in fragments ==> f in more
    ensures ShowsColumn(l, more, wider, column)
  {
    hide l.Window, l.RowCells, CellUnit;
    var i :| 0 <= i < |fragments| && Falls(l, window, fragments[i].contribution.unit) && ColumnOf(l, fragments[i].contribution.unit) == column;
    assert fragments[i] in more;
    var j :| 0 <= j < |more| && more[j] == fragments[i];
    FallsMore(l, window, wider, more[j].contribution.unit);
  }

  lemma {:induction false} ExactMore(l: Layout, fragments: seq<Fragment>, more: seq<Fragment>, window: TableWindow)
    requires ExactWindow(l, fragments, window) && forall f :: f in fragments ==> f in more
    ensures ExactWindow(l, more, window)
  {
    hide ShowsColumn;
    forall c | c in window.columns ensures ShowsColumn(l, more, window, c) {
      ShowsMore(l, fragments, more, window, window, c);
    }
  }

  lemma {:induction false} MergedExact(l: Layout, a: TableWindow, b: TableWindow, left: seq<Fragment>, right: seq<Fragment>)
    requires SameRow(a, b) && ExactWindow(l, left, a) && ExactWindow(l, right, b)
    ensures ExactWindow(l, left + right, Merged(a, b))
  {
    hide ShowsColumn, MergeColumns;
    MergedColumns(a.columns, b.columns);
    forall c | c in Merged(a, b).columns ensures ShowsColumn(l, left + right, Merged(a, b), c) {
      if c in a.columns {
        ShowsMore(l, left, left + right, a, Merged(a, b), c);
      } else {
        ShowsMore(l, right, left + right, b, Merged(a, b), c);
      }
    }
  }

  lemma {:induction false} MergedFull(l: Layout, a: TableWindow, b: TableWindow)
    requires a.row == b.row && ColumnsOk(l, a) && ColumnsOk(l, b) && (Full(l, a) || Full(l, b))
    ensures Full(l, Merged(a, b))
  {
    hide MergeColumns, l.RowCells;
    MergedColumns(a.columns, b.columns);
    forall c: nat ensures c in Merged(a, b).columns <==> c < |CellsOfRow(l, a.row)| {
      if c in Merged(a, b).columns {
        ColumnInRow(l, if c in a.columns then a else b, c);
      }
    }
  }

  lemma {:induction false} ColumnInRow(l: Layout, window: TableWindow, c: nat)
    requires ColumnsOk(l, window) && c in window.columns
    ensures c < |CellsOfRow(l, window.row)|
  {
    hide l.RowCells;
    var i :| 0 <= i < |window.columns| && window.columns[i] == c;
  }

  /** A window of the left body or the right one, or the merged window of a row of both. */
  lemma {:induction false} AppendedFrom(left: seq<TableWindow>, right: seq<TableWindow>, k: nat)
    requires k < |Appended(left, right)|
    ensures
      var w := Appended(left, right)[k];
      || (k < |left| && w == left[k])
      || (|Appended(left, right)| - |right| <= k && w == right[k - (|Appended(left, right)| - |right|)])
      || (left != [] && right != [] && LastWindow(left).row == right[0].row && k == |left| - 1 && w == Merged(LastWindow(left), right[0]))
  {
    hide MergeColumns;
  }

  /** A combined body's windows show whole rows or only columns with text. */
  lemma {:induction false} CombinedTold(l: Layout, left: Body, right: Body, k: nat)
    requires DraftTabular(l, left) && DraftTabular(l, right) && k < |Appended(left.windows, right.windows)|
    requires left.windows != [] && right.windows != [] && LastWindow(left.windows).row == right.windows[0].row ==>
               SameRow(LastWindow(left.windows), right.windows[0])
    ensures
      var w := Appended(left.windows, right.windows)[k];
      Full(l, w) || ExactWindow(l, left.fragments + right.fragments, w)
  {
    hide Appended, Full, ExactWindow, Tabular, MergeColumns, ColumnsOk;
    AppendedFrom(left.windows, right.windows, k);
    var (all, both) := (Appended(left.windows, right.windows), left.fragments + right.fragments);
    var shift := |all| - |right.windows|;
    if k < |left.windows| && all[k] == left.windows[k] {
      if ExactWindow(l, left.fragments, left.windows[k]) {
        ExactMore(l, left.fragments, both, left.windows[k]);
      }
    } else if shift <= k && all[k] == right.windows[k - shift] {
      if ExactWindow(l, right.fragments, right.windows[k - shift]) {
        ExactMore(l, right.fragments, both, right.windows[k - shift]);
      }
    } else {
      var (a, b) := (LastWindow(left.windows), right.windows[0]);
      WindowsOk(l, left, |left.windows| - 1);
      WindowsOk(l, right, 0);
      if Full(l, a) || Full(l, b) {
        MergedFull(l, a, b);
      } else {
        MergedExact(l, a, b, left.fragments, right.fragments);
      }
    }
  }

  lemma {:induction false} WindowsOk(l: Layout, body: Body, k: nat)
    requires Tabular(l, body) && k < |body.windows|
    ensures ColumnsOk(l, body.windows[k])
  {
    hide ColumnsOk, l.InTable, l.Indexed;
  }

  /** A combined body keeps the shape of a draft. */
  lemma {:induction false} CombinedDraft(l: Layout, left: Body, right: Body)
    requires TablesRegular(l) && DraftTabular(l, left) && DraftTabular(l, right) && Precedes(left, right)
    requires (l.rules.packing.ByContainer? ==> Compatible(l, left, right)) && Joinable(left, right)
    ensures DraftTabular(l, Combined(left, right))
    ensures RowsIn(Combined(left, right).windows) == RowsIn(left.windows) + RowsIn(right.windows)
  {
    hide TablesRegular, Tabular, Precedes, Compatible, Joinable, AddWindows, Appended, Full, ExactWindow;
    CombinedTabular(l, left, right);
    JoinedAre(l, left, right);
    LastMeets(l, left, right);
    RowsAppended(left.windows, right.windows);
    var both := Combined(left, right);
    forall k | 0 <= k < |both.windows| ensures Full(l, both.windows[k]) || ExactWindow(l, both.fragments, both.windows[k]) {
      CombinedTold(l, left, right, k);
    }
  }

  /** A combined body shows rows that others show too by columns with text, when both its parts do. */
  lemma {:induction false} CombinedShared(l: Layout, others: seq<TableWindow>, left: Body, right: Body)
    requires TablesRegular(l) && Tabular(l, left) && Tabular(l, right) && Precedes(left, right)
    requires SharedExact(l, others, left) && SharedExact(l, others, right)
    ensures SharedExact(l, others, Combined(left, right))
  {
    hide TablesRegular, Tabular, Precedes, AddWindows, Appended, ExactWindow, RowsIn, MergeColumns;
    JoinedAre(l, left, right);
    LastMeets(l, left, right);
    var (all, both) := (Appended(left.windows, right.windows), left.fragments + right.fragments);
    var shift := |all| - |right.windows|;
    forall k | 0 <= k < |all| && all[k].row in RowsIn(others) ensures ExactWindow(l, both, all[k]) {
      AppendedFrom(left.windows, right.windows, k);
      if k < |left.windows| && all[k] == left.windows[k] {
        ExactMore(l, left.fragments, both, left.windows[k]);
      } else if shift <= k && all[k] == right.windows[k - shift] {
        ExactMore(l, right.fragments, both, right.windows[k - shift]);
      } else {
        assert left.windows[|left.windows| - 1].row in RowsIn(others) && right.windows[0].row in RowsIn(others);
        MergedExact(l, LastWindow(left.windows), right.windows[0], left.fragments, right.fragments);
      }
    }
  }

  // ---- What packing keeps of tables

  /** An idea: whole rows of one table, all different, that make one body together; or an atom, a row or part of one. */
  ghost predicate PieceTabular(l: Layout, piece: Piece) {
    match piece
    case Atom(atom) => RowBody(l, atom) && DraftTabular(l, atom)
    case Idea(atoms) =>
      && DraftTabular(l, BodyOf(piece)) && AllFull(l, BodyOf(piece).windows)
      && (forall i :: 0 <= i < |atoms| ==> IdeaPart(l, piece, atoms[i]))
      && forall i, j :: 0 <= i < j < |atoms| ==> RowsIn(atoms[i].windows) !! RowsIn(atoms[j].windows)
  }

  ghost predicate IdeaPart(l: Layout, piece: Piece, atom: Body) {
    RowBody(l, atom) && DraftTabular(l, atom) && AllFull(l, atom.windows) && RowsIn(atom.windows) <= RowsIn(BodyOf(piece).windows)
  }

  ghost function PieceRows(piece: Piece): set<Id> {
    RowsIn(BodyOf(piece).windows)
  }

  /** The first m pieces are parts of one refined row; all others are whole rows of their own. */
  ghost predicate RowsPending(l: Layout, pending: seq<Piece>, m: nat) {
    && m <= |pending|
    && (forall k :: 0 <= k < |pending| ==> PieceTabular(l, pending[k]))
    && (forall k :: 0 <= k < m ==> pending[k].Atom? && AllExact(l, pending[k].atom))
    && (forall k :: m <= k < |pending| ==> AllFull(l, BodyOf(pending[k]).windows))
    && (forall i, j :: 0 <= i < j < m ==> PieceRows(pending[i]) == PieceRows(pending[j]))
    && forall i, j :: 0 <= i < j < |pending| && m <= j ==> PieceRows(pending[i]) !! PieceRows(pending[j])
  }

  /** A body and what is pending: while parts of a refined row are, the body is of that row; no other row is shared. */
  ghost predicate RowsBefore(body: Body, pending: seq<Piece>, m: nat) {
    && m <= |pending|
    && (m > 0 ==> |body.windows| <= 1 && RowsIn(body.windows) == PieceRows(pending[0]))
    && forall j :: m <= j < |pending| ==> RowsIn(body.windows) !! PieceRows(pending[j])
  }

  ghost predicate OpenTabular(l: Layout, s: State, m: nat) {
    s.current.Some? ==>
      && DraftTabular(l, s.current.value.body) && WholeRows(l, s.current.value.body)
      && RowsBefore(s.current.value.body, s.pending, m)
  }

  ghost predicate ResultTabular(l: Layout, chunk: ChunkContent) {
    DraftTabular(l, ResultBody(chunk)) && WholeRows(l, ResultBody(chunk))
  }

  /** Finished drafts share rows only with parts of those rows. */
  ghost predicate ResultsApart(l: Layout, result: seq<ChunkContent>) {
    forall i, j :: 0 <= i < j < |result| ==> SharedExact(l, result[i].windows, ResultBody(result[j]))
  }

  ghost predicate AfterResults(l: Layout, result: seq<ChunkContent>, body: Body) {
    forall i :: 0 <= i < |result| ==> SharedExact(l, result[i].windows, body)
  }

  ghost predicate PendingApart(result: seq<ChunkContent>, pending: seq<Piece>, m: nat) {
    forall i, j :: 0 <= i < |result| && m <= j < |pending| ==> RowsIn(result[i].windows) !! PieceRows(pending[j])
  }

  ghost predicate TabledAt(l: Layout, s: State, m: nat) {
    && RowsPending(l, s.pending, m)
    && OpenTabular(l, s, m)
    && (forall i :: 0 <= i < |s.result| ==> ResultTabular(l, s.result[i]))
    && ResultsApart(l, s.result)
    && (s.current.Some? ==> AfterResults(l, s.result, s.current.value.body))
    && PendingApart(s.result, s.pending, m)
  }

  ghost predicate Tabled(l: Layout, s: State) {
    exists m: nat :: TabledAt(l, s, m)
  }

  /** The packer keeps its tables through a turn. */
  ghost predicate KeepsTables(l: Layout, s: State, next: State) {
    TablesRegular(l) && CleanLayout(l) && Conserves(l, s) && Tabled(l, s) ==> Tabled(l, next)
  }

  // ---- The order of what is held

  lemma {:induction false} HeldOrdered(l: Layout, cs: seq<Contribution>, i: nat, j: nat)
    requires AllCells(cs) == IndexedCells(l) && i < j < |cs|
    requires cs[i].range.start < cs[i].range.end && cs[j].range.start < cs[j].range.end
    ensures cs[i].unit <= cs[j].unit
  {
    hide AllCells, KeptContributions, CellsOf;
    KeptCells(l, |l.units|);
    var p := CellAmong(cs, i, 0);
    var q := CellAmong(cs, j, 0);
    CellAt(cs, i, 0, j);
    assert IndexedCells(l)[p].0 == cs[i].unit && IndexedCells(l)[q].0 == cs[j].unit;
  }

  lemma {:induction false} HeldPrecedes(l: Layout, s: State)
    requires CleanLayout(l) && Conserves(l, s) && s.current.Some? && s.pending != []
    ensures Precedes(s.current.value.body, BodyOf(s.pending[0]))
  {
    hide CleanLayout, GoodPiece, AllCells, IndexedCells, ChunkContributions, CleanStretch, BodyOf, PendingFragments, Solid;
    var left, right := s.current.value.body, BodyOf(s.pending[0]);
    assert s.pending == [s.pending[0]] + s.pending[1..];
    FirstFragments(s.pending[0], s.pending[1..]);
    PieceSolid(l, s.pending[0]);
    var cs, before := Held(s), ResultContributions(s.result);
    forall i, j | 0 <= i < |left.fragments| && 0 <= j < |right.fragments|
      ensures left.fragments[i].contribution.unit <= right.fragments[j].contribution.unit
    {
      var a, b := |before| + i, |before| + |left.fragments| + j;
      assert cs[a] == left.fragments[i].contribution;
      assert cs[b] == right.fragments[j].contribution;
      SolidNonempty(l, left.fragments, i);
      SolidNonempty(l, right.fragments, j);
      HeldOrdered(l, cs, a, b);
    }
  }

  lemma {:induction false} SolidNonempty(l: Layout, fragments: seq<Fragment>, i: nat)
    requires Solid(l, fragments) && i < |fragments|
    ensures fragments[i].contribution.range.start < fragments[i].contribution.range.end
  {
  }

  // ---- The turns

  function Less(m: nat): nat {
    if m == 0 then 0 else m - 1
  }

  lemma {:induction false} RestPending(l: Layout, pending: seq<Piece>, m: nat)
    requires RowsPending(l, pending, m) && pending != []
    ensures RowsPending(l, pending[1..], Less(m))
  {
    hide PieceTabular, AllExact, AllFull, RowsIn;
    var rest := pending[1..];
    forall i, j | 0 <= i < j < |rest| && Less(m) <= j ensures PieceRows(rest[i]) !! PieceRows(rest[j]) {
      assert rest[i] == pending[i + 1] && rest[j] == pending[j + 1];
    }
    forall i, j | 0 <= i < j < Less(m) ensures PieceRows(rest[i]) == PieceRows(rest[j]) {
      assert rest[i] == pending[i + 1] && rest[j] == pending[j + 1];
    }
  }

  /** A draft that is settled, open or finished. */
  lemma {:induction false} SettleTabled(l: Layout, t: Tools, pending: seq<Piece>, m: nat, result: seq<ChunkContent>, draft: Draft)
    requires TabledAt(l, State(pending, None, result), m)
    requires DraftReplays(l, t, draft) && DraftTabular(l, draft.body) && WholeRows(l, draft.body)
    requires RowsBefore(draft.body, pending, m) && AfterResults(l, result, draft.body)
    ensures TabledAt(l, Settle(pending, result, draft), m)
  {
    hide Prepared, DraftTabular, RowsPending, WholeRows, SharedExact, RowsIn;
    PreparedHolds(l, t, draft.body);
    assert ResultBody(draft.chunk) == draft.body;
    if draft.chunk.tokenCount >= TargetTokens {
      FinishTabled(l, pending, m, result, draft.chunk);
    }
  }

  lemma {:induction false} FinishTabled(l: Layout, pending: seq<Piece>, m: nat, result: seq<ChunkContent>, chunk: ChunkContent)
    requires TabledAt(l, State(pending, None, result), m)
    requires ResultTabular(l, chunk) && RowsBefore(ResultBody(chunk), pending, m) && AfterResults(l, result, ResultBody(chunk))
    ensures TabledAt(l, State(pending, None, result + [chunk]), m)
  {
    hide DraftTabular, RowsPending, WholeRows, SharedExact, RowsIn, PieceRows;
  }

  lemma {:induction false} CloseTabled(l: Layout, t: Tools, s: State)
    requires Tabled(l, s) && StateReplays(l, t, s)
    ensures Tabled(l, Closed(s))
  {
    hide Prepared, DraftTabular, RowsPending, WholeRows, SharedExact, RowsIn, RowsBefore;
    var m: nat :| TabledAt(l, s, m);
    if s.current.Some? {
      var draft := s.current.value;
      PreparedHolds(l, t, draft.body);
      assert ResultBody(draft.chunk) == draft.body;
      assert TabledAt(l, State(s.pending, None, s.result), m);
      FinishTabled(l, s.pending, m, s.result, draft.chunk);
    }
    assert TabledAt(l, Closed(s), m);
  }

  lemma {:induction false} PieceShape(l: Layout, piece: Piece)
    requires PieceTabular(l, piece)
    ensures DraftTabular(l, BodyOf(piece))
    ensures piece.Atom? ==> RowBody(l, piece.atom) && BodyOf(piece) == piece.atom
  {
    hide DraftTabular, RowBody, Bodied;
  }

  /** Windows of different rows join only over the same columns; those of one row only while it is the only one. */
  lemma {:induction false} GrowsJoinable(l: Layout, left: Body, pending: seq<Piece>, m: nat)
    requires RowsPending(l, pending, m) && pending != [] && RowsBefore(left, pending, m)
    requires Compatible(l, left, BodyOf(pending[0]))
    ensures Joinable(left, BodyOf(pending[0]))
  {
    hide l.KeyOf, l.SectionOf, DraftTabular, Bodied, AllExact, AllFull, Tabular;
    var right := BodyOf(pending[0]);
    if left.windows != [] && right.windows != [] {
      assert LastWindow(left.windows).row in RowsIn(left.windows);
      assert right.windows[0].row in RowsIn(right.windows);
      if m > 0 {
        PieceShape(l, pending[0]);
        OneRow(l, pending[0].atom);
      } else {
        assert RowsIn(left.windows) !! PieceRows(pending[0]);
      }
    }
  }

  lemma {:induction false} OneRow(l: Layout, body: Body)
    requires RowBody(l, body)
    ensures |body.windows| <= 1
  {
  }

  /** The rows of the grown draft and of what is still pending. */
  lemma {:induction false} GrownRows(l: Layout, left: Body, both: Body, pending: seq<Piece>, m: nat)
    requires RowsPending(l, pending, m) && pending != [] && RowsBefore(left, pending, m)
    requires RowsIn(both.windows) == RowsIn(left.windows) + PieceRows(pending[0])
    requires m > 0 ==> |both.windows| <= 1
    ensures RowsBefore(both, pending[1..], Less(m))
  {
    hide PieceTabular, AllExact, AllFull, RowsIn;
    var rest := pending[1..];
    if Less(m) > 0 {
      assert PieceRows(pending[0]) == PieceRows(pending[1]);
    }
    forall j | Less(m) <= j < |rest| ensures RowsIn(both.windows) !! PieceRows(rest[j]) {
      assert rest[j] == pending[j + 1];
    }
  }

  lemma {:induction false} OneRowStays(left: Body, right: Body)
    requires |left.windows| <= 1 && |right.windows| <= 1 && RowsIn(left.windows) == RowsIn(right.windows)
    ensures |AddWindows(left.windows, right.windows, |right.windows|)| <= 1
  {
    hide MergeColumns;
    assert AddWindows(left.windows, right.windows, 0) == left.windows;
    if right.windows != [] {
      assert right.windows[0].row in RowsIn(right.windows);
    }
  }

  /** With rows of different tables apart and all whole, a body of several rows is of whole ones. */
  lemma {:induction false} GrownWhole(l: Layout, left: Body, right: Body)
    requires TablesRegular(l) && Tabular(l, left) && Tabular(l, right) && Precedes(left, right) && WholeRows(l, left)
    requires Joinable(left, right) && AllFull(l, right.windows) && RowsIn(left.windows) !! RowsIn(right.windows)
    ensures WholeRows(l, Combined(left, right))
  {
    hide TablesRegular, Tabular, Precedes, AddWindows, Full, Appended;
    JoinedAre(l, left, right);
    if EvenRows(l) && left.windows != [] && right.windows != [] {
      assert LastWindow(left.windows).row in RowsIn(left.windows);
      assert right.windows[0].row in RowsIn(right.windows);
      LastIsFull(l, left, right);
      assert |left.windows| == 1 ==> left.windows[0] == LastWindow(left.windows);
      ApartAppended(left.windows, right.windows);
    } else if left.windows == [] {
      ApartAppended(left.windows, right.windows);
      assert [] + right.windows == right.windows;
    } else if right.windows == [] {
      ApartAppended(left.windows, right.windows);
      assert left.windows + [] == left.windows;
    }
  }

  lemma {:induction false} ApartAppended(left: seq<TableWindow>, right: seq<TableWindow>)
    requires left != [] && right != [] ==> LastWindow(left).row != right[0].row
    ensures Appended(left, right) == left + right
  {
  }

  lemma {:induction false} LastIsFull(l: Layout, left: Body, right: Body)
    requires EvenRows(l) && Tabular(l, left) && Tabular(l, right) && left.windows != [] && right.windows != []
    requires LastWindow(left.windows).table == right.windows[0].table && LastWindow(left.windows).columns == right.windows[0].columns
    requires Full(l, right.windows[0])
    ensures Full(l, LastWindow(left.windows))
  {
    hide l.Window, l.RowCells, Tabular, l.Indexed, l.InTable, EvenRows;
    var i := WindowText(l, left, |left.windows| - 1);
    var j := WindowText(l, right, 0);
    var u, v := left.fragments[i].contribution.unit, right.fragments[j].contribution.unit;
    TextInLayout(l, u);
    TextInLayout(l, v);
    OwnRow(l, LastWindow(left.windows), u);
    OwnRow(l, right.windows[0], v);
    EvenHere(l, u, v);
  }

  lemma {:induction false} EvenHere(l: Layout, u: nat, v: nat)
    requires EvenRows(l) && TableText(l, u) && TableText(l, v) && u < |l.units| && v < |l.units|
    requires OwnWindow(l, u).table == OwnWindow(l, v).table
    ensures |CellsOfRow(l, OwnWindow(l, u).row)| == |CellsOfRow(l, OwnWindow(l, v).row)|
  {
    hide l.Window, l.RowCells, TableText, CellUnit;
    assert EvenAt(l, u, v);
  }

  /** A piece that may join the open draft and shares rows with finished ones does so by columns with text. */
  lemma {:induction false} PieceAfterResults(l: Layout, pending: seq<Piece>, m: nat, result: seq<ChunkContent>)
    requires RowsPending(l, pending, m) && pending != [] && PendingApart(result, pending, m)
    ensures AfterResults(l, result, BodyOf(pending[0]))
  {
    hide PieceTabular, AllFull, ExactWindow;
    forall i | 0 <= i < |result| ensures SharedExact(l, result[i].windows, BodyOf(pending[0])) {
      var body := BodyOf(pending[0]);
      forall k | 0 <= k < |body.windows| && body.windows[k].row in RowsIn(result[i].windows)
        ensures ExactWindow(l, body.fragments, body.windows[k])
      {
        assert body.windows[k].row in PieceRows(pending[0]);
      }
    }
  }

  lemma {:induction false} GrowTabled(l: Layout, t: Tools, s: State, grown: Draft)
    requires TablesRegular(l) && CleanLayout(l) && Conserves(l, s) && Tabled(l, s) && StateReplays(l, t, s)
    requires s.pending != [] && s.current.Some?
    requires Grown(l, t, s.current.value.body, BodyOf(s.pending[0])) == Ok(Some(grown))
    ensures Tabled(l, Settle(s.pending[1..], s.result, grown))
  {
    hide Prepared, Compatible, Combined, CleanLayout, Conserves, DraftTabular, TablesRegular, RowsBefore, RowsPending, BodyOf, SharedExact, WholeRows,
      Joinable, PieceTabular, AllFull, RowsIn, PendingApart;
    var m: nat :| TabledAt(l, s, m);
    var left, right := s.current.value.body, BodyOf(s.pending[0]);
    HeldPrecedes(l, s);
    FirstPiece(l, s.pending, m);
    GrowsJoinable(l, left, s.pending, m);
    CombinedDraft(l, left, right);
    GrownWholeAt(l, left, s.pending, m);
    GrownRows(l, left, Combined(left, right), s.pending, m);
    PieceAfterResults(l, s.pending, m, s.result);
    GrownAfterResults(l, s.result, left, right);
    RestTabled(l, s, m);
    assert DraftReplays(l, t, grown) && grown.body == Combined(left, right);
    SettleTabled(l, t, s.pending[1..], Less(m), s.result, grown);
  }

  lemma {:induction false} GrownAfterResults(l: Layout, result: seq<ChunkContent>, left: Body, right: Body)
    requires TablesRegular(l) && DraftTabular(l, left) && DraftTabular(l, right) && Precedes(left, right)
    requires AfterResults(l, result, left) && AfterResults(l, result, right)
    ensures AfterResults(l, result, Combined(left, right))
  {
    hide TablesRegular, Tabular, Precedes, Combined, SharedExact;
    forall i | 0 <= i < |result| ensures SharedExact(l, result[i].windows, Combined(left, right)) {
      CombinedShared(l, result[i].windows, left, right);
    }
  }

  lemma {:induction false} FirstPiece(l: Layout, pending: seq<Piece>, m: nat)
    requires RowsPending(l, pending, m) && pending != []
    ensures DraftTabular(l, BodyOf(pending[0]))
  {
    hide DraftTabular, RowBody, Bodied;
    PieceShape(l, pending[0]);
  }

  lemma {:induction false} GrownWholeAt(l: Layout, left: Body, pending: seq<Piece>, m: nat)
    requires TablesRegular(l) && RowsPending(l, pending, m) && pending != [] && RowsBefore(left, pending, m)
    requires DraftTabular(l, left) && WholeRows(l, left) && Precedes(left, BodyOf(pending[0])) && Joinable(left, BodyOf(pending[0]))
    ensures WholeRows(l, Combined(left, BodyOf(pending[0])))
    ensures m > 0 ==> |Combined(left, BodyOf(pending[0])).windows| <= 1
  {
    hide TablesRegular, Tabular, Precedes, Joinable, RowsIn, AddWindows, Full, Bodied, ExactWindow, EvenRows;
    PieceShape(l, pending[0]);
    if m > 0 {
      OneRow(l, pending[0].atom);
      OneRowStays(left, pending[0].atom);
    } else {
      GrownWhole(l, left, BodyOf(pending[0]));
    }
  }

  /** Without its first piece the state is as it was, whatever becomes of that piece. */
  lemma {:induction false} RestTabled(l: Layout, s: State, m: nat)
    requires TabledAt(l, s, m) && s.pending != []
    ensures TabledAt(l, State(s.pending[1..], None, s.result), Less(m))
  {
    hide DraftTabular, RowsPending, WholeRows, SharedExact, RowsIn, PieceRows, ResultTabular;
    RestPending(l, s.pending, m);
    var rest := s.pending[1..];
    forall i, j | 0 <= i < |s.result| && Less(m) <= j < |rest| ensures RowsIn(s.result[i].windows) !! PieceRows(rest[j]) {
      assert rest[j] == s.pending[j + 1];
    }
  }

  lemma {:induction false} OpenTabled(l: Layout, t: Tools, s: State, chunk: ChunkContent)
    requires Tabled(l, s) && s.pending != [] && s.current.None?
    requires Prepared(l, t, BodyOf(s.pending[0])) == Ok(chunk) && chunk.tokenCount <= MaxTokens
    ensures Tabled(l, Settle(s.pending[1..], s.result, Draft(BodyOf(s.pending[0]), chunk)))
  {
    hide Prepared, DraftTabular, RowsPending, BodyOf, WholeRows, SharedExact, PendingApart, RowsBefore;
    var m: nat :| TabledAt(l, s, m);
    var draft := Draft(BodyOf(s.pending[0]), chunk);
    FirstPiece(l, s.pending, m);
    FirstOpens(l, s.pending, m);
    PieceAfterResults(l, s.pending, m, s.result);
    RestTabled(l, s, m);
    assert DraftReplays(l, t, draft);
    SettleTabled(l, t, s.pending[1..], Less(m), s.result, draft);
  }

  lemma {:induction false} FirstOpens(l: Layout, pending: seq<Piece>, m: nat)
    requires RowsPending(l, pending, m) && pending != []
    ensures RowsBefore(BodyOf(pending[0]), pending[1..], Less(m)) && WholeRows(l, BodyOf(pending[0]))
  {
    hide Tabular, AllExact, Full, RowsIn, ExactWindow, EvenRows;
    var rest := pending[1..];
    if m > 0 {
      PieceShape(l, pending[0]);
      OneRow(l, pending[0].atom);
    }
    if Less(m) > 0 {
      assert PieceRows(pending[0]) == PieceRows(pending[1]);
    }
    forall j | Less(m) <= j < |rest| ensures PieceRows(pending[0]) !! PieceRows(rest[j]) {
      assert rest[j] == pending[j + 1];
    }
  }

  // ---- Pieces that make way for smaller ones

  lemma {:induction false} PieceHere(l: Layout, pending: seq<Piece>, m: nat, k: nat)
    requires RowsPending(l, pending, m) && k < |pending|
    ensures PieceTabular(l, pending[k]) && (k < m ==> pending[k].Atom? && AllExact(l, pending[k].atom))
    ensures k >= m ==> AllFull(l, BodyOf(pending[k]).windows)
  {
    hide PieceTabular, AllExact, AllFull, RowsIn;
  }

  lemma {:induction false} PairHere(l: Layout, pending: seq<Piece>, m: nat, i: nat, j: nat)
    requires RowsPending(l, pending, m) && i < j < |pending|
    ensures if j < m then PieceRows(pending[i]) == PieceRows(pending[j]) else PieceRows(pending[i]) !! PieceRows(pending[j])
  {
    hide PieceTabular, AllExact, AllFull, RowsIn;
  }

  lemma {:induction false} IdeaHere(l: Layout, piece: Piece, i: nat)
    requires piece.Idea? && PieceTabular(l, piece) && i < |piece.atoms|
    ensures IdeaPart(l, piece, piece.atoms[i])
    ensures forall j :: i < j < |piece.atoms| ==> RowsIn(piece.atoms[i].windows) !! RowsIn(piece.atoms[j].windows)
  {
    hide DraftTabular, IdeaPart, AllFull, RowsIn;
  }

  lemma {:induction false} AtomShape(l: Layout, atom: Body)
    ensures BodyOf(Atom(atom)) == atom && PieceRows(Atom(atom)) == RowsIn(atom.windows)
    ensures PieceTabular(l, Atom(atom)) <==> RowBody(l, atom) && DraftTabular(l, atom)
  {
    hide DraftTabular, RowBody, RowsIn;
  }

  /** The pieces of an idea's atoms, or of a refined row's parts, before the rest. */
  lemma {:induction false} RequeuedAt(bodies: seq<Body>, pending: seq<Piece>, k: nat)
    requires k < |Requeued(bodies, pending)|
    ensures Requeued(bodies, pending)[k] == if k < |bodies| then Atom(bodies[k]) else pending[k - |bodies|]
  {
  }

  lemma {:induction false} RequeuedSize(bodies: seq<Body>, pending: seq<Piece>)
    ensures |Requeued(bodies, pending)| == |bodies| + |pending|
  {
  }

  /** The atoms of an idea take its place. */
  lemma {:induction false} BreakTabled(l: Layout, s: State)
    requires Tabled(l, s) && s.pending != [] && s.pending[0].Idea?
    ensures Tabled(l, State(Requeued(s.pending[0].atoms, s.pending[1..]), s.current, s.result))
  {
    hide DraftTabular, RowsPending, WholeRows, SharedExact, RowsIn, PieceRows, ResultTabular, Requeued, PieceTabular;
    var m: nat :| TabledAt(l, s, m);
    PieceHere(l, s.pending, m, 0);
    var (atoms, rest) := (s.pending[0].atoms, s.pending[1..]);
    BrokenRows(l, s.pending);
    var next := Requeued(atoms, rest);
    RequeuedSize(atoms, rest);
    if s.current.Some? {
      BrokenApart(l, s.current.value.body.windows, s.pending);
    }
    forall i, j | 0 <= i < |s.result| && 0 <= j < |next| ensures RowsIn(s.result[i].windows) !! PieceRows(next[j]) {
      BrokenApart(l, s.result[i].windows, s.pending);
    }
    assert TabledAt(l, State(next, s.current, s.result), 0);
  }

  lemma {:induction false} BrokenRows(l: Layout, pending: seq<Piece>)
    requires RowsPending(l, pending, 0) && pending != [] && pending[0].Idea?
    ensures RowsPending(l, Requeued(pending[0].atoms, pending[1..]), 0)
  {
    hide RowsPending, RowsIn, Requeued, DraftTabular, RowBody, PieceTabular, AllFull;
    var (atoms, rest) := (pending[0].atoms, pending[1..]);
    var next := Requeued(atoms, rest);
    RequeuedSize(atoms, rest);
    PieceHere(l, pending, 0, 0);
    forall k | 0 <= k < |next| ensures PieceTabular(l, next[k]) && AllFull(l, BodyOf(next[k]).windows) {
      RequeuedAt(atoms, rest, k);
      if k < |atoms| {
        IdeaHere(l, pending[0], k);
        AtomShape(l, atoms[k]);
      } else {
        PieceHere(l, pending, 0, k - |atoms| + 1);
      }
    }
    forall i, j | 0 <= i < j < |next| ensures PieceRows(next[i]) !! PieceRows(next[j]) {
      BrokenPair(l, pending, i, j);
    }
    MakesPending(l, next);
  }

  lemma {:induction false} MakesPending(l: Layout, pending: seq<Piece>)
    requires forall k :: 0 <= k < |pending| ==> PieceTabular(l, pending[k]) && AllFull(l, BodyOf(pending[k]).windows)
    requires forall i, j :: 0 <= i < j < |pending| ==> PieceRows(pending[i]) !! PieceRows(pending[j])
    ensures RowsPending(l, pending, 0)
  {
    hide PieceTabular, AllFull, RowsIn;
  }

  lemma {:induction false} BrokenPair(l: Layout, pending: seq<Piece>, i: nat, j: nat)
    requires RowsPending(l, pending, 0) && pending != [] && pending[0].Idea?
    requires i < j < |Requeued(pending[0].atoms, pending[1..])|
    ensures
      var next := Requeued(pending[0].atoms, pending[1..]);
      PieceRows(next[i]) !! PieceRows(next[j])
  {
    hide RowsPending, RowsIn, Requeued, PieceTabular, BodyOf;
    var (atoms, rest) := (pending[0].atoms, pending[1..]);
    RequeuedSize(atoms, rest);
    RequeuedAt(atoms, rest, i);
    RequeuedAt(atoms, rest, j);
    PieceHere(l, pending, 0, 0);
    if i < |atoms| {
      IdeaHere(l, pending[0], i);
      AtomShape(l, atoms[i]);
      if j < |atoms| {
        AtomShape(l, atoms[j]);
      } else {
        PairHere(l, pending, 0, 0, j - |atoms| + 1);
      }
    } else {
      PairHere(l, pending, 0, i - |atoms| + 1, j - |atoms| + 1);
    }
  }

  lemma {:induction false} BrokenApart(l: Layout, windows: seq<TableWindow>, pending: seq<Piece>)
    requires RowsPending(l, pending, 0) && pending != [] && pending[0].Idea?
    requires forall j :: 0 <= j < |pending| ==> RowsIn(windows) !! PieceRows(pending[j])
    ensures
      var next := Requeued(pending[0].atoms, pending[1..]);
      forall j :: 0 <= j < |next| ==> RowsIn(windows) !! PieceRows(next[j])
  {
    hide RowsPending, RowsIn, Requeued, PieceTabular, BodyOf;
    var (atoms, rest) := (pending[0].atoms, pending[1..]);
    var next := Requeued(atoms, rest);
    RequeuedSize(atoms, rest);
    PieceHere(l, pending, 0, 0);
    forall j | 0 <= j < |next| ensures RowsIn(windows) !! PieceRows(next[j]) {
      RequeuedAt(atoms, rest, j);
      if j < |atoms| {
        IdeaHere(l, pending[0], j);
        AtomShape(l, atoms[j]);
        assert RowsIn(windows) !! PieceRows(pending[0]);
      }
    }
  }

  // ---- Refining and splitting

  /** A row's part of one column shows no column without text. */
  lemma {:induction false} NarrowExact(l: Layout, body: Body)
    requires RowBody(l, body) && !Wide(body)
    ensures AllExact(l, body) && DraftTabular(l, body)
  {
    hide l.Window, l.RowCells, l.Indexed, l.InTable, Tabular, CellUnit, ColumnsOk;
    if body.windows != [] {
      OneRow(l, body);
      NonemptyRow(l, body);
      OnlyWindow(l, body, 0);
      WindowsOk(l, body, 0);
      OneColumn(l, body.windows[0]);
      var unit := body.fragments[0].contribution.unit;
      assert ShowsColumn(l, body.fragments, body.windows[0], ColumnOf(l, unit));
    }
  }

  lemma {:induction false} NonemptyRow(l: Layout, body: Body)
    requires RowBody(l, body)
    ensures body.fragments != []
  {
  }

  lemma {:induction false} OneColumn(l: Layout, window: TableWindow)
    requires ColumnsOk(l, window) && |window.columns| <= 1
    ensures |window.columns| == 1
  {
  }

  /** A row of several columns with text is refined by its columns. */
  lemma {:induction false} WideRefines(l: Layout, body: Body)
    requires RowBody(l, body) && Wide(body) && Refined(l, body).Ok?
    ensures Refined(l, body).value.Some?
  {
    hide l.Window, l.Indexed, l.InTable, ColumnBodies, CellUnit, l.RowCells, RowBody;
    NonemptyRow(l, body);
    OnlyWindow(l, body, 0);
    var (window, unit) := (body.windows[0], body.fragments[0].contribution.unit);
    FallsColumn(l, window, unit);
    var cells := l.RowCells(window.row).value;
    var k :| 0 <= k < |window.columns| && window.columns[k] == ColumnOf(l, unit);
    ColumnHolds(l, body.fragments, cells[ColumnOf(l, unit)].id, |body.fragments|);
    ColumnsSome(l, body, window, cells, k, |window.columns|);
  }

  lemma {:induction false} FallsColumn(l: Layout, window: TableWindow, unit: nat)
    requires Falls(l, window, unit)
    ensures l.RowCells(window.row).Ok? && ColumnOf(l, unit) < |l.RowCells(window.row).value| && DistinctIds(l.RowCells(window.row).value)
    ensures l.InBlock(unit, l.RowCells(window.row).value[ColumnOf(l, unit)].id) && ColumnOf(l, unit) in window.columns
  {
    hide l.Window, l.RowCells;
  }

  lemma {:induction false} ColumnHolds(l: Layout, fragments: seq<Fragment>, block: Id, n: nat)
    requires 0 < n <= |fragments| && l.InBlock(fragments[0].contribution.unit, block)
    ensures FragmentsIn(l, fragments, block, n) != []
  {
    if n > 1 {
      ColumnHolds(l, fragments, block, n - 1);
    }
  }

  lemma {:induction false} ColumnsSome(l: Layout, body: Body, window: TableWindow, cells: seq<Block>, k: nat, n: nat)
    requires k < n <= |window.columns| && ColumnBodies(l, body, window, cells, n).Ok? && window.columns[k] < |cells|
    requires FragmentsIn(l, body.fragments, cells[window.columns[k]].id, |body.fragments|) != []
    ensures ColumnBodies(l, body, window, cells, n).value != []
  {
    hide FragmentsIn;
    if k < n - 1 {
      ColumnsSome(l, body, window, cells, k, n - 1);
    }
  }

  lemma {:induction false} PlaceRows(part: Body, body: Body)
    requires SamePlace(part, body) && |body.windows| <= 1
    ensures RowsIn(part.windows) == RowsIn(body.windows)
  {
    if body.windows != [] {
      assert part.windows[0].row in RowsIn(part.windows);
      forall id ensures id in RowsIn(part.windows) <==> id == part.windows[0].row {
      }
      forall id ensures id in RowsIn(body.windows) <==> id == body.windows[0].row {
        assert body.windows[0].row in RowsIn(body.windows);
      }
    }
  }

  lemma {:induction false} PartShape(l: Layout, body: Body, bodies: seq<Body>, k: nat)
    requires RowBody(l, body) && AllTabular(l, bodies, body) && k < |bodies| && !Wide(bodies[k])
    ensures PieceTabular(l, Atom(bodies[k])) && AllExact(l, bodies[k]) && PieceRows(Atom(bodies[k])) == RowsIn(body.windows)
  {
    hide DraftTabular, RowBody, RowsIn, AllExact, SamePlace;
    NarrowExact(l, bodies[k]);
    OneRow(l, body);
    PlaceRows(bodies[k], body);
    AtomShape(l, bodies[k]);
  }

  /** A refined row's parts take its place at the front. */
  lemma {:induction false} RefineTabled(l: Layout, s: State, bodies: seq<Body>)
    requires TablesRegular(l) && Tabled(l, s) && s.pending != [] && s.current.None?
    requires s.pending[0].Atom? && WholeRow(l, s.pending[0].atom) && Refined(l, s.pending[0].atom) == Ok(Some(bodies))
    ensures Tabled(l, State(Requeued(bodies, s.pending[1..]), None, s.result))
  {
    hide DraftTabular, TablesRegular, Refined, RowsPending, RowsIn, PieceRows, SharedExact, Requeued, WholeRow, RowBody, PieceTabular, ResultTabular;
    var m: nat :| TabledAt(l, s, m);
    var (atom, rest) := (s.pending[0].atom, s.pending[1..]);
    PieceHere(l, s.pending, m, 0);
    AtomShape(l, atom);
    RefinedTabular(l, atom);
    RefinedNarrow(l, atom);
    RefinedRows(l, s.pending, m, bodies);
    var (next, parts) := (Requeued(bodies, rest), Less(m) + |bodies|);
    RequeuedSize(bodies, rest);
    forall i, j | 0 <= i < |s.result| && parts <= j < |next| ensures RowsIn(s.result[i].windows) !! PieceRows(next[j]) {
      RequeuedAt(bodies, rest, j);
      assert next[j] == s.pending[j - |bodies| + 1];
    }
    assert TabledAt(l, State(next, None, s.result), parts);
  }

  lemma {:induction false} RefinedRows(l: Layout, pending: seq<Piece>, m: nat, bodies: seq<Body>)
    requires RowsPending(l, pending, m) && pending != [] && pending[0].Atom? && RowBody(l, pending[0].atom)
    requires AllTabular(l, bodies, pending[0].atom) && forall k :: 0 <= k < |bodies| ==> !Wide(bodies[k])
    ensures RowsPending(l, Requeued(bodies, pending[1..]), Less(m) + |bodies|)
  {
    hide RowsPending, RowsIn, Requeued, RowBody, PieceTabular, AllFull, AllExact, AllTabular, BodyOf, Wide;
    var (rest, parts) := (pending[1..], Less(m) + |bodies|);
    var next := Requeued(bodies, rest);
    RequeuedSize(bodies, rest);
    AtMost(l, pending, m);
    forall k | 0 <= k < |next|
      ensures PieceTabular(l, next[k])
      ensures if k < parts then next[k].Atom? && AllExact(l, next[k].atom) else AllFull(l, BodyOf(next[k]).windows)
    {
      RequeuedAt(bodies, rest, k);
      if k < |bodies| {
        PartShape(l, pending[0].atom, bodies, k);
      } else {
        PieceHere(l, pending, m, k - |bodies| + 1);
      }
    }
    forall i, j | 0 <= i < j < |next|
      ensures if j < parts then PieceRows(next[i]) == PieceRows(next[j]) else PieceRows(next[i]) !! PieceRows(next[j])
    {
      RefinedPair(l, pending, m, bodies, i, j);
    }
    MakesParts(l, next, parts);
  }

  lemma {:induction false} AtMost(l: Layout, pending: seq<Piece>, m: nat)
    requires RowsPending(l, pending, m)
    ensures m <= |pending|
  {
    hide PieceTabular, AllFull, AllExact, RowsIn;
  }

  lemma {:induction false} MakesParts(l: Layout, pending: seq<Piece>, m: nat)
    requires m <= |pending|
    requires forall k :: 0 <= k < |pending| ==>
               PieceTabular(l, pending[k]) && if k < m then pending[k].Atom? && AllExact(l, pending[k].atom) else AllFull(l, BodyOf(pending[k]).windows)
    requires forall i, j :: 0 <= i < j < |pending| ==>
               if j < m then PieceRows(pending[i]) == PieceRows(pending[j]) else PieceRows(pending[i]) !! PieceRows(pending[j])
    ensures RowsPending(l, pending, m)
  {
    hide PieceTabular, AllFull, RowsIn, AllExact;
  }

  lemma {:induction false} RefinedPair(l: Layout, pending: seq<Piece>, m: nat, bodies: seq<Body>, i: nat, j: nat)
    requires RowsPending(l, pending, m) && pending != [] && pending[0].Atom? && RowBody(l, pending[0].atom)
    requires AllTabular(l, bodies, pending[0].atom) && forall k :: 0 <= k < |bodies| ==> !Wide(bodies[k])
    requires i < j < |Requeued(bodies, pending[1..])|
    ensures
      var next := Requeued(bodies, pending[1..]);
      if j < Less(m) + |bodies| then PieceRows(next[i]) == PieceRows(next[j]) else PieceRows(next[i]) !! PieceRows(next[j])
  {
    hide RowsPending, RowsIn, Requeued, RowBody, PieceTabular, AllTabular, BodyOf, Wide;
    var rest := pending[1..];
    RequeuedSize(bodies, rest);
    RequeuedAt(bodies, rest, i);
    RequeuedAt(bodies, rest, j);
    AtomShape(l, pending[0].atom);
    if i < |bodies| {
      PartShape(l, pending[0].atom, bodies, i);
    }
    if j < |bodies| {
      PartShape(l, pending[0].atom, bodies, j);
    } else {
      PairHere(l, pending, m, if i < |bodies| then 0 else i - |bodies| + 1, j - |bodies| + 1);
    }
  }

  /** The pieces of a split unit keep its row. */
  lemma {:induction false} SplitTabled(l: Layout, t: Tools, s: State, code: bool, pieces: seq<ChunkContent>)
    requires Tabled(l, s) && s.pending != [] && s.current.None? && s.pending[0].Atom? && Refined(l, s.pending[0].atom) == Ok(None)
    requires |s.pending[0].atom.fragments| == 1 && s.pending[0].atom.fragments[0].contribution.unit < |l.units|
    requires
      var range := s.pending[0].atom.fragments[0].contribution.range;
      CutFrom(l, t, s.pending[0].atom, code, range.start, range.end, pieces)
    ensures Tabled(l, State(s.pending[1..], None, s.result + pieces))
  {
    hide DraftTabular, RowsPending, RowsIn, PieceRows, SharedExact, RowBody, PieceTabular, ResultTabular, AllExact, CutFrom, Refined;
    var m: nat :| TabledAt(l, s, m);
    var atom := s.pending[0].atom;
    PieceHere(l, s.pending, m, 0);
    AtomShape(l, atom);
    if Wide(atom) {
      WideRefines(l, atom);
    }
    NarrowExact(l, atom);
    RestTabled(l, s, m);
    PiecesTabled(l, t, s, m, code, pieces, |pieces|);
    assert pieces[..|pieces|] == pieces;
  }

  lemma {:induction false} PiecesTabled(l: Layout, t: Tools, s: State, m: nat, code: bool, pieces: seq<ChunkContent>, n: nat)
    requires s.pending != [] && TabledAt(l, State(s.pending[1..], None, s.result), Less(m)) && TabledAt(l, s, m) && n <= |pieces|
    requires s.pending[0].Atom? && RowBody(l, s.pending[0].atom) && AllExact(l, s.pending[0].atom)
    requires |s.pending[0].atom.fragments| == 1 && s.pending[0].atom.fragments[0].contribution.unit < |l.units|
    requires
      var range := s.pending[0].atom.fragments[0].contribution.range;
      CutFrom(l, t, s.pending[0].atom, code, range.start, range.end, pieces)
    ensures TabledAt(l, State(s.pending[1..], None, s.result + pieces[..n]), Less(m))
  {
    hide DraftTabular, RowsPending, RowsIn, PieceRows, SharedExact, RowBody, AllExact, CutFrom, TabledAt, RowsBefore, WholeRows;
    if n == 0 {
      assert s.result + pieces[..0] == s.result;
    } else {
      PiecesTabled(l, t, s, m, code, pieces, n - 1);
      var atom, piece := s.pending[0].atom, pieces[n - 1];
      SplitPieceExact(l, t, atom, code, pieces, n - 1);
      AtomShape(l, atom);
      SplitBefore(l, s, m, ResultBody(piece));
      AfterExact(l, s.result + pieces[..n - 1], ResultBody(piece));
      FinishTabled(l, s.pending[1..], Less(m), s.result + pieces[..n - 1], piece);
      assert pieces[..n] == pieces[..n - 1] + [piece];
      assert s.result + pieces[..n] == s.result + pieces[..n - 1] + [piece];
    }
  }

  lemma {:induction false} AfterExact(l: Layout, result: seq<ChunkContent>, body: Body)
    requires AllExact(l, body)
    ensures AfterResults(l, result, body)
  {
    hide ExactWindow;
  }

  lemma {:induction false} SplitBefore(l: Layout, s: State, m: nat, body: Body)
    requires TabledAt(l, s, m) && s.pending != [] && |body.windows| <= 1 && RowsIn(body.windows) == PieceRows(s.pending[0])
    ensures RowsBefore(body, s.pending[1..], Less(m))
  {
    hide RowsIn, PieceTabular, AllExact, AllFull, OpenTabular, ResultTabular, SharedExact;
    var rest := s.pending[1..];
    if Less(m) > 0 {
      assert PieceRows(s.pending[0]) == PieceRows(s.pending[1]);
    }
    forall j | Less(m) <= j < |rest| ensures RowsIn(body.windows) !! PieceRows(rest[j]) {
      assert rest[j] == s.pending[j + 1];
    }
  }

  lemma {:induction false} SplitPieceExact(l: Layout, t: Tools, atom: Body, code: bool, pieces: seq<ChunkContent>, i: nat)
    requires RowBody(l, atom) && AllExact(l, atom) && i < |pieces|
    requires |atom.fragments| == 1 && atom.fragments[0].contribution.unit < |l.units|
    requires var range := atom.fragments[0].contribution.range; CutFrom(l, t, atom, code, range.start, range.end, pieces)
    ensures ResultTabular(l, pieces[i]) && AllExact(l, ResultBody(pieces[i]))
    ensures pieces[i].windows == atom.windows && |pieces[i].windows| <= 1
  {
    hide Prepared, CutBy, Fits, Tabular, ExactWindow, Full;
    var range := atom.fragments[0].contribution.range;
    assert CutAt(l, t, atom, code, EndOf(pieces[..i], range.start), range.end, pieces[i]);
    CutAdvances(l, t, atom, code, EndOf(pieces[..i], range.start), range.end, pieces[i]);
    SameShape(l, atom, ResultBody(pieces[i]));
    OneRow(l, atom);
    forall k | 0 <= k < |atom.windows| ensures ExactWindow(l, pieces[i].fragments, atom.windows[k]) {
      SameExact(l, atom.fragments, pieces[i].fragments, atom.windows[k]);
    }
  }

  lemma {:induction false} SameExact(l: Layout, a: seq<Fragment>, b: seq<Fragment>, window: TableWindow)
    requires ExactWindow(l, a, window) && |a| == |b|
    requires forall i :: 0 <= i < |a| ==> b[i].contribution.unit == a[i].contribution.unit
    ensures ExactWindow(l, b, window)
  {
    hide l.Window, l.RowCells;
    forall c | c in window.columns ensures ShowsColumn(l, b, window, c) {
      assert ShowsColumn(l, a, window, c);
      var i :| 0 <= i < |a| && Falls(l, window, a[i].contribution.unit) && ColumnOf(l, a[i].contribution.unit) == c;
      assert Falls(l, window, b[i].contribution.unit);
    }
  }

  /** Drafts of the same units and windows have the same shape. */
  lemma {:induction false} SameDraft(l: Layout, a: Body, b: Body)
    requires DraftTabular(l, a) && b.windows == a.windows && |b.fragments| == |a.fragments|
    requires forall i :: 0 <= i < |a.fragments| ==> b.fragments[i].contribution.unit == a.fragments[i].contribution.unit
    ensures DraftTabular(l, b)
  {
    hide Tabular, ExactWindow, Full;
    SameShape(l, a, b);
    forall k | 0 <= k < |b.windows| && ExactWindow(l, a.fragments, a.windows[k]) ensures ExactWindow(l, b.fragments, b.windows[k]) {
      SameExact(l, a.fragments, b.fragments, a.windows[k]);
    }
  }
}
