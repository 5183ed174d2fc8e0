/** A step with rows of two tables that fits a chunk: some draft shows both, and the window check refuses it. */
module Refusals {
  import opened Common
  import opened Ranges
  import opened Units
  import opened Layouts
  import opened Preparation
  import opened Splitting
  import opened Conservation
  import opened Refining
  import opened Atoms
  import opened Packing
  import opened Tables
  import opened TableTurns
  import opened TableStarts
  import opened Replay

  // ---- Windows that no row order allows

  /** A window of a row that holds text of the layout. */
  ghost predicate RowWindow(l: Layout, window: TableWindow) {
    ColumnsOk(l, window) && exists u: nat :: TextOfRow(l, window, u)
  }

  ghost predicate TextOfRow(l: Layout, window: TableWindow, unit: nat) {
    TableText(l, unit) && SameRow(OwnWindow(l, unit), window)
  }

  ghost predicate Rowed(l: Layout, windows: seq<TableWindow>) {
    forall k :: 0 <= k < |windows| ==> RowWindow(l, windows[k])
  }

  /** Whole rows of two tables, or rows of unequal width, one after the other. */
  ghost predicate BadPair(l: Layout, a: TableWindow, b: TableWindow) {
    Full(l, a) && Full(l, b) && (a.table != b.table || a.columns != b.columns)
  }

  ghost predicate Mixed(l: Layout, windows: seq<TableWindow>) {
    exists k :: MixedAt(l, windows, k)
  }

  ghost predicate MixedAt(l: Layout, windows: seq<TableWindow>, k: int) {
    0 <= k && k + 1 < |windows| && BadPair(l, windows[k], windows[k + 1])
  }

  /** No order check accepts such windows. */
  lemma {:induction false} MixedRefused(l: Layout, windows: seq<TableWindow>)
    requires Mixed(l, windows)
    ensures !WindowsOrdered(l, windows)
  {
    hide ColumnsOk, Full;
    var k :| MixedAt(l, windows, k);
    assert !FollowsWindow(windows[k], windows[k + 1]);
  }

  /** Windows of one row are of one table. */
  lemma {:induction false} OneRowOneTable(l: Layout, a: TableWindow, b: TableWindow)
    requires TablesRegular(l) && RowWindow(l, a) && RowWindow(l, b) && a.row == b.row
    ensures SameRow(a, b)
  {
    hide l.Window, l.RowCells, l.Indexed, l.InTable, CellUnit, DisjointRows, SameGroup, ColumnsOk;
    var u: nat :| TextOfRow(l, a, u);
    var v: nat :| TextOfRow(l, b, v);
    TextInLayout(l, u);
    TextInLayout(l, v);
    assert InTableOrder(l, if u <= v then u else v, if u <= v then v else u);
  }

  /** Merging columns into a window of a whole row, or a whole row's into a window, gives the whole row. */
  lemma {:induction false} MergedWhole(l: Layout, a: TableWindow, b: TableWindow)
    requires a.row == b.row && ColumnsOk(l, a) && ColumnsOk(l, b)
    ensures Full(l, a) ==> Merged(a, b).columns == a.columns
    ensures Full(l, b) ==> Merged(a, b).columns == b.columns && Full(l, Merged(a, b))
    ensures ColumnsOk(l, Merged(a, b))
  {
    hide MergeColumns, l.RowCells, ColumnsOk;
    ColumnsAscend(l, a);
    ColumnsAscend(l, b);
    MergedColumnsOk(l, a, b);
    forall c | c in b.columns ensures c < |CellsOfRow(l, a.row)| {
      ColumnInRow(l, b, c);
    }
    forall c | c in a.columns ensures c < |CellsOfRow(l, a.row)| {
      ColumnInRow(l, a, c);
    }
    MergeWithinEither(a.columns, b.columns);
  }

  /** One more window: what is mixed stays mixed, and the last window is of its row. */
  lemma {:induction false} AddKeeps(l: Layout, windows: seq<TableWindow>, x: TableWindow)
    requires TablesRegular(l) && Rowed(l, windows) && RowWindow(l, x)
    ensures
      var all := AddWindow(windows, x);
      && Rowed(l, all) && all != [] && SameRow(LastWindow(all), x)
      && (Full(l, x) ==> LastWindow(all).columns == x.columns && Full(l, LastWindow(all)))
      && (Mixed(l, windows) ==> Mixed(l, all))
      && (windows != [] && BadPair(l, LastWindow(windows), x) ==> Mixed(l, all))
  {
    hide TablesRegular, ColumnsOk, MergeColumns, Full, TableText;
    var all := AddWindow(windows, x);
    if windows != [] && LastWindow(windows).row == x.row {
      var last := LastWindow(windows);
      OneRowOneTable(l, last, x);
      MergedWhole(l, last, x);
      assert LastWindow(all) == Merged(last, x);
      SameWindow(l, last, x);
      KeepsMixed(l, windows, all);
    } else {
      KeepsMixed(l, windows, all);
      if windows != [] && BadPair(l, LastWindow(windows), x) {
        assert MixedAt(l, all, |windows| - 1);
      }
    }
  }

  /** Whole windows of one row are equal, so they make no bad pair; merging leaves the row a row window. */
  lemma {:induction false} SameWindow(l: Layout, a: TableWindow, b: TableWindow)
    requires SameRow(a, b) && RowWindow(l, a) && RowWindow(l, b) && ColumnsOk(l, Merged(a, b))
    ensures RowWindow(l, Merged(a, b)) && !BadPair(l, a, b)
  {
    hide MergeColumns, TableText, l.RowCells;
    ColumnsAscend(l, a);
    ColumnsAscend(l, b);
    var u: nat :| TextOfRow(l, a, u);
    assert TextOfRow(l, Merged(a, b), u);
    if Full(l, a) && Full(l, b) {
      forall c ensures c in a.columns <==> c in b.columns {
        WholeColumn(l, a, b, c);
      }
      AscendingUnique(a.columns, b.columns);
    }
  }

  lemma {:induction false} WholeColumn(l: Layout, a: TableWindow, b: TableWindow, c: nat)
    requires a.row == b.row && Full(l, a) && Full(l, b)
    ensures c in a.columns <==> c in b.columns
  {
    hide l.RowCells;
  }

  lemma {:induction false} KeepsMixed(l: Layout, windows: seq<TableWindow>, all: seq<TableWindow>)
    requires |windows| <= |all|
    requires Mixed(l, windows) ==> forall k :: 0 <= k < |windows| ==> all[k].table == windows[k].table && all[k].row == windows[k].row
    requires Mixed(l, windows) ==> forall k :: 0 <= k < |windows| && Full(l, windows[k]) ==> all[k].columns == windows[k].columns
    ensures Mixed(l, windows) ==> Mixed(l, all)
  {
    hide CellsOfRow;
    if Mixed(l, windows) {
      var k :| MixedAt(l, windows, k);
      assert MixedAt(l, all, k);
    }
  }

  /** Windows after others: what is mixed on either side is mixed in the whole. */
  lemma {:induction false} AddsKeep(l: Layout, windows: seq<TableWindow>, added: seq<TableWindow>, n: nat)
    requires TablesRegular(l) && Rowed(l, windows) && Rowed(l, added) && n <= |added|
    ensures
      var all := AddWindows(windows, added, n);
      && Rowed(l, all)
      && (n > 0 ==> all != [] && SameRow(LastWindow(all), added[n - 1]))
      && (n > 0 && Full(l, added[n - 1]) ==> LastWindow(all).columns == added[n - 1].columns && Full(l, LastWindow(all)))
      && (Mixed(l, windows) || Mixed(l, added[..n]) ==> Mixed(l, all))
  {
    hide TablesRegular, RowWindow, Full, AddWindow;
    if n == 0 {
      assert added[..0] == [];
    } else {
      AddsKeep(l, windows, added, n - 1);
      var before := AddWindows(windows, added, n - 1);
      AddKeeps(l, before, added[n - 1]);
      if Mixed(l, added[..n]) {
        var k :| MixedAt(l, added[..n], k);
        if k + 1 < n - 1 {
          assert MixedAt(l, added[..n - 1], k);
        } else {
          assert BadPair(l, added[n - 2], added[n - 1]);
          assert BadPair(l, LastWindow(before), added[n - 1]);
        }
      }
    }
  }

  lemma {:induction false} CombinedKeeps(l: Layout, left: Body, right: Body)
    requires TablesRegular(l) && Rowed(l, left.windows) && Rowed(l, right.windows)
    ensures Rowed(l, Combined(left, right).windows)
    ensures Mixed(l, left.windows) || Mixed(l, right.windows) ==> Mixed(l, Combined(left, right).windows)
  {
    hide TablesRegular, Rowed, Mixed, AddWindows;
    AddsKeep(l, left.windows, right.windows, |right.windows|);
    assert right.windows[..|right.windows|] == right.windows;
  }

  // ---- A step with rows of two tables

  lemma {:induction false} TabularRowed(l: Layout, body: Body)
    requires Tabular(l, body)
    ensures Rowed(l, body.windows)
  {
    hide l.Window, l.RowCells, Tabular, TableText, ColumnsOk, Falls;
    forall k | 0 <= k < |body.windows| ensures RowWindow(l, body.windows[k]) {
      var i := WindowText(l, body, k);
      OwnRow(l, body.windows[k], body.fragments[i].contribution.unit);
      WindowsOk(l, body, k);
      assert TextOfRow(l, body.windows[k], body.fragments[i].contribution.unit);
    }
  }

  lemma {:induction false} RowBodyRowed(l: Layout, body: Body)
    requires RowBody(l, body)
    ensures Rowed(l, body.windows)
  {
    hide Tabular, Rowed;
    TabularRowed(l, body);
  }

  lemma {:induction false} BodiedRowed(l: Layout, atoms: seq<Body>, n: nat)
    requires TablesRegular(l) && n <= |atoms| && forall i :: 0 <= i < n ==> RowBody(l, atoms[i])
    ensures Rowed(l, Bodied(atoms, n).windows)
  {
    hide TablesRegular, Tabular, RowWindow, Combined;
    if n > 0 {
      BodiedRowed(l, atoms, n - 1);
      TabularRowed(l, atoms[n - 1]);
      CombinedKeeps(l, Bodied(atoms, n - 1), atoms[n - 1]);
    }
  }

  /** The last window of the first n atoms agrees with all of theirs, unless some are mixed. */
  ghost predicate Agrees(atoms: seq<Body>, n: nat)
    requires n <= |atoms|
  {
    var windows := Bodied(atoms, n).windows;
    forall i :: 0 <= i < n && atoms[i].windows != [] ==>
      windows != [] && LastWindow(windows).table == atoms[i].windows[0].table && LastWindow(windows).columns == atoms[i].windows[0].columns
  }

  ghost predicate WholeAtoms(l: Layout, atoms: seq<Body>) {
    forall i :: 0 <= i < |atoms| ==> RowBody(l, atoms[i]) && AllFull(l, atoms[i].windows)
  }

  lemma {:induction false} AgreesOrMixed(l: Layout, atoms: seq<Body>, n: nat)
    requires TablesRegular(l) && WholeAtoms(l, atoms) && n <= |atoms|
    ensures Mixed(l, Bodied(atoms, n).windows) || (Agrees(atoms, n) && AllFullLast(l, Bodied(atoms, n).windows))
  {
    hide TablesRegular, Tabular, Full, RowWindow, AddWindow, Mixed, BadPair;
    if n > 0 {
      AgreesOrMixed(l, atoms, n - 1);
      BodiedRowed(l, atoms, n - 1);
      TabularRowed(l, atoms[n - 1]);
      NextAtom(l, Bodied(atoms, n - 1), atoms[n - 1]);
      BodiedNext(atoms, n - 1);
      if !Mixed(l, Bodied(atoms, n).windows) {
        CombinedKeeps(l, Bodied(atoms, n - 1), atoms[n - 1]);
        assert Agrees(atoms, n - 1);
      }
    }
  }

  ghost predicate AllFullLast(l: Layout, windows: seq<TableWindow>) {
    windows != [] ==> Full(l, LastWindow(windows))
  }

  /** One more atom of whole rows: mixed, or its row is like the last one. */
  lemma {:induction false} NextAtom(l: Layout, left: Body, right: Body)
    requires TablesRegular(l) && Rowed(l, left.windows) && Rowed(l, right.windows) && |right.windows| <= 1
    requires AllFull(l, right.windows) && (Mixed(l, left.windows) || AllFullLast(l, left.windows))
    ensures
      var all := Combined(left, right).windows;
      || Mixed(l, all)
      || (if right.windows == [] then all == left.windows
          else && all != [] && Full(l, LastWindow(all))
               && LastWindow(all).table == right.windows[0].table && LastWindow(all).columns == right.windows[0].columns
               && (left.windows != [] ==>
                     LastWindow(left.windows).table == LastWindow(all).table && LastWindow(left.windows).columns == LastWindow(all).columns))
  {
    hide TablesRegular, Full, RowWindow, Mixed;
    CombinedKeeps(l, left, right);
    if right.windows != [] {
      assert AddWindows(left.windows, right.windows, 0) == left.windows;
      assert Combined(left, right).windows == AddWindow(left.windows, right.windows[0]);
      AddKeeps(l, left.windows, right.windows[0]);
    }
  }

  /** The body of a step that holds rows of two tables is mixed. */
  lemma {:induction false} StepMixed(l: Layout, atoms: seq<Body>)
    requires TablesRegular(l) && WholeAtoms(l, atoms) && !OneTable(atoms)
    ensures Mixed(l, Bodied(atoms, |atoms|).windows)
  {
    hide TablesRegular, WholeAtoms, Mixed, Bodied;
    AgreesOrMixed(l, atoms, |atoms|);
    var i, j :| 0 <= i < j < |atoms| && !SameTable(atoms[i], atoms[j]);
  }

  // ---- What packing keeps

  ghost predicate RowPieces(l: Layout, pieces: seq<Piece>) {
    forall k :: 0 <= k < |pieces| ==> RowPiece(l, pieces[k])
  }

  ghost predicate RowPiece(l: Layout, piece: Piece) {
    forall i :: 0 <= i < |PieceAtoms(piece)| ==> RowBody(l, PieceAtoms(piece)[i])
  }

  ghost predicate AllRowed(l: Layout, chunks: seq<ChunkContent>) {
    forall i :: 0 <= i < |chunks| ==> Rowed(l, chunks[i].windows)
  }

  /** Everything the state holds shows rows. */
  ghost predicate Shows(l: Layout, s: State) {
    RowPieces(l, s.pending) && AllRowed(l, s.result) && (s.current.Some? ==> Rowed(l, s.current.value.body.windows))
  }

  ghost predicate AnyMixed(l: Layout, chunks: seq<ChunkContent>) {
    exists i :: 0 <= i < |chunks| && Mixed(l, chunks[i].windows)
  }

  /** A mixed idea is still to be placed, or a draft already shows its rows. */
  ghost predicate Doomed(l: Layout, s: State, group: seq<Body>) {
    || Idea(group) in s.pending
    || (s.current.Some? && Mixed(l, s.current.value.body.windows))
    || AnyMixed(l, s.result)
  }

  /** A body that fits a chunk. */
  predicate FitsWhole(l: Layout, t: Tools, body: Body) {
    Prepared(l, t, body).Ok? && Prepared(l, t, body).value.tokenCount <= MaxTokens
  }

  lemma {:induction false} PieceRowed(l: Layout, piece: Piece)
    requires TablesRegular(l) && RowPiece(l, piece)
    ensures Rowed(l, BodyOf(piece).windows)
  {
    hide TablesRegular, Tabular, Rowed, Bodied;
    match piece {
      case Idea(atoms) =>
        forall i | 0 <= i < |atoms| ensures RowBody(l, atoms[i]) {
          assert PieceAtoms(piece)[i] == atoms[i];
        }
        BodiedRowed(l, atoms, |atoms|);
      case Atom(atom) =>
        assert PieceAtoms(piece)[0] == atom;
        TabularRowed(l, atom);
    }
  }

  lemma {:induction false} RestPieces(l: Layout, pending: seq<Piece>)
    requires RowPieces(l, pending) && pending != []
    ensures RowPieces(l, pending[1..]) && RowPiece(l, pending[0])
  {
    hide RowPiece;
  }

  lemma {:induction false} RequeuedPieces(l: Layout, bodies: seq<Body>, pending: seq<Piece>)
    requires RowPieces(l, pending) && forall i :: 0 <= i < |bodies| ==> RowBody(l, bodies[i])
    ensures RowPieces(l, Requeued(bodies, pending))
  {
    hide RowBody;
    var all := Requeued(bodies, pending);
    forall k | 0 <= k < |all| ensures RowPiece(l, all[k]) {
      RequeuedAt(bodies, pending, k);
    }
  }

  lemma {:induction false} StillPending(group: seq<Body>, bodies: seq<Body>, pending: seq<Piece>)
    requires Idea(group) in pending && pending != [] && pending[0] != Idea(group)
    ensures Idea(group) in pending[1..] && Idea(group) in Requeued(bodies, pending[1..])
  {
    var k :| 0 <= k < |pending| && pending[k] == Idea(group);
    assert pending[1..][k - 1] == Idea(group);
    assert Requeued(bodies, pending[1..])[|bodies| + k - 1] == Idea(group);
  }

  lemma {:induction false} MixedMore(l: Layout, result: seq<ChunkContent>, more: seq<ChunkContent>)
    ensures AnyMixed(l, result) ==> AnyMixed(l, result + more)
    ensures AnyMixed(l, more) ==> AnyMixed(l, result + more)
  {
    hide Mixed;
    if AnyMixed(l, result) {
      var i :| 0 <= i < |result| && Mixed(l, result[i].windows);
      assert Mixed(l, (result + more)[i].windows);
    }
    if AnyMixed(l, more) {
      var i :| 0 <= i < |more| && Mixed(l, more[i].windows);
      assert Mixed(l, (result + more)[|result| + i].windows);
    }
  }

  /** A draft settled: open or finished, it shows its body's rows. */
  lemma {:induction false} SettleShows(l: Layout, t: Tools, pending: seq<Piece>, result: seq<ChunkContent>, draft: Draft, group: seq<Body>)
    requires RowPieces(l, pending) && AllRowed(l, result) && Rowed(l, draft.body.windows) && Prepared(l, t, draft.body) == Ok(draft.chunk)
    ensures Shows(l, Settle(pending, result, draft))
    ensures Idea(group) in pending || Mixed(l, draft.body.windows) || AnyMixed(l, result) ==> Doomed(l, Settle(pending, result, draft), group)
  {
    hide Prepared, Mixed, RowPieces, Rowed;
    PreparedHolds(l, t, draft.body);
    MixedMore(l, result, [draft.chunk]);
    if Mixed(l, draft.body.windows) {
      assert Mixed(l, [draft.chunk][0].windows);
    }
  }

  lemma {:induction false} ClosedShows(l: Layout, t: Tools, s: State, group: seq<Body>)
    requires Shows(l, s) && (s.current.Some? ==> Prepared(l, t, s.current.value.body) == Ok(s.current.value.chunk))
    ensures Shows(l, Closed(s)) && Closed(s).pending == s.pending && Closed(s).current.None?
    ensures Doomed(l, s, group) ==> Doomed(l, Closed(s), group)
  {
    hide Prepared, Mixed, RowPieces, Rowed;
    if s.current.Some? {
      PreparedHolds(l, t, s.current.value.body);
      MixedMore(l, s.result, [s.current.value.chunk]);
      if Mixed(l, s.current.value.body.windows) {
        assert Mixed(l, [s.current.value.chunk][0].windows);
      }
    }
  }

  lemma {:induction false} CutShows(l: Layout, t: Tools, body: Body, code: bool, start: nat, stop: nat)
    requires |body.fragments| == 1 && body.fragments[0].contribution.unit < |l.units|
    requires start < stop <= |l.units[body.fragments[0].contribution.unit].text| && Cut(l, t, body, code, start, stop).Ok?
    ensures Cut(l, t, body, code, start, stop).value.windows == body.windows
  {
    hide Prepared, LengthOf;
    var length := LengthOf(l, t, body, code, start, stop).value;
    PreparedHolds(l, t, PieceAt(l, body, start, length).value);
  }

  /** Pieces of a split unit show the unit's row. */
  lemma {:induction false} SplitShows(l: Layout, t: Tools, body: Body, code: bool, start: nat, stop: nat)
    requires |body.fragments| == 1 && body.fragments[0].contribution.unit < |l.units| && SplitFrom(l, t, body, code, start, stop).Ok?
    ensures
      var pieces := SplitFrom(l, t, body, code, start, stop).value;
      forall i :: 0 <= i < |pieces| ==> pieces[i].windows == body.windows
    decreases stop - start
  {
    hide Cut, CutAt, RangeOf;
    if start < stop {
      var piece := Cut(l, t, body, code, start, stop).value;
      CutShows(l, t, body, code, start, stop);
      CutIs(l, t, body, code, start, stop);
      CutAdvances(l, t, body, code, start, stop, piece);
      SplitShows(l, t, body, code, RangeOf(piece).end, stop);
    }
  }

  /** An atom shrunk shows no other rows. */
  lemma {:induction false} ShrunkShows(l: Layout, t: Tools, s: State, atom: Body, group: seq<Body>)
    requires TablesRegular(l) && Shows(l, s) && s.pending != [] && s.pending[0] == Atom(atom) && s.current.None?
    requires Shrunk(l, t, s, atom).Ok?
    ensures Shows(l, Shrunk(l, t, s, atom).value)
    ensures Doomed(l, s, group) ==> Doomed(l, Shrunk(l, t, s, atom).value, group)
  {
    hide TablesRegular, Refined, SplitFrom, RowBody, Rowed, Mixed, l.Nearest, Requeued;
    RestPieces(l, s.pending);
    assert PieceAtoms(s.pending[0])[0] == atom;
    var refined := Refined(l, atom).value;
    var bodies := if refined.Some? then refined.value else [];
    if Idea(group) in s.pending {
      StillPending(group, bodies, s.pending);
    }
    if refined.Some? {
      RefinedTabular(l, atom);
      RequeuedPieces(l, refined.value, s.pending[1..]);
    } else {
      var c := atom.fragments[0].contribution;
      SplitShows(l, t, atom, l.Nearest(c.unit, {Code}).Some?, c.range.start, c.range.end);
      RowBodyRowed(l, atom);
      MixedMore(l, s.result, Split(l, t, atom).value);
    }
  }

  lemma {:induction false} OpenedShows(l: Layout, t: Tools, s: State, group: seq<Body>)
    requires TablesRegular(l) && Shows(l, s) && s.pending != [] && s.current.None? && Opened(l, t, s).Ok?
    requires Mixed(l, BodyOf(Idea(group)).windows) && FitsWhole(l, t, BodyOf(Idea(group)))
    ensures Shows(l, Opened(l, t, s).value)
    ensures Doomed(l, s, group) ==> Doomed(l, Opened(l, t, s).value, group)
  {
    hide TablesRegular, Prepared, Shrunk, RowBody, Rowed, Mixed, Requeued, BodyOf, Bodied;
    var (piece, rest) := (s.pending[0], s.pending[1..]);
    RestPieces(l, s.pending);
    PieceRowed(l, piece);
    var chunk := Prepared(l, t, BodyOf(piece)).value;
    if Idea(group) in s.pending && piece != Idea(group) {
      StillPending(group, PieceAtoms(piece), s.pending);
    }
    if chunk.tokenCount <= MaxTokens {
      SettleShows(l, t, rest, s.result, Draft(BodyOf(piece), chunk), group);
    } else {
      match piece {
        case Idea(atoms) =>
          assert PieceAtoms(piece) == atoms;
          RequeuedPieces(l, atoms, rest);
        case Atom(atom) => ShrunkShows(l, t, s, atom, group);
      }
    }
  }

  lemma {:induction false} GrownShows(l: Layout, t: Tools, s: State, grown: Draft, group: seq<Body>)
    requires TablesRegular(l) && Shows(l, s) && s.pending != [] && s.current.Some?
    requires Mixed(l, BodyOf(Idea(group)).windows)
    requires Grown(l, t, s.current.value.body, BodyOf(s.pending[0])) == Ok(Some(grown))
    ensures Shows(l, Settle(s.pending[1..], s.result, grown))
    ensures Doomed(l, s, group) ==> Doomed(l, Settle(s.pending[1..], s.result, grown), group)
  {
    hide TablesRegular, Prepared, RowBody, Rowed, Mixed, BodyOf, Combined, Compatible;
    var (left, piece) := (s.current.value.body, s.pending[0]);
    RestPieces(l, s.pending);
    PieceRowed(l, piece);
    CombinedKeeps(l, left, BodyOf(piece));
    if Idea(group) in s.pending && piece != Idea(group) {
      StillPending(group, [], s.pending);
    }
    SettleShows(l, t, s.pending[1..], s.result, grown, group);
  }

  ghost predicate Drafted(l: Layout, t: Tools, s: State) {
    s.current.Some? ==> Prepared(l, t, s.current.value.body) == Ok(s.current.value.chunk)
  }

  /** A turn keeps a mixed idea pending, or opens a draft with its rows, or keeps that draft. */
  lemma {:induction false} SteppedShows(l: Layout, t: Tools, s: State, group: seq<Body>)
    requires TablesRegular(l) && Shows(l, s) && Drafted(l, t, s) && s.pending != [] && Stepped(l, t, s).Ok?
    requires Mixed(l, BodyOf(Idea(group)).windows) && FitsWhole(l, t, BodyOf(Idea(group)))
    ensures Shows(l, Stepped(l, t, s).value) && Drafted(l, t, Stepped(l, t, s).value)
    ensures Doomed(l, s, group) ==> Doomed(l, Stepped(l, t, s).value, group)
  {
    hide TablesRegular, Prepared, Shows, Doomed, Mixed, Requeued, BodyOf, Opened, Grown, Settle, Drafted;
    var (piece, rest) := (s.pending[0], s.pending[1..]);
    SteppedDrafted(l, t, s);
    match s.current {
      case None => OpenedShows(l, t, s, group);
      case Some(open) =>
        ClosedShows(l, t, s, group) by { DraftedIs(l, t, s); }
        var grown := Grown(l, t, open.body, BodyOf(piece)).value;
        if grown.Some? {
          GrownShows(l, t, s, grown.value, group);
        } else if piece.Idea? && Prepared(l, t, BodyOf(piece)).value.tokenCount > MaxTokens {
          BrokenShows(l, s, group);
        } else {
          OpenedShows(l, t, Closed(s), group);
        }
    }
  }

  lemma {:induction false} DraftedIs(l: Layout, t: Tools, s: State)
    requires Drafted(l, t, s) && s.current.Some?
    ensures Prepared(l, t, s.current.value.body) == Ok(s.current.value.chunk)
  {
    hide Prepared;
  }

  lemma {:induction false} BrokenShows(l: Layout, s: State, group: seq<Body>)
    requires Shows(l, s) && s.pending != [] && s.pending[0].Idea? && s.pending[0] != Idea(group)
    ensures
      var next := State(Requeued(s.pending[0].atoms, s.pending[1..]), s.current, s.result);
      Shows(l, next) && (Doomed(l, s, group) ==> Doomed(l, next, group))
  {
    hide Mixed, Requeued, RowBody, Rowed;
    RestPieces(l, s.pending);
    assert PieceAtoms(s.pending[0]) == s.pending[0].atoms;
    RequeuedPieces(l, s.pending[0].atoms, s.pending[1..]);
    if Idea(group) in s.pending {
      StillPending(group, s.pending[0].atoms, s.pending);
    }
  }

  lemma {:induction false} SteppedDrafted(l: Layout, t: Tools, s: State)
    requires Drafted(l, t, s) && s.pending != [] && Stepped(l, t, s).Ok?
    ensures Drafted(l, t, Stepped(l, t, s).value)
  {
    hide Prepared, Compatible, Shrunk, Requeued, BodyOf;
    if Opened(l, t, Closed(s)).Ok? && s.pending[0].Atom? {
      ShrunkCloses(l, t, Closed(s), s.pending[0].atom);
    }
  }

  lemma {:induction false} ShrunkCloses(l: Layout, t: Tools, s: State, atom: Body)
    requires s.pending != []
    ensures Shrunk(l, t, s, atom).Ok? ==> Shrunk(l, t, s, atom).value.current.None?
  {
    hide Refined, Split, Requeued;
  }

  /** Once an idea with rows of two tables that fits a chunk is pending, some finished draft shows such rows. */
  lemma {:induction false} PacksMixed(l: Layout, t: Tools, s: State, group: seq<Body>)
    requires TablesRegular(l) && Shows(l, s) && Drafted(l, t, s) && Doomed(l, s, group) && Packs(l, t, s).Ok?
    requires Mixed(l, BodyOf(Idea(group)).windows) && FitsWhole(l, t, BodyOf(Idea(group)))
    ensures AllRowed(l, Packs(l, t, s).value) && AnyMixed(l, Packs(l, t, s).value)
    decreases Weight(s.pending)
  {
    hide TablesRegular, Prepared, Stepped, Mixed, BodyOf, Weight, FitsWhole, Rowed;
    if s.pending == [] {
      ClosedShows(l, t, s, group);
    } else {
      SteppedLess(l, t, s);
      SteppedShows(l, t, s, group);
      PacksMixed(l, t, Stepped(l, t, s).value, group);
    }
  }

  // ---- Absorbing

  lemma {:induction false} AbsorbsMixed(l: Layout, t: Tools, before: seq<ChunkContent>, draft: ChunkContent, minTokens: nat)
    requires TablesRegular(l) && AllRowed(l, before) && Rowed(l, draft.windows) && Absorbs(l, t, before, draft, minTokens).Ok?
    ensures AllRowed(l, Absorbs(l, t, before, draft, minTokens).value)
    ensures AnyMixed(l, before) || Mixed(l, draft.windows) ==> AnyMixed(l, Absorbs(l, t, before, draft, minTokens).value)
  {
    hide TablesRegular, Prepared, Compatible, Combined, Mixed, Rowed;
    var after := Absorbs(l, t, before, draft, minTokens).value;
    if after == before + [draft] {
      MixedMore(l, before, [draft]);
      if Mixed(l, draft.windows) {
        assert Mixed(l, [draft][0].windows);
      }
    } else {
      var last := before[|before| - 1];
      var (left, right) := (ResultBody(last), ResultBody(draft));
      PreparedHolds(l, t, Combined(left, right));
      CombinedKeeps(l, left, right);
      assert after[|before| - 1].windows == Combined(left, right).windows;
      if AnyMixed(l, before) {
        var i :| 0 <= i < |before| && Mixed(l, before[i].windows);
        assert Mixed(l, after[i].windows);
      }
      if Mixed(l, draft.windows) {
        assert Mixed(l, after[|before| - 1].windows);
      }
    }
  }

  lemma {:induction false} AbsorbedMixed(l: Layout, t: Tools, drafts: seq<ChunkContent>, minTokens: nat, n: nat)
    requires TablesRegular(l) && AllRowed(l, drafts) && n <= |drafts| && Absorbed(l, t, drafts, minTokens, n).Ok?
    ensures AllRowed(l, Absorbed(l, t, drafts, minTokens, n).value)
    ensures AnyMixed(l, drafts[..n]) ==> AnyMixed(l, Absorbed(l, t, drafts, minTokens, n).value)
  {
    hide TablesRegular, Absorbs, Mixed, Rowed;
    if n > 0 {
      AbsorbedMixed(l, t, drafts, minTokens, n - 1);
      AbsorbsMixed(l, t, Absorbed(l, t, drafts, minTokens, n - 1).value, drafts[n - 1], minTokens);
      if AnyMixed(l, drafts[..n]) {
        var i :| 0 <= i < n && Mixed(l, drafts[..n][i].windows);
        if i < n - 1 {
          assert Mixed(l, drafts[..n - 1][i].windows);
        }
      }
    }
  }

  // ---- The whole

  /** A step that holds rows of two tables, or of unequal width, and yet fits one chunk. */
  ghost predicate MixedStep(l: Layout, t: Tools, g: nat) {
    var atoms := AtomsOf(l, |l.units|);
    && atoms.Ok?
    && var groups := Steps(l, atoms.value.0, |atoms.value.0|);
       g < |groups| && !OneTable(groups[g]) && FitsWhole(l, t, BodyOf(PieceOf(groups[g])))
  }

  lemma {:induction false} StepShown(l: Layout, atoms: seq<Body>, g: nat)
    requires TablesRegular(l) && AtomsKept(l, atoms) && g < |Steps(l, atoms, |atoms|)|
    ensures WholeAtoms(l, Steps(l, atoms, |atoms|)[g])
  {
    hide TablesRegular, RowsRegular, AtomsKept, RowBody, AllFull, Steps, DraftTabular;
    RowsAreRegular(l);
    var group := Steps(l, atoms, |atoms|)[g];
    GroupSlice(l, atoms, g);
    forall i | 0 <= i < |group| ensures RowBody(l, group[i]) && AllFull(l, group[i].windows) {
      GroupPart(l, atoms, group, |Flat(Steps(l, atoms, |atoms|), g)|, i);
    }
  }

  /** What packing starts from shows rows, with every step pending. */
  lemma {:induction false} StartShows(l: Layout, atoms: seq<Body>, g: nat)
    requires TablesRegular(l) && AtomsKept(l, atoms) && g < |Steps(l, atoms, |atoms|)| && !OneTable(Steps(l, atoms, |atoms|)[g])
    ensures
      var groups := Steps(l, atoms, |atoms|);
      var s := State(Pieces(groups, |groups|), None, []);
      PieceOf(groups[g]) == Idea(groups[g]) && Shows(l, s) && Doomed(l, s, groups[g]) && Mixed(l, BodyOf(Idea(groups[g])).windows)
  {
    hide TablesRegular, AtomsKept, Steps, Mixed, RowBody, SameTable, AllFull, Bodied;
    var groups := Steps(l, atoms, |atoms|);
    PiecesAt(groups, |groups|);
    var pieces := Pieces(groups, |groups|);
    StepShown(l, atoms, g);
    StepMixed(l, groups[g]);
    assert pieces[g] == Idea(groups[g]);
    forall k | 0 <= k < |pieces| ensures RowPiece(l, pieces[k]) {
      StepShown(l, atoms, k);
      assert PieceAtoms(PieceOf(groups[k])) == groups[k];
    }
  }

  /**
   * Whatever the profile: when a step that fits a chunk holds rows of two tables, some draft shows
   * both, and the window check refuses it.
   */
  lemma {:induction false} MixedStepRefused(l: Layout, t: Tools, g: nat) returns (i: nat)
    requires TablesRegular(l) && MixedStep(l, t, g) && AtomsKept(l, AtomsOf(l, |l.units|).value.0) && Built(l, t).Ok?
    ensures i < |Built(l, t).value| && !WindowsOrdered(l, Built(l, t).value[i].windows)
  {
    hide TablesRegular, AtomsKept, AtomsOf, Steps, Mixed, Prepared, OneTable, Packs, Absorbed, WindowsOrdered, Rowed, BodyOf;
    var atoms := AtomsOf(l, |l.units|).value.0;
    var groups := Steps(l, atoms, |atoms|);
    var s := State(Pieces(groups, |groups|), None, []);
    StartShows(l, atoms, g);
    PacksMixed(l, t, s, groups[g]);
    var drafts := Packs(l, t, s).value;
    assert drafts[..|drafts|] == drafts;
    if l.rules.minTokens.Some? {
      AbsorbedMixed(l, t, drafts, l.rules.minTokens.value, |drafts|);
    }
    i :| 0 <= i < |Built(l, t).value| && Mixed(l, Built(l, t).value[i].windows);
    MixedRefused(l, Built(l, t).value[i].windows);
  }
}
