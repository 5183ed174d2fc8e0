/** Where packing starts: atoms of different rows, ideas of one table, and what section packing needs of its steps. */
module TableStarts {
  import opened Common
  import opened Ranges
  import opened Units
  import opened Layouts
  import opened Preparation
  import opened Splitting
  import opened Conservation
  import opened Coverage
  import opened Refining
  import opened Atoms
  import opened Packing
  import opened Tables
  import opened TableTurns
  import opened Replay

  // ---- Steps

  /** Whether rows of two bodies may be shown in one chunk: one table, over the same columns. */
  predicate SameTable(a: Body, b: Body) {
    a.windows != [] && b.windows != [] ==>
      a.windows[0].table == b.windows[0].table && a.windows[0].columns == b.windows[0].columns
  }

  predicate OneTable(group: seq<Body>) {
    forall i, j :: 0 <= i < j < |group| ==> SameTable(group[i], group[j])
  }

  /** Whether no step holds rows of two tables, or rows of unequal width: what can be told before packing. */
  predicate StepsOneTable(l: Layout) {
    var atoms := AtomsOf(l, |l.units|);
    atoms.Ok? ==>
      var groups := Steps(l, atoms.value.0, |atoms.value.0|);
      forall g :: 0 <= g < |groups| ==> OneTable(groups[g])
  }

  // ---- Atoms stand in order

  lemma {:induction false} KeptAscends(l: Layout, n: nat)
    requires n <= |l.units|
    ensures forall i :: 0 <= i < |KeptContributions(l, n)| ==> KeptContributions(l, n)[i].unit < n
    ensures forall i, j :: 0 <= i < j < |KeptContributions(l, n)| ==> KeptContributions(l, n)[i].unit < KeptContributions(l, n)[j].unit
  {
    if n > 0 {
      KeptAscends(l, n - 1);
    }
  }

  /** Where a fragment of one of some bodies stands among all of theirs. */
  lemma {:induction false} FragmentAt(bodies: seq<Body>, i: nat, k: nat, n: nat)
    requires i < n <= |bodies| && k < |bodies[i].fragments|
    ensures |BodiesFragments(bodies, i)| + k < |BodiesFragments(bodies, i + 1)| <= |BodiesFragments(bodies, n)|
    ensures BodiesFragments(bodies, n)[|BodiesFragments(bodies, i)| + k] == bodies[i].fragments[k]
  {
    if i < n - 1 {
      FragmentAt(bodies, i, k, n - 1);
    }
  }

  lemma {:induction false} FragmentsGrow(bodies: seq<Body>, i: nat, j: nat)
    requires i <= j <= |bodies|
    ensures |BodiesFragments(bodies, i)| <= |BodiesFragments(bodies, j)|
  {
    if i < j {
      FragmentsGrow(bodies, i, j - 1);
    }
  }

  ghost predicate AtomsKept(l: Layout, atoms: seq<Body>) {
    AreAtoms(l, atoms) && AtomsApart(l, atoms)
    && Contributions(BodiesFragments(atoms, |atoms|)) == KeptContributions(l, |l.units|)
  }

  /** Every fragment of an atom comes before every one of a later atom. */
  lemma {:induction false} AtomsOrdered(l: Layout, atoms: seq<Body>, i: nat, a: nat, j: nat, b: nat)
    requires AtomsKept(l, atoms) && i < j < |atoms| && a < |atoms[i].fragments| && b < |atoms[j].fragments|
    ensures atoms[i].fragments[a].contribution.unit < atoms[j].fragments[b].contribution.unit < |l.units|
  {
    hide AreAtoms, AtomsApart, KeptContributions;
    var all := BodiesFragments(atoms, |atoms|);
    FragmentAt(atoms, i, a, |atoms|);
    FragmentAt(atoms, j, b, |atoms|);
    FragmentsGrow(atoms, i + 1, j);
    KeptAscends(l, |l.units|);
    var (p, q) := (|BodiesFragments(atoms, i)| + a, |BodiesFragments(atoms, j)| + b);
    assert Contributions(all)[p] == atoms[i].fragments[a].contribution && Contributions(all)[q] == atoms[j].fragments[b].contribution;
  }

  lemma {:induction false} AtomHere(l: Layout, atoms: seq<Body>, i: nat)
    requires TablesRegular(l) && RowsRegular(l) && AtomsKept(l, atoms) && i < |atoms|
    ensures IsAtom(l, atoms[i]) && RowBody(l, atoms[i]) && atoms[i].fragments != []
    ensures AllFull(l, atoms[i].windows) && DraftTabular(l, atoms[i])
  {
    hide TablesRegular, RowsRegular, AtomsApart, KeptContributions, Tabular, ExactWindow, BodiesFragments;
    assert IsAtom(l, atoms[i]);
    AtomTabular(l, atoms[i]);
    AtomFull(l, atoms[i]);
  }

  lemma {:induction false} AtomFull(l: Layout, atom: Body)
    requires IsAtom(l, atom)
    ensures AllFull(l, atom.windows)
  {
    hide l.Window, l.RowCells, l.GroupOf, WholeFragment, SameGroup;
    var unit := atom.fragments[0].contribution.unit;
    WindowBoth(l, unit);
    if atom.windows != [] {
      WholeIsFull(l, atom.windows[0]);
    }
  }

  lemma {:induction false} WholeIsFull(l: Layout, window: TableWindow)
    requires l.RowCells(window.row).Ok? && window.columns == seq(|l.RowCells(window.row).value|, i => i)
    ensures Full(l, window)
  {
    hide l.RowCells;
    var n := |l.RowCells(window.row).value|;
    forall c: nat ensures c in window.columns <==> c < |CellsOfRow(l, window.row)| {
      if c < n {
        assert window.columns[c] == c;
      }
    }
  }

  // ---- Atoms show different rows

  lemma {:induction false} RowOfFirst(l: Layout, atom: Body)
    requires RowBody(l, atom) && atom.windows != []
    ensures atom.fragments != [] && TableText(l, atom.fragments[0].contribution.unit)
    ensures var own := l.Window(atom.fragments[0].contribution.unit, false); own.Ok? && own.value.Some?
    ensures RowsIn(atom.windows) == {OwnWindow(l, atom.fragments[0].contribution.unit).row}
  {
    hide l.Window, l.RowCells, l.InTable, l.Indexed, RowBody;
    NonemptyRow(l, atom);
    OneRow(l, atom);
    OnlyWindow(l, atom, 0);
    OwnRow(l, atom.windows[0], atom.fragments[0].contribution.unit);
    var row := atom.windows[0].row;
    forall id ensures id in RowsIn(atom.windows) <==> id == row {
      assert atom.windows[0].row in RowsIn(atom.windows);
    }
  }

  /** Between two texts of one row there is only text of that row. */
  lemma {:induction false} RowBetween(l: Layout, u: nat, w: nat, v: nat)
    requires TablesRegular(l) && u < w < v < |l.units| && TableText(l, u) && TableText(l, v) && l.Indexed(w)
    requires OwnWindow(l, u).row == OwnWindow(l, v).row
    ensures SameGroup(l, u, w)
  {
    hide l.Window, l.RowCells, l.GroupOf, l.InTable, l.Indexed, CellUnit, DisjointRows, SameGroup;
    assert InTableOrder(l, u, v);
    assert TableRun(l, u, w, v);
    assert InTableOrder(l, u, w) && InTableOrder(l, w, v);
  }

  lemma {:induction false} NextOfRow(l: Layout, u: nat, v: nat)
    requires TablesRegular(l) && u < v < |l.units| && TableText(l, u) && TableText(l, v) && OwnWindow(l, u).row == OwnWindow(l, v).row
    ensures SameGroup(l, u, v)
  {
    hide l.Window, l.RowCells, l.GroupOf, l.InTable, l.Indexed, CellUnit, DisjointRows, SameGroup;
    assert InTableOrder(l, u, v);
  }

  lemma {:induction false} AtomsDiffer(l: Layout, atoms: seq<Body>, i: nat, j: nat)
    requires TablesRegular(l) && RowsRegular(l) && AtomsKept(l, atoms) && i < j < |atoms|
    ensures RowsIn(atoms[i].windows) !! RowsIn(atoms[j].windows)
  {
    hide TablesRegular, RowsRegular, RowBody, RowsIn, TableText, l.Window, AtomsKept, DraftTabular, AllFull;
    AtomHere(l, atoms, i);
    AtomHere(l, atoms, j);
    if atoms[i].windows == [] || atoms[j].windows == [] {
      NoRows(atoms[i].windows);
      NoRows(atoms[j].windows);
    } else {
      RowOfFirst(l, atoms[i]);
      RowOfFirst(l, atoms[j]);
      var u, v := atoms[i].fragments[0].contribution.unit, atoms[j].fragments[0].contribution.unit;
      AtomsOrdered(l, atoms, i, 0, j, 0);
      if OwnWindow(l, u).row == OwnWindow(l, v).row {
        AtomHere(l, atoms, i + 1);
        NextApart(l, atoms, i);
        if j == i + 1 {
          NextOfRow(l, u, v);
        } else {
          AtomsOrdered(l, atoms, i, 0, i + 1, 0);
          AtomsOrdered(l, atoms, i + 1, 0, j, 0);
          AtomIndexed(l, atoms[i + 1]);
          RowBetween(l, u, atoms[i + 1].fragments[0].contribution.unit, v);
        }
      }
    }
  }

  lemma {:induction false} NoRows(windows: seq<TableWindow>)
    ensures windows == [] ==> RowsIn(windows) == {}
  {
  }

  lemma {:induction false} AtomIndexed(l: Layout, atom: Body)
    requires IsAtom(l, atom)
    ensures atom.fragments != [] && l.Indexed(atom.fragments[0].contribution.unit)
  {
    hide l.Window, SameGroup;
    assert WholeFragment(l, atom.fragments[0]);
  }

  lemma {:induction false} NextApart(l: Layout, atoms: seq<Body>, i: nat)
    requires AtomsKept(l, atoms) && i + 1 < |atoms| && atoms[i].fragments != [] && atoms[i + 1].fragments != []
    ensures !SameGroup(l, atoms[i].fragments[0].contribution.unit, atoms[i + 1].fragments[0].contribution.unit)
  {
    hide AreAtoms, KeptContributions, SameGroup, BodiesFragments;
    assert ApartAt(l, atoms, i);
  }

  // ---- An idea of one table is a body of its own

  /** Some consecutive atoms. */
  ghost predicate Following(atoms: seq<Body>, group: seq<Body>, from: nat) {
    from + |group| <= |atoms| && forall k :: 0 <= k < |group| ==> group[k] == atoms[from + k]
  }

  /** What the first n atoms of a group make: a body of their windows, one after the other. */
  ghost predicate Gathered(l: Layout, group: seq<Body>, n: nat)
    requires n <= |group|
  {
    var body := Bodied(group, n);
    && (n > 0 ==> DraftTabular(l, body))
    && AllFull(l, body.windows)
    && (forall k :: 0 <= k < |body.windows| ==> WindowOf(group, n, body.windows[k]))
    && (forall i :: 0 <= i < n ==> RowsIn(group[i].windows) <= RowsIn(body.windows))
    && body.fragments == BodiesFragments(group, n)
  }

  ghost predicate WindowOf(group: seq<Body>, n: nat, window: TableWindow)
    requires n <= |group|
  {
    exists i :: 0 <= i < n && group[i].windows == [window]
  }

  lemma {:induction false} GroupPart(l: Layout, atoms: seq<Body>, group: seq<Body>, from: nat, i: nat)
    requires TablesRegular(l) && RowsRegular(l) && AtomsKept(l, atoms) && Following(atoms, group, from) && i < |group|
    ensures RowBody(l, group[i]) && DraftTabular(l, group[i]) && AllFull(l, group[i].windows)
    ensures forall j :: i < j < |group| ==> RowsIn(group[i].windows) !! RowsIn(group[j].windows)
  {
    hide TablesRegular, RowsRegular, AtomsKept, RowBody, DraftTabular, AllFull, RowsIn;
    AtomHere(l, atoms, from + i);
    forall j | i < j < |group| ensures RowsIn(group[i].windows) !! RowsIn(group[j].windows) {
      AtomsDiffer(l, atoms, from + i, from + j);
    }
  }

  lemma {:induction false} GatheredPrecedes(l: Layout, atoms: seq<Body>, group: seq<Body>, from: nat, n: nat)
    requires AtomsKept(l, atoms) && Following(atoms, group, from) && n < |group|
    requires Bodied(group, n).fragments == BodiesFragments(group, n)
    ensures Precedes(Bodied(group, n), group[n])
  {
    hide AtomsKept, Bodied;
    var left := BodiesFragments(group, n);
    forall a, b | 0 <= a < |left| && 0 <= b < |group[n].fragments|
      ensures left[a].contribution.unit <= group[n].fragments[b].contribution.unit
    {
      var i, k := Holder(group, n, a);
      AtomsOrdered(l, atoms, from + i, k, from + n, b);
    }
  }

  lemma {:induction false} Holder(bodies: seq<Body>, n: nat, a: nat) returns (i: nat, k: nat)
    requires n <= |bodies| && a < |BodiesFragments(bodies, n)|
    ensures i < n && k < |bodies[i].fragments| && bodies[i].fragments[k] == BodiesFragments(bodies, n)[a]
  {
    if a < |BodiesFragments(bodies, n - 1)| {
      i, k := Holder(bodies, n - 1, a);
    } else {
      i, k := n - 1, a - |BodiesFragments(bodies, n - 1)|;
    }
  }

  lemma {:induction false} GatheredJoins(l: Layout, group: seq<Body>, n: nat)
    requires n < |group| && Gathered(l, group, n) && OneTable(group) && |group[n].windows| <= 1
    requires RowsIn(Bodied(group, n).windows) !! RowsIn(group[n].windows)
    ensures Joinable(Bodied(group, n), group[n])
  {
    hide DraftTabular, AllFull, BodiesFragments, Bodied;
    var left, right := Bodied(group, n), group[n];
    if left.windows != [] && right.windows != [] {
      var last := LastWindow(left.windows);
      assert last.row in RowsIn(left.windows) && right.windows[0].row in RowsIn(right.windows);
      assert WindowOf(group, n, left.windows[|left.windows| - 1]);
      var i :| 0 <= i < n && group[i].windows == [last];
      assert SameTable(group[i], group[n]);
    }
  }

  lemma {:induction false} GatheredApart(l: Layout, group: seq<Body>, n: nat)
    requires n < |group| && Gathered(l, group, n)
    requires forall i :: 0 <= i < n ==> RowsIn(group[i].windows) !! RowsIn(group[n].windows)
    ensures RowsIn(Bodied(group, n).windows) !! RowsIn(group[n].windows)
  {
    hide DraftTabular, AllFull, BodiesFragments, Bodied;
    var windows := Bodied(group, n).windows;
    forall id | id in RowsIn(windows) ensures id !in RowsIn(group[n].windows) {
      var k :| 0 <= k < |windows| && windows[k].row == id;
      assert WindowOf(group, n, windows[k]);
      var i :| 0 <= i < n && group[i].windows == [windows[k]];
      assert group[i].windows[0].row in RowsIn(group[i].windows);
    }
  }

  lemma {:induction false} NothingGathered(l: Layout, group: seq<Body>)
    ensures Gathered(l, group, 0)
  {
  }

  lemma {:induction false} BodiedNext(group: seq<Body>, n: nat)
    requires n < |group|
    ensures Bodied(group, n + 1) == Combined(Bodied(group, n), group[n])
    ensures BodiesFragments(group, n + 1) == BodiesFragments(group, n) + group[n].fragments
  {
  }

  lemma {:induction false} FirstGathered(l: Layout, group: seq<Body>)
    requires group != [] && RowBody(l, group[0]) && DraftTabular(l, group[0]) && AllFull(l, group[0].windows)
    ensures Gathered(l, group, 1)
  {
    hide RowBody, DraftTabular, AllFull, RowsIn;
    OneRow(l, group[0]);
    assert Bodied(group, 0) == Body([], []) && BodiesFragments(group, 0) == [];
    BodiedNext(group, 0);
    assert AddWindows([], group[0].windows, 0) == [];
    assert Combined(Body([], []), group[0]).windows == group[0].windows;
    assert Combined(Body([], []), group[0]).fragments == group[0].fragments;
    assert Bodied(group, 1) == group[0];
    if group[0].windows != [] {
      assert group[0].windows == [group[0].windows[0]];
    }
  }

  lemma {:induction false} NextGathered(l: Layout, atoms: seq<Body>, group: seq<Body>, from: nat, n: nat)
    requires TablesRegular(l) && RowsRegular(l) && AtomsKept(l, atoms) && Following(atoms, group, from) && OneTable(group)
    requires l.rules.packing.BySection? && 0 < n < |group| && Gathered(l, group, n)
    ensures Gathered(l, group, n + 1)
  {
    hide TablesRegular, RowsRegular, AtomsKept, RowBody, DraftTabular, RowsIn, Combined, Bodied, BodiesFragments, Following, OneTable, Precedes, Joinable, AllFull;
    var left, right := Bodied(group, n), group[n];
    GroupPart(l, atoms, group, from, n);
    OneRow(l, right);
    forall i | 0 <= i < n ensures RowsIn(group[i].windows) !! RowsIn(right.windows) {
      GroupPart(l, atoms, group, from, i);
    }
    GatheredApart(l, group, n);
    GatheredJoins(l, group, n);
    GatheredPrecedes(l, atoms, group, from, n);
    CombinedDraft(l, left, right);
    BodiedNext(group, n);
    GatheredWindows(l, group, n);
  }

  lemma {:induction false} GatheredWindows(l: Layout, group: seq<Body>, n: nat)
    requires 0 < n < |group| && Gathered(l, group, n) && TablesRegular(l)
    requires RowBody(l, group[n]) && AllFull(l, group[n].windows)
    requires RowsIn(Bodied(group, n).windows) !! RowsIn(group[n].windows)
    ensures
      var both := Combined(Bodied(group, n), group[n]);
      && AllFull(l, both.windows)
      && (forall k :: 0 <= k < |both.windows| ==> WindowOf(group, n + 1, both.windows[k]))
      && both.fragments == BodiesFragments(group, n) + group[n].fragments
  {
    hide TablesRegular, Tabular, Full, Bodied, BodiesFragments, DraftTabular, AddWindows, Appended;
    var left, right := Bodied(group, n), group[n];
    OneRow(l, right);
    JoinedAre(l, left, right);
    if left.windows != [] && right.windows != [] {
      assert LastWindow(left.windows).row in RowsIn(left.windows) && right.windows[0].row in RowsIn(right.windows);
    }
    ApartAppended(left.windows, right.windows);
    var all := left.windows + right.windows;
    forall k | 0 <= k < |all| ensures WindowOf(group, n + 1, all[k]) && Full(l, all[k]) {
      if k < |left.windows| {
        assert WindowOf(group, n, left.windows[k]);
        var i :| 0 <= i < n && group[i].windows == [left.windows[k]];
      } else {
        assert group[n].windows == [all[k]];
      }
    }
  }

  lemma {:induction false} GroupGathered(l: Layout, atoms: seq<Body>, group: seq<Body>, from: nat, n: nat)
    requires TablesRegular(l) && RowsRegular(l) && AtomsKept(l, atoms) && Following(atoms, group, from) && OneTable(group)
    requires n <= |group| && (n > 1 ==> l.rules.packing.BySection?)
    ensures Gathered(l, group, n)
  {
    hide TablesRegular, RowsRegular, AtomsKept, Following, OneTable, Gathered, DraftTabular, RowBody, AllFull;
    if n == 0 {
      NothingGathered(l, group);
    } else if n == 1 {
      GroupPart(l, atoms, group, from, 0);
      FirstGathered(l, group);
    } else {
      GroupGathered(l, atoms, group, from, n - 1);
      NextGathered(l, atoms, group, from, n - 1);
    }
  }

  // ---- The start

  lemma {:induction false} FlatAt(groups: seq<seq<Body>>, g: nat, k: nat, n: nat)
    requires g < n <= |groups| && k < |groups[g]|
    ensures |Flat(groups, g)| + k < |Flat(groups, g + 1)| <= |Flat(groups, n)|
    ensures Flat(groups, n)[|Flat(groups, g)| + k] == groups[g][k]
  {
    if g < n - 1 {
      FlatAt(groups, g, k, n - 1);
    }
  }

  lemma {:induction false} FlatGrows(groups: seq<seq<Body>>, g: nat, h: nat)
    requires g <= h <= |groups|
    ensures |Flat(groups, g)| <= |Flat(groups, h)|
  {
    if g < h {
      FlatGrows(groups, g, h - 1);
    }
  }

  lemma {:induction false} SeveralBySection(l: Layout, atoms: seq<Body>, n: nat)
    requires n <= |atoms|
    ensures forall g :: 0 <= g < |Steps(l, atoms, n)| && |Steps(l, atoms, n)[g]| > 1 ==> l.rules.packing.BySection?
  {
    if n > 0 {
      SeveralBySection(l, atoms, n - 1);
    }
  }

  lemma {:induction false} PiecesAt(groups: seq<seq<Body>>, n: nat)
    requires n <= |groups| && forall g :: 0 <= g < |groups| ==> groups[g] != []
    ensures |Pieces(groups, n)| == n && forall g :: 0 <= g < n ==> Pieces(groups, n)[g] == PieceOf(groups[g])
  {
    if n > 0 {
      PiecesAt(groups, n - 1);
    }
  }

  /** The step of a group among all atoms. */
  lemma {:induction false} GroupSlice(l: Layout, atoms: seq<Body>, g: nat)
    requires g < |Steps(l, atoms, |atoms|)|
    ensures
      var groups := Steps(l, atoms, |atoms|);
      Following(atoms, groups[g], |Flat(groups, g)|)
  {
    hide Continues, Steps, Flat;
    var groups := Steps(l, atoms, |atoms|);
    StepsFlat(l, atoms, |atoms|);
    assert atoms[..|atoms|] == atoms;
    forall k | 0 <= k < |groups[g]| ensures |Flat(groups, g)| + k < |atoms| && groups[g][k] == atoms[|Flat(groups, g)| + k] {
      FlatAt(groups, g, k, |groups|);
    }
    FlatAt(groups, g, |groups[g]| - 1, |groups|);
  }

  /** Each step makes a body of its own windows. */
  lemma {:induction false} StepGathered(l: Layout, atoms: seq<Body>, g: nat)
    requires TablesRegular(l) && RowsRegular(l) && AtomsKept(l, atoms) && g < |Steps(l, atoms, |atoms|)|
    requires forall h :: 0 <= h < |Steps(l, atoms, |atoms|)| ==> OneTable(Steps(l, atoms, |atoms|)[h])
    ensures
      var groups := Steps(l, atoms, |atoms|);
      Gathered(l, groups[g], |groups[g]|)
  {
    hide TablesRegular, RowsRegular, AtomsKept, Following, OneTable, Gathered, Steps, Flat;
    var groups := Steps(l, atoms, |atoms|);
    GroupSlice(l, atoms, g);
    SeveralBySection(l, atoms, |atoms|);
    GroupGathered(l, atoms, groups[g], |Flat(groups, g)|, |groups[g]|);
  }

  lemma {:induction false} OneBodied(atom: Body)
    ensures Bodied([atom], 1).fragments == atom.fragments
    ensures |atom.windows| <= 1 ==> Bodied([atom], 1) == atom
  {
    assert Bodied([atom], 0) == Body([], []);
    BodiedNext([atom], 0);
    assert AddWindows([], atom.windows, 0) == [];
  }

  lemma {:induction false} StepPiece(l: Layout, atoms: seq<Body>, g: nat)
    requires TablesRegular(l) && RowsRegular(l) && AtomsKept(l, atoms) && g < |Steps(l, atoms, |atoms|)|
    requires forall h :: 0 <= h < |Steps(l, atoms, |atoms|)| ==> OneTable(Steps(l, atoms, |atoms|)[h])
    ensures
      var group := Steps(l, atoms, |atoms|)[g];
      var piece := PieceOf(group);
      && PieceTabular(l, piece) && AllFull(l, BodyOf(piece).windows) && BodyOf(piece) == Bodied(group, |group|)
  {
    hide TablesRegular, RowsRegular, AtomsKept, Following, OneTable, Steps, Flat, DraftTabular, RowBody, AllFull, RowsIn, Bodied, BodiesFragments;
    var groups := Steps(l, atoms, |atoms|);
    var group := groups[g];
    GroupSlice(l, atoms, g);
    StepGathered(l, atoms, g);
    forall i | 0 <= i < |group| ensures RowBody(l, group[i]) && DraftTabular(l, group[i]) && AllFull(l, group[i].windows) {
      GroupPart(l, atoms, group, |Flat(groups, g)|, i);
    }
    if |group| == 1 {
      OneRow(l, group[0]);
      OneBodied(group[0]);
      assert group == [group[0]];
    } else {
      var piece := PieceOf(group);
      assert BodyOf(piece) == Bodied(group, |group|);
      forall i, j | 0 <= i < j < |group| ensures RowsIn(group[i].windows) !! RowsIn(group[j].windows) {
        GroupPart(l, atoms, group, |Flat(groups, g)|, i);
      }
    }
  }

  lemma {:induction false} StepsDiffer(l: Layout, atoms: seq<Body>, g: nat, h: nat)
    requires TablesRegular(l) && RowsRegular(l) && AtomsKept(l, atoms) && g < h < |Steps(l, atoms, |atoms|)|
    requires forall x :: 0 <= x < |Steps(l, atoms, |atoms|)| ==> OneTable(Steps(l, atoms, |atoms|)[x])
    ensures
      var groups := Steps(l, atoms, |atoms|);
      RowsIn(Bodied(groups[g], |groups[g]|).windows) !! RowsIn(Bodied(groups[h], |groups[h]|).windows)
  {
    hide TablesRegular, RowsRegular, AtomsKept, OneTable, Steps, Flat, DraftTabular, AllFull, Bodied, BodiesFragments;
    var groups := Steps(l, atoms, |atoms|);
    var a, b := Bodied(groups[g], |groups[g]|).windows, Bodied(groups[h], |groups[h]|).windows;
    StepGathered(l, atoms, g);
    StepGathered(l, atoms, h);
    GroupSlice(l, atoms, g);
    GroupSlice(l, atoms, h);
    forall id | id in RowsIn(a) && id in RowsIn(b) ensures false {
      var i := RowHolder(groups[g], |groups[g]|, a, id);
      var j := RowHolder(groups[h], |groups[h]|, b, id);
      FlatAt(groups, g, i, |groups|);
      FlatGrows(groups, g + 1, h);
      AtomsDiffer(l, atoms, |Flat(groups, g)| + i, |Flat(groups, h)| + j);
    }
  }

  lemma {:induction false} RowHolder(group: seq<Body>, n: nat, windows: seq<TableWindow>, id: Id) returns (i: nat)
    requires n <= |group| && id in RowsIn(windows) && forall k :: 0 <= k < |windows| ==> WindowOf(group, n, windows[k])
    ensures i < n && id in RowsIn(group[i].windows)
  {
    var k :| 0 <= k < |windows| && windows[k].row == id;
    assert WindowOf(group, n, windows[k]);
    i :| 0 <= i < n && group[i].windows == [windows[k]];
    assert group[i].windows[0].row == id;
  }

  /** Packing starts with whole rows of their own, and ideas of one table each. */
  lemma {:induction false} StartTabled(l: Layout, atoms: seq<Body>)
    requires TablesRegular(l) && RowsRegular(l) && AtomsKept(l, atoms)
    requires forall g :: 0 <= g < |Steps(l, atoms, |atoms|)| ==> OneTable(Steps(l, atoms, |atoms|)[g])
    ensures Tabled(l, State(Pieces(Steps(l, atoms, |atoms|), |Steps(l, atoms, |atoms|)|), None, []))
  {
    hide TablesRegular, RowsRegular, AtomsKept, OneTable, Steps, PieceTabular, RowsIn, Bodied, AllFull, BodyOf;
    var groups := Steps(l, atoms, |atoms|);
    PiecesAt(groups, |groups|);
    var pieces := Pieces(groups, |groups|);
    forall k | 0 <= k < |pieces| ensures PieceTabular(l, pieces[k]) && AllFull(l, BodyOf(pieces[k]).windows) {
      StepPiece(l, atoms, k);
    }
    forall i, j | 0 <= i < j < |pieces| ensures PieceRows(pieces[i]) !! PieceRows(pieces[j]) {
      StepPiece(l, atoms, i);
      StepPiece(l, atoms, j);
      StepsDiffer(l, atoms, i, j);
    }
    MakesPending(l, pieces);
    assert TabledAt(l, State(pieces, None, []), 0);
  }

  // ---- Regular tables have regular rows

  /** Units that share an atom with a row's unit lie in that row, in column order. */
  lemma {:induction false} RowsAreRegular(l: Layout)
    requires TablesRegular(l)
    ensures RowsRegular(l)
  {
    hide TablesRegular, l.Window, l.GroupOf, SameGroup, RowRegular, l.Indexed;
    forall i, j | 0 <= i <= j < |l.units| && l.Indexed(i) && l.Indexed(j) && SameGroup(l, i, j) ensures RowRegular(l, i, j) {
      RowIsRegular(l, i, j);
    }
  }

  lemma {:induction false} RowIsRegular(l: Layout, i: nat, j: nat)
    requires TablesRegular(l) && i <= j < |l.units| && l.Indexed(i) && l.Indexed(j) && SameGroup(l, i, j)
    ensures RowRegular(l, i, j)
  {
    hide l.RowCells, l.Indexed, l.InTable, TablesRegular, CellColumn, CellUnit, InTableOrder, SameGroup, l.Window;
    if l.Window(i, true).Ok? && l.Window(i, true).value.Some? {
      WindowBoth(l, i);
      WindowBoth(l, j);
      SharedTable(l, i, j);
      InTableIsCell(l, i);
      InTableIsCell(l, j);
      SharedRow(l, i, j);
      CellOwns(l, i);
      CellOwns(l, j);
    }
  }

  lemma {:induction false} SharedTable(l: Layout, i: nat, j: nat)
    requires TablesRegular(l) && i < |l.units| && j < |l.units| && SameGroup(l, i, j)
    ensures l.InTable(i) == l.InTable(j)
  {
    hide SameGroup, l.InTable, CellUnit, TableText, InTableOrder, TableRun;
  }

  /** Two units of one group in tables lie in one row, the later no earlier in it. */
  lemma {:induction false} SharedRow(l: Layout, i: nat, j: nat)
    requires TablesRegular(l) && i <= j < |l.units| && TableText(l, i) && TableText(l, j) && SameGroup(l, i, j)
    ensures SameRow(OwnWindow(l, i), OwnWindow(l, j)) && ColumnOf(l, i) <= ColumnOf(l, j)
  {
    hide l.Window, l.RowCells, l.Indexed, l.InTable, CellUnit, DisjointRows, l.KeyOf;
    WindowBoth(l, i);
    WindowBoth(l, j);
    assert InTableOrder(l, i, j);
  }

  lemma {:induction false} CellOwns(l: Layout, unit: nat)
    requires CellUnit(l, unit)
    ensures l.RowCells(OwnWindow(l, unit).row).Ok?
    ensures
      var cells := l.RowCells(OwnWindow(l, unit).row).value;
      DistinctIds(cells) && CellColumn(l, cells, unit) == Some(ColumnOf(l, unit))
  {
    hide l.Window, l.RowCells;
    var cells := l.RowCells(OwnWindow(l, unit).row).value;
    OwnCell(l, cells, unit, ColumnOf(l, unit));
  }
}
