/**
 * Packing atoms and ideas: the pieces of a document before any token is counted, and what the
 * packer needs of table rows.
 */
module Atoms {
  import opened Common
  import opened Ranges
  import opened Units
  import opened Layouts
  import opened Refining
  import opened Preparation
  import opened Splitting
  import opened Conservation
  import opened Coverage

  /** A fragment that is the whole kept part of an indexed unit. */
  ghost predicate WholeFragment(l: Layout, f: Fragment) {
    && f.partOrdinal == 0 && l.Indexed(f.contribution.unit)
    && l.Kept(f.contribution.unit) == Some(f.contribution.range)
  }

  ghost predicate SameGroup(l: Layout, a: nat, b: nat) {
    l.GroupOf(a).Ok? && l.GroupOf(a) == l.GroupOf(b)
  }

  /** A run of units that share a group, whole, with the table row they lie in. */
  ghost predicate IsAtom(l: Layout, atom: Body) {
    && atom.fragments != []
    && (forall i :: 0 <= i < |atom.fragments| ==>
          && WholeFragment(l, atom.fragments[i])
          && SameGroup(l, atom.fragments[0].contribution.unit, atom.fragments[i].contribution.unit))
    && (forall i, j :: 0 <= i < j < |atom.fragments| ==>
          atom.fragments[i].contribution.unit < atom.fragments[j].contribution.unit)
    && l.Window(atom.fragments[0].contribution.unit, true).Ok?
    && atom.windows == match l.Window(atom.fragments[0].contribution.unit, true).value
                       case Some(window) => [window]
                       case None => []
  }

  ghost predicate AreAtoms(l: Layout, atoms: seq<Body>) {
    forall i :: 0 <= i < |atoms| ==> IsAtom(l, atoms[i])
  }

  /** The last atom's group, and its units lie before an index. */
  ghost predicate LastIn(l: Layout, atom: Body, group: Group, index: nat) {
    && IsAtom(l, atom) && atom.fragments != []
    && l.GroupOf(atom.fragments[0].contribution.unit) == Ok(group)
    && forall i :: 0 <= i < |atom.fragments| ==> atom.fragments[i].contribution.unit < index
  }

  function NewFragment(l: Layout, index: nat): Fragment
    requires l.Indexed(index)
  {
    Fragment(Contribution(index, l.Kept(index).value), 0)
  }

  function Joined(atom: Body, f: Fragment): Body {
    atom.(fragments := atom.fragments + [f])
  }

  function Alone(l: Layout, f: Fragment, window: Option<TableWindow>): Body {
    Body([f], if window.Some? then [window.value] else [])
  }

  lemma {:induction false} JoinsAtom(l: Layout, atom: Body, group: Group, index: nat)
    requires LastIn(l, atom, group, index) && l.Indexed(index) && l.GroupOf(index) == Ok(group)
    ensures LastIn(l, Joined(atom, NewFragment(l, index)), group, index + 1)
  {
    hide l.Window, l.GroupOf;
  }

  lemma {:induction false} StartsAtom(l: Layout, group: Group, index: nat)
    requires l.Indexed(index) && l.GroupOf(index) == Ok(group) && l.Window(index, true).Ok?
    ensures LastIn(l, Alone(l, NewFragment(l, index), l.Window(index, true).value), group, index + 1)
  {
    hide l.Window, l.GroupOf;
  }

  lemma {:induction false} LastGrows(atoms: seq<Body>, f: Fragment)
    requires atoms != []
    ensures
      var last := |atoms| - 1;
      var grown := atoms[last := Joined(atoms[last], f)];
      BodiesFragments(grown, |grown|) == BodiesFragments(atoms, |atoms|) + [f]
  {
    var last := |atoms| - 1;
    var body := Joined(atoms[last], f);
    assert atoms[last := body] == atoms[..last] + [body] && atoms == atoms[..last] + [atoms[last]];
    WeightThen(atoms[..last], body);
    WeightThen(atoms[..last], atoms[last]);
  }

  /** Neighbouring atoms are of different groups. */
  ghost predicate AtomsApart(l: Layout, atoms: seq<Body>) {
    forall i :: 0 <= i < |atoms| - 1 ==> ApartAt(l, atoms, i)
  }

  ghost predicate ApartAt(l: Layout, atoms: seq<Body>, i: nat)
    requires i + 1 < |atoms|
  {
    && atoms[i].fragments != [] && atoms[i + 1].fragments != []
    && atoms[i].fragments[0].contribution.unit < atoms[i + 1].fragments[0].contribution.unit
    && !SameGroup(l, atoms[i].fragments[0].contribution.unit, atoms[i + 1].fragments[0].contribution.unit)
  }

  lemma {:induction false} JoinApart(l: Layout, atoms: seq<Body>, f: Fragment)
    requires AtomsApart(l, atoms) && atoms != [] && atoms[|atoms| - 1].fragments != []
    ensures AtomsApart(l, atoms[|atoms| - 1 := Joined(atoms[|atoms| - 1], f)])
  {
    hide SameGroup;
    var next := atoms[|atoms| - 1 := Joined(atoms[|atoms| - 1], f)];
    forall i | 0 <= i < |next| - 1 ensures ApartAt(l, next, i) {
      assert ApartAt(l, atoms, i);
    }
  }

  lemma {:induction false} StartApart(l: Layout, atoms: seq<Body>, group: Option<Group>, body: Body, index: nat)
    requires AtomsApart(l, atoms) && body.fragments != [] && body.fragments[0].contribution.unit == index
    requires if group.Some? then atoms != [] && LastIn(l, atoms[|atoms| - 1], group.value, index) else atoms == []
    requires l.GroupOf(index).Ok? && Some(l.GroupOf(index).value) != group
    ensures AtomsApart(l, atoms + [body])
  {
    hide l.GroupOf, IsAtom;
    var next := atoms + [body];
    forall i | 0 <= i < |next| - 1 ensures ApartAt(l, next, i) {
      if i < |atoms| - 1 {
        assert ApartAt(l, atoms, i);
      }
    }
  }

  ghost predicate AtomsUpTo(l: Layout, atoms: seq<Body>, previous: Option<Group>, index: nat)
    requires index <= |l.units|
  {
    && AreAtoms(l, atoms)
    && Contributions(BodiesFragments(atoms, |atoms|)) == KeptContributions(l, index)
    && (if previous.Some? then atoms != [] && LastIn(l, atoms[|atoms| - 1], previous.value, index) else atoms == [])
    && AtomsApart(l, atoms)
  }

  lemma {:induction false} SkipsUnit(l: Layout, atoms: seq<Body>, previous: Option<Group>, index: nat)
    requires index < |l.units| && AtomsUpTo(l, atoms, previous, index) && !l.Indexed(index)
    ensures AtomsUpTo(l, atoms, previous, index + 1)
  {
    hide IsAtom, l.GroupOf, AtomsApart;
    assert KeptContributions(l, index) + [] == KeptContributions(l, index);
  }

  lemma {:induction false} UnitJoins(l: Layout, atoms: seq<Body>, group: Group, index: nat)
    requires index < |l.units| && AtomsUpTo(l, atoms, Some(group), index) && l.Indexed(index)
    requires l.GroupOf(index) == Ok(group)
    ensures
      var last := |atoms| - 1;
      AtomsUpTo(l, atoms[last := Joined(atoms[last], NewFragment(l, index))], Some(group), index + 1)
  {
    hide IsAtom, l.GroupOf, l.Indexed, l.Kept, AtomsApart;
    var f := NewFragment(l, index);
    JoinApart(l, atoms, f);
    ContributionsConcat(BodiesFragments(atoms, |atoms|), [f]);
    JoinsAtom(l, atoms[|atoms| - 1], group, index);
    LastGrows(atoms, f);
  }

  lemma {:induction false} UnitIsKept(l: Layout, atoms: seq<Body>, atom: Body, f: Fragment, index: nat)
    requires index < |l.units| && l.Indexed(index) && f == NewFragment(l, index) && atom.fragments == [f]
    requires Contributions(BodiesFragments(atoms, |atoms|)) == KeptContributions(l, index)
    ensures Contributions(BodiesFragments(atoms + [atom], |atoms| + 1)) == KeptContributions(l, index + 1)
  {
    hide l.Indexed, l.Kept;
    ContributionsConcat(BodiesFragments(atoms, |atoms|), [f]);
    WeightThen(atoms, atom);
  }

  lemma {:induction false} UnitStarts(l: Layout, atoms: seq<Body>, previous: Option<Group>, group: Group, index: nat)
    requires index < |l.units| && AtomsUpTo(l, atoms, previous, index) && l.Indexed(index)
    requires l.GroupOf(index) == Ok(group) && l.Window(index, true).Ok? && previous != Some(group)
    ensures AtomsUpTo(l, atoms + [Alone(l, NewFragment(l, index), l.Window(index, true).value)], Some(group), index + 1)
  {
    hide IsAtom, l.GroupOf, l.Window, l.Indexed, l.Kept, AtomsApart, KeptContributions, Contributions, BodiesFragments;
    var f := NewFragment(l, index);
    var atom := Alone(l, f, l.Window(index, true).value);
    StartApart(l, atoms, previous, atom, index);
    StartsAtom(l, group, index);
    UnitIsKept(l, atoms, atom, f, index);
    assert AreAtoms(l, atoms + [atom]);
  }

  /** The atoms of the first n units, and the group the last one is of. */
  function AtomsOf(l: Layout, n: nat): Result<(seq<Body>, Option<Group>)>
    requires n <= |l.units|
  {
    if n == 0 then Ok(([], None))
    else
      var (atoms, previous) :- AtomsOf(l, n - 1);
      if !l.Indexed(n - 1) then Ok((atoms, previous))
      else
        var window :- l.Window(n - 1, true);
        var group :- l.GroupOf(n - 1);
        var f := NewFragment(l, n - 1);
        Ok((
          if atoms != [] && previous == Some(group) then atoms[|atoms| - 1 := Joined(atoms[|atoms| - 1], f)]
          else atoms + [Alone(l, f, window)],
          Some(group)))
  }

  /** A unit whose place is refused refuses them all. */
  lemma {:induction false} AtomsRefused(l: Layout, n: nat)
    requires n < |l.units| && AtomsOf(l, n + 1).Err?
    ensures AtomsOf(l, |l.units|) == Err(AtomsOf(l, n + 1).error)
    decreases |l.units| - n
  {
    hide l.Window, l.GroupOf, l.Indexed;
    if n + 1 < |l.units| {
      AtomsRefused(l, n + 1);
    }
  }

  /** The atoms of the first n units are runs of one group, whole and in order. */
  lemma {:induction false} AtomsOfAre(l: Layout, n: nat)
    requires n <= |l.units| && AtomsOf(l, n).Ok?
    ensures AtomsUpTo(l, AtomsOf(l, n).value.0, AtomsOf(l, n).value.1, n)
  {
    hide l.Window, l.GroupOf, AtomsUpTo, l.Indexed;
    if n == 0 {
      NothingYet(l);
    } else {
      AtomsOfAre(l, n - 1);
      var (atoms, previous) := AtomsOf(l, n - 1).value;
      if !l.Indexed(n - 1) {
        SkipsUnit(l, atoms, previous, n - 1);
      } else {
        var group := l.GroupOf(n - 1).value;
        SomeAtoms(l, atoms, previous, n - 1);
        if previous == Some(group) {
          UnitJoins(l, atoms, group, n - 1);
        } else {
          UnitStarts(l, atoms, previous, group, n - 1);
        }
      }
    }
  }

  lemma {:induction false} SomeAtoms(l: Layout, atoms: seq<Body>, previous: Option<Group>, index: nat)
    requires index <= |l.units| && AtomsUpTo(l, atoms, previous, index)
    ensures previous.Some? <==> atoms != []
  {
    hide AreAtoms, AtomsApart, LastIn, KeptContributions;
  }

  /** `atoms`: the kept parts of the primary units, each run of one group an atom. */
  method PackAtoms(l: Layout) returns (r: Result<seq<Body>>)
    ensures r == match AtomsOf(l, |l.units|) case Ok(found) => Ok(found.0) case Err(error) => Err(error)
    ensures r.Ok? ==> AreAtoms(l, r.value) && AtomsApart(l, r.value)
    ensures r.Ok? ==> Contributions(BodiesFragments(r.value, |r.value|)) == KeptContributions(l, |l.units|)
  {
    hide l.Window, l.GroupOf, AreAtoms, KeptContributions, AtomsApart;
    var atoms: seq<Body> := [];
    var previous: Option<Group> := None;
    for index := 0 to |l.units|
      invariant AtomsOf(l, index) == Ok((atoms, previous))
      invariant previous.Some? ==> atoms != []
    {
      if l.Indexed(index) {
        var window := l.Window(index, true);
        if window.Err? {
          AtomsRefused(l, index);
          return Err(window.error);
        }
        var group := l.GroupOf(index);
        if group.Err? {
          AtomsRefused(l, index);
          return Err(group.error);
        }
        var f := NewFragment(l, index);
        if previous == Some(group.value) {
          var last := |atoms| - 1;
          atoms := atoms[last := Joined(atoms[last], f)];
        } else {
          atoms := atoms + [Alone(l, f, window.value)];
          previous := Some(group.value);
        }
      }
    }
    AtomsOfAre(l, |l.units|);
    r := Ok(atoms);
  }

  lemma {:induction false} NothingYet(l: Layout)
    ensures AtomsUpTo(l, [], None, 0)
  {
  }

  // ---- Rows

  /**
   * What the packer needs of tables: units that share an atom with a row's unit lie in that row,
   * directly in its cells, and come in column order.
   */
  ghost predicate RowsRegular(l: Layout) {
    forall i, j :: 0 <= i <= j < |l.units| && l.Indexed(i) && l.Indexed(j) && SameGroup(l, i, j) ==> RowRegular(l, i, j)
  }

  ghost predicate RowRegular(l: Layout, i: nat, j: nat) {
    l.Window(i, true).Ok? && l.Window(i, true).value.Some? ==>
      && l.Window(j, true) == l.Window(i, true)
      && var cells := l.RowCells(l.Window(i, true).value.value.row);
         && cells.Ok? && DistinctIds(cells.value)
         && CellColumn(l, cells.value, i).Some? && CellColumn(l, cells.value, j).Some?
         && CellColumn(l, cells.value, i).value <= CellColumn(l, cells.value, j).value
  }

  lemma {:induction false} RowWindow(l: Layout, unit: nat)
    requires l.Window(unit, true).Ok? && l.Window(unit, true).value.Some?
    ensures
      var window := l.Window(unit, true).value.value;
      && l.RowCells(window.row).Ok?
      && window.columns == seq(|l.RowCells(window.row).value|, i => i)
  {
    hide l.RowCells;
  }

  lemma {:induction false} AtomRegular(l: Layout, atom: Body)
    requires RowsRegular(l) && IsAtom(l, atom)
    ensures WholeRow(l, atom) && !LosesText(l, atom)
  {
    hide l.Window, l.RowCells, CellColumn, l.GroupOf;
    if Wide(atom) {
      var first := atom.fragments[0].contribution.unit;
      RowWindow(l, first);
      var cells := l.RowCells(atom.windows[0].row).value;
      assert WholeFragment(l, atom.fragments[0]);
      forall i, j | 0 <= i <= j < |atom.fragments|
        ensures
          var a, b := CellColumn(l, cells, atom.fragments[i].contribution.unit), CellColumn(l, cells, atom.fragments[j].contribution.unit);
          a.Some? && b.Some? && a.value <= b.value && DistinctIds(cells)
      {
        AtomPair(l, atom, i, j);
      }
      assert InColumnOrder(l, cells, atom.fragments);
    }
  }

  lemma {:induction false} AtomPair(l: Layout, atom: Body, i: nat, j: nat)
    requires RowsRegular(l) && IsAtom(l, atom) && Wide(atom) && i <= j < |atom.fragments|
    requires l.RowCells(atom.windows[0].row).Ok?
    ensures
      var cells := l.RowCells(atom.windows[0].row).value;
      var a, b := CellColumn(l, cells, atom.fragments[i].contribution.unit), CellColumn(l, cells, atom.fragments[j].contribution.unit);
      && a.Some? && b.Some? && a.value <= b.value && DistinctIds(cells)
  {
    hide l.Window, l.RowCells, CellColumn, l.GroupOf;
    var first, a, b := atom.fragments[0].contribution.unit, atom.fragments[i].contribution.unit, atom.fragments[j].contribution.unit;
    assert WholeFragment(l, atom.fragments[0]) && WholeFragment(l, atom.fragments[i]) && WholeFragment(l, atom.fragments[j]);
    assert first <= a <= b;
    assert RowRegular(l, first, a);
    assert SameGroup(l, a, b);
    assert RowRegular(l, a, b);
  }

  // ---- What packing refuses, and what refining an atom loses

  /** A unit in a row and a cell that its table and its row list. */
  ghost predicate InPlace(l: Layout, unit: nat) {
    l.InTable(unit) ==>
      var (table, row, cell) := (l.Nearest(unit, {Table}).value, l.Nearest(unit, Rows), l.Nearest(unit, {TableCell}));
      && row.Some? && cell.Some?
      && l.RowCells(row.value.id).Ok? && cell.value.id in Ids(l.RowCells(row.value.id).value)
      && var children := l.ChildBlocks(table, |table.children|);
         row.value.id in Ids(KindsOf(children, Rows, |children|))
  }

  lemma {:induction false} WindowExactly(l: Layout, unit: nat, wholeRow: bool)
    ensures l.Window(unit, wholeRow).Ok? <==> InPlace(l, unit)
    ensures l.Window(unit, wholeRow).Err? ==> l.Window(unit, wholeRow) == Err(Structure)
  {
    hide l.Nearest, l.ChildBlocks, KindsOf;
  }

  /**
   * Packing is refused exactly when an indexed unit of a table lies outside its rows' cells, as
   * source kept from a malformed row does.
   */
  lemma {:induction false} PackRefusedExactly(l: Layout, n: nat)
    requires n <= |l.units|
    ensures AtomsOf(l, n).Ok? <==> forall u :: 0 <= u < n && l.Indexed(u) ==> InPlace(l, u)
    ensures AtomsOf(l, n).Err? ==> AtomsOf(l, n) == Err(Structure)
  {
    hide l.Nearest, l.KeyOf, InPlace, l.Window, l.Indexed;
    if n > 0 {
      PackRefusedExactly(l, n - 1);
      WindowExactly(l, n - 1, true);
    }
  }

  /**
   * The smaller bodies of an atom of a table row hold all its text, in order, exactly when every
   * fragment lies directly in a cell, in column order, or none does: text of a block nested in a
   * cell, beside the cell's own, is lost.
   */
  lemma {:induction false} AtomLosesExactly(l: Layout, atom: Body)
    requires IsAtom(l, atom) && Wide(atom) && Refined(l, atom).Ok? && Refined(l, atom).value.Some?
    requires DistinctIds(l.RowCells(atom.windows[0].row).value)
    ensures
      var (bodies, cells) := (Refined(l, atom).value.value, l.RowCells(atom.windows[0].row).value);
      BodiesFragments(bodies, |bodies|) == atom.fragments
      <==> || InColumnOrder(l, cells, atom.fragments)
           || forall i, c :: 0 <= i < |atom.fragments| && 0 <= c < |cells| ==> !l.InBlock(atom.fragments[i].contribution.unit, cells[c].id)
  {
    hide l.Window, l.RowCells, CellColumn, l.GroupOf, InColumnOrder, Refined, l.InBlock, BodiesFragments;
    RowWindow(l, atom.fragments[0].contribution.unit);
    RefinedConservesExactly(l, atom);
  }

  // ---- Ideas

  /** What packing places: an idea of several atoms, whole while it fits one chunk, or a single atom. */
  datatype Piece = Idea(atoms: seq<Body>) | Atom(atom: Body)

  /** The step an atom belongs to when sections pack as a whole: its section and its outermost list item. */
  function StepOf(l: Layout, atom: Body): Option<(Option<Id>, Id)> {
    if !l.rules.packing.BySection? || atom.fragments == [] then None
    else
      var unit := atom.fragments[0].contribution.unit;
      match OutermostItem(l.Ancestors(unit), 0)
      case None => None
      case Some(item) => Some((l.SectionOf(unit), item))
  }

  function OutermostItem(path: seq<Block>, i: nat): Option<Id>
    requires i <= |path|
    decreases |path| - i
  {
    if i == |path| then None else if path[i].kind.ListItem? then Some(path[i].id) else OutermostItem(path, i + 1)
  }

  /** Whether an atom continues the step of the atom before it. */
  predicate Continues(l: Layout, atoms: seq<Body>, i: nat)
    requires i < |atoms|
  {
    i > 0 && StepOf(l, atoms[i]).Some? && StepOf(l, atoms[i]) == StepOf(l, atoms[i - 1])
  }

  /** The first n atoms, with those of one step together. */
  function Steps(l: Layout, atoms: seq<Body>, n: nat): (groups: seq<seq<Body>>)
    requires n <= |atoms|
    ensures n > 0 ==> groups != []
    ensures forall i :: 0 <= i < |groups| ==> groups[i] != []
  {
    if n == 0 then []
    else
      var before := Steps(l, atoms, n - 1);
      if Continues(l, atoms, n - 1) && before != [] then
        before[|before| - 1 := before[|before| - 1] + [atoms[n - 1]]]
      else before + [[atoms[n - 1]]]
  }

  function PieceOf(group: seq<Body>): Piece
    requires group != []
  {
    if |group| == 1 then Atom(group[0]) else Idea(group)
  }

  function Pieces(groups: seq<seq<Body>>, n: nat): seq<Piece>
    requires n <= |groups| && forall i :: 0 <= i < |groups| ==> groups[i] != []
  {
    if n == 0 then [] else Pieces(groups, n - 1) + [PieceOf(groups[n - 1])]
  }

  /** `pieces`: consecutive atoms of one step make an idea; every other atom is a piece alone. */
  method MakePieces(l: Layout, atoms: seq<Body>) returns (pieces: seq<Piece>)
    ensures pieces == Pieces(Steps(l, atoms, |atoms|), |Steps(l, atoms, |atoms|)|)
  {
    hide StepOf;
    var groups: seq<seq<Body>> := [];
    var previous: Option<(Option<Id>, Id)> := None;
    for i := 0 to |atoms|
      invariant groups == Steps(l, atoms, i)
      invariant i > 0 ==> previous == StepOf(l, atoms[i - 1])
    {
      var key := StepOf(l, atoms[i]);
      if groups != [] && key.Some? && key == previous {
        groups := groups[|groups| - 1 := groups[|groups| - 1] + [atoms[i]]];
      } else {
        groups := groups + [[atoms[i]]];
      }
      previous := key;
    }
    pieces := [];
    for i := 0 to |groups|
      invariant pieces == Pieces(groups, i)
    {
      pieces := pieces + [PieceOf(groups[i])];
    }
  }

  function PieceAtoms(piece: Piece): seq<Body> {
    match piece
    case Idea(atoms) => atoms
    case Atom(atom) => [atom]
  }

  function PendingAtoms(pieces: seq<Piece>, n: nat): seq<Body>
    requires n <= |pieces|
  {
    if n == 0 then [] else PendingAtoms(pieces, n - 1) + PieceAtoms(pieces[n - 1])
  }

  ghost function Flat(groups: seq<seq<Body>>, n: nat): seq<Body>
    requires n <= |groups|
  {
    if n == 0 then [] else Flat(groups, n - 1) + groups[n - 1]
  }

  lemma {:induction false} PiecesFlat(groups: seq<seq<Body>>, n: nat)
    requires n <= |groups| && forall i :: 0 <= i < |groups| ==> groups[i] != []
    ensures |Pieces(groups, n)| == n && PendingAtoms(Pieces(groups, n), n) == Flat(groups, n)
  {
    if n > 0 {
      PiecesFlat(groups, n - 1);
      PendingPrefix(Pieces(groups, n - 1), [PieceOf(groups[n - 1])], n - 1);
      assert PieceAtoms(PieceOf(groups[n - 1])) == groups[n - 1];
    }
  }

  lemma {:induction false} PendingPrefix(a: seq<Piece>, b: seq<Piece>, n: nat)
    requires n <= |a|
    ensures PendingAtoms(a + b, n) == PendingAtoms(a, n)
  {
    if n > 0 {
      PendingPrefix(a, b, n - 1);
    }
  }

  lemma {:induction false} FlatPrefix(a: seq<seq<Body>>, b: seq<seq<Body>>, n: nat)
    requires n <= |a|
    ensures Flat(a + b, n) == Flat(a, n)
  {
    if n > 0 {
      FlatPrefix(a, b, n - 1);
    }
  }

  lemma {:induction false} FlatThen(groups: seq<seq<Body>>, group: seq<Body>)
    ensures Flat(groups + [group], |groups| + 1) == Flat(groups, |groups|) + group
  {
    FlatPrefix(groups, [group], |groups|);
  }

  lemma {:induction false} StepsFlat(l: Layout, atoms: seq<Body>, n: nat)
    requires n <= |atoms|
    ensures Flat(Steps(l, atoms, n), |Steps(l, atoms, n)|) == atoms[..n]
  {
    hide StepOf;
    if n > 0 {
      StepsFlat(l, atoms, n - 1);
      var before := Steps(l, atoms, n - 1);
      if Continues(l, atoms, n - 1) && before != [] {
        var front, last := before[..|before| - 1], before[|before| - 1];
        assert before == front + [last];
        assert before[|before| - 1 := last + [atoms[n - 1]]] == front + [last + [atoms[n - 1]]];
        FlatThen(front, last);
        FlatThen(front, last + [atoms[n - 1]]);
      } else {
        FlatThen(before, [atoms[n - 1]]);
      }
    }
  }

  /** The pieces hold exactly the atoms, in order. */
  lemma {:induction false} PiecesHoldAtoms(l: Layout, atoms: seq<Body>)
    ensures
      var pieces := Pieces(Steps(l, atoms, |atoms|), |Steps(l, atoms, |atoms|)|);
      PendingAtoms(pieces, |pieces|) == atoms
  {
    PiecesFlat(Steps(l, atoms, |atoms|), |Steps(l, atoms, |atoms|)|);
    StepsFlat(l, atoms, |atoms|);
    assert atoms[..|atoms|] == atoms;
  }

  // ---- A piece as one body

  function Bodied(atoms: seq<Body>, n: nat): Body
    requires n <= |atoms|
  {
    if n == 0 then Body([], []) else Combined(Bodied(atoms, n - 1), atoms[n - 1])
  }

  function BodyOf(piece: Piece): Body {
    match piece
    case Idea(atoms) => Bodied(atoms, |atoms|)
    case Atom(atom) => atom
  }

  lemma {:induction false} BodiedHolds(atoms: seq<Body>, n: nat)
    requires n <= |atoms|
    ensures Bodied(atoms, n).fragments == BodiesFragments(atoms, n)
  {
    hide AddWindows;
    if n > 0 {
      BodiedHolds(atoms, n - 1);
    }
  }

  lemma {:induction false} BodyHolds(piece: Piece)
    ensures BodyOf(piece).fragments == BodiesFragments(PieceAtoms(piece), |PieceAtoms(piece)|)
  {
    match piece
    case Idea(atoms) => BodiedHolds(atoms, |atoms|);
    case Atom(atom) =>
      assert BodiesFragments([atom], 0) == [];
  }
}
