/** Which text shares a chunk: one section or the same containers, and when a draft is finished. */
module Sharing {
  import opened Common
  import opened Ranges
  import opened Units
  import opened Layouts
  import opened Preparation
  import opened Splitting
  import opened Conservation
  import opened Coverage
  import opened Refining
  import opened Atoms
  import opened Packing

  // ---- One place

  /** Whether two units may stand in one chunk: of one section by section, of the same containers too by container. */
  ghost predicate Near(l: Layout, a: nat, b: nat) {
    match l.rules.packing
    case BySection => l.SectionOf(a) == l.SectionOf(b)
    case ByContainer => l.KeyOf(a) == l.KeyOf(b)
  }

  ghost predicate OnePlace(l: Layout, fragments: seq<Fragment>) {
    forall i, j :: 0 <= i < |fragments| && 0 <= j < |fragments| ==> Near(l, fragments[i].contribution.unit, fragments[j].contribution.unit)
  }

  /** The identifiers of the containers of a path: lists, code, tables, quotes, notes, definition lists, HTML and raw source. */
  function ContainersOf(path: seq<Block>, n: nat): seq<Id>
    requires n <= |path|
  {
    if n == 0 then []
    else
      ContainersOf(path, n - 1)
      + match path[n - 1].kind
        case List | Code | Table | BlockQuote | FootnoteDefinition | DefinitionList | Html | Raw => [path[n - 1].id]
        case _ => []
  }

  lemma {:induction false} KindsListed(path: seq<Block>, n: nat)
    requires n <= |path|
    ensures Ids(KindsOf(path, Containers, n)) == ContainersOf(path, n)
  {
    if n > 0 {
      KindsListed(path, n - 1);
    }
  }

  /** What packing by container compares: the sections, and the identifiers of all enclosing containers. */
  lemma {:induction false} KeysAgreeExactly(l: Layout, a: nat, b: nat)
    ensures l.KeyOf(a) == l.KeyOf(b)
       <==> l.SectionOf(a) == l.SectionOf(b) && ContainersOf(l.Ancestors(a), |l.Ancestors(a)|) == ContainersOf(l.Ancestors(b), |l.Ancestors(b)|)
  {
    hide KindsOf, ContainersOf, l.SectionOf;
    KindsListed(l.Ancestors(a), |l.Ancestors(a)|);
    KindsListed(l.Ancestors(b), |l.Ancestors(b)|);
  }

  /** The text of a heading lies in the section it opens, other text in its block's section. */
  lemma {:induction false} SectionIs(l: Layout, unit: nat)
    requires l.Ancestors(unit) != []
    ensures
      var owner := l.Ancestors(unit)[|l.Ancestors(unit)| - 1];
      && (owner.kind.Heading? ==> l.SectionOf(unit) == Some(owner.id))
      && (!owner.kind.Heading? ==> l.SectionOf(unit) == owner.section)
  {
  }

  lemma {:induction false} KeyNear(l: Layout, a: nat, b: nat)
    requires l.KeyOf(a) == l.KeyOf(b)
    ensures Near(l, a, b)
  {
  }

  lemma {:induction false} PartNear(l: Layout, part: seq<Fragment>, whole: seq<Fragment>)
    requires OnePlace(l, whole) && forall f :: f in part ==> f in whole
    ensures OnePlace(l, part)
  {
    hide Near;
    forall i, j | 0 <= i < |part| && 0 <= j < |part| ensures Near(l, part[i].contribution.unit, part[j].contribution.unit) {
      assert part[i] in part && part[j] in part;
      var a :| 0 <= a < |whole| && whole[a] == part[i];
      var b :| 0 <= b < |whole| && whole[b] == part[j];
    }
  }

  /** Two bodies of one place each whose first fragments agree. */
  lemma {:induction false} BothNear(l: Layout, left: seq<Fragment>, right: seq<Fragment>)
    requires OnePlace(l, left) && OnePlace(l, right)
    requires left != [] && right != [] ==> Near(l, left[0].contribution.unit, right[0].contribution.unit)
    ensures OnePlace(l, left + right)
  {
  }

  // ---- Atoms and ideas

  lemma {:induction false} AtomNear(l: Layout, atom: Body)
    requires IsAtom(l, atom)
    ensures OnePlace(l, atom.fragments)
  {
    hide l.Window, l.KeyOf, l.SectionOf, WholeFragment;
    forall i, j | 0 <= i < |atom.fragments| && 0 <= j < |atom.fragments|
      ensures Near(l, atom.fragments[i].contribution.unit, atom.fragments[j].contribution.unit)
    {
      SharedKey(l, atom.fragments[0].contribution.unit, atom.fragments[i].contribution.unit);
      SharedKey(l, atom.fragments[0].contribution.unit, atom.fragments[j].contribution.unit);
      KeyNear(l, atom.fragments[i].contribution.unit, atom.fragments[j].contribution.unit);
    }
  }

  /** What units of one group agree in: what they belong to, and their key. */
  lemma {:induction false} SharedKey(l: Layout, a: nat, b: nat)
    requires SameGroup(l, a, b)
    ensures l.KeyOf(a) == l.KeyOf(b)
  {
    hide l.Window, l.KeyOf;
  }

  /** A group of one step lies in one section, and only packing by section has groups of several. */
  ghost predicate OneStep(l: Layout, group: seq<Body>) {
    |group| > 1 ==> forall i :: 0 <= i < |group| ==> StepOf(l, group[i]).Some? && StepOf(l, group[i]) == StepOf(l, group[0])
  }

  lemma {:induction false} StepsAreOne(l: Layout, atoms: seq<Body>, n: nat)
    requires n <= |atoms|
    ensures forall g :: 0 <= g < |Steps(l, atoms, n)| ==> OneStep(l, Steps(l, atoms, n)[g])
    ensures
      var groups := Steps(l, atoms, n);
      n > 0 ==> groups[|groups| - 1] != [] && groups[|groups| - 1][|groups[|groups| - 1]| - 1] == atoms[n - 1]
  {
    hide StepOf;
    if n > 0 {
      StepsAreOne(l, atoms, n - 1);
    }
  }

  lemma {:induction false} GroupNear(l: Layout, group: seq<Body>, n: nat)
    requires OneStep(l, group) && n <= |group| && forall i :: 0 <= i < |group| ==> OnePlace(l, group[i].fragments) && group[i].fragments != []
    ensures OnePlace(l, BodiesFragments(group, n))
    ensures n > 0 ==> BodiesFragments(group, n) != [] && BodiesFragments(group, n)[0] == group[0].fragments[0]
  {
    hide OnePlace, l.SectionOf, l.KeyOf, OutermostItem;
    if n == 0 {
      NothingNear(l);
    } else {
      GroupNear(l, group, n - 1);
      if n > 1 {
        StepNear(l, group, n - 1);
        BothNear(l, BodiesFragments(group, n - 1), group[n - 1].fragments);
      } else {
        assert [] + group[0].fragments == group[0].fragments;
      }
    }
  }

  lemma {:induction false} NothingNear(l: Layout)
    ensures OnePlace(l, [])
  {
  }

  lemma {:induction false} StepNear(l: Layout, group: seq<Body>, i: nat)
    requires OneStep(l, group) && 0 < i < |group| && group[0].fragments != [] && group[i].fragments != []
    ensures Near(l, group[0].fragments[0].contribution.unit, group[i].fragments[0].contribution.unit)
  {
    hide l.SectionOf, l.KeyOf, OutermostItem;
    assert StepOf(l, group[i]) == StepOf(l, group[0]) && StepOf(l, group[0]).Some?;
  }

  /** The innermost block of some kinds in a path. */
  ghost predicate Innermost(path: seq<Block>, kinds: set<BlockType>, k: nat) {
    k < |path| && path[k].kind in kinds && forall m :: k < m < |path| ==> path[m].kind !in kinds
  }

  lemma {:induction false} NearestIs(path: seq<Block>, n: nat, kinds: set<BlockType>) returns (k: nat)
    requires n <= |path|
    ensures NearestIn(path, n, kinds).Some? ==> Innermost(path[..n], kinds, k) && NearestIn(path, n, kinds).value == path[k]
    ensures NearestIn(path, n, kinds).None? ==> forall m :: 0 <= m < n ==> path[m].kind !in kinds
  {
    k := 0;
    if n > 0 {
      if path[n - 1].kind in kinds {
        k := n - 1;
      } else {
        k := NearestIs(path, n - 1, kinds);
      }
    }
  }

  /**
   * What a unit's atom has in common: the innermost row in a table; else the innermost list item or
   * definition, and without one the block itself.
   */
  lemma {:induction false} GroupIs(l: Layout, unit: nat)
    requires l.GroupOf(unit).Ok?
    ensures
      var (path, natural) := (l.Ancestors(unit), l.GroupOf(unit).value.natural);
      && l.GroupOf(unit).value.key == l.KeyOf(unit)
      && if exists m :: 0 <= m < |path| && path[m].kind.Table? then exists k: nat :: Innermost(path, {TableHead, TableRow}, k) && natural == path[k].id
         else if exists m :: 0 <= m < |path| && path[m].kind in {ListItem, DefinitionDescription} then
           exists k: nat :: Innermost(path, {ListItem, DefinitionDescription}, k) && natural == path[k].id
         else natural == l.units[unit].block
  {
    hide NearestIn, l.RowCells, l.ChildBlocks, KindsOf, PositionFrom, l.KeyOf;
    var path := l.Ancestors(unit);
    assert path[..|path|] == path;
    var a := NearestIs(path, |path|, {Table});
    var b := NearestIs(path, |path|, Rows);
    var c := NearestIs(path, |path|, {ListItem, DefinitionDescription});
    assert Rows == {TableHead, TableRow};
  }

  lemma {:induction false} OutermostIs(path: seq<Block>, i: nat)
    requires i <= |path| && forall m :: 0 <= m < i ==> !path[m].kind.ListItem?
    ensures
      match OutermostItem(path, i)
      case None => forall m :: 0 <= m < |path| ==> !path[m].kind.ListItem?
      case Some(id) => exists k: nat :: FirstItem(path, k) && id == path[k].id
    decreases |path| - i
  {
    if i < |path| && !path[i].kind.ListItem? {
      OutermostIs(path, i + 1);
    }
    assert i < |path| && path[i].kind.ListItem? ==> FirstItem(path, i);
  }

  ghost predicate FirstItem(path: seq<Block>, k: nat) {
    k < |path| && path[k].kind.ListItem? && forall m :: 0 <= m < k ==> !path[m].kind.ListItem?
  }

  /** What makes an idea: by section, the section and the outermost list item of an atom's first unit; by container nothing does. */
  lemma {:induction false} StepIs(l: Layout, atom: Body)
    requires atom.fragments != []
    ensures
      var unit := atom.fragments[0].contribution.unit;
      var path := l.Ancestors(unit);
      match StepOf(l, atom)
      case None => l.rules.packing.ByContainer? || forall m :: 0 <= m < |path| ==> !path[m].kind.ListItem?
      case Some((section, item)) => l.rules.packing.BySection? && section == l.SectionOf(unit) && exists k: nat :: FirstItem(path, k) && item == path[k].id
  {
    hide l.SectionOf;
    OutermostIs(l.Ancestors(atom.fragments[0].contribution.unit), 0);
  }

  // ---- What packing keeps

  ghost predicate PieceNear(l: Layout, piece: Piece) {
    && OnePlace(l, BodyOf(piece).fragments)
    && forall i :: 0 <= i < |PieceAtoms(piece)| ==> OnePlace(l, PieceAtoms(piece)[i].fragments)
  }

  ghost predicate PiecesNear(l: Layout, pieces: seq<Piece>) {
    forall k :: 0 <= k < |pieces| ==> PieceNear(l, pieces[k])
  }

  ghost predicate ChunksNear(l: Layout, chunks: seq<ChunkContent>) {
    forall i :: 0 <= i < |chunks| ==> OnePlace(l, chunks[i].fragments)
  }

  /** Everything the state holds is of one place each, and an open draft is short of the target. */
  ghost predicate AllNear(l: Layout, t: Tools, s: State) {
    && PiecesNear(l, s.pending) && ChunksNear(l, s.result)
    && (s.current.Some? ==>
          && OnePlace(l, s.current.value.body.fragments) && Prepared(l, t, s.current.value.body) == Ok(s.current.value.chunk)
          && s.current.value.chunk.tokenCount < 500)
  }

  lemma {:induction false} SettleNear(l: Layout, t: Tools, pending: seq<Piece>, result: seq<ChunkContent>, draft: Draft)
    requires PiecesNear(l, pending) && ChunksNear(l, result) && OnePlace(l, draft.body.fragments) && Prepared(l, t, draft.body) == Ok(draft.chunk)
    ensures AllNear(l, t, Settle(pending, result, draft))
  {
    hide Prepared, OnePlace, PieceNear;
    PreparedHolds(l, t, draft.body);
  }

  lemma {:induction false} RequeuedNear(l: Layout, bodies: seq<Body>, pending: seq<Piece>)
    requires PiecesNear(l, pending) && forall i :: 0 <= i < |bodies| ==> OnePlace(l, bodies[i].fragments)
    ensures PiecesNear(l, Requeued(bodies, pending))
  {
    hide OnePlace;
  }

  lemma {:induction false} FirstNear(l: Layout, pending: seq<Piece>)
    requires PiecesNear(l, pending) && pending != []
    ensures PieceNear(l, pending[0]) && PiecesNear(l, pending[1..])
  {
    hide PieceNear;
  }

  lemma {:induction false} FragmentsInPart(l: Layout, fragments: seq<Fragment>, block: Id, n: nat)
    requires n <= |fragments|
    ensures forall f :: f in FragmentsIn(l, fragments, block, n) ==> f in fragments
  {
    if n > 0 {
      FragmentsInPart(l, fragments, block, n - 1);
    }
  }

  lemma {:induction false} ColumnsNear(l: Layout, body: Body, window: TableWindow, cells: seq<Block>, n: nat)
    requires OnePlace(l, body.fragments) && n <= |window.columns| && ColumnBodies(l, body, window, cells, n).Ok?
    ensures
      var bodies := ColumnBodies(l, body, window, cells, n).value;
      forall i :: 0 <= i < |bodies| ==> OnePlace(l, bodies[i].fragments)
  {
    hide OnePlace, FragmentsIn;
    if n > 0 {
      ColumnsNear(l, body, window, cells, n - 1);
      FragmentsInPart(l, body.fragments, cells[window.columns[n - 1]].id, |body.fragments|);
      PartNear(l, FragmentsIn(l, body.fragments, cells[window.columns[n - 1]].id, |body.fragments|), body.fragments);
    }
  }

  lemma {:induction false} OneNear(l: Layout, f: Fragment)
    ensures OnePlace(l, [f])
  {
  }

  lemma {:induction false} RefinedNear(l: Layout, body: Body)
    requires OnePlace(l, body.fragments) && Refined(l, body).Ok? && Refined(l, body).value.Some?
    ensures
      var bodies := Refined(l, body).value.value;
      forall i :: 0 <= i < |bodies| ==> OnePlace(l, bodies[i].fragments)
  {
    hide OnePlace, ColumnBodies, FragmentBodies, l.RowCells;
    if Wide(body) {
      var cells := l.RowCells(body.windows[0].row).value;
      ColumnsNear(l, body, body.windows[0], cells, |body.windows[0].columns|);
    }
    if !Wide(body) || Columns(l, body).value == [] {
      FragmentBodiesAre(l, body.fragments, |body.fragments|);
      forall i | 0 <= i < |body.fragments| ensures OnePlace(l, [body.fragments[i]]) {
        OneNear(l, body.fragments[i]);
      }
    }
  }

  lemma {:induction false} SplitOne(l: Layout, t: Tools, body: Body, code: bool, start: nat, stop: nat)
    requires |body.fragments| == 1 && body.fragments[0].contribution.unit < |l.units| && SplitFrom(l, t, body, code, start, stop).Ok?
    ensures ChunksNear(l, SplitFrom(l, t, body, code, start, stop).value)
    decreases stop - start
  {
    hide Cut, CutAt, RangeOf, OnePlace;
    if start < stop {
      var piece := Cut(l, t, body, code, start, stop).value;
      CutIs(l, t, body, code, start, stop);
      CutAdvances(l, t, body, code, start, stop, piece);
      CutHasOne(l, t, body, code, start, stop);
      OneNear(l, piece.fragments[0]);
      assert piece.fragments == [piece.fragments[0]];
      SplitOne(l, t, body, code, RangeOf(piece).end, stop);
    }
  }

  lemma {:induction false} CutHasOne(l: Layout, t: Tools, body: Body, code: bool, start: nat, stop: nat)
    requires |body.fragments| == 1 && body.fragments[0].contribution.unit < |l.units|
    requires start < stop <= |l.units[body.fragments[0].contribution.unit].text| && Cut(l, t, body, code, start, stop).Ok?
    ensures |Cut(l, t, body, code, start, stop).value.fragments| == 1
  {
    hide Prepared, LengthOf;
    PreparedHolds(l, t, PieceAt(l, body, start, LengthOf(l, t, body, code, start, stop).value).value);
  }

  lemma {:induction false} ShrunkNear(l: Layout, t: Tools, s: State, atom: Body)
    requires AllNear(l, t, s) && s.pending != [] && s.current.None? && s.pending[0] == Atom(atom) && Shrunk(l, t, s, atom).Ok?
    ensures AllNear(l, t, Shrunk(l, t, s, atom).value)
  {
    hide Prepared, OnePlace, Refined, SplitFrom, Requeued, l.Nearest;
    FirstNear(l, s.pending);
    assert PieceAtoms(s.pending[0])[0] == atom;
    var refined := Refined(l, atom).value;
    if refined.Some? {
      RefinedNear(l, atom);
      RequeuedNear(l, refined.value, s.pending[1..]);
    } else {
      var c := atom.fragments[0].contribution;
      SplitOne(l, t, atom, l.Nearest(c.unit, {Code}).Some?, c.range.start, c.range.end);
    }
  }

  lemma {:induction false} OpenedNear(l: Layout, t: Tools, s: State)
    requires AllNear(l, t, s) && s.pending != [] && s.current.None? && Opened(l, t, s).Ok?
    ensures AllNear(l, t, Opened(l, t, s).value)
  {
    hide Prepared, OnePlace, Shrunk, Requeued, BodyOf;
    FirstNear(l, s.pending);
    var (piece, rest) := (s.pending[0], s.pending[1..]);
    var chunk := Prepared(l, t, BodyOf(piece)).value;
    if chunk.tokenCount <= MaxTokens {
      SettleNear(l, t, rest, s.result, Draft(BodyOf(piece), chunk));
    } else {
      match piece {
        case Idea(atoms) => RequeuedNear(l, PieceAtoms(piece), rest);
        case Atom(atom) => ShrunkNear(l, t, s, atom);
      }
    }
  }

  lemma {:induction false} ClosedNear(l: Layout, t: Tools, s: State)
    requires AllNear(l, t, s)
    ensures AllNear(l, t, Closed(s))
  {
    hide Prepared, OnePlace, PiecesNear;
    if s.current.Some? {
      PreparedHolds(l, t, s.current.value.body);
    }
  }

  lemma {:induction false} CompatibleNear(l: Layout, left: Body, right: Body)
    requires OnePlace(l, left.fragments) && OnePlace(l, right.fragments) && Compatible(l, left, right)
    ensures OnePlace(l, Combined(left, right).fragments)
  {
    hide l.SectionOf, l.KeyOf, OnePlace, AddWindows;
    BothNear(l, left.fragments, right.fragments);
  }

  /** Every turn keeps text of different places apart. */
  lemma {:induction false} SteppedNear(l: Layout, t: Tools, s: State)
    requires AllNear(l, t, s) && s.pending != [] && Stepped(l, t, s).Ok?
    ensures AllNear(l, t, Stepped(l, t, s).value)
  {
    hide Prepared, OnePlace, Opened, Requeued, BodyOf, Compatible, Combined;
    FirstNear(l, s.pending);
    var (piece, rest) := (s.pending[0], s.pending[1..]);
    ClosedNear(l, t, s);
    if Opened(l, t, Closed(s)).Ok? {
      OpenedNear(l, t, Closed(s));
    }
    if s.current.Some? {
      var body := s.current.value.body;
      var grown := Grown(l, t, body, BodyOf(piece)).value;
      if grown.Some? {
        CompatibleNear(l, body, BodyOf(piece));
        SettleNear(l, t, rest, s.result, grown.value);
      } else if piece.Idea? {
        RequeuedNear(l, PieceAtoms(piece), rest);
      }
    }
  }

  // ---- When a draft is finished

  /** Whether the windows of a body may follow another's: rows of one table, of one row or over the same columns; by container no text beside rows. */
  ghost predicate WindowsMeet(l: Layout, left: Body, right: Body) {
    && (l.rules.packing.ByContainer? ==> (left.windows == [] <==> right.windows == []))
    && (left.windows != [] && right.windows != [] ==>
          var (last, first) := (left.windows[|left.windows| - 1], right.windows[0]);
          last.table == first.table && (last.row == first.row || last.columns == first.columns))
  }

  /** Whether all fragments of two bodies may stand in one chunk, with windows that meet. */
  ghost predicate MayShare(l: Layout, left: Body, right: Body) {
    && left.fragments != [] && right.fragments != [] && WindowsMeet(l, left, right)
    && OnePlace(l, left.fragments + right.fragments)
  }

  lemma {:induction false} SharesExactly(l: Layout, left: Body, right: Body)
    requires OnePlace(l, left.fragments) && OnePlace(l, right.fragments)
    ensures Compatible(l, left, right) <==> MayShare(l, left, right)
  {
    hide l.SectionOf, l.KeyOf;
    if left.fragments != [] && right.fragments != [] {
      var (both, n) := (left.fragments + right.fragments, |left.fragments|);
      assert both[0] == left.fragments[0] && both[n] == right.fragments[0];
      if Compatible(l, left, right) {
        BothNear(l, left.fragments, right.fragments);
      }
      if OnePlace(l, both) {
        assert Near(l, both[0].contribution.unit, both[n].contribution.unit);
      }
    }
  }

  /** Whether the next piece joins the open draft: they may share a chunk, and fit one together. */
  ghost predicate Joins(l: Layout, t: Tools, body: Body, piece: Piece) {
    MayShare(l, body, BodyOf(piece))
    && Prepared(l, t, Combined(body, BodyOf(piece))).Ok? && Prepared(l, t, Combined(body, BodyOf(piece))).value.tokenCount <= 700
  }

  /** Whether an idea is too large for any chunk, so that its atoms are tried instead. */
  ghost predicate TooLarge(l: Layout, t: Tools, piece: Piece) {
    piece.Idea? && Prepared(l, t, BodyOf(piece)).Ok? && Prepared(l, t, BodyOf(piece)).value.tokenCount > 700
  }

  /** Whether some bodies stand in front of what was pending, each as an atom. */
  predicate InFront(bodies: seq<Body>, rest: seq<Piece>, pending: seq<Piece>) {
    && |pending| == |bodies| + |rest| && pending[|bodies|..] == rest
    && forall i :: 0 <= i < |bodies| ==> pending[i] == Atom(bodies[i])
  }

  /**
   * What becomes of a piece while no draft is open. With up to 700 tokens it is a draft, finished
   * exactly when it counts 500 or more. A larger idea gives way to its atoms, a larger atom to its
   * columns or fragments; a single fragment that is still too large is split into finished drafts.
   */
  ghost predicate Opens(l: Layout, t: Tools, piece: Piece, rest: seq<Piece>, result: seq<ChunkContent>, next: State) {
    && Prepared(l, t, BodyOf(piece)).Ok?
    && var chunk := Prepared(l, t, BodyOf(piece)).value;
       if chunk.tokenCount <= 700 then
         && next.pending == rest
         && if chunk.tokenCount >= 500 then next.current.None? && next.result == result + [chunk]
            else next.current == Some(Draft(BodyOf(piece), chunk)) && next.result == result
       else
         && next.current.None?
         && match piece
            case Idea(atoms) => InFront(atoms, rest, next.pending) && next.result == result
            case Atom(atom) =>
              && Refined(l, atom).Ok?
              && match Refined(l, atom).value
                 case Some(bodies) => InFront(bodies, rest, next.pending) && next.result == result
                 case None => |atom.fragments| == 1 && Split(l, t, atom).Ok? && next.pending == rest && next.result == result + Split(l, t, atom).value
  }

  lemma {:induction false} OpensExactly(l: Layout, t: Tools, s: State)
    requires s.pending != [] && s.current.None? && Opened(l, t, s).Ok?
    ensures Opens(l, t, s.pending[0], s.pending[1..], s.result, Opened(l, t, s).value)
  {
    hide Prepared, BodyOf, Refined, Split;
  }

  /**
   * What a turn does with an open draft. It grows by the next piece when that joins, and is then
   * finished exactly when it counts 500 or more; it stays open while an idea too large for any chunk
   * gives way to its atoms; otherwise it is finished as it is, and the piece is placed by itself.
   */
  lemma {:induction false} TurnExactly(l: Layout, t: Tools, s: State)
    requires AllNear(l, t, s) && s.pending != [] && s.current.Some? && Stepped(l, t, s).Ok?
    ensures
      var (body, piece, next) := (s.current.value.body, s.pending[0], Stepped(l, t, s).value);
      if Joins(l, t, body, piece) then
        var chunk := Prepared(l, t, Combined(body, BodyOf(piece))).value;
        && next.pending == s.pending[1..]
        && (if chunk.tokenCount >= 500 then next.current.None? && next.result == s.result + [chunk]
            else next.current == Some(Draft(Combined(body, BodyOf(piece)), chunk)) && next.result == s.result)
      else if TooLarge(l, t, piece) then
        next.current == s.current && next.result == s.result && InFront(PieceAtoms(piece), s.pending[1..], next.pending)
      else Opens(l, t, piece, s.pending[1..], s.result + [s.current.value.chunk], next)
  {
    hide Prepared, Compatible, MayShare, Combined, BodyOf, PiecesNear, OnePlace, Opened, Opens;
    FirstNear(l, s.pending);
    var (body, piece, next) := (s.current.value.body, s.pending[0], Stepped(l, t, s).value);
    PieceBody(l, piece);
    SharesExactly(l, body, BodyOf(piece));
    if !Joins(l, t, body, piece) && !TooLarge(l, t, piece) {
      OpensExactly(l, t, Closed(s));
    }
  }

  lemma {:induction false} PieceBody(l: Layout, piece: Piece)
    requires PieceNear(l, piece)
    ensures OnePlace(l, BodyOf(piece).fragments)
  {
    hide OnePlace;
  }

  // ---- Every reachable state

  /** Where packing starts. */
  function Start(l: Layout): Result<State> {
    var atoms :- AtomsOf(l, |l.units|);
    var steps := Steps(l, atoms.0, |atoms.0|);
    Ok(State(Pieces(steps, |steps|), None, []))
  }

  /** The state after some turns. */
  function After(l: Layout, t: Tools, turns: nat): Result<State> {
    if turns == 0 then Start(l)
    else
      var s :- After(l, t, turns - 1);
      if s.pending == [] then Ok(s) else Stepped(l, t, s)
  }

  lemma {:induction false} PiecesOf(groups: seq<seq<Body>>, n: nat)
    requires n <= |groups| && forall g :: 0 <= g < |groups| ==> groups[g] != []
    ensures |Pieces(groups, n)| == n && forall g :: 0 <= g < n ==> Pieces(groups, n)[g] == PieceOf(groups[g])
  {
    if n > 0 {
      PiecesOf(groups, n - 1);
    }
  }

  lemma {:induction false} AtomOf(l: Layout, atoms: seq<Body>, g: nat, i: nat)
    requires AreAtoms(l, atoms) && g < |Steps(l, atoms, |atoms|)| && i < |Steps(l, atoms, |atoms|)[g]|
    ensures OnePlace(l, Steps(l, atoms, |atoms|)[g][i].fragments) && Steps(l, atoms, |atoms|)[g][i].fragments != []
  {
    hide IsAtom, OnePlace, Steps;
    StepMembers(l, atoms, |atoms|, g, i);
    var p :| 0 <= p < |atoms| && atoms[p] == Steps(l, atoms, |atoms|)[g][i];
    AtomNear(l, atoms[p]);
    AtomSome(l, atoms[p]);
  }

  lemma {:induction false} AtomSome(l: Layout, atom: Body)
    requires IsAtom(l, atom)
    ensures atom.fragments != []
  {
  }

  lemma {:induction false} StepMembers(l: Layout, atoms: seq<Body>, n: nat, g: nat, i: nat)
    requires n <= |atoms| && g < |Steps(l, atoms, n)| && i < |Steps(l, atoms, n)[g]|
    ensures Steps(l, atoms, n)[g][i] in atoms
  {
    hide StepOf;
    if n > 0 {
      var (before, groups) := (Steps(l, atoms, n - 1), Steps(l, atoms, n));
      if g < |before| && i < |before[g]| {
        StepMembers(l, atoms, n - 1, g, i);
      } else {
        assert groups[g][i] == atoms[n - 1];
      }
    }
  }

  lemma {:induction false} StartNear(l: Layout, t: Tools)
    requires Start(l).Ok?
    ensures AllNear(l, t, Start(l).value)
  {
    hide AtomsOf, Steps, OnePlace, AreAtoms, AtomsApart, KeptContributions, Bodied, OneStep, LastIn;
    AtomsOfAre(l, |l.units|);
    var atoms := AtomsOf(l, |l.units|).value.0;
    var groups := Steps(l, atoms, |atoms|);
    PiecesOf(groups, |groups|);
    StepsAreOne(l, atoms, |atoms|);
    forall g | 0 <= g < |groups| ensures PieceNear(l, PieceOf(groups[g])) {
      forall i | 0 <= i < |groups[g]| ensures OnePlace(l, groups[g][i].fragments) && groups[g][i].fragments != [] {
        AtomOf(l, atoms, g, i);
      }
      GroupNear(l, groups[g], |groups[g]|);
      assert PieceAtoms(PieceOf(groups[g])) == groups[g];
      BodyHolds(PieceOf(groups[g]));
    }
  }

  /** In every state that packing reaches the open draft and the finished ones are of one place each. */
  lemma {:induction false} AfterNear(l: Layout, t: Tools, turns: nat)
    requires After(l, t, turns).Ok?
    ensures AllNear(l, t, After(l, t, turns).value)
  {
    hide AllNear, Start, Stepped;
    if turns == 0 {
      StartNear(l, t);
    } else {
      AfterNear(l, t, turns - 1);
      var s := After(l, t, turns - 1).value;
      if s.pending != [] {
        SteppedNear(l, t, s);
      }
    }
  }

  /**
   * A draft is finished short of the target only where the next piece does not join it - it lies
   * elsewhere, its windows do not meet, or both make more than 700 tokens - or nothing is left.
   */
  lemma {:induction false} FinishedShortOnlyWhere(l: Layout, t: Tools, turns: nat)
    requires After(l, t, turns + 1).Ok? && After(l, t, turns).Ok?
    requires After(l, t, turns).value.current.Some? && After(l, t, turns).value.pending != []
    ensures
      var (s, next) := (After(l, t, turns).value, After(l, t, turns + 1).value);
      && s.current.value.chunk.tokenCount < 500
      && (|next.result| > |s.result| && next.result[|s.result|].tokenCount < 500 ==> !Joins(l, t, s.current.value.body, s.pending[0]))
      && (Joins(l, t, s.current.value.body, s.pending[0]) ==> next.pending == s.pending[1..])
  {
    hide Joins, TooLarge, Stepped, Prepared, Combined, Start, BodyOf, Refined, Split;
    AfterNear(l, t, turns);
    TurnExactly(l, t, After(l, t, turns).value);
  }

  lemma {:induction false} PacksNear(l: Layout, t: Tools, s: State)
    requires AllNear(l, t, s) && Packs(l, t, s).Ok?
    ensures ChunksNear(l, Packs(l, t, s).value)
    decreases Weight(s.pending)
  {
    hide Prepared, Stepped, Weight, OnePlace, PiecesNear;
    if s.pending == [] {
      ClosedNear(l, t, s);
    } else {
      SteppedLess(l, t, s);
      SteppedNear(l, t, s);
      PacksNear(l, t, Stepped(l, t, s).value);
    }
  }

  // ---- Absorbing

  /** A draft under the minimum joins the one before exactly when they may share a chunk and fit one together. */
  lemma {:induction false} AbsorbsExactly(l: Layout, t: Tools, before: seq<ChunkContent>, draft: ChunkContent, minTokens: nat)
    requires ChunksNear(l, before) && OnePlace(l, draft.fragments) && Absorbs(l, t, before, draft, minTokens).Ok?
    ensures
      var after := Absorbs(l, t, before, draft, minTokens).value;
      if draft.tokenCount >= minTokens || before == [] then after == before + [draft]
      else
        var last := before[|before| - 1];
        var (left, right) := (Body(last.fragments, last.windows), Body(draft.fragments, draft.windows));
        if MayShare(l, left, right) && Prepared(l, t, Combined(left, right)).Ok? && Prepared(l, t, Combined(left, right)).value.tokenCount <= 700
        then after == before[|before| - 1 := Prepared(l, t, Combined(left, right)).value] && OnePlace(l, Combined(left, right).fragments)
        else after == before + [draft]
  {
    hide Prepared, Compatible, MayShare, OnePlace, Combined;
    if draft.tokenCount < minTokens && before != [] {
      var last := before[|before| - 1];
      var (left, right) := (Body(last.fragments, last.windows), Body(draft.fragments, draft.windows));
      SharesExactly(l, left, right);
      if Compatible(l, left, right) {
        CompatibleNear(l, left, right);
      }
    }
  }

  lemma {:induction false} AbsorbedNear(l: Layout, t: Tools, drafts: seq<ChunkContent>, minTokens: nat, n: nat)
    requires ChunksNear(l, drafts) && n <= |drafts| && Absorbed(l, t, drafts, minTokens, n).Ok?
    ensures ChunksNear(l, Absorbed(l, t, drafts, minTokens, n).value)
  {
    hide OnePlace, Absorbs, Prepared, Combined, MayShare;
    if n > 0 {
      AbsorbedNear(l, t, drafts, minTokens, n - 1);
      var before := Absorbed(l, t, drafts, minTokens, n - 1).value;
      AbsorbsExactly(l, t, before, drafts[n - 1], minTokens);
      AbsorbsHolds(l, t, before, drafts[n - 1], minTokens);
    }
  }

  lemma {:induction false} AbsorbsHolds(l: Layout, t: Tools, before: seq<ChunkContent>, draft: ChunkContent, minTokens: nat)
    ensures before != [] ==>
              var last := before[|before| - 1];
              var both := Combined(Body(last.fragments, last.windows), Body(draft.fragments, draft.windows));
              Prepared(l, t, both).Ok? ==> Prepared(l, t, both).value.fragments == both.fragments
  {
    hide Prepared, Combined;
    if before != [] {
      var last := before[|before| - 1];
      var both := Combined(Body(last.fragments, last.windows), Body(draft.fragments, draft.windows));
      if Prepared(l, t, both).Ok? {
        PreparedHolds(l, t, both);
      }
    }
  }

  /** Every draft is of one place: one section by section, one section and the same containers by container. */
  lemma {:induction false} BuiltNear(l: Layout, t: Tools)
    requires Built(l, t).Ok?
    ensures ChunksNear(l, Built(l, t).value)
  {
    hide AllNear, Packs, Absorbed, ChunksNear, AtomsOf, Steps;
    StartNear(l, t);
    PacksNear(l, t, Start(l).value);
    var drafts := Packs(l, t, Start(l).value).value;
    if l.rules.minTokens.Some? {
      AbsorbedNear(l, t, drafts, l.rules.minTokens.value, |drafts|);
    }
  }
}
