/** Packing a document's ideas into drafts: combined, broken into smaller ideas, refined or split. */
module Packing {
  import opened Common
  import opened Ranges
  import opened Brackets
  import opened Units
  import opened Layouts
  import opened Preparation
  import opened Splitting
  import opened Conservation
  import opened Coverage
  import opened Refining
  import opened Atoms

  /** The open draft: its body and the chunk the body makes. */
  datatype Draft = Draft(body: Body, chunk: ChunkContent)

  /** `grown`: the open draft grown by a body, when the two are compatible and fit the maximum together. */
  function Grown(l: Layout, t: Tools, body: Body, atom: Body): Result<Option<Draft>> {
    if !Compatible(l, body, atom) then Ok(None)
    else
      var candidate :- Prepared(l, t, Combined(body, atom));
      Ok(if candidate.tokenCount <= MaxTokens then Some(Draft(Combined(body, atom), candidate)) else None)
  }

  /** Where packing stands: what is still to be placed, the open draft and the finished ones. */
  datatype State = State(pending: seq<Piece>, current: Option<Draft>, result: seq<ChunkContent>)

  /** `settle`: a draft that reached the target joins the result; a smaller one stays open. */
  function Settle(pending: seq<Piece>, result: seq<ChunkContent>, draft: Draft): State {
    if draft.chunk.tokenCount >= TargetTokens then State(pending, None, result + [draft.chunk])
    else State(pending, Some(draft), result)
  }

  /** `requeue`: smaller bodies go back to the front, in order, each a piece alone. */
  function Requeued(bodies: seq<Body>, pending: seq<Piece>): seq<Piece> {
    seq(|bodies|, i requires 0 <= i < |bodies| => Atom(bodies[i])) + pending
  }

  /** The turn that finishes the open draft: nothing is placed yet. */
  function Closed(s: State): State {
    match s.current
    case None => s
    case Some(draft) => State(s.pending, None, s.result + [draft.chunk])
  }

  /** An oversized atom in smaller pieces: refined, or its one unit split. */
  function Shrunk(l: Layout, t: Tools, s: State, atom: Body): Result<State>
    requires s.pending != []
  {
    var rest := s.pending[1..];
    var refined :- Refined(l, atom);
    if refined.Some? then Ok(State(Requeued(refined.value, rest), None, s.result))
    else if |atom.fragments| != 1 then Err(Structure)
    else
      var pieces :- Split(l, t, atom);
      Ok(State(rest, None, s.result + pieces))
  }

  /** With no draft open: the next piece opens one, or makes way for smaller pieces. */
  function Opened(l: Layout, t: Tools, s: State): Result<State>
    requires s.pending != []
  {
    var (piece, rest) := (s.pending[0], s.pending[1..]);
    var chunk :- Prepared(l, t, BodyOf(piece));
    if chunk.tokenCount <= MaxTokens then Ok(Settle(rest, s.result, Draft(BodyOf(piece), chunk)))
    else
      match piece
      case Idea(atoms) => Ok(State(Requeued(atoms, rest), None, s.result))
      case Atom(atom) => Shrunk(l, t, s, atom)
  }

  /**
   * One turn: the next piece grows the open draft when it may; an idea too large for any chunk
   * leaves the draft open for its atoms; otherwise the draft is finished and the piece placed.
   */
  function Stepped(l: Layout, t: Tools, s: State): Result<State>
    requires s.pending != []
  {
    var (piece, rest) := (s.pending[0], s.pending[1..]);
    match s.current
    case None => Opened(l, t, s)
    case Some(open) =>
      var grown :- Grown(l, t, open.body, BodyOf(piece));
      if grown.Some? then Ok(Settle(rest, s.result, grown.value))
      else if piece.Atom? then Opened(l, t, Closed(s))
      else
        var whole :- Prepared(l, t, BodyOf(piece));
        if whole.tokenCount > MaxTokens then Ok(State(Requeued(piece.atoms, rest), s.current, s.result))
        else Opened(l, t, Closed(s))
  }

  // ---- The worklist shrinks

  function PieceWeight(piece: Piece): nat {
    match piece
    case Idea(atoms) => 1 + BodiesWeight(atoms, |atoms|)
    case Atom(atom) => BodyWeight(atom)
  }

  function PendingWeight(pieces: seq<Piece>, n: nat): nat
    requires n <= |pieces|
  {
    if n == 0 then 0 else PendingWeight(pieces, n - 1) + PieceWeight(pieces[n - 1])
  }

  function Weight(pieces: seq<Piece>): nat {
    PendingWeight(pieces, |pieces|)
  }

  lemma {:induction false} WeightThen(a: seq<Piece>, b: seq<Piece>, n: nat)
    requires n <= |b|
    ensures PendingWeight(a + b, |a| + n) == Weight(a) + PendingWeight(b, n)
  {
    if n == 0 {
      WeightPrefix(a, b, |a|);
    } else {
      WeightThen(a, b, n - 1);
      assert (a + b)[|a| + n - 1] == b[n - 1];
    }
  }

  lemma {:induction false} WeightPrefix(a: seq<Piece>, b: seq<Piece>, n: nat)
    requires n <= |a|
    ensures PendingWeight(a + b, n) == PendingWeight(a, n)
  {
    if n > 0 {
      WeightPrefix(a, b, n - 1);
    }
  }

  lemma {:induction false} AtomsWeigh(bodies: seq<Body>, n: nat)
    requires n <= |bodies|
    ensures PendingWeight(Requeued(bodies, []), n) == BodiesWeight(bodies, n)
  {
    if n > 0 {
      AtomsWeigh(bodies, n - 1);
    }
  }

  lemma {:induction false} RequeuedWeight(bodies: seq<Body>, pending: seq<Piece>)
    ensures Weight(Requeued(bodies, pending)) == BodiesWeight(bodies, |bodies|) + Weight(pending)
  {
    AtomsWeigh(bodies, |bodies|);
    assert Requeued(bodies, pending) == Requeued(bodies, []) + pending;
    WeightThen(Requeued(bodies, []), pending, |pending|);
  }

  lemma {:induction false} FirstWeight(piece: Piece, rest: seq<Piece>)
    ensures Weight([piece] + rest) == PieceWeight(piece) + Weight(rest)
  {
    WeightThen([piece], rest, |rest|);
    assert PendingWeight([piece], 0) == 0;
  }

  lemma {:induction false} DropFirst(piece: Piece, rest: seq<Piece>)
    ensures Weight(rest) < Weight([piece] + rest)
  {
    FirstWeight(piece, rest);
  }

  lemma {:induction false} RequeuedLess(bodies: seq<Body>, piece: Piece, rest: seq<Piece>)
    requires BodiesWeight(bodies, |bodies|) < PieceWeight(piece)
    ensures Weight(Requeued(bodies, rest)) < Weight([piece] + rest)
  {
    RequeuedWeight(bodies, rest);
    FirstWeight(piece, rest);
  }

  lemma {:induction false} ShrunkLess(l: Layout, t: Tools, s: State, atom: Body)
    requires s.pending != [] && s.pending[0] == Atom(atom) && Shrunk(l, t, s, atom).Ok?
    ensures Weight(Shrunk(l, t, s, atom).value.pending) < Weight(s.pending)
  {
    hide Refined, Split, Weight, BodyWeight, BodiesWeight, Requeued;
    var rest := s.pending[1..];
    assert s.pending == [Atom(atom)] + rest;
    var refined := Refined(l, atom).value;
    if refined.Some? {
      RefinedSmaller(l, atom);
      RequeuedLess(refined.value, Atom(atom), rest);
    } else {
      DropFirst(Atom(atom), rest);
    }
  }

  lemma {:induction false} OpenedLess(l: Layout, t: Tools, s: State)
    requires s.pending != [] && Opened(l, t, s).Ok?
    ensures Weight(Opened(l, t, s).value.pending) < Weight(s.pending)
  {
    hide Prepared, Shrunk, Weight, BodiesWeight, Requeued, BodyOf;
    var (piece, rest) := (s.pending[0], s.pending[1..]);
    assert s.pending == [piece] + rest;
    if Prepared(l, t, BodyOf(piece)).value.tokenCount <= MaxTokens {
      DropFirst(piece, rest);
    } else {
      match piece {
        case Idea(atoms) => RequeuedLess(atoms, piece, rest);
        case Atom(atom) => ShrunkLess(l, t, s, atom);
      }
    }
  }

  /** Every turn leaves less to be placed, so packing ends whatever the counter answers. */
  lemma {:induction false} SteppedLess(l: Layout, t: Tools, s: State)
    requires s.pending != [] && Stepped(l, t, s).Ok?
    ensures Weight(Stepped(l, t, s).value.pending) < Weight(s.pending)
  {
    hide Prepared, Grown, Opened, Weight, BodiesWeight, Requeued, BodyOf;
    var (piece, rest) := (s.pending[0], s.pending[1..]);
    assert s.pending == [piece] + rest;
    DropFirst(piece, rest);
    if Opened(l, t, Closed(s)).Ok? {
      OpenedLess(l, t, Closed(s));
    }
    if piece.Idea? {
      RequeuedLess(piece.atoms, piece, rest);
    }
  }

  /** Turns until nothing is pending. */
  function Packs(l: Layout, t: Tools, s: State): Result<seq<ChunkContent>>
    decreases Weight(s.pending)
  {
    if s.pending == [] then Ok(Closed(s).result)
    else
      var next :- Stepped(l, t, s);
      SteppedLess(l, t, s);
      Packs(l, t, next)
  }

  /** A draft under the minimum joins the one before it, when the two may share a chunk. */
  function Absorbs(l: Layout, t: Tools, before: seq<ChunkContent>, draft: ChunkContent, minTokens: nat): Result<seq<ChunkContent>> {
    if draft.tokenCount >= minTokens || before == [] then Ok(before + [draft])
    else
      var last := before[|before| - 1];
      var joined :- Grown(l, t, Body(last.fragments, last.windows), Body(draft.fragments, draft.windows));
      Ok(if joined.Some? then before[|before| - 1 := joined.value.chunk] else before + [draft])
  }

  /** The first n drafts, small ones absorbed from the left. */
  function Absorbed(l: Layout, t: Tools, drafts: seq<ChunkContent>, minTokens: nat, n: nat): Result<seq<ChunkContent>>
    requires n <= |drafts|
  {
    if n == 0 then Ok([])
    else
      var before :- Absorbed(l, t, drafts, minTokens, n - 1);
      Absorbs(l, t, before, drafts[n - 1], minTokens)
  }

  lemma {:induction false} AbsorbRefused(l: Layout, t: Tools, drafts: seq<ChunkContent>, minTokens: nat, n: nat)
    requires n < |drafts| && Absorbed(l, t, drafts, minTokens, n + 1).Err?
    ensures Absorbed(l, t, drafts, minTokens, |drafts|) == Err(Absorbed(l, t, drafts, minTokens, n + 1).error)
    decreases |drafts| - n
  {
    hide Absorbs;
    if n + 1 < |drafts| {
      AbsorbRefused(l, t, drafts, minTokens, n + 1);
    }
  }

  /** The drafts of a document before their parts are numbered. */
  function Built(l: Layout, t: Tools): Result<seq<ChunkContent>> {
    var atoms :- AtomsOf(l, |l.units|);
    var steps := Steps(l, atoms.0, |atoms.0|);
    var drafts :- Packs(l, t, State(Pieces(steps, |steps|), None, []));
    if l.rules.minTokens.None? then Ok(drafts)
    else Absorbed(l, t, drafts, l.rules.minTokens.value, |drafts|)
  }

  // ---- What packing conserves

  ghost function PendingFragments(pieces: seq<Piece>): seq<Fragment> {
    var atoms := PendingAtoms(pieces, |pieces|);
    BodiesFragments(atoms, |atoms|)
  }

  ghost function OpenFragments(current: Option<Draft>): seq<Fragment> {
    match current case None => [] case Some(draft) => draft.body.fragments
  }

  ghost function ResultContributions(result: seq<ChunkContent>): seq<Contribution> {
    ChunkContributions(result, |result|)
  }

  /** Every contribution the state holds, in document order. */
  ghost function Held(s: State): seq<Contribution> {
    ResultContributions(s.result) + Contributions(OpenFragments(s.current)) + Contributions(PendingFragments(s.pending))
  }

  lemma {:induction false} BodiesThen(a: seq<Body>, b: seq<Body>, n: nat)
    requires n <= |b|
    ensures BodiesFragments(a + b, |a| + n) == BodiesFragments(a, |a|) + BodiesFragments(b, n)
  {
    if n == 0 {
      Refining.WeightPrefix(a, b, |a|);
    } else {
      BodiesThen(a, b, n - 1);
      assert (a + b)[|a| + n - 1] == b[n - 1];
      Associative(BodiesFragments(a, |a|), BodiesFragments(b, n - 1), b[n - 1].fragments);
    }
  }

  lemma {:induction false} AtomsThen(a: seq<Piece>, b: seq<Piece>, n: nat)
    requires n <= |b|
    ensures PendingAtoms(a + b, |a| + n) == PendingAtoms(a, |a|) + PendingAtoms(b, n)
  {
    if n == 0 {
      PendingPrefix(a, b, |a|);
    } else {
      AtomsThen(a, b, n - 1);
      assert (a + b)[|a| + n - 1] == b[n - 1];
      Associative(PendingAtoms(a, |a|), PendingAtoms(b, n - 1), PieceAtoms(b[n - 1]));
    }
  }

  lemma {:induction false} PendingThen(a: seq<Piece>, b: seq<Piece>)
    ensures PendingFragments(a + b) == PendingFragments(a) + PendingFragments(b)
  {
    hide PendingAtoms, BodiesFragments;
    AtomsThen(a, b, |b|);
    var x, y := PendingAtoms(a, |a|), PendingAtoms(b, |b|);
    assert |a + b| == |a| + |b| && |x + y| == |x| + |y|;
    BodiesThen(x, y, |y|);
  }

  lemma {:induction false} OnePiece(piece: Piece)
    ensures PendingAtoms([piece], 1) == PieceAtoms(piece)
  {
    assert PendingAtoms([piece], 0) == [];
  }

  lemma {:induction false} FirstFragments(piece: Piece, rest: seq<Piece>)
    ensures PendingFragments([piece] + rest) == BodyOf(piece).fragments + PendingFragments(rest)
  {
    PendingThen([piece], rest);
    OnePiece(piece);
    BodyHolds(piece);
  }

  lemma {:induction false} RequeuedAtoms(bodies: seq<Body>, n: nat)
    requires n <= |bodies|
    ensures PendingAtoms(Requeued(bodies, []), n) == bodies[..n]
  {
    if n > 0 {
      RequeuedAtoms(bodies, n - 1);
    }
  }

  lemma {:induction false} RequeuedFragments(bodies: seq<Body>, rest: seq<Piece>)
    ensures PendingFragments(Requeued(bodies, rest)) == BodiesFragments(bodies, |bodies|) + PendingFragments(rest)
  {
    RequeuedAtoms(bodies, |bodies|);
    assert bodies[..|bodies|] == bodies;
    assert Requeued(bodies, rest) == Requeued(bodies, []) + rest;
    PendingThen(Requeued(bodies, []), rest);
  }

  lemma {:induction false} ResultThen(result: seq<ChunkContent>, chunk: ChunkContent)
    ensures ResultContributions(result + [chunk]) == ResultContributions(result) + Contributions(chunk.fragments)
  {
    ChunkContributionsThen(result, [chunk], 1);
    assert ChunkContributions([chunk], 0) == [];
  }

  // ---- What every turn keeps

  /** A chunk that is what its own body makes, within the maximum. */
  ghost predicate Replays(l: Layout, t: Tools, chunk: ChunkContent) {
    Prepared(l, t, Body(chunk.fragments, chunk.windows)) == Ok(chunk) && chunk.tokenCount <= MaxTokens
  }

  ghost predicate DraftReplays(l: Layout, t: Tools, draft: Draft) {
    Prepared(l, t, draft.body) == Ok(draft.chunk) && draft.chunk.tokenCount <= MaxTokens
  }

  ghost predicate AllReplay(l: Layout, t: Tools, chunks: seq<ChunkContent>) {
    forall i :: 0 <= i < |chunks| ==> Replays(l, t, chunks[i])
  }

  ghost predicate StateReplays(l: Layout, t: Tools, s: State) {
    AllReplay(l, t, s.result) && (s.current.Some? ==> DraftReplays(l, t, s.current.value))
  }

  ghost predicate Solid(l: Layout, fragments: seq<Fragment>) {
    forall i :: 0 <= i < |fragments| ==> CleanStretch(l, fragments[i].contribution)
  }

  /** A body of whole kept parts that refining would keep whole. */
  ghost predicate GoodBody(l: Layout, body: Body) {
    && body.fragments != []
    && (forall i :: 0 <= i < |body.fragments| ==> WholeFragment(l, body.fragments[i]))
    && WholeRow(l, body) && !LosesText(l, body)
  }

  ghost predicate GoodPiece(l: Layout, piece: Piece) {
    forall i :: 0 <= i < |PieceAtoms(piece)| ==> GoodBody(l, PieceAtoms(piece)[i])
  }

  ghost predicate GoodPieces(l: Layout, pieces: seq<Piece>) {
    forall i :: 0 <= i < |pieces| ==> GoodPiece(l, pieces[i])
  }

  /** Kept parts of primary units lie between clean cuts of well-nested units. */
  ghost predicate CleanLayout(l: Layout) {
    forall u :: 0 <= u < |l.units| && l.Indexed(u) ==> CleanStretch(l, Contribution(u, l.Kept(u).value))
  }

  /** The characters the state holds are those the profile indexes, in order. */
  ghost predicate Conserves(l: Layout, s: State) {
    && AllCells(Held(s)) == IndexedCells(l)
    && GoodPieces(l, s.pending)
    && Solid(l, OpenFragments(s.current))
    && forall i :: 0 <= i < |s.result| ==> Solid(l, s.result[i].fragments)
  }

  // ---- The turns

  lemma {:induction false} SettleHolds(l: Layout, t: Tools, pending: seq<Piece>, result: seq<ChunkContent>, draft: Draft)
    requires AllReplay(l, t, result) && DraftReplays(l, t, draft)
    ensures StateReplays(l, t, Settle(pending, result, draft))
    ensures Held(Settle(pending, result, draft))
         == ResultContributions(result) + Contributions(draft.body.fragments) + Contributions(PendingFragments(pending))
  {
    hide Prepared, ChunkContributions;
    PreparedHolds(l, t, draft.body);
    assert Body(draft.body.fragments, draft.body.windows) == draft.body;
    if draft.chunk.tokenCount >= TargetTokens {
      ResultThen(result, draft.chunk);
      assert Contributions([]) == [];
    }
  }

  /** A body of whole kept parts lies between clean cuts. */
  lemma {:induction false} GoodIsSolid(l: Layout, fragments: seq<Fragment>)
    requires CleanLayout(l) && forall i :: 0 <= i < |fragments| ==> WholeFragment(l, fragments[i])
    ensures Solid(l, fragments)
  {
    hide CleanStretch;
    forall i | 0 <= i < |fragments| ensures CleanStretch(l, fragments[i].contribution) {
      assert WholeFragment(l, fragments[i]);
      assert Contribution(fragments[i].contribution.unit, l.Kept(fragments[i].contribution.unit).value) == fragments[i].contribution;
      assert CleanStretch(l, Contribution(fragments[i].contribution.unit, l.Kept(fragments[i].contribution.unit).value));
    }
  }

  lemma {:induction false} BodiesWhole(l: Layout, bodies: seq<Body>, n: nat)
    requires n <= |bodies| && forall i :: 0 <= i < |bodies| ==> GoodBody(l, bodies[i])
    ensures forall i :: 0 <= i < |BodiesFragments(bodies, n)| ==> WholeFragment(l, BodiesFragments(bodies, n)[i])
  {
    hide WholeFragment, WholeRow, LosesText;
    if n > 0 {
      BodiesWhole(l, bodies, n - 1);
      assert GoodBody(l, bodies[n - 1]);
    }
  }

  lemma {:induction false} PieceSolid(l: Layout, piece: Piece)
    requires CleanLayout(l) && GoodPiece(l, piece)
    ensures Solid(l, BodyOf(piece).fragments)
  {
    hide CleanLayout, GoodBody, WholeFragment;
    BodyHolds(piece);
    BodiesWhole(l, PieceAtoms(piece), |PieceAtoms(piece)|);
    GoodIsSolid(l, BodyOf(piece).fragments);
  }

  lemma {:induction false} SettleConserves(l: Layout, t: Tools, s: State, rest: seq<Piece>, result: seq<ChunkContent>, draft: Draft)
    requires AllReplay(l, t, result) && DraftReplays(l, t, draft)
    requires AllCells(ResultContributions(result) + Contributions(draft.body.fragments) + Contributions(PendingFragments(rest))) == IndexedCells(l)
    requires GoodPieces(l, rest) && Solid(l, draft.body.fragments)
    requires forall i :: 0 <= i < |result| ==> Solid(l, result[i].fragments)
    ensures Conserves(l, Settle(rest, result, draft))
  {
    hide Prepared, Held, GoodPieces;
    SettleHolds(l, t, rest, result, draft);
    PreparedHolds(l, t, draft.body);
  }

  /** The turn that grows the open draft by the next piece. */
  lemma {:induction false} GrowTurn(l: Layout, t: Tools, s: State, grown: Draft)
    requires s.pending != [] && s.current.Some?
    requires StateReplays(l, t, s)
    requires Grown(l, t, s.current.value.body, BodyOf(s.pending[0])) == Ok(Some(grown))
    ensures StateReplays(l, t, Settle(s.pending[1..], s.result, grown))
    ensures CleanLayout(l) && Conserves(l, s) ==> Conserves(l, Settle(s.pending[1..], s.result, grown))
  {
    hide Prepared, Compatible, CleanLayout, GoodPiece, ChunkContributions, AllCells, IndexedCells;
    var piece, rest := s.pending[0], s.pending[1..];
    assert DraftReplays(l, t, grown);
    SettleHolds(l, t, rest, s.result, grown);
    if CleanLayout(l) && Conserves(l, s) {
      assert s.pending == [piece] + rest;
      FirstFragments(piece, rest);
      ContributionsConcat(BodyOf(piece).fragments, PendingFragments(rest));
      ContributionsConcat(s.current.value.body.fragments, BodyOf(piece).fragments);
      Associative(ResultContributions(s.result) + Contributions(s.current.value.body.fragments),
                  Contributions(BodyOf(piece).fragments), Contributions(PendingFragments(rest)));
      Associative(ResultContributions(s.result), Contributions(s.current.value.body.fragments), Contributions(BodyOf(piece).fragments));
      PieceSolid(l, piece);
      SettleConserves(l, t, s, rest, s.result, grown);
    }
  }

  lemma {:induction false} CloseTurn(l: Layout, t: Tools, s: State)
    requires StateReplays(l, t, s)
    ensures StateReplays(l, t, Closed(s))
    ensures Held(Closed(s)) == Held(s)
    ensures Conserves(l, s) ==> Conserves(l, Closed(s))
  {
    hide Prepared, ChunkContributions, GoodPieces, AllCells, IndexedCells;
    if s.current.Some? {
      PreparedHolds(l, t, s.current.value.body);
      assert Body(s.current.value.body.fragments, s.current.value.body.windows) == s.current.value.body;
      ResultThen(s.result, s.current.value.chunk);
      assert Contributions([]) == [];
    }
  }

  lemma {:induction false} HeldUnopened(s: State)
    requires s.current.None?
    ensures Held(s) == ResultContributions(s.result) + Contributions(PendingFragments(s.pending))
  {
    hide ChunkContributions, PendingFragments;
    assert Contributions(OpenFragments(s.current)) == [];
    assert ResultContributions(s.result) + [] == ResultContributions(s.result);
  }

  /** The turn that opens a draft of the next piece alone. */
  lemma {:induction false} OpenTurn(l: Layout, t: Tools, s: State, chunk: ChunkContent)
    requires s.pending != [] && s.current.None?
    requires StateReplays(l, t, s)
    requires Prepared(l, t, BodyOf(s.pending[0])) == Ok(chunk) && chunk.tokenCount <= MaxTokens
    ensures StateReplays(l, t, Settle(s.pending[1..], s.result, Draft(BodyOf(s.pending[0]), chunk)))
    ensures CleanLayout(l) && Conserves(l, s) ==>
              Conserves(l, Settle(s.pending[1..], s.result, Draft(BodyOf(s.pending[0]), chunk)))
  {
    hide Prepared, CleanLayout, GoodPiece, ChunkContributions, AllCells, IndexedCells;
    var piece, rest := s.pending[0], s.pending[1..];
    var draft := Draft(BodyOf(piece), chunk);
    SettleHolds(l, t, rest, s.result, draft);
    if CleanLayout(l) && Conserves(l, s) {
      assert s.pending == [piece] + rest;
      FirstFragments(piece, rest);
      ContributionsConcat(BodyOf(piece).fragments, PendingFragments(rest));
      HeldUnopened(s);
      Associative(ResultContributions(s.result), Contributions(BodyOf(piece).fragments), Contributions(PendingFragments(rest)));
      PieceSolid(l, piece);
      SettleConserves(l, t, s, rest, s.result, draft);
    }
  }

  /** The turn that puts smaller bodies in the place of the next piece. */
  lemma {:induction false} RequeueTurn(l: Layout, t: Tools, s: State, bodies: seq<Body>)
    requires s.pending != []
    requires BodiesWeight(bodies, |bodies|) < PieceWeight(s.pending[0])
    ensures Weight(Requeued(bodies, s.pending[1..])) < Weight(s.pending)
    ensures
      && Conserves(l, s) && BodiesFragments(bodies, |bodies|) == BodyOf(s.pending[0]).fragments
      && (forall i :: 0 <= i < |bodies| ==> GoodBody(l, bodies[i]))
      ==> Conserves(l, State(Requeued(bodies, s.pending[1..]), s.current, s.result))
  {
    hide ChunkContributions, AllCells, IndexedCells, BodiesWeight, PendingWeight, PieceWeight, PendingFragments, GoodBody;
    var piece, rest := s.pending[0], s.pending[1..];
    assert s.pending == [piece] + rest;
    FirstWeight(piece, rest);
    RequeuedWeight(bodies, rest);
    FirstFragments(piece, rest);
    RequeuedFragments(bodies, rest);
  }

  /** The bodies refining returns are again whole kept parts. */
  lemma {:induction false} RefinedGood(l: Layout, atom: Body)
    requires GoodBody(l, atom) && Refined(l, atom).Ok? && Refined(l, atom).value.Some?
    ensures
      var bodies := Refined(l, atom).value.value;
      && BodiesFragments(bodies, |bodies|) == atom.fragments
      && forall i :: 0 <= i < |bodies| ==> GoodBody(l, bodies[i])
  {
    hide Refined, WholeFragment, InColumnOrder, l.RowCells;
    var bodies := Refined(l, atom).value.value;
    RefinedConservesExactly(l, atom);
    RefinedNarrow(l, atom);
    forall i | 0 <= i < |bodies| ensures GoodBody(l, bodies[i]) {
      forall k | 0 <= k < |bodies[i].fragments| ensures WholeFragment(l, bodies[i].fragments[k]) {
        var p := BodyAmong(bodies, i, k, |bodies|);
        assert WholeFragment(l, atom.fragments[p]);
      }
    }
  }

  lemma {:induction false} BodyAmong(bodies: seq<Body>, i: nat, k: nat, n: nat) returns (p: nat)
    requires i < n <= |bodies| && k < |bodies[i].fragments|
    ensures p < |BodiesFragments(bodies, n)| && BodiesFragments(bodies, n)[p] == bodies[i].fragments[k]
  {
    if i < n - 1 {
      p := BodyAmong(bodies, i, k, n - 1);
    } else {
      p := |BodiesFragments(bodies, n - 1)| + k;
    }
  }

  /** The turn that splits the next piece's one unit. */
  lemma {:induction false} SplitTurn(l: Layout, t: Tools, s: State, pieces: seq<ChunkContent>)
    requires s.pending != [] && s.current.None? && s.pending[0].Atom? && |s.pending[0].atom.fragments| == 1
    requires CleanLayout(l) && Conserves(l, s)
    requires
      var atom := s.pending[0].atom;
      var c := atom.fragments[0].contribution;
      && c.unit < |l.units|
      && CutFrom(l, t, atom, l.Nearest(c.unit, {Code}).Some?, c.range.start, c.range.end, pieces)
      && EndOf(pieces, c.range.start) >= c.range.end
    ensures Conserves(l, State(s.pending[1..], None, s.result + pieces))
  {
    hide CutFrom, CleanStretch, PieceHolds, EndOf, l.Nearest, GoodPiece, CleanLayout, Held, AllCells, ChunkContributions, PendingFragments;
    var atom := s.pending[0].atom;
    var c := atom.fragments[0].contribution;
    AtomStretch(l, atom, s.pending[0]);
    SplitConserves(l, t, atom, l.Nearest(c.unit, {Code}).Some?, pieces);
    PiecesSolid(l, t, c, pieces);
    SplitHolds(s, pieces);
  }

  lemma {:induction false} SplitHolds(s: State, pieces: seq<ChunkContent>)
    requires s.pending != [] && s.current.None? && s.pending[0].Atom? && |s.pending[0].atom.fragments| == 1
    requires AllCells(ResultContributions(pieces)) == CellsOf(s.pending[0].atom.fragments[0].contribution)
    ensures AllCells(Held(State(s.pending[1..], None, s.result + pieces))) == AllCells(Held(s))
  {
    hide CellsOf, ChunkContributions, PendingFragments, AllCells;
    var piece, rest := s.pending[0], s.pending[1..];
    var own := piece.atom.fragments;
    assert s.pending == [piece] + rest;
    FirstFragments(piece, rest);
    ContributionsConcat(own, PendingFragments(rest));
    SplitCellsKept(s.result, own, pieces, Contributions(PendingFragments(rest)), own[0].contribution);
    HeldUnopened(s);
    HeldUnopened(State(rest, None, s.result + pieces));
    ChunkContributionsThen(s.result, pieces, |pieces|);
  }

  lemma {:induction false} AtomStretch(l: Layout, atom: Body, piece: Piece)
    requires CleanLayout(l) && piece == Atom(atom) && GoodPiece(l, piece) && |atom.fragments| == 1
    ensures CleanStretch(l, atom.fragments[0].contribution)
  {
    hide CleanStretch, WholeRow, LosesText;
    assert GoodBody(l, PieceAtoms(piece)[0]);
    var f := atom.fragments[0];
    assert WholeFragment(l, f);
    assert Contribution(f.contribution.unit, l.Kept(f.contribution.unit).value) == f.contribution;
  }

  lemma {:induction false} PiecesSolid(l: Layout, t: Tools, c: Contribution, pieces: seq<ChunkContent>)
    requires c.unit < |l.units| && forall i :: 0 <= i < |pieces| ==> PieceHolds(l, t, c, pieces[i])
    ensures forall i :: 0 <= i < |pieces| ==> Solid(l, pieces[i].fragments)
  {
    hide Prepared, Balanced, Word, PieceRanges;
    forall i | 0 <= i < |pieces| ensures Solid(l, pieces[i].fragments) {
      assert PieceHolds(l, t, c, pieces[i]);
    }
  }

  /** In the place of one fragment, pieces with its characters. */
  lemma {:induction false} SplitCellsKept(result: seq<ChunkContent>, own: seq<Fragment>, pieces: seq<ChunkContent>, rest: seq<Contribution>, c: Contribution)
    requires |own| == 1 && own[0].contribution == c
    requires AllCells(ResultContributions(pieces)) == CellsOf(c)
    ensures AllCells(ResultContributions(result) + ResultContributions(pieces) + rest)
         == AllCells(ResultContributions(result) + (Contributions(own) + rest))
  {
    hide CellsOf, ChunkContributions;
    assert Contributions(own) == [c];
    CellsOne(c);
    CellsConcat(ResultContributions(result) + ResultContributions(pieces), rest);
    CellsConcat(ResultContributions(result), ResultContributions(pieces));
    CellsConcat(ResultContributions(result), [c] + rest);
    CellsConcat([c], rest);
    Associative(AllCells(ResultContributions(result)), CellsOf(c), AllCells(rest));
  }
}
