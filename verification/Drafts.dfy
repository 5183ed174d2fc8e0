/** The packing loop, the joining of small drafts and the numbering of parts. */
module Drafts {
  import opened Common
  import opened Ranges
  import opened Units
  import opened Layouts
  import opened Preparation
  import opened Splitting
  import opened Conservation
  import opened Coverage
  import opened Refining
  import opened Atoms
  import opened Packing
  import opened Sharing
  import opened Tables
  import opened TableTurns
  import opened TableStarts
  import opened Absorbing
  import Brackets

  /** One turn of the packing loop: the next piece is placed, or smaller pieces take its place. */
  method Turn(l: Layout, t: Tools, s: State) returns (r: Result<State>)
    requires s.pending != [] && StateReplays(l, t, s)
    ensures r == Stepped(l, t, s)
    ensures r.Ok? ==> StateReplays(l, t, r.value)
    ensures r.Ok? ==> Weight(r.value.pending) < Weight(s.pending)
    ensures r.Ok? && CleanLayout(l) && Conserves(l, s) ==> Conserves(l, r.value)
    ensures r.Ok? ==> KeepsTables(l, s, r.value)
    ensures r.Ok? && AllNear(l, t, s) ==> AllNear(l, t, r.value)
  {
    hide Prepared, Grown, CleanLayout, Conserves, StateReplays, BodyOf, Weight, Refined, Tabled, TablesRegular, AllNear;
    if AllNear(l, t, s) && Stepped(l, t, s).Ok? {
      SteppedNear(l, t, s);
    }
    var piece, rest := s.pending[0], s.pending[1..];
    var body := BodyOf(piece);
    assert s.pending == [piece] + rest;
    DropFirst(piece, rest);
    if s.current.Some? {
      var grown := Grown(l, t, s.current.value.body, body);
      if grown.Err? {
        return Err(grown.error);
      }
      if grown.value.Some? {
        GrowTurn(l, t, s, grown.value.value);
        if TablesRegular(l) && CleanLayout(l) && Conserves(l, s) && Tabled(l, s) {
          GrowTabled(l, t, s, grown.value.value);
        }
        return Ok(Settle(rest, s.result, grown.value.value));
      }
      if piece.Idea? {
        var whole := Prepare(l, t, body);
        if whole.Err? {
          return Err(whole.error);
        }
        if whole.value.tokenCount > MaxTokens {
          // Too large for any chunk: its atoms may still join the open draft.
          r := Breaks(l, t, s, piece.atoms);
          return;
        }
      }
    }
    CloseTurn(l, t, s);
    if Tabled(l, s) {
      CloseTabled(l, t, s);
    }
    r := Place(l, t, Closed(s));
  }

  /** The atoms of an idea take its place. */
  method Breaks(l: Layout, t: Tools, s: State, atoms: seq<Body>) returns (r: Result<State>)
    requires s.pending != [] && s.pending[0] == Idea(atoms) && StateReplays(l, t, s)
    ensures r == Ok(State(Requeued(atoms, s.pending[1..]), s.current, s.result))
    ensures StateReplays(l, t, r.value)
    ensures Weight(r.value.pending) < Weight(s.pending)
    ensures Conserves(l, s) ==> Conserves(l, r.value)
    ensures KeepsTables(l, s, r.value)
  {
    hide Prepared, PendingWeight, BodiesWeight, Held, Tabled, TablesRegular;
    if Tabled(l, s) {
      BreakTabled(l, s);
    }
    RequeueTurn(l, t, s, atoms);
    BodiedHolds(atoms, |atoms|);
    if Conserves(l, s) {
      assert GoodPiece(l, s.pending[0]) && PieceAtoms(s.pending[0]) == atoms;
    }
    r := Ok(State(Requeued(atoms, s.pending[1..]), s.current, s.result));
  }

  /** With no draft open, the next piece opens one, or is broken, refined or split. */
  method Place(l: Layout, t: Tools, s: State) returns (r: Result<State>)
    requires s.pending != [] && s.current.None? && StateReplays(l, t, s)
    ensures r == Opened(l, t, s)
    ensures r.Ok? ==> StateReplays(l, t, r.value)
    ensures r.Ok? ==> Weight(r.value.pending) < Weight(s.pending)
    ensures r.Ok? && CleanLayout(l) && Conserves(l, s) ==> Conserves(l, r.value)
    ensures r.Ok? ==> KeepsTables(l, s, r.value)
  {
    hide Prepared, CleanLayout, Conserves, StateReplays, BodyOf, Weight, Refined, Tabled, TablesRegular;
    var piece, rest := s.pending[0], s.pending[1..];
    var body := BodyOf(piece);
    assert s.pending == [piece] + rest;
    DropFirst(piece, rest);
    var prepared := Prepare(l, t, body);
    if prepared.Err? {
      return Err(prepared.error);
    }
    if prepared.value.tokenCount <= MaxTokens {
      OpenTurn(l, t, s, prepared.value);
      if Tabled(l, s) {
        OpenTabled(l, t, s, prepared.value);
      }
      return Ok(Settle(rest, s.result, Draft(body, prepared.value)));
    }
    match piece {
      case Idea(atoms) => r := Breaks(l, t, s, atoms);
      case Atom(atom) =>
        PreparedHolds(l, t, body);
        AtomBody(atom);
        r := Shrink(l, t, s, atom);
    }
  }

  lemma {:induction false} AtomBody(atom: Body)
    ensures BodyOf(Atom(atom)) == atom
  {
  }

  /** An oversized atom is refined, or its one unit split. */
  method Shrink(l: Layout, t: Tools, s: State, atom: Body) returns (r: Result<State>)
    requires s.pending != [] && s.current.None? && s.pending[0] == Atom(atom) && StateReplays(l, t, s)
    requires atom.fragments != []
    ensures r == Shrunk(l, t, s, atom)
    ensures r.Ok? ==> StateReplays(l, t, r.value)
    ensures r.Ok? ==> Weight(r.value.pending) < Weight(s.pending)
    ensures r.Ok? && CleanLayout(l) && Conserves(l, s) ==> Conserves(l, r.value)
    ensures r.Ok? ==> KeepsTables(l, s, r.value)
  {
    hide Prepared, CleanLayout, Weight, BodiesWeight, Held, GoodBody, FragmentBodies, Columns, CutFrom, EndOf, Tabled, TablesRegular;
    var rest := s.pending[1..];
    assert s.pending == [Atom(atom)] + rest;
    var refined := Refined(l, atom);
    if refined.Err? {
      return Err(refined.error);
    }
    match refined.value {
      case Some(bodies) =>
        RefinedSmaller(l, atom);
        RequeueTurn(l, t, s, bodies);
        if Conserves(l, s) {
          assert GoodPiece(l, s.pending[0]) && PieceAtoms(s.pending[0])[0] == atom;
          RefinedGood(l, atom);
          GoodIsWhole(l, atom);
        }
        if TablesRegular(l) && Conserves(l, s) && Tabled(l, s) {
          RefineTabled(l, s, bodies);
        }
        r := Ok(State(Requeued(bodies, rest), None, s.result));
      case None =>
        DropFirst(Atom(atom), rest);
        var pieces := SplitUnit(l, t, atom);
        if pieces.Err? {
          return Err(pieces.error);
        }
        PiecesReplay(l, t, atom, pieces.value);
        if CleanLayout(l) && Conserves(l, s) {
          SplitTurn(l, t, s, pieces.value);
        }
        if Tabled(l, s) {
          SplitTabled(l, t, s, l.Nearest(atom.fragments[0].contribution.unit, {Code}).Some?, pieces.value);
        }
        r := Ok(State(rest, None, s.result + pieces.value));
    }
  }

  lemma {:induction false} GoodIsWhole(l: Layout, body: Body)
    requires GoodBody(l, body)
    ensures WholeRow(l, body)
  {
  }

  lemma {:induction false} PiecesReplay(l: Layout, t: Tools, atom: Body, pieces: seq<ChunkContent>)
    requires |atom.fragments| == 1
    requires
      var c := atom.fragments[0].contribution;
      && c.unit < |l.units|
      && CutFrom(l, t, atom, l.Nearest(c.unit, {Code}).Some?, c.range.start, c.range.end, pieces)
    ensures AllReplay(l, t, pieces)
  {
    hide Prepared, CutBy;
    var c := atom.fragments[0].contribution;
    var code := l.Nearest(c.unit, {Code}).Some?;
    forall i | 0 <= i < |pieces| ensures Replays(l, t, pieces[i]) {
      assert CutAt(l, t, atom, code, EndOf(pieces[..i], c.range.start), c.range.end, pieces[i]);
      CutAdvances(l, t, atom, code, EndOf(pieces[..i], c.range.start), c.range.end, pieces[i]);
    }
  }

  /** `absorb_small`: a draft under the minimum joins the one before it, when the two may share a chunk. */
  method AbsorbSmall(l: Layout, t: Tools, drafts: seq<ChunkContent>, minTokens: nat) returns (r: Result<seq<ChunkContent>>)
    requires AllReplay(l, t, drafts)
    ensures r == Absorbed(l, t, drafts, minTokens, |drafts|)
    ensures r.Ok? ==> AllReplay(l, t, r.value)
    ensures r.Ok? ==> ResultContributions(r.value) == ResultContributions(drafts)
    ensures r.Ok? && (forall i :: 0 <= i < |drafts| ==> Solid(l, drafts[i].fragments)) ==>
              forall i :: 0 <= i < |r.value| ==> Solid(l, r.value[i].fragments)
  {
    hide Prepared, Grown, ChunkContributions, Replays, CleanStretch, Absorbed;
    var result: seq<ChunkContent> := [];
    NoChunks();
    AbsorbStart(l, t, drafts, minTokens);
    assert drafts[..0] == [];
    for i := 0 to |drafts|
      invariant AllReplay(l, t, result)
      invariant Absorbed(l, t, drafts, minTokens, i) == Ok(result)
      invariant ResultContributions(result) == ResultContributions(drafts[..i])
      invariant (forall k :: 0 <= k < |drafts| ==> Solid(l, drafts[k].fragments)) ==>
                  forall k :: 0 <= k < |result| ==> Solid(l, result[k].fragments)
    {
      var draft := drafts[i];
      AbsorbNext(l, t, drafts, minTokens, i);
      assert drafts[..i + 1] == drafts[..i] + [draft];
      ResultThen(drafts[..i], draft);
      var joins := false;
      if draft.tokenCount < minTokens && result != [] {
        var last := |result| - 1;
        var joined := Grown(l, t, Body(result[last].fragments, result[last].windows), Body(draft.fragments, draft.windows));
        if joined.Err? {
          AbsorbRefused(l, t, drafts, minTokens, i);
          return Err(joined.error);
        }
        if joined.value.Some? {
          JoinTurn(l, t, result, draft, joined.value.value);
          result := result[last := joined.value.value.chunk];
          joins := true;
        }
      }
      if !joins {
        ResultThen(result, draft);
        result := result + [draft];
      }
    }
    assert drafts[..|drafts|] == drafts;
    r := Ok(result);
  }

  lemma {:induction false} AbsorbStart(l: Layout, t: Tools, drafts: seq<ChunkContent>, minTokens: nat)
    ensures Absorbed(l, t, drafts, minTokens, 0) == Ok([])
  {
  }

  lemma {:induction false} AbsorbNext(l: Layout, t: Tools, drafts: seq<ChunkContent>, minTokens: nat, n: nat)
    requires n < |drafts| && Absorbed(l, t, drafts, minTokens, n).Ok?
    ensures Absorbed(l, t, drafts, minTokens, n + 1)
         == Absorbs(l, t, Absorbed(l, t, drafts, minTokens, n).value, drafts[n], minTokens)
  {
    hide Absorbs;
  }

  lemma {:induction false} NoChunks()
    ensures ResultContributions([]) == []
  {
  }

  lemma {:induction false} JoinTurn(l: Layout, t: Tools, result: seq<ChunkContent>, draft: ChunkContent, joined: Draft)
    requires result != [] && AllReplay(l, t, result)
    requires
      var last := result[|result| - 1];
      Grown(l, t, Body(last.fragments, last.windows), Body(draft.fragments, draft.windows)) == Ok(Some(joined))
    ensures
      var after := result[|result| - 1 := joined.chunk];
      && AllReplay(l, t, after)
      && ResultContributions(after) == ResultContributions(result) + Contributions(draft.fragments)
      && joined.chunk.fragments == result[|result| - 1].fragments + draft.fragments
  {
    hide Prepared, Compatible, ChunkContributions;
    PreparedHolds(l, t, joined.body);
    assert Body(joined.body.fragments, joined.body.windows) == joined.body;
    var front, last := result[..|result| - 1], result[|result| - 1];
    assert result == front + [last] && result[|result| - 1 := joined.chunk] == front + [joined.chunk];
    ResultThen(front, last);
    ResultThen(front, joined.chunk);
    ContributionsConcat(last.fragments, draft.fragments);
    Brackets.Associative(ResultContributions(front), Contributions(last.fragments), Contributions(draft.fragments));
  }


  // ---- Numbering

  /** Ordinals count the ranges of each unit so far. */
  ghost predicate Counts(ordinals: map<nat, nat>, cs: seq<Contribution>) {
    forall unit: nat :: (if unit in ordinals then ordinals[unit] else 0) == |RangesIn(cs, unit, |cs|)|
  }

  /** Fragments that carry how many earlier ones their unit has, those before them included. */
  ghost predicate NumberedAfter(before: seq<Contribution>, fragments: seq<Fragment>) {
    var all := before + Contributions(fragments);
    forall i :: 0 <= i < |fragments| ==>
      fragments[i].partOrdinal == |RangesIn(all, fragments[i].contribution.unit, |before| + i)|
  }

  lemma {:induction false} CountsThen(ordinals: map<nat, nat>, cs: seq<Contribution>, c: Contribution)
    requires Counts(ordinals, cs)
    ensures
      var next := (if c.unit in ordinals then ordinals[c.unit] else 0) + 1;
      Counts(ordinals[c.unit := next], cs + [c])
  {
    forall unit: nat ensures |RangesIn(cs + [c], unit, |cs| + 1)| == |RangesIn(cs, unit, |cs|)| + if c.unit == unit then 1 else 0 {
      RangesInThen(cs, c, unit);
    }
  }

  lemma {:induction false} NumberedThen(before: seq<Contribution>, fragments: seq<Fragment>, f: Fragment)
    requires NumberedAfter(before, fragments)
    requires f.partOrdinal == |RangesIn(before + Contributions(fragments), f.contribution.unit, |before| + |fragments|)|
    ensures NumberedAfter(before, fragments + [f])
  {
    ContributionsConcat(fragments, [f]);
    var all := before + Contributions(fragments);
    assert before + Contributions(fragments + [f]) == all + [f.contribution];
    forall i | 0 <= i < |fragments| + 1
      ensures (fragments + [f])[i].partOrdinal
           == |RangesIn(all + [f.contribution], (fragments + [f])[i].contribution.unit, |before| + i)|
    {
      RangesInPrefix(all, [f.contribution], (fragments + [f])[i].contribution.unit, |before| + i);
    }
  }

  /** The inner numbering loop: one chunk's fragments. */
  method NumberFragments(fragments: seq<Fragment>, ordinals: map<nat, nat>, ghost before: seq<Contribution>)
    returns (numbered: seq<Fragment>, counts: map<nat, nat>)
    requires Counts(ordinals, before)
    ensures Contributions(numbered) == Contributions(fragments)
    ensures NumberedAfter(before, numbered)
    ensures Counts(counts, before + Contributions(fragments))
  {
    hide RangesIn;
    numbered, counts := [], ordinals;
    assert before + Contributions([]) == before;
    for i := 0 to |fragments|
      invariant Contributions(numbered) == Contributions(fragments[..i])
      invariant NumberedAfter(before, numbered)
      invariant Counts(counts, before + Contributions(numbered))
    {
      var c := fragments[i].contribution;
      var ordinal := if c.unit in counts then counts[c.unit] else 0;
      var f := Fragment(c, ordinal);
      assert fragments[..i + 1] == fragments[..i] + [fragments[i]];
      ContributionsConcat(fragments[..i], [fragments[i]]);
      ContributionsConcat(numbered, [f]);
      assert before + Contributions(numbered + [f]) == (before + Contributions(numbered)) + [c];
      NumberedThen(before, numbered, f);
      CountsThen(counts, before + Contributions(numbered), c);
      numbered := numbered + [f];
      counts := counts[c.unit := ordinal + 1];
    }
    assert fragments[..|fragments|] == fragments;
  }

  lemma {:induction false} NumberedJoins(a: seq<Fragment>, b: seq<Fragment>)
    requires Numbered(a) && NumberedAfter(Contributions(a), b)
    ensures Numbered(a + b)
  {
    hide RangesIn;
    ContributionsConcat(a, b);
    forall i | 0 <= i < |a + b|
      ensures (a + b)[i].partOrdinal == |RangesIn(Contributions(a + b), (a + b)[i].contribution.unit, i)|
    {
      if i < |a| {
        RangesInPrefix(Contributions(a), Contributions(b), (a + b)[i].contribution.unit, i);
      } else {
        assert (a + b)[i] == b[i - |a|];
      }
    }
  }

  /** A chunk that differs from another only in its fragments' ordinals. */
  ghost predicate SameButOrdinals(a: ChunkContent, b: ChunkContent) {
    b == a.(fragments := b.fragments) && Contributions(b.fragments) == Contributions(a.fragments)
  }

  /** Preparing reads no ordinal: a chunk's body makes the same chunk however its parts are numbered. */
  lemma {:induction false} OrdinalsDoNotMatter(l: Layout, t: Tools, a: ChunkContent, b: ChunkContent)
    requires Replays(l, t, a) && SameButOrdinals(a, b)
    ensures Replays(l, t, b)
  {
    hide BodyParts, Texts, BodyTexts, Placed, ContainerIds, l.SectionOf, l.Owner;
  }

  lemma {:induction false} AllFragmentsThen(chunks: seq<ChunkContent>, chunk: ChunkContent)
    ensures AllFragments(chunks + [chunk], |chunks| + 1) == AllFragments(chunks, |chunks|) + chunk.fragments
  {
    AllFragmentsPrefix(chunks, [chunk], |chunks|);
  }

  lemma {:induction false} AllFragmentsPrefix(a: seq<ChunkContent>, b: seq<ChunkContent>, n: nat)
    requires n <= |a|
    ensures AllFragments(a + b, n) == AllFragments(a, n)
  {
    if n > 0 {
      AllFragmentsPrefix(a, b, n - 1);
    }
  }

  lemma {:induction false} FragmentsContribute(chunks: seq<ChunkContent>, n: nat)
    requires n <= |chunks|
    ensures Contributions(AllFragments(chunks, n)) == ChunkContributions(chunks, n)
  {
    if n > 0 {
      FragmentsContribute(chunks, n - 1);
      ContributionsConcat(AllFragments(chunks, n - 1), chunks[n - 1].fragments);
    }
  }

  /** The numbering loop: each fragment gets how many earlier ones its unit has across the document. */
  method NumberParts(chunks: seq<ChunkContent>) returns (numbered: seq<ChunkContent>)
    ensures |numbered| == |chunks|
    ensures forall i :: 0 <= i < |chunks| ==> SameButOrdinals(chunks[i], numbered[i])
    ensures Numbered(AllFragments(numbered, |numbered|))
    ensures ResultContributions(numbered) == ResultContributions(chunks)
  {
    hide Numbered, NumberedAfter, Counts, ChunkContributions, AllFragments;
    numbered := [];
    var ordinals: map<nat, nat> := map[];
    NothingNumbered();
    NoChunks();
    assert chunks[..0] == [];
    for i := 0 to |chunks|
      invariant |numbered| == i
      invariant forall k :: 0 <= k < i ==> SameButOrdinals(chunks[k], numbered[k])
      invariant Numbered(AllFragments(numbered, i))
      invariant ResultContributions(numbered) == ResultContributions(chunks[..i])
      invariant Counts(ordinals, ResultContributions(numbered))
    {
      FragmentsContribute(numbered, i);
      var fragments, counts := NumberFragments(chunks[i].fragments, ordinals, ResultContributions(numbered));
      var chunk := chunks[i].(fragments := fragments);
      AllFragmentsThen(numbered, chunk);
      NumberedJoins(AllFragments(numbered, i), fragments);
      ResultThen(numbered, chunk);
      assert chunks[..i + 1] == chunks[..i] + [chunks[i]];
      ResultThen(chunks[..i], chunks[i]);
      numbered := numbered + [chunk];
      ordinals := counts;
    }
    assert chunks[..|chunks|] == chunks;
  }

  lemma {:induction false} NothingNumbered()
    ensures Numbered(AllFragments([], 0)) && Counts(map[], [])
  {
  }

  // ---- The whole

  lemma {:induction false} StartConserves(l: Layout, atoms: seq<Body>, pieces: seq<Piece>)
    requires AreAtoms(l, atoms) && RowsRegular(l)
    requires Contributions(BodiesFragments(atoms, |atoms|)) == KeptContributions(l, |l.units|)
    requires PendingAtoms(pieces, |pieces|) == atoms
    ensures Conserves(l, State(pieces, None, []))
  {
    hide IsAtom, RowsRegular, AllCells, KeptContributions, BodiesFragments, GoodPieces, PendingAtoms;
    NoChunks();
    assert Contributions([]) == [];
    assert Held(State(pieces, None, [])) == KeptContributions(l, |l.units|);
    PiecesAreGood(l, atoms, pieces);
  }

  lemma {:induction false} PiecesAreGood(l: Layout, atoms: seq<Body>, pieces: seq<Piece>)
    requires AreAtoms(l, atoms) && RowsRegular(l) && PendingAtoms(pieces, |pieces|) == atoms
    ensures GoodPieces(l, pieces)
  {
    hide IsAtom, RowsRegular, GoodBody;
    forall i | 0 <= i < |pieces| ensures GoodPiece(l, pieces[i]) {
      forall k | 0 <= k < |PieceAtoms(pieces[i])| ensures GoodBody(l, PieceAtoms(pieces[i])[k]) {
        var p := AtomAmong(pieces, i, k, |pieces|);
        AtomIsGood(l, atoms[p]);
      }
    }
  }

  lemma {:induction false} AtomIsGood(l: Layout, atom: Body)
    requires IsAtom(l, atom) && RowsRegular(l)
    ensures GoodBody(l, atom)
  {
    hide RowsRegular, LosesText, WholeRow, WholeFragment, SameGroup, l.Window;
    AtomRegular(l, atom);
  }

  lemma {:induction false} AtomAmong(pieces: seq<Piece>, i: nat, k: nat, n: nat) returns (p: nat)
    requires i < n <= |pieces| && k < |PieceAtoms(pieces[i])|
    ensures p < |PendingAtoms(pieces, n)| && PendingAtoms(pieces, n)[p] == PieceAtoms(pieces[i])[k]
  {
    if i < n - 1 {
      p := AtomAmong(pieces, i, k, n - 1);
    } else {
      p := |PendingAtoms(pieces, n - 1)| + k;
    }
  }

  lemma {:induction false} CleanIsKept(l: Layout)
    requires CleanLayout(l)
    ensures KeptParts(l)
  {
    forall u | 0 <= u < |l.units| && l.Indexed(u)
      ensures l.Kept(u).value.start < l.Kept(u).value.end && InBounds(l.Kept(u).value, l.units[u].text)
    {
      assert CleanStretch(l, Contribution(u, l.Kept(u).value));
    }
  }

  /** A finished run: numbered chunks that hold the indexed characters. */
  lemma {:induction false} FinishedExact(l: Layout, packed: seq<ChunkContent>, numbered: seq<ChunkContent>)
    requires AllCells(ResultContributions(packed)) == IndexedCells(l)
    requires forall i :: 0 <= i < |packed| ==> Solid(l, packed[i].fragments)
    requires |numbered| == |packed| && forall i :: 0 <= i < |packed| ==> SameButOrdinals(packed[i], numbered[i])
    requires Numbered(AllFragments(numbered, |numbered|))
    requires ResultContributions(numbered) == ResultContributions(packed)
    ensures Exact(l, AllFragments(numbered, |numbered|))
  {
    hide Numbered, AllCells, IndexedCells;
    FragmentsContribute(numbered, |numbered|);
    SolidHeld(l, packed, |packed|);
    var cs := Contributions(AllFragments(numbered, |numbered|));
    assert cs == ChunkContributions(packed, |packed|);
    assert forall i :: 0 <= i < |cs| ==> cs[i].range.start < cs[i].range.end;
  }

  /** The packing loop: turns until nothing is pending, and the draft left open finished. */
  method PackAll(l: Layout, t: Tools, pieces: seq<Piece>) returns (r: Result<seq<ChunkContent>>)
    ensures r == Packs(l, t, State(pieces, None, []))
    ensures r.Ok? ==> AllReplay(l, t, r.value)
    ensures r.Ok? && CleanLayout(l) && Conserves(l, State(pieces, None, [])) ==>
              && AllCells(ResultContributions(r.value)) == IndexedCells(l)
              && forall i :: 0 <= i < |r.value| ==> Solid(l, r.value[i].fragments)
    ensures r.Ok? && CleanLayout(l) && TablesRegular(l) && Conserves(l, State(pieces, None, [])) && Tabled(l, State(pieces, None, [])) ==>
              DraftsReady(l, r.value)
  {
    hide Prepared, Conserves, CleanLayout, AllReplay, AllCells, ChunkContributions, Weight, Tabled, TablesRegular, Solid, DraftsReady, Stepped;
    var s := State(pieces, None, []);
    ghost var conserves, tables := CleanLayout(l) && Conserves(l, s), TablesRegular(l) && Tabled(l, s);
    NothingReplays(l, t);
    while s.pending != []
      invariant StateReplays(l, t, s)
      invariant Packs(l, t, State(pieces, None, [])) == Packs(l, t, s)
      invariant conserves ==> Conserves(l, s)
      invariant conserves && tables ==> Tabled(l, s)
      decreases Weight(s.pending)
    {
      var next := Turn(l, t, s);
      if next.Err? {
        return Err(next.error);
      }
      s := next.value;
    }
    CloseTurn(l, t, s);
    if conserves {
      ClosedHolds(l, Closed(s));
      if tables {
        CloseTabled(l, t, s);
        ClosedReady(l, Closed(s));
      }
    }
    r := Ok(Closed(s).result);
  }

  /**
   * What table rows need to stay in order, all told before packing: regular tables, steps of one
   * table each, and, when small drafts are absorbed, even rows that do not clash.
   */
  ghost predicate PackedWell(l: Layout) {
    TablesRegular(l) && StepsOneTable(l) && (l.rules.minTokens.Some? ==> Absorbable(l))
  }

  /**
   * `build_drafts`. It ends for every counter. Every draft counts at most the maximum and is what
   * its own body makes; parts are numbered across the document. In a layout whose kept parts lie
   * between clean cuts and whose table rows are regular, the drafts hold every indexed character
   * exactly once and in order, and the coverage check accepts them. No draft holds text of two
   * sections, or by container of different containers. Where moreover no step holds
   * rows of two tables, and no absorbing can spoil rows, the drafts show their table rows in order.
   */
  method BuildDrafts(l: Layout, t: Tools) returns (r: Result<seq<ChunkContent>>)
    ensures
      match Built(l, t)
      case Err(error) => r == Err(error)
      case Ok(drafts) =>
        && r.Ok? && |r.value| == |drafts|
        && forall i :: 0 <= i < |drafts| ==> SameButOrdinals(drafts[i], r.value[i])
    ensures r.Ok? ==> AllReplay(l, t, r.value) && Numbered(AllFragments(r.value, |r.value|))
    ensures r.Ok? && CleanLayout(l) && RowsRegular(l) ==>
              && Exact(l, AllFragments(r.value, |r.value|))
              && ValidCoverage(l, r.value) == Ok(CoverageOf(l, Contributions(AllFragments(r.value, |r.value|)), |l.units|))
              && forall i :: 0 <= i < |r.value| ==> Solid(l, r.value[i].fragments)
    ensures r.Ok? && CleanLayout(l) && PackedWell(l) ==>
              forall i :: 0 <= i < |r.value| ==> DraftTabular(l, ResultBody(r.value[i]))
    ensures r.Ok? ==> forall i :: 0 <= i < |r.value| ==> OnePlace(l, r.value[i].fragments) && Labelled(l, r.value[i])
  {
    hide Prepared, Conserves, CleanLayout, RowsRegular, AreAtoms, AllReplay, AllCells, AllFragments, Numbered, Exact, ChunkContributions, Weight,
      Tabled, TablesRegular, DraftTabular, Solid, AtomsApart, StepsOneTable, DraftsReady, PackedWell, Absorbable, OnePlace, Labelled;
    var atoms := PackAtoms(l);
    if atoms.Err? {
      return Err(atoms.error);
    }
    var pieces := MakePieces(l, atoms.value);
    PiecesHoldAtoms(l, atoms.value);
    CleanKept(l);
    if PackedWell(l) {
      RowsAreRegular(l);
      StartTables(l, atoms.value);
    }
    if RowsRegular(l) {
      StartConserves(l, atoms.value, pieces);
    }
    var drafts := PackAll(l, t, pieces);
    if drafts.Err? {
      return Err(drafts.error);
    }
    var result := drafts.value;
    if l.rules.minTokens.Some? {
      var absorbed := AbsorbSmall(l, t, result, l.rules.minTokens.value);
      if absorbed.Err? {
        return Err(absorbed.error);
      }
      result := absorbed.value;
    }
    if CleanLayout(l) && PackedWell(l) {
      AbsorbedReady(l, t, drafts.value, result);
    }
    var numbered := NumberParts(result);
    NumberedReplay(l, t, result, numbered);
    BuiltNear(l, t);
    NumberedNear(l, result, numbered);
    AllLabelled(l, t, numbered);
    if CleanLayout(l) && RowsRegular(l) {
      FinishedExact(l, result, numbered);
      ExactCovers(l, numbered);
      NumberedSolid(l, result, numbered);
    }
    if CleanLayout(l) && PackedWell(l) {
      NumberedTabular(l, result, numbered);
    }
    r := Ok(numbered);
  }

  lemma {:induction false} CleanKept(l: Layout)
    ensures CleanLayout(l) ==> KeptParts(l)
    ensures PackedWell(l) ==> TablesRegular(l)
  {
    hide CleanLayout, KeptParts, TablesRegular, StepsOneTable, Absorbable;
    if CleanLayout(l) {
      CleanIsKept(l);
    }
  }

  /** Drafts that are ready, with small ones absorbed if rows do not clash, show their rows in order. */
  lemma {:induction false} AbsorbedReady(l: Layout, t: Tools, packed: seq<ChunkContent>, result: seq<ChunkContent>)
    requires PackedWell(l) && KeptParts(l) && DraftsReady(l, packed)
    requires match l.rules.minTokens
             case None => result == packed
             case Some(minTokens) => Absorbed(l, t, packed, minTokens, |packed|) == Ok(result)
    ensures forall i :: 0 <= i < |result| ==> DraftTabular(l, ResultBody(result[i]))
  {
    hide TablesRegular, StepsOneTable, Absorbable, DraftTabular, KeptParts, Absorbed, WholeRows, SharedExact, Solid, AllCells, IndexedCells, ChunkContributions;
    if l.rules.minTokens.Some? {
      AbsorbedTabular(l, t, packed, l.rules.minTokens.value, |packed|);
    }
  }

  lemma {:induction false} NothingReplays(l: Layout, t: Tools)
    ensures AllReplay(l, t, [])
  {
  }

  lemma {:induction false} NumberedReplay(l: Layout, t: Tools, packed: seq<ChunkContent>, numbered: seq<ChunkContent>)
    requires AllReplay(l, t, packed)
    requires |numbered| == |packed| && forall i :: 0 <= i < |packed| ==> SameButOrdinals(packed[i], numbered[i])
    ensures AllReplay(l, t, numbered)
  {
    hide Prepared;
    forall i | 0 <= i < |numbered| ensures Replays(l, t, numbered[i]) {
      OrdinalsDoNotMatter(l, t, packed[i], numbered[i]);
    }
  }

  lemma {:induction false} ClosedHolds(l: Layout, s: State)
    requires Conserves(l, s) && s.pending == [] && s.current.None?
    ensures AllCells(ResultContributions(s.result)) == IndexedCells(l)
    ensures forall i :: 0 <= i < |s.result| ==> Solid(l, s.result[i].fragments)
  {
    hide AllCells, IndexedCells, ChunkContributions;
    HeldUnopened(s);
    assert PendingAtoms([], 0) == [] && BodiesFragments([], 0) == [];
    assert Contributions([]) == [];
    assert ResultContributions(s.result) + [] == ResultContributions(s.result);
  }

  lemma {:induction false} StartTables(l: Layout, atoms: seq<Body>)
    requires PackedWell(l) && RowsRegular(l) && AreAtoms(l, atoms) && AtomsApart(l, atoms)
    requires AtomsOf(l, |l.units|).Ok? && AtomsOf(l, |l.units|).value.0 == atoms
    requires Contributions(BodiesFragments(atoms, |atoms|)) == KeptContributions(l, |l.units|)
    ensures Tabled(l, State(Pieces(Steps(l, atoms, |atoms|), |Steps(l, atoms, |atoms|)|), None, []))
  {
    hide Tabled, AreAtoms, AtomsApart, TablesRegular, RowsRegular, AtomsOf, Steps, OneTable, Absorbable, KeptContributions, BodiesFragments;
    StartTabled(l, atoms);
  }

  lemma {:induction false} ClosedReady(l: Layout, s: State)
    requires Tabled(l, s) && AllCells(ResultContributions(s.result)) == IndexedCells(l)
    requires forall i :: 0 <= i < |s.result| ==> Solid(l, s.result[i].fragments)
    ensures DraftsReady(l, s.result)
  {
    hide ResultTabular, RowsPending, OpenTabular, AfterResults, PendingApart, ResultsApart, AllCells, IndexedCells, ChunkContributions, Solid;
    var m: nat :| TabledAt(l, s, m);
  }

  lemma {:induction false} NumberedSolid(l: Layout, packed: seq<ChunkContent>, numbered: seq<ChunkContent>)
    requires |numbered| == |packed| && forall i :: 0 <= i < |packed| ==> SameButOrdinals(packed[i], numbered[i]) && Solid(l, packed[i].fragments)
    ensures forall i :: 0 <= i < |numbered| ==> Solid(l, numbered[i].fragments)
  {
    hide CleanStretch;
    forall i | 0 <= i < |numbered| ensures Solid(l, numbered[i].fragments) {
      forall k | 0 <= k < |numbered[i].fragments| ensures CleanStretch(l, numbered[i].fragments[k].contribution) {
        assert Contributions(numbered[i].fragments)[k] == Contributions(packed[i].fragments)[k];
        assert CleanStretch(l, packed[i].fragments[k].contribution);
      }
    }
  }

  /** A chunk is of the section that all its text lies in. */
  ghost predicate Labelled(l: Layout, chunk: ChunkContent) {
    forall k :: 0 <= k < |chunk.fragments| ==> chunk.section == l.SectionOf(chunk.fragments[k].contribution.unit)
  }

  lemma {:induction false} AllLabelled(l: Layout, t: Tools, chunks: seq<ChunkContent>)
    requires AllReplay(l, t, chunks) && ChunksNear(l, chunks)
    ensures forall i :: 0 <= i < |chunks| ==> Labelled(l, chunks[i])
  {
    hide l.SectionOf, BodyParts, Texts, BodyTexts, Placed, ContainerIds, l.Owner;
    forall i | 0 <= i < |chunks| ensures Labelled(l, chunks[i]) {
      var fragments := chunks[i].fragments;
      assert Replays(l, t, chunks[i]);
      forall k | 0 <= k < |fragments| ensures chunks[i].section == l.SectionOf(fragments[k].contribution.unit) {
        assert Near(l, fragments[0].contribution.unit, fragments[k].contribution.unit);
      }
    }
  }

  lemma {:induction false} NumberedNear(l: Layout, packed: seq<ChunkContent>, numbered: seq<ChunkContent>)
    requires |numbered| == |packed| && forall i :: 0 <= i < |packed| ==> SameButOrdinals(packed[i], numbered[i])
    requires ChunksNear(l, packed)
    ensures ChunksNear(l, numbered)
  {
    hide Near;
    forall i | 0 <= i < |numbered| ensures OnePlace(l, numbered[i].fragments) {
      var (a, b) := (packed[i].fragments, numbered[i].fragments);
      assert |Contributions(a)| == |Contributions(b)|;
      forall k | 0 <= k < |b| ensures b[k].contribution == a[k].contribution {
        assert Contributions(b)[k] == Contributions(a)[k];
      }
    }
  }

  lemma {:induction false} NumberedTabular(l: Layout, packed: seq<ChunkContent>, numbered: seq<ChunkContent>)
    requires |numbered| == |packed|
    requires forall i :: 0 <= i < |packed| ==> SameButOrdinals(packed[i], numbered[i]) && DraftTabular(l, ResultBody(packed[i]))
    ensures forall i :: 0 <= i < |numbered| ==> DraftTabular(l, ResultBody(numbered[i]))
  {
    hide DraftTabular;
    forall i | 0 <= i < |numbered| ensures DraftTabular(l, ResultBody(numbered[i])) {
      var a, b := packed[i], numbered[i];
      forall k | 0 <= k < |a.fragments| ensures b.fragments[k].contribution.unit == a.fragments[k].contribution.unit {
        assert Contributions(b.fragments)[k] == Contributions(a.fragments)[k];
      }
      assert |Contributions(a.fragments)| == |Contributions(b.fragments)|;
      SameDraft(l, ResultBody(a), ResultBody(b));
    }
  }
}
