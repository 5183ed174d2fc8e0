/**
 * Splitting one oversized unit into chunks, each the longest prefix that fits.
 */
module Splitting {
  import opened Common
  import opened Ranges
  import opened Fitting
  import opened Units
  import opened Layouts
  import opened Preparation

  /** The size a draft grows toward. */
  const TargetTokens: nat := 500

  /** The hard limit on a prepared input's tokens. */
  const MaxTokens: nat := 700

  /** A body cut down to a stretch of its one fragment's unit, if that stretch may be held. */
  function PieceAt(l: Layout, body: Body, start: nat, length: nat): Option<Body>
    requires |body.fragments| == 1 && body.fragments[0].contribution.unit < |l.units|
  {
    var f := body.fragments[0];
    var unit := l.units[f.contribution.unit];
    match NormalizedRange(|unit.text|, unit.envelopes, start, start + length)
    case None => None
    case Some(range) => Some(Body([f.(contribution := f.contribution.(range := range))], body.windows))
  }

  /** Whether a body's chunk stays within the maximum. */
  function WithinMax(l: Layout, t: Tools, body: Body): Result<bool> {
    var chunk :- Prepared(l, t, body);
    Ok(chunk.tokenCount <= MaxTokens)
  }

  function Fits(l: Layout, t: Tools, body: Body, start: nat, length: nat): Result<bool>
    requires |body.fragments| == 1 && body.fragments[0].contribution.unit < |l.units|
  {
    match PieceAt(l, body, start, length)
    case None => Ok(false)
    case Some(piece) => WithinMax(l, t, piece)
  }

  /** The stretch a chunk of one fragment holds. */
  function RangeOf(chunk: ChunkContent): TextRange
    requires |chunk.fragments| == 1
  {
    chunk.fragments[0].contribution.range
  }

  /**
   * A piece cut off at `start`: the chunk of a normalized range of the unit that counts at most the
   * maximum. Outside code a cut inside a word stands only when the piece up to the last whitespace
   * before it does not fit.
   */
  ghost predicate CutBy(l: Layout, t: Tools, body: Body, code: bool, start: nat, stop: nat, piece: ChunkContent, length: nat)
    requires |body.fragments| == 1 && body.fragments[0].contribution.unit < |l.units|
    requires start <= stop <= |l.units[body.fragments[0].contribution.unit].text|
  {
    var text := l.units[body.fragments[0].contribution.unit].text[start..stop];
    && 0 < length <= |text|
    && PieceAt(l, body, start, length).Some?
    && Prepared(l, t, PieceAt(l, body, start, length).value) == Ok(piece)
    && piece.tokenCount <= MaxTokens
    && (!code && length < |text| && !AfterWhitespace(text, length) ==>
          forall cut: nat :: LastWhitespace(text, length, cut) ==> Fits(l, t, body, start, cut) != Ok(true))
    && Chosen(text, code, Fitter(l, t, body, start), length)
  }

  // ---- How long a piece is

  /** A cut of the kind preferred in a rest that has meaningful cuts, or in one that has none. */
  ghost predicate Preferred(text: string, code: bool, meaning: bool, cut: nat) {
    if meaning then Meaningful(text, code, cut) else AfterWhitespace(text, cut)
  }

  ghost predicate LastPreferred(text: string, code: bool, meaning: bool, end: nat, cut: nat) {
    && Preferred(text, code, meaning, cut) && 0 < cut < end
    && forall c: nat :: Preferred(text, code, meaning, c) && c < end ==> c <= cut
  }

  /** The last preferred cut inside a prefix when that fits, else the prefix itself. */
  ghost predicate Moved(text: string, code: bool, meaning: bool, fits: nat -> Result<bool>, end: nat, length: nat) {
    || (LastPreferred(text, code, meaning, end, length) && fits(length) == Ok(true))
    || (length == end && forall cut: nat :: LastPreferred(text, code, meaning, end, cut) ==> fits(cut) != Ok(true))
  }

  /** A prefix that ends inside a word moved back to the last whitespace when that fits; code is cut anywhere. */
  ghost predicate OutOfWord(text: string, code: bool, fits: nat -> Result<bool>, end: nat, length: nat) {
    if !code && end < |text| && !AfterWhitespace(text, end) then Moved(text, code, false, fits, end, length) else length == end
  }

  /**
   * What is cut off a rest. All of it when it fits; else the first half that does, by halving, moved
   * back to the last sentence end or code line in it, or to the last whitespace where the rest has
   * none of these, and out of a word.
   */
  ghost predicate Chosen(text: string, code: bool, fits: nat -> Result<bool>, length: nat) {
    exists k: nat, chosen: nat :: ChosenBy(text, code, fits, k, chosen, length)
  }

  ghost predicate ChosenBy(text: string, code: bool, fits: nat -> Result<bool>, k: nat, chosen: nat, length: nat) {
    && FirstFit(|text|, fits, k)
    && (if Halved(|text|, k) == |text| then chosen == |text|
        else Moved(text, code, exists cut: nat :: Meaningful(text, code, cut), fits, Halved(|text|, k), chosen))
    && OutOfWord(text, code, fits, chosen, length)
  }

  /** Whether a cut is the last one after whitespace inside a prefix. */
  ghost predicate LastWhitespace(text: string, length: nat, cut: nat) {
    && AfterWhitespace(text, cut) && cut < length
    && forall c: nat :: AfterWhitespace(text, c) && c < length ==> c <= cut
  }

  ghost predicate CutAt(l: Layout, t: Tools, body: Body, code: bool, start: nat, stop: nat, piece: ChunkContent)
    requires |body.fragments| == 1 && body.fragments[0].contribution.unit < |l.units|
  {
    && start < stop <= |l.units[body.fragments[0].contribution.unit].text|
    && |piece.fragments| == 1
    && exists length: nat :: CutBy(l, t, body, code, start, stop, piece, length)
  }

  function Fitter(l: Layout, t: Tools, body: Body, start: nat): nat -> Result<bool>
    requires |body.fragments| == 1 && body.fragments[0].contribution.unit < |l.units|
  {
    (length: nat) => Fits(l, t, body, start, length)
  }

  /** A cut inside a word moved back to the last whitespace before it, when that piece fits too. */
  function Retreated(l: Layout, t: Tools, body: Body, code: bool, text: string, start: nat, length: nat): Result<nat>
    requires |body.fragments| == 1 && body.fragments[0].contribution.unit < |l.units|
  {
    var whitespace := WhitespaceCuts(text, |text|);
    if code || length >= |text| || length in whitespace then Ok(length)
    else
      match LastOf(whitespace, |whitespace|, length)
      case None => Ok(length)
      case Some(cut) =>
        var better :- Fits(l, t, body, start, cut);
        Ok(if better then cut else length)
  }

  /** How long the piece cut off at a start is, before it is normalized. */
  function LengthOf(l: Layout, t: Tools, body: Body, code: bool, start: nat, stop: nat): Result<nat>
    requires |body.fragments| == 1 && body.fragments[0].contribution.unit < |l.units|
    requires start < stop <= |l.units[body.fragments[0].contribution.unit].text|
  {
    var index := body.fragments[0].contribution.unit;
    var text := l.units[index].text[start..stop];
    var (meaningful, whitespace) := (MeaningfulCuts(text, code, |text|), WhitespaceCuts(text, |text|));
    var fit :- Fitted(|text|, if meaningful == [] then whitespace else meaningful, Fitter(l, t, body, start), |text|);
    match fit
    case None => Err(Oversized(index))
    case Some(length) => Retreated(l, t, body, code, text, start, length)
  }

  /** The piece cut off at a start. */
  function Cut(l: Layout, t: Tools, body: Body, code: bool, start: nat, stop: nat): Result<ChunkContent>
    requires |body.fragments| == 1 && body.fragments[0].contribution.unit < |l.units|
    requires start < stop <= |l.units[body.fragments[0].contribution.unit].text|
  {
    var length :- LengthOf(l, t, body, code, start, stop);
    match PieceAt(l, body, start, length)
    case None => Err(Structure)
    case Some(piece) => Prepared(l, t, piece)
  }

  /** Where the next cut starts after some pieces. */
  ghost function EndOf(pieces: seq<ChunkContent>, start: nat): nat {
    if pieces == [] || |pieces[|pieces| - 1].fragments| != 1 then start else RangeOf(pieces[|pieces| - 1]).end
  }

  /** Whether pieces are cut off one after the other from `start`. */
  ghost predicate CutFrom(l: Layout, t: Tools, body: Body, code: bool, start: nat, stop: nat, pieces: seq<ChunkContent>)
    requires |body.fragments| == 1 && body.fragments[0].contribution.unit < |l.units|
  {
    forall i :: 0 <= i < |pieces| ==> CutAt(l, t, body, code, EndOf(pieces[..i], start), stop, pieces[i])
  }

  /** Why splitting may be refused. */
  ghost predicate RefusedFor(l: Layout, t: Tools, body: Body, error: Error)
    requires |body.fragments| == 1
  {
    var c := body.fragments[0].contribution;
    || error == Structure
    || (c.unit < |l.units| && exists start: nat, length: nat :: Fits(l, t, body, start, length) == Err(error))
    || (&& c.unit < |l.units| && error == Oversized(c.unit)
        && exists start: nat :: c.range.start <= start < c.range.end && Fits(l, t, body, start, 1) == Ok(false))
  }

  /** The search for a prefix: the first half that fits, and what it is moved back to. */
  lemma {:induction false} FittedHalf(n: nat, preferred: seq<nat>, fits: nat -> Result<bool>, k: nat) returns (m: nat)
    requires forall j :: 0 <= j < k ==> fits(Halved(n, j)) == Ok(false)
    requires Fitted(n, preferred, fits, Halved(n, k)).Ok? && Fitted(n, preferred, fits, Halved(n, k)).value.Some?
    ensures FirstFit(n, fits, m)
    ensures
      var (end, chosen) := (Halved(n, m), Fitted(n, preferred, fits, Halved(n, k)).value.value);
      if end == n then chosen == n
      else
        match LastOf(preferred, |preferred|, end)
        case None => chosen == end
        case Some(cut) => chosen == if fits(cut) == Ok(true) then cut else end
    decreases Halved(n, k)
  {
    hide LastOf;
    if fits(Halved(n, k)) == Ok(true) {
      m := k;
    } else {
      m := FittedHalf(n, preferred, fits, k + 1);
    }
  }

  /** The last of some cuts, given as all those of a kind, is the last of that kind. */
  lemma {:induction false} LastMoves(text: string, code: bool, meaning: bool, cuts: seq<nat>, fits: nat -> Result<bool>, end: nat, length: nat)
    requires Increasing(cuts) && end <= |text| && forall cut: nat :: cut in cuts <==> cut <= |text| && Preferred(text, code, meaning, cut)
    requires
      match LastOf(cuts, |cuts|, end)
      case None => length == end
      case Some(cut) => length == if fits(cut) == Ok(true) then cut else end
    ensures Moved(text, code, meaning, fits, end, length)
  {
    hide Preferred, LastOf;
    LastAmong(cuts, |cuts|, end);
    LastIsLast(cuts, |cuts|, end);
    LastInside(cuts, |cuts|, end);
    var last := LastOf(cuts, |cuts|, end);
    forall c: nat | Preferred(text, code, meaning, c) && c < end ensures c == 0 || (last.Some? && c <= last.value) {
      assert c in cuts;
      var i :| 0 <= i < |cuts| && cuts[i] == c;
    }
    if last.Some? {
      assert LastPreferred(text, code, meaning, end, last.value);
    } else {
      assert forall cut: nat :: !LastPreferred(text, code, meaning, end, cut);
    }
  }

  /** What is cut off is what is preferred. */
  lemma {:induction false} LengthChosen(l: Layout, t: Tools, body: Body, code: bool, start: nat, stop: nat)
    requires |body.fragments| == 1 && body.fragments[0].contribution.unit < |l.units|
    requires start < stop <= |l.units[body.fragments[0].contribution.unit].text|
    requires LengthOf(l, t, body, code, start, stop).Ok?
    ensures
      var text := l.units[body.fragments[0].contribution.unit].text[start..stop];
      Chosen(text, code, Fitter(l, t, body, start), LengthOf(l, t, body, code, start, stop).value)
  {
    hide Fits, Fitted, WhitespaceCuts, MeaningfulCuts, LastOf, Meaningful, AfterWhitespace, Moved, FirstFit;
    var text := l.units[body.fragments[0].contribution.unit].text[start..stop];
    var (meaningful, whitespace, fits) := (MeaningfulCuts(text, code, |text|), WhitespaceCuts(text, |text|), Fitter(l, t, body, start));
    var preferred := if meaningful == [] then whitespace else meaningful;
    CutsAre(text, code, |text|);
    CutsWithin(text, code);
    var (meaning, length) := (exists cut: nat :: Meaningful(text, code, cut), LengthOf(l, t, body, code, start, stop).value);
    assert meaningful != [] ==> meaningful[0] in meaningful;
    if meaning {
      var cut: nat :| Meaningful(text, code, cut);
      assert cut in meaningful;
    }
    var chosen := Fitted(|text|, preferred, fits, |text|).value.value;
    assert Halved(|text|, 0) == |text|;
    var k := FittedHalf(|text|, preferred, fits, 0);
    if Halved(|text|, k) != |text| {
      LastMoves(text, code, meaning, preferred, fits, Halved(|text|, k), chosen);
    }
    FittedFits(|text|, preferred, fits, |text|);
    if !code && chosen < |text| && !AfterWhitespace(text, chosen) {
      LastMoves(text, code, false, whitespace, fits, chosen, length);
    }
    assert ChosenBy(text, code, fits, k, chosen, length);
  }

  lemma {:induction false} CutsWithin(text: string, code: bool)
    ensures forall cut: nat :: Meaningful(text, code, cut) || AfterWhitespace(text, cut) ==> cut <= |text|
  {
  }

  /** The piece length is one that fits; moved back only to whitespace. */
  lemma {:induction false} LengthFits(l: Layout, t: Tools, body: Body, code: bool, start: nat, stop: nat)
    requires |body.fragments| == 1 && body.fragments[0].contribution.unit < |l.units|
    requires start < stop <= |l.units[body.fragments[0].contribution.unit].text|
    requires LengthOf(l, t, body, code, start, stop).Ok?
    ensures
      var length := LengthOf(l, t, body, code, start, stop).value;
      && 0 < length <= stop - start && Fits(l, t, body, start, length) == Ok(true)
      && var text := l.units[body.fragments[0].contribution.unit].text[start..stop];
         !code && length < |text| && !AfterWhitespace(text, length) ==>
           forall cut: nat :: LastWhitespace(text, length, cut) ==> Fits(l, t, body, start, cut) != Ok(true)
  {
    hide Fits, Fitted, WhitespaceCuts, MeaningfulCuts, LastOf;
    var text := l.units[body.fragments[0].contribution.unit].text[start..stop];
    var (meaningful, whitespace) := (MeaningfulCuts(text, code, |text|), WhitespaceCuts(text, |text|));
    var preferred := if meaningful == [] then whitespace else meaningful;
    FittedFits(|text|, preferred, Fitter(l, t, body, start), |text|);
    CutsAre(text, code, |text|);
    var fit := Fitted(|text|, preferred, Fitter(l, t, body, start), |text|).value.value;
    LastInside(whitespace, |whitespace|, fit);
    LastIsLast(whitespace, |whitespace|, fit);
    LastAmong(whitespace, |whitespace|, fit);
  }

  lemma {:induction false} LastAmong(cuts: seq<nat>, n: nat, end: nat)
    requires n <= |cuts|
    ensures LastOf(cuts, n, end).Some? ==> LastOf(cuts, n, end).value in cuts
  {
    if n > 0 {
      LastAmong(cuts, n - 1, end);
    }
  }

  lemma {:induction false} LastIsLast(cuts: seq<nat>, n: nat, end: nat)
    requires n <= |cuts| && Increasing(cuts)
    ensures forall i :: 0 <= i < n && 0 < cuts[i] < end ==> LastOf(cuts, n, end).Some? && cuts[i] <= LastOf(cuts, n, end).value
  {
    if n > 0 {
      LastIsLast(cuts, n - 1, end);
    }
  }

  /** What is cut off is a piece. */
  lemma {:induction false} CutIs(l: Layout, t: Tools, body: Body, code: bool, start: nat, stop: nat)
    requires |body.fragments| == 1 && body.fragments[0].contribution.unit < |l.units|
    requires start < stop <= |l.units[body.fragments[0].contribution.unit].text|
    requires Cut(l, t, body, code, start, stop).Ok?
    ensures CutAt(l, t, body, code, start, stop, Cut(l, t, body, code, start, stop).value)
  {
    hide Prepared, PieceAt, LengthOf, LastWhitespace, Chosen;
    LengthFits(l, t, body, code, start, stop);
    LengthChosen(l, t, body, code, start, stop);
    var length := LengthOf(l, t, body, code, start, stop).value;
    var piece := PieceAt(l, body, start, length).value;
    assert CutBy(l, t, body, code, start, stop, Cut(l, t, body, code, start, stop).value, length);
    PreparedHolds(l, t, piece);
    PieceHasOne(l, body, start, length);
  }

  /** All pieces from a start on. */
  function SplitFrom(l: Layout, t: Tools, body: Body, code: bool, start: nat, stop: nat): Result<seq<ChunkContent>>
    requires |body.fragments| == 1 && body.fragments[0].contribution.unit < |l.units|
    decreases stop - start
  {
    if start >= stop then Ok([])
    else if stop > |l.units[body.fragments[0].contribution.unit].text| then Err(Structure)
    else
      var piece :- Cut(l, t, body, code, start, stop);
      CutIs(l, t, body, code, start, stop);
      CutAdvances(l, t, body, code, start, stop, piece);
      var rest :- SplitFrom(l, t, body, code, RangeOf(piece).end, stop);
      Ok([piece] + rest)
  }

  function Split(l: Layout, t: Tools, body: Body): Result<seq<ChunkContent>>
    requires |body.fragments| == 1
  {
    var c := body.fragments[0].contribution;
    if c.unit >= |l.units| then Err(Structure)
    else SplitFrom(l, t, body, l.Nearest(c.unit, {Code}).Some?, c.range.start, c.range.end)
  }

  /** Some pieces followed by more. */
  function Followed(pieces: seq<ChunkContent>, more: Result<seq<ChunkContent>>): Result<seq<ChunkContent>> {
    var rest :- more;
    Ok(pieces + rest)
  }

  /**
   * `split_unit`: splits a unit into pieces that fit, cut off one after the other until the unit's
   * end is reached. Refused as oversized only where not even one character fits with its context:
   * with a counter that answers alike for equal texts a chosen piece never counts over the maximum.
   */
  method SplitUnit(l: Layout, t: Tools, body: Body) returns (r: Result<seq<ChunkContent>>)
    requires |body.fragments| == 1
    ensures r == Split(l, t, body)
    ensures r.Ok? ==>
              var c := body.fragments[0].contribution;
              && c.unit < |l.units|
              && CutFrom(l, t, body, l.Nearest(c.unit, {Code}).Some?, c.range.start, c.range.end, r.value)
              && EndOf(r.value, c.range.start) >= c.range.end
    ensures r.Err? ==> RefusedFor(l, t, body, r.error)
  {
    hide Cut, CutBy, Fits, Followed, SplitFrom, l.Nearest;
    var original := body.fragments[0].contribution;
    var index := original.unit;
    if index >= |l.units| {
      return Err(Structure);
    }
    var unit := l.units[index];
    var code := l.Nearest(index, {Code}).Some?;
    var start, stop := original.range.start, original.range.end;
    var result: seq<ChunkContent> := [];
    FollowsNothing(Split(l, t, body));
    while start < stop
      invariant original.range.start <= start
      invariant start == EndOf(result, original.range.start)
      invariant CutFrom(l, t, body, code, original.range.start, stop, result)
      invariant Split(l, t, body) == Followed(result, SplitFrom(l, t, body, code, start, stop))
      decreases stop - start
    {
      if stop > |unit.text| {
        SplitRefused(l, t, body, code, start, stop, result);
        return Err(Structure);
      }
      var piece := CutOff(l, t, body, code, start, stop);
      if piece.Err? {
        SplitRefused(l, t, body, code, start, stop, result);
        return Err(piece.error);
      }
      assert Followed(result, SplitFrom(l, t, body, code, start, stop))
          == Followed(result + [piece.value], SplitFrom(l, t, body, code, RangeOf(piece.value).end, stop)) by {
        SplitNext(l, t, body, code, start, stop, result, piece.value);
      }
      CutExtends(l, t, body, code, original.range.start, stop, result, piece.value);
      result := result + [piece.value];
      start := RangeOf(piece.value).end;
    }
    SplitDone(l, t, body, code, start, stop, result);
    r := Ok(result);
  }

  lemma {:induction false} FollowsNothing(more: Result<seq<ChunkContent>>)
    ensures Followed([], more) == more
  {
    if more.Ok? {
      assert [] + more.value == more.value;
    }
  }

  lemma {:induction false} SplitDone(l: Layout, t: Tools, body: Body, code: bool, start: nat, stop: nat, result: seq<ChunkContent>)
    requires |body.fragments| == 1 && body.fragments[0].contribution.unit < |l.units| && start >= stop
    ensures Followed(result, SplitFrom(l, t, body, code, start, stop)) == Ok(result)
  {
    assert result + [] == result;
  }

  lemma {:induction false} SplitRefused(l: Layout, t: Tools, body: Body, code: bool, start: nat, stop: nat, result: seq<ChunkContent>)
    requires |body.fragments| == 1 && body.fragments[0].contribution.unit < |l.units| && start < stop
    ensures stop > |l.units[body.fragments[0].contribution.unit].text| ==> Followed(result, SplitFrom(l, t, body, code, start, stop)) == Err(Structure)
    ensures stop <= |l.units[body.fragments[0].contribution.unit].text| && Cut(l, t, body, code, start, stop).Err? ==>
              Followed(result, SplitFrom(l, t, body, code, start, stop)) == Err(Cut(l, t, body, code, start, stop).error)
  {
    hide Cut;
  }

  lemma {:induction false} SplitNext(l: Layout, t: Tools, body: Body, code: bool, start: nat, stop: nat, result: seq<ChunkContent>, piece: ChunkContent)
    requires |body.fragments| == 1 && body.fragments[0].contribution.unit < |l.units|
    requires start < stop <= |l.units[body.fragments[0].contribution.unit].text|
    requires Cut(l, t, body, code, start, stop) == Ok(piece) && |piece.fragments| == 1
    ensures Followed(result, SplitFrom(l, t, body, code, start, stop))
         == Followed(result + [piece], SplitFrom(l, t, body, code, RangeOf(piece).end, stop))
  {
    hide Cut, CutAt;
    var rest := SplitFrom(l, t, body, code, RangeOf(piece).end, stop);
    if rest.Ok? {
      assert result + ([piece] + rest.value) == result + [piece] + rest.value;
    }
  }

  lemma {:induction false} CutExtends(l: Layout, t: Tools, body: Body, code: bool, start: nat, stop: nat, pieces: seq<ChunkContent>, piece: ChunkContent)
    requires |body.fragments| == 1 && body.fragments[0].contribution.unit < |l.units|
    requires CutFrom(l, t, body, code, start, stop, pieces)
    requires CutAt(l, t, body, code, EndOf(pieces, start), stop, piece)
    ensures CutFrom(l, t, body, code, start, stop, pieces + [piece])
    ensures EndOf(pieces + [piece], start) == RangeOf(piece).end > EndOf(pieces, start)
  {
    hide CutBy, Prepared, Fits;
    var all := pieces + [piece];
    forall i | 0 <= i < |all| ensures CutAt(l, t, body, code, EndOf(all[..i], start), stop, all[i]) {
      assert all[..i] == if i < |pieces| then pieces[..i] else pieces;
    }
    CutAdvances(l, t, body, code, EndOf(pieces, start), stop, piece);
  }

  lemma {:induction false} CutAdvances(l: Layout, t: Tools, body: Body, code: bool, start: nat, stop: nat, piece: ChunkContent)
    requires |body.fragments| == 1 && body.fragments[0].contribution.unit < |l.units|
    requires CutAt(l, t, body, code, start, stop, piece)
    ensures start == RangeOf(piece).start < RangeOf(piece).end
    ensures
      var f := body.fragments[0];
      var unit := l.units[f.contribution.unit];
      var range := RangeOf(piece);
      && piece.fragments == [f.(contribution := f.contribution.(range := range))]
      && piece.windows == body.windows
      && Prepared(l, t, Body(piece.fragments, piece.windows)) == Ok(piece) && piece.tokenCount <= MaxTokens
      && exists end :: start < end <= stop && NormalizedRange(|unit.text|, unit.envelopes, start, end) == Some(range)
  {
    var length: nat :| CutBy(l, t, body, code, start, stop, piece, length);
    var made := PieceAt(l, body, start, length).value;
    PreparedHolds(l, t, made);
    assert made.fragments == piece.fragments && made.windows == piece.windows;
    var unit := l.units[body.fragments[0].contribution.unit];
    assert NormalizedRange(|unit.text|, unit.envelopes, start, start + length) == Some(RangeOf(piece));
  }

  /** A chunk carries its body. */
  lemma {:induction false} PreparedHolds(l: Layout, t: Tools, body: Body)
    requires Prepared(l, t, body).Ok?
    ensures Prepared(l, t, body).value.fragments == body.fragments
    ensures Prepared(l, t, body).value.windows == body.windows
    ensures body.fragments != []
  {
    hide BodyParts, Texts, BodyTexts, Placed, ContainerIds;
  }

  /** A stretch fits exactly when it may be held and its chunk counts at most 700. */
  lemma {:induction false} FitsExactly(l: Layout, t: Tools, body: Body, start: nat, length: nat)
    requires |body.fragments| == 1 && body.fragments[0].contribution.unit < |l.units|
    ensures
      Fits(l, t, body, start, length) == Ok(true)
      <==> && PieceAt(l, body, start, length).Some?
           && Prepared(l, t, PieceAt(l, body, start, length).value).Ok?
           && Prepared(l, t, PieceAt(l, body, start, length).value).value.tokenCount <= 700
    ensures PieceAt(l, body, start, length).Some? ==>
              var (unit, piece) := (l.units[body.fragments[0].contribution.unit], PieceAt(l, body, start, length).value);
              var range := NormalizedRange(|unit.text|, unit.envelopes, start, start + length);
              && range.Some? && piece.windows == body.windows && |piece.fragments| == 1
              && piece.fragments[0] == Fragment(Contribution(body.fragments[0].contribution.unit, range.value), body.fragments[0].partOrdinal)
  {
    hide Prepared;
  }

  lemma {:induction false} FitsMeans(l: Layout, t: Tools, body: Body, start: nat, length: nat)
    requires |body.fragments| == 1 && body.fragments[0].contribution.unit < |l.units|
    requires Fits(l, t, body, start, length) == Ok(true)
    ensures PieceAt(l, body, start, length).Some?
    ensures
      var chunk := Prepared(l, t, PieceAt(l, body, start, length).value);
      chunk.Ok? && chunk.value.tokenCount <= MaxTokens
  {
    hide Prepared, PieceAt;
  }

  /** One turn of `split_unit`: the piece cut off at a start. */
  method CutOff(l: Layout, t: Tools, body: Body, code: bool, start: nat, stop: nat) returns (r: Result<ChunkContent>)
    requires |body.fragments| == 1 && body.fragments[0].contribution.unit < |l.units|
    requires start < stop <= |l.units[body.fragments[0].contribution.unit].text|
    ensures r == Cut(l, t, body, code, start, stop)
    ensures r.Ok? ==> CutAt(l, t, body, code, start, stop, r.value)
    ensures r.Err? ==>
              || r.error == Structure
              || (exists length: nat :: Fits(l, t, body, start, length) == Err(r.error))
              || (r.error == Oversized(body.fragments[0].contribution.unit) && Fits(l, t, body, start, 1) == Ok(false))
  {
    hide Prepared, PieceAt, Fits, Fitted, WhitespaceCuts, MeaningfulCuts, CutAt, LastOf;
    var index := body.fragments[0].contribution.unit;
    var text := l.units[index].text[start..stop];
    var meaningful, whitespace := Boundaries(text, code);
    var preferred := if meaningful == [] then whitespace else meaningful;
    var fit, _ := FitPrefix(|text|, preferred, Fitter(l, t, body, start));
    if fit.Err? {
      return Err(fit.error);
    }
    if fit.value.None? {
      return Err(Oversized(index));
    }
    var length := fit.value.value;
    FittedFits(|text|, preferred, Fitter(l, t, body, start), |text|);
    FitsMeans(l, t, body, start, length);
    var piece := PieceAt(l, body, start, length).value;
    var chosen := length;
    if !code && length < |text| && length !in whitespace {
      var shorter := LastCut(whitespace, length);
      if shorter.Some? {
        var better := Fits(l, t, body, start, shorter.value);
        if better.Err? {
          return Err(better.error);
        }
        if better.value {
          FitsMeans(l, t, body, start, shorter.value);
          piece, chosen := PieceAt(l, body, start, shorter.value).value, shorter.value;
        }
      }
    }
    var prepared := Prepared(l, t, piece);
    assert LengthOf(l, t, body, code, start, stop) == Ok(chosen);
    CutIs(l, t, body, code, start, stop);
    r := Ok(prepared.value);
  }

  lemma {:induction false} PieceHasOne(l: Layout, body: Body, start: nat, length: nat)
    requires |body.fragments| == 1 && body.fragments[0].contribution.unit < |l.units|
    requires PieceAt(l, body, start, length).Some?
    ensures |PieceAt(l, body, start, length).value.fragments| == 1
  {
  }

  // ---- What the pieces of a well-nested unit are

  /** A unit whose wrappers nest, and a stretch of it between two clean cuts. */
  ghost predicate CleanStretch(l: Layout, c: Contribution) {
    && c.unit < |l.units|
    && var unit := l.units[c.unit];
       && WellNested(|unit.text|, unit.envelopes)
       && c.range.start < c.range.end <= |unit.text|
       && CleanCut(unit.envelopes, c.range.start) && CleanCut(unit.envelopes, c.range.end)
  }

  lemma {:induction false} CutsAreClean(l: Layout, t: Tools, body: Body, code: bool, pieces: seq<ChunkContent>, n: nat)
    requires |body.fragments| == 1 && CleanStretch(l, body.fragments[0].contribution)
    requires n <= |pieces|
    requires var range := body.fragments[0].contribution.range;
             CutFrom(l, t, body, code, range.start, range.end, pieces)
    ensures
      var c := body.fragments[0].contribution;
      && CleanCut(l.units[c.unit].envelopes, EndOf(pieces[..n], c.range.start))
      && c.range.start <= EndOf(pieces[..n], c.range.start) <= c.range.end
  {
    hide CutBy, Prepared, Fits, NormalizedRange, CleanCut;
    var c := body.fragments[0].contribution;
    if n > 0 {
      CutsAreClean(l, t, body, code, pieces, n - 1);
      var from := EndOf(pieces[..n - 1], c.range.start);
      assert CutAt(l, t, body, code, from, c.range.end, pieces[n - 1]);
      CutAdvances(l, t, body, code, from, c.range.end, pieces[n - 1]);
      CutIsClean(l.units[c.unit], from, c.range.end, RangeOf(pieces[n - 1]));
      assert pieces[..n][n - 1] == pieces[n - 1];
    } else {
      assert pieces[..0] == [];
    }
  }

  lemma {:induction false} CutIsClean(unit: SourceUnit, start: nat, stop: nat, range: TextRange)
    requires WellNested(|unit.text|, unit.envelopes) && CleanCut(unit.envelopes, stop)
    requires exists end :: start < end <= stop && NormalizedRange(|unit.text|, unit.envelopes, start, end) == Some(range)
    ensures range.start == start < range.end <= stop && CleanCut(unit.envelopes, range.end)
  {
    var end :| start < end <= stop && NormalizedRange(|unit.text|, unit.envelopes, start, end) == Some(range);
    NormalizedRangeCuts(|unit.text|, unit.envelopes, start, end);
  }
}
