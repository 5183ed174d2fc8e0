/**
 * What chunking conserves: characters, in order, and the balance of the delimiters shown.
 */
module Conservation {
  import opened Common
  import opened Ranges
  import opened Brackets
  import opened Units
  import opened Slices
  import opened Layouts
  import opened Preparation
  import opened Splitting

  /** A character of a unit, by its offset. */
  type Cell = (nat, nat)

  /** The characters of one contribution, in order. */
  ghost function CellsOf(c: Contribution): seq<Cell> {
    if c.range.end <= c.range.start then []
    else seq(c.range.end - c.range.start, i requires 0 <= i => (c.unit, c.range.start + i))
  }

  /** The characters of the first n contributions, in order. */
  ghost function Cells(cs: seq<Contribution>, n: nat): seq<Cell>
    requires n <= |cs|
  {
    if n == 0 then [] else Cells(cs, n - 1) + CellsOf(cs[n - 1])
  }

  ghost function AllCells(cs: seq<Contribution>): seq<Cell> {
    Cells(cs, |cs|)
  }

  /** The contributions of the first n chunks. */
  function ChunkContributions(chunks: seq<ChunkContent>, n: nat): seq<Contribution>
    requires n <= |chunks|
  {
    if n == 0 then [] else ChunkContributions(chunks, n - 1) + Contributions(chunks[n - 1].fragments)
  }

  lemma {:induction false} CellsPrefix(a: seq<Contribution>, b: seq<Contribution>, n: nat)
    requires n <= |a|
    ensures Cells(a + b, n) == Cells(a, n)
  {
    if n > 0 {
      CellsPrefix(a, b, n - 1);
    }
  }

  lemma {:induction false} CellsThen(a: seq<Contribution>, b: seq<Contribution>, n: nat)
    requires n <= |b|
    ensures Cells(a + b, |a| + n) == Cells(a, |a|) + Cells(b, n)
  {
    if n == 0 {
      CellsPrefix(a, b, |a|);
    } else {
      CellsThen(a, b, n - 1);
      assert (a + b)[|a| + n - 1] == b[n - 1];
      Associative(Cells(a, |a|), Cells(b, n - 1), CellsOf(b[n - 1]));
    }
  }

  lemma {:induction false} CellsConcat(a: seq<Contribution>, b: seq<Contribution>)
    ensures AllCells(a + b) == AllCells(a) + AllCells(b)
  {
    CellsThen(a, b, |b|);
  }

  lemma {:induction false} CellsOne(c: Contribution)
    ensures AllCells([c]) == CellsOf(c)
  {
    assert Cells([c], 0) == [];
  }

  lemma {:induction false} ChunkContributionsPrefix(a: seq<ChunkContent>, b: seq<ChunkContent>, n: nat)
    requires n <= |a|
    ensures ChunkContributions(a + b, n) == ChunkContributions(a, n)
  {
    if n > 0 {
      ChunkContributionsPrefix(a, b, n - 1);
    }
  }

  lemma {:induction false} ChunkContributionsThen(a: seq<ChunkContent>, b: seq<ChunkContent>, n: nat)
    requires n <= |b|
    ensures ChunkContributions(a + b, |a| + n) == ChunkContributions(a, |a|) + ChunkContributions(b, n)
  {
    if n == 0 {
      ChunkContributionsPrefix(a, b, |a|);
    } else {
      ChunkContributionsThen(a, b, n - 1);
      assert (a + b)[|a| + n - 1] == b[n - 1];
      Associative(ChunkContributions(a, |a|), ChunkContributions(b, n - 1), Contributions(b[n - 1].fragments));
    }
  }

  lemma {:induction false} ContributionsConcat(a: seq<Fragment>, b: seq<Fragment>)
    ensures Contributions(a + b) == Contributions(a) + Contributions(b)
  {
  }

  // ---- A split unit

  lemma {:induction false} CellsJoin(unit: nat, start: nat, mid: nat, end: nat)
    requires start <= mid <= end
    ensures CellsOf(Contribution(unit, TextRange(start, end)))
         == CellsOf(Contribution(unit, TextRange(start, mid))) + CellsOf(Contribution(unit, TextRange(mid, end)))
  {
  }

  lemma {:induction false} SplitCells(l: Layout, t: Tools, body: Body, code: bool, pieces: seq<ChunkContent>, n: nat)
    requires |body.fragments| == 1 && CleanStretch(l, body.fragments[0].contribution)
    requires n <= |pieces|
    requires var range := body.fragments[0].contribution.range;
             CutFrom(l, t, body, code, range.start, range.end, pieces)
    ensures
      var c := body.fragments[0].contribution;
      AllCells(ChunkContributions(pieces, n)) == CellsOf(c.(range := TextRange(c.range.start, EndOf(pieces[..n], c.range.start))))
  {
    hide CutBy, Prepared, Fits, NormalizedRange, CellsOf;
    var c := body.fragments[0].contribution;
    if n == 0 {
      assert pieces[..0] == [];
      NoCells(c.unit, c.range.start);
    } else {
      SplitCells(l, t, body, code, pieces, n - 1);
      CutsAreClean(l, t, body, code, pieces, n - 1);
      var from := EndOf(pieces[..n - 1], c.range.start);
      assert CutAt(l, t, body, code, from, c.range.end, pieces[n - 1]);
      CutAdvances(l, t, body, code, from, c.range.end, pieces[n - 1]);
      var range := RangeOf(pieces[n - 1]);
      assert pieces[..n][n - 1] == pieces[n - 1];
      var own := Contributions(pieces[n - 1].fragments);
      assert own == [Contribution(c.unit, range)];
      CellsConcat(ChunkContributions(pieces, n - 1), own);
      CellsOne(own[0]);
      CellsJoin(c.unit, c.range.start, from, range.end);
    }
  }

  lemma {:induction false} NoCells(unit: nat, p: nat)
    ensures CellsOf(Contribution(unit, TextRange(p, p))) == []
  {
  }

  /**
   * What `split_unit` returns for a clean stretch: pieces that hold exactly its characters, in
   * order, each between two clean cuts, so that the delimiters each shows are balanced.
   */
  lemma {:induction false} SplitConserves(l: Layout, t: Tools, body: Body, code: bool, pieces: seq<ChunkContent>)
    requires |body.fragments| == 1 && CleanStretch(l, body.fragments[0].contribution)
    requires var range := body.fragments[0].contribution.range;
             CutFrom(l, t, body, code, range.start, range.end, pieces) && EndOf(pieces, range.start) >= range.end
    ensures
      var c := body.fragments[0].contribution;
      && AllCells(ChunkContributions(pieces, |pieces|)) == CellsOf(c)
      && forall i :: 0 <= i < |pieces| ==> PieceHolds(l, t, c, pieces[i])
  {
    hide CutBy, Prepared, Fits, NormalizedRange, CellsOf, CleanCut, PieceHolds, ChunkContributions, AllCells;
    SplitWhole(l, t, body, code, pieces);
    forall i | 0 <= i < |pieces| ensures PieceHolds(l, t, body.fragments[0].contribution, pieces[i]) {
      SplitPiece(l, t, body, code, pieces, i);
    }
  }

  lemma {:induction false} SplitWhole(l: Layout, t: Tools, body: Body, code: bool, pieces: seq<ChunkContent>)
    requires |body.fragments| == 1 && CleanStretch(l, body.fragments[0].contribution)
    requires var range := body.fragments[0].contribution.range;
             CutFrom(l, t, body, code, range.start, range.end, pieces) && EndOf(pieces, range.start) >= range.end
    ensures AllCells(ChunkContributions(pieces, |pieces|)) == CellsOf(body.fragments[0].contribution)
  {
    hide CutBy, Prepared, Fits, NormalizedRange, CellsOf, CleanCut;
    SplitCells(l, t, body, code, pieces, |pieces|);
    CutsAreClean(l, t, body, code, pieces, |pieces|);
    assert pieces[..|pieces|] == pieces;
  }

  /** A piece of a unit: one chunk that replays, within the maximum, balanced. */
  ghost predicate PieceHolds(l: Layout, t: Tools, c: Contribution, piece: ChunkContent)
    requires c.unit < |l.units|
  {
    && |piece.fragments| == 1 && piece.fragments[0].contribution.unit == c.unit
    && CleanStretch(l, piece.fragments[0].contribution)
    && Prepared(l, t, Body(piece.fragments, piece.windows)) == Ok(piece)
    && piece.tokenCount <= MaxTokens
    && Balanced(Word(l.units[c.unit].envelopes, PieceRanges(l.units[c.unit].envelopes, RangeOf(piece))))
  }

  lemma {:induction false} SplitPiece(l: Layout, t: Tools, body: Body, code: bool, pieces: seq<ChunkContent>, i: nat)
    requires |body.fragments| == 1 && CleanStretch(l, body.fragments[0].contribution)
    requires i < |pieces|
    requires var range := body.fragments[0].contribution.range;
             CutFrom(l, t, body, code, range.start, range.end, pieces)
    ensures PieceHolds(l, t, body.fragments[0].contribution, pieces[i])
  {
    hide CutBy, Prepared, Fits, NormalizedRange, Balanced, Word, PieceRanges;
    var c := body.fragments[0].contribution;
    CutsAreClean(l, t, body, code, pieces, i);
    var from := EndOf(pieces[..i], c.range.start);
    assert CutAt(l, t, body, code, from, c.range.end, pieces[i]);
    CutAdvances(l, t, body, code, from, c.range.end, pieces[i]);
    CutIsClean(l.units[c.unit], from, c.range.end, RangeOf(pieces[i]));
    CleanStarts(|l.units[c.unit].text|, l.units[c.unit].envelopes, RangeOf(pieces[i]).start);
    PieceBalanced(|l.units[c.unit].text|, l.units[c.unit].envelopes, RangeOf(pieces[i]));
  }

  lemma {:induction false} CleanStarts(length: nat, envelopes: seq<Envelope>, p: nat)
    requires WellNested(length, envelopes) && CleanCut(envelopes, p)
    ensures StartsClean(envelopes, p)
  {
    forall e | e in envelopes ensures !SplitsDelimiter(e, p) && e.closing.start != p {
      var i :| 0 <= i < |envelopes| && envelopes[i] == e;
      assert DelimitedAt(length, envelopes, i);
    }
  }

  // ---- What a fragment shows

  /** The stretches of their units that the first n parts show. */
  ghost function ShownRanges(parts: seq<InputPart>, n: nat): seq<TextRange>
    requires n <= |parts|
  {
    if n == 0 then []
    else ShownRanges(parts, n - 1) + seq(|parts[n - 1].contributions|, i requires 0 <= i < |parts[n - 1].contributions| => parts[n - 1].contributions[i].range)
  }

  ghost function Shown(parts: seq<InputPart>): seq<TextRange> {
    ShownRanges(parts, |parts|)
  }

  lemma {:induction false} ShownPrefix(a: seq<InputPart>, b: seq<InputPart>, n: nat)
    requires n <= |a|
    ensures ShownRanges(a + b, n) == ShownRanges(a, n)
  {
    if n > 0 {
      ShownPrefix(a, b, n - 1);
    }
  }

  lemma {:induction false} ShownThen(a: seq<InputPart>, b: seq<InputPart>, n: nat)
    requires n <= |b|
    ensures ShownRanges(a + b, |a| + n) == Shown(a) + ShownRanges(b, n)
  {
    if n == 0 {
      ShownPrefix(a, b, |a|);
    } else {
      ShownThen(a, b, n - 1);
      assert (a + b)[|a| + n - 1] == b[n - 1];
    }
  }

  lemma {:induction false} ShownConcat(a: seq<InputPart>, b: seq<InputPart>)
    ensures Shown(a + b) == Shown(a) + Shown(b)
  {
    ShownThen(a, b, |b|);
  }

  lemma {:induction false} ShownPart(l: Layout, c: Contribution, role: InputRole)
    requires PartOf(l, c, role).Ok?
    ensures Shown([PartOf(l, c, role).value]) == [c.range]
  {
    hide MappedSlice;
    var parts := [PartOf(l, c, role).value];
    assert ShownRanges(parts, 0) == [];
  }

  lemma {:induction false} ShownLayout(text: string, bodyLayout: bool)
    ensures Shown(Formatted(text, bodyLayout)) == []
  {
    var parts := Formatted(text, bodyLayout);
    if text != "" {
      assert ShownRanges(parts, 0) == [];
    }
  }

  lemma {:induction false} RangePartsShow(l: Layout, unit: nat, ranges: seq<TextRange>, role: InputRole, n: nat)
    requires n <= |ranges| && RangeParts(l, unit, ranges, role, n).Ok?
    ensures Shown(RangeParts(l, unit, ranges, role, n).value) == ranges[..n]
  {
    hide PartOf;
    if n > 0 {
      RangePartsShow(l, unit, ranges, role, n - 1);
      ShownPart(l, Contribution(unit, ranges[n - 1]), role);
      ShownConcat(RangeParts(l, unit, ranges, role, n - 1).value, [PartOf(l, Contribution(unit, ranges[n - 1]), role).value]);
    }
  }

  lemma {:induction false} LinePartsShow(l: Layout, unit: nat, lines: seq<TextRange>, role: InputRole, n: nat)
    requires unit < |l.units| && AllInBounds(lines, l.units[unit].text)
    requires n <= |lines| && LineParts(l, unit, lines, role, n).Ok?
    ensures Shown(LineParts(l, unit, lines, role, n).value) == lines[..n]
  {
    hide PartOf, Formatted, Indentation;
    if n > 0 {
      LinePartsShow(l, unit, lines, role, n - 1);
      var part := PartOf(l, Contribution(unit, lines[n - 1]), role).value;
      ShownPart(l, Contribution(unit, lines[n - 1]), role);
      var indent := if Broken(l.units[unit].text, lines[n - 1]) then Formatted(Indentation(l, unit), role.SourceContent?) else [];
      ShownLayout(Indentation(l, unit), role.SourceContent?);
      ShownConcat([part], indent);
      ShownConcat(LineParts(l, unit, lines, role, n - 1).value, [part] + indent);
    }
  }

  /** Split into lines, a stretch shows the same delimiters. */
  lemma {:induction false} LinesWord(envelopes: seq<Envelope>, text: string, start: nat, end: nat)
    requires end <= |text|
    ensures Word(envelopes, Lines(text, start, end)) == Scan(envelopes, start, end)
    decreases end
  {
    if start < end {
      var line := LineStart(text, start, end - 1);
      LinesWord(envelopes, text, start, line);
      WordConcat(envelopes, Lines(text, start, line), [TextRange(line, end)]);
      WordOne(envelopes, TextRange(line, end));
      ScanSplit(envelopes, start, line, end);
    }
  }

  /**
   * The parts that a fragment is prepared as show a balanced word of delimiters exactly when it
   * starts at no closing delimiter.
   */
  lemma {:induction false} FragmentBalanced(l: Layout, c: Contribution)
    requires FragmentParts(l, c).Ok? && WellNested(|l.units[c.unit].text|, l.units[c.unit].envelopes)
    ensures Balanced(Word(l.units[c.unit].envelopes, Shown(FragmentParts(l, c).value)))
       <==> forall e :: e in l.units[c.unit].envelopes ==> e.closing.start != c.range.start
  {
    hide Balanced, Word, PartOf, NormalizedRange, Scan, WellNested;
    var unit := l.units[c.unit];
    var openings := RepeatedOpenings(unit.envelopes, c.range, |unit.envelopes|);
    var closings := RepeatedClosings(unit.envelopes, c.range, |unit.envelopes|);
    var lines := Lines(unit.text, c.range.start, c.range.end);
    LinesInBounds(unit.text, c.range.start, c.range.end);
    var before := RangeParts(l, c.unit, openings, StructuralContext, |openings|).value;
    var source := SourceParts(l, c, SourceContent).value;
    var after := RangeParts(l, c.unit, closings, StructuralContext, |closings|).value;
    RangePartsShow(l, c.unit, openings, StructuralContext, |openings|);
    LinePartsShow(l, c.unit, lines, SourceContent, |lines|);
    RangePartsShow(l, c.unit, closings, StructuralContext, |closings|);
    ShownConcat(before, source);
    ShownConcat(before + source, after);
    assert openings[..|openings|] == openings && lines[..|lines|] == lines && closings[..|closings|] == closings;
    WordConcat(unit.envelopes, openings, lines);
    WordConcat(unit.envelopes, openings + lines, closings);
    LinesWord(unit.envelopes, unit.text, c.range.start, c.range.end);
    PieceWord(unit.envelopes, c.range);
    PieceBalancedExactly(|unit.text|, unit.envelopes, c.range);
  }
}
