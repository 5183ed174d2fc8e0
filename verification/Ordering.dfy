/** Exactly when a prepared chunk's parts walk its fragments in order, and so when its replay is accepted. */
module Ordering {
  import opened Common
  import opened Ranges
  import opened Brackets
  import opened Units
  import opened Layouts
  import opened Preparation
  import opened Splitting
  import opened Conservation
  import opened Coverage
  import opened Replay
  import opened Rebuilding
  import opened Packing

  // ---- What the walk accepts holds the fragments' characters

  ghost predicate Solids(cs: seq<Contribution>) {
    forall i :: 0 <= i < |cs| ==> cs[i].range.start < cs[i].range.end
  }

  /** The characters the walk has passed: whole fragments and the start of the next. */
  ghost function Passed(cs: seq<Contribution>, at: Place): seq<Cell>
    requires at.fragment <= |cs|
  {
    Cells(cs, at.fragment)
    + if at.fragment < |cs| then CellsOf(cs[at.fragment].(range := TextRange(cs[at.fragment].range.start, at.cursor))) else []
  }

  lemma {:induction false} PassNext(cs: seq<Contribution>, at: Place, c: Contribution)
    requires at.fragment < |cs| && c.unit == cs[at.fragment].unit
    requires cs[at.fragment].range.start <= at.cursor == c.range.start < c.range.end
    ensures Passed(cs, at) + CellsOf(c) == Passed(cs, Place(at.fragment, c.range.end))
    ensures c.range.end == cs[at.fragment].range.end ==>
              Passed(cs, Place(at.fragment, c.range.end)) == Passed(cs, Place(at.fragment + 1, CursorAt(cs, at.fragment + 1)))
  {
    hide CellsOf;
    var whole := cs[at.fragment];
    CellsJoin(c.unit, whole.range.start, at.cursor, c.range.end);
    Associative(Cells(cs, at.fragment), CellsOf(whole.(range := TextRange(whole.range.start, at.cursor))), CellsOf(c));
    assert c == Contribution(c.unit, TextRange(at.cursor, c.range.end));
    if c.range.end == whole.range.end {
      assert whole.(range := TextRange(whole.range.start, c.range.end)) == whole;
      var next := at.fragment + 1;
      if next < |cs| {
        NoCells(cs[next].unit, cs[next].range.start);
      }
      assert Cells(cs, next) + [] == Cells(cs, next);
    }
  }

  lemma {:induction false} NothingPassed(cs: seq<Contribution>)
    requires cs != []
    ensures Passed(cs, Place(0, CursorAt(cs, 0))) == []
  {
    NoCells(cs[0].unit, cs[0].range.start);
  }

  lemma {:induction false} FollowPasses(cs: seq<Contribution>, primary: seq<Contribution>, n: nat)
    requires cs != [] && Solids(primary) && n <= |primary| && Follow(cs, primary, n).Some?
    ensures
      var at := Follow(cs, primary, n).value;
      && at.fragment <= |cs|
      && (at.fragment < |cs| ==> cs[at.fragment].range.start <= at.cursor)
      && Cells(primary, n) == Passed(cs, at)
  {
    hide CellsOf, Passed;
    if n == 0 {
      NothingPassed(cs);
    } else {
      FollowPasses(cs, primary, n - 1);
      PassNext(cs, Follow(cs, primary, n - 1).value, primary[n - 1]);
    }
  }

  /** The walk accepts only primary contributions that name the fragments' characters, in order. */
  lemma {:induction false} OrderSound(cs: seq<Contribution>, primary: seq<Contribution>)
    requires Solids(primary) && FollowsFragments(cs, primary)
    ensures AllCells(primary) == AllCells(cs)
  {
    hide CellsOf;
    FollowPasses(cs, primary, |primary|);
    assert Cells(cs, |cs|) + [] == Cells(cs, |cs|);
  }

  // ---- A fragment's lines walk it

  /** Where line j of some lines starts; past the last, where they end. */
  ghost function StartOf(lines: seq<TextRange>, j: nat, end: nat): nat {
    if j < |lines| then lines[j].start else end
  }

  ghost predicate LinesTile(lines: seq<TextRange>, start: nat, end: nat) {
    && StartOf(lines, 0, end) == start
    && forall j :: 0 <= j < |lines| ==> lines[j].start < lines[j].end == StartOf(lines, j + 1, end)
  }

  lemma {:induction false} TilesThenLine(lines: seq<TextRange>, start: nat, mid: nat, end: nat)
    requires LinesTile(lines, start, mid) && mid < end
    ensures LinesTile(lines + [TextRange(mid, end)], start, end)
  {
    var all := lines + [TextRange(mid, end)];
    forall j | 0 <= j < |all| ensures all[j].start < all[j].end == StartOf(all, j + 1, end) {
      if j < |lines| {
        assert lines[j].end == StartOf(lines, j + 1, mid);
      }
    }
  }

  lemma {:induction false} LinesOfTile(text: string, start: nat, end: nat)
    requires start <= end <= |text|
    ensures LinesTile(Lines(text, start, end), start, end)
    decreases end
  {
    if start < end {
      var line := LineStart(text, start, end - 1);
      LinesOfTile(text, start, line);
      TilesThenLine(Lines(text, start, line), start, line, end);
    }
  }

  lemma {:induction false} LineContributionAt(unit: nat, lines: seq<TextRange>, n: nat, j: nat)
    requires j < n <= |lines|
    ensures |LineContributions(unit, lines, n)| == n
    ensures LineContributions(unit, lines, n)[j] == Contribution(unit, lines[j])
  {
    LineCount(unit, lines, n);
    if j < n - 1 {
      LineContributionAt(unit, lines, n - 1, j);
    } else {
      LineCount(unit, lines, n - 1);
    }
  }

  lemma {:induction false} LineCount(unit: nat, lines: seq<TextRange>, n: nat)
    requires n <= |lines|
    ensures |LineContributions(unit, lines, n)| == n
  {
    if n > 0 {
      LineCount(unit, lines, n - 1);
    }
  }

  /** Lines of a fragment at an offset of the primary contributions take the walk through it. */
  lemma {:induction false} LinesWalk(cs: seq<Contribution>, primary: seq<Contribution>, lines: seq<TextRange>, k: nat, offset: nat, j: nat)
    requires k < |cs| && LinesTile(lines, cs[k].range.start, cs[k].range.end) && lines != []
    requires offset + |lines| <= |primary| && j <= |lines|
    requires forall i :: 0 <= i < |lines| ==> primary[offset + i] == Contribution(cs[k].unit, lines[i])
    requires Follow(cs, primary, offset) == Some(Place(k, cs[k].range.start))
    ensures Follow(cs, primary, offset + j)
         == Some(if j < |lines| then Place(k, lines[j].start) else Place(k + 1, CursorAt(cs, k + 1)))
  {
    if j > 0 {
      LinesWalk(cs, primary, lines, k, offset, j - 1);
      var i := j - 1;
      assert primary[offset + i] == Contribution(cs[k].unit, lines[i]);
      assert lines[i].end == StartOf(lines, j, cs[k].range.end);
      LineEnds(lines, cs[k].range.start, cs[k].range.end, i);
    }
  }

  lemma {:induction false} LineEnds(lines: seq<TextRange>, start: nat, end: nat, i: nat)
    requires LinesTile(lines, start, end) && i < |lines|
    ensures lines[i].end <= end && (i + 1 < |lines| ==> lines[i].end < end)
    decreases |lines| - i
  {
    assert lines[i].end == StartOf(lines, i + 1, end);
    if i + 1 < |lines| {
      assert lines[i + 1].start < lines[i + 1].end;
      LineEnds(lines, start, end, i + 1);
    }
  }

  /** Contributions within their units' text, none of them empty. */
  ghost predicate InText(l: Layout, cs: seq<Contribution>) {
    forall i :: 0 <= i < |cs| ==>
      && cs[i].unit < |l.units| && cs[i].range.start < cs[i].range.end
      && InBounds(cs[i].range, l.units[cs[i].unit].text)
  }

  /** A fragment's lines: in its unit, tiling its range. */
  lemma {:induction false} LinesOfWalk(l: Layout, c: Contribution) returns (lines: seq<TextRange>)
    requires InText(l, [c])
    ensures LinesTile(lines, c.range.start, c.range.end) && lines != [] && |LinesOf(l, c)| == |lines|
    ensures forall i :: 0 <= i < |lines| ==> LinesOf(l, c)[i] == Contribution(c.unit, lines[i])
  {
    assert [c][0] == c;
    var text := l.units[c.unit].text;
    lines := Lines(text, c.range.start, c.range.end);
    LinesOfTile(text, c.range.start, c.range.end);
    LineCount(c.unit, lines, |lines|);
    forall i | 0 <= i < |lines| ensures LinesOf(l, c)[i] == Contribution(c.unit, lines[i]) {
      LineContributionAt(c.unit, lines, |lines|, i);
    }
  }

  lemma {:induction false} LinesAt(l: Layout, cs: seq<Contribution>, n: nat)
    requires n < |cs|
    ensures |LinesOfAll(l, cs, n)| + |LinesOf(l, cs[n])| == |LinesOfAll(l, cs, n + 1)| <= |AllLines(l, cs)|
    ensures forall i :: 0 <= i < |LinesOf(l, cs[n])| ==> AllLines(l, cs)[|LinesOfAll(l, cs, n)| + i] == LinesOf(l, cs[n])[i]
  {
    hide LinesOf;
    LinesUpTo(l, cs, n + 1, |cs|);
    var all, upTo := AllLines(l, cs), LinesOfAll(l, cs, n + 1);
    forall i | 0 <= i < |LinesOf(l, cs[n])| ensures all[|LinesOfAll(l, cs, n)| + i] == LinesOf(l, cs[n])[i] {
      var p := |LinesOfAll(l, cs, n)| + i;
      assert all[..|upTo|][p] == upTo[p];
    }
  }

  lemma {:induction false} FollowLines(l: Layout, cs: seq<Contribution>, n: nat)
    requires InText(l, cs) && cs != [] && n <= |cs|
    ensures |LinesOfAll(l, cs, n)| <= |AllLines(l, cs)|
    ensures Follow(cs, AllLines(l, cs), |LinesOfAll(l, cs, n)|) == Some(Place(n, CursorAt(cs, n)))
  {
    hide LinesOf, AllLines, InText;
    if n == 0 {
      assert LinesOfAll(l, cs, 0) == [];
    } else {
      FollowLines(l, cs, n - 1);
      FollowOne(l, cs, n - 1);
    }
  }

  lemma {:induction false} FollowOne(l: Layout, cs: seq<Contribution>, k: nat)
    requires InText(l, cs) && k < |cs|
    requires |LinesOfAll(l, cs, k)| <= |AllLines(l, cs)|
    requires Follow(cs, AllLines(l, cs), |LinesOfAll(l, cs, k)|) == Some(Place(k, cs[k].range.start))
    ensures |LinesOfAll(l, cs, k + 1)| <= |AllLines(l, cs)|
    ensures Follow(cs, AllLines(l, cs), |LinesOfAll(l, cs, k + 1)|) == Some(Place(k + 1, CursorAt(cs, k + 1)))
  {
    hide LinesOf, Follow, AllLines, LinesOfAll;
    LinesAt(l, cs, k);
    assert [cs[k]][0] == cs[k];
    var lines := LinesOfWalk(l, cs[k]);
    LinesWalk(cs, AllLines(l, cs), lines, k, |LinesOfAll(l, cs, k)|, |lines|);
  }

  lemma {:induction false} LinesUpTo(l: Layout, cs: seq<Contribution>, n: nat, m: nat)
    requires n <= m <= |cs|
    ensures |LinesOfAll(l, cs, n)| <= |LinesOfAll(l, cs, m)|
    ensures LinesOfAll(l, cs, m)[..|LinesOfAll(l, cs, n)|] == LinesOfAll(l, cs, n)
  {
    hide LinesOf;
    if n < m {
      LinesUpTo(l, cs, n, m - 1);
    }
  }

  /** A body laid out in its fragments' order passes the walk. */
  lemma {:induction false} OrderComplete(l: Layout, cs: seq<Contribution>)
    requires InText(l, cs) && cs != []
    ensures FollowsFragments(cs, AllLines(l, cs))
  {
    FollowLines(l, cs, |cs|);
  }

  // ---- Lines hold their fragments' characters

  lemma {:induction false} LineCells(unit: nat, lines: seq<TextRange>, start: nat, end: nat, n: nat)
    requires LinesTile(lines, start, end) && n <= |lines|
    ensures start <= StartOf(lines, n, end)
    ensures AllCells(LineContributions(unit, lines, n)) == CellsOf(Contribution(unit, TextRange(start, StartOf(lines, n, end))))
  {
    hide CellsOf;
    if n == 0 {
      NoCells(unit, start);
    } else {
      LineCells(unit, lines, start, end, n - 1);
      var line := lines[n - 1];
      assert line.end == StartOf(lines, n, end);
      CellsConcat(LineContributions(unit, lines, n - 1), [Contribution(unit, line)]);
      CellsOne(Contribution(unit, line));
      CellsJoin(unit, start, line.start, line.end);
    }
  }

  lemma {:induction false} LinesHold(l: Layout, c: Contribution)
    requires InText(l, [c])
    ensures AllCells(LinesOf(l, c)) == CellsOf(c)
  {
    hide CellsOf, AllCells;
    assert [c][0] == c;
    var lines := Lines(l.units[c.unit].text, c.range.start, c.range.end);
    LinesOfTile(l.units[c.unit].text, c.range.start, c.range.end);
    LineCells(c.unit, lines, c.range.start, c.range.end, |lines|);
  }

  lemma {:induction false} AllLinesHold(l: Layout, cs: seq<Contribution>, n: nat)
    requires InText(l, cs) && n <= |cs|
    ensures AllCells(LinesOfAll(l, cs, n)) == Cells(cs, n) && Solids(LinesOfAll(l, cs, n))
  {
    hide CellsOf, LinesOf;
    if n > 0 {
      AllLinesHold(l, cs, n - 1);
      assert [cs[n - 1]][0] == cs[n - 1];
      LinesHold(l, cs[n - 1]);
      CellsConcat(LinesOfAll(l, cs, n - 1), LinesOf(l, cs[n - 1]));
      var lines := LinesOfWalk(l, cs[n - 1]);
    } else {
      assert AllCells([]) == [];
    }
  }

  // ---- The order decides

  /** No character is named twice. */
  ghost predicate Distinct(cells: seq<Cell>) {
    forall i, j :: 0 <= i < j < |cells| ==> cells[i] != cells[j]
  }

  ghost predicate AllAmong(laid: seq<Contribution>, cs: seq<Contribution>) {
    forall i :: 0 <= i < |laid| ==> laid[i] in cs
  }

  lemma {:induction false} CellsGrow(cs: seq<Contribution>, i: nat, j: nat)
    requires Solids(cs) && i < j <= |cs|
    ensures |Cells(cs, i)| < |Cells(cs, j)|
  {
    CellAt(cs, i, 0, j);
  }

  /** Contributions taken from a list without repeated characters, naming its characters in order, are the list. */
  lemma {:induction false} SameOrder(laid: seq<Contribution>, cs: seq<Contribution>, n: nat)
    requires Solids(cs) && AllAmong(laid, cs) && Distinct(AllCells(cs)) && AllCells(laid) == AllCells(cs)
    requires n <= |laid|
    ensures n <= |cs| && laid[..n] == cs[..n]
  {
    hide CellsOf;
    if n > 0 {
      SameOrder(laid, cs, n - 1);
      SamePrefix(laid, cs, n - 1);
      var i := n - 1;
      var k :| 0 <= k < |cs| && cs[k] == laid[i];
      var p := CellAmong(laid, i, 0);
      var q := CellAmong(cs, k, 0);
      assert AllCells(cs)[p] == AllCells(cs)[q];
      assert p == q;
      if k < i {
        CellsGrow(cs, k, i);
      } else if i < k {
        CellsGrow(cs, i, k);
      }
      assert laid[..n] == laid[..i] + [laid[i]] && cs[..n] == cs[..i] + [cs[i]];
    }
  }

  lemma {:induction false} SamePrefix(a: seq<Contribution>, b: seq<Contribution>, n: nat)
    requires n <= |a| && n <= |b| && a[..n] == b[..n]
    ensures Cells(a, n) == Cells(b, n)
  {
    if n > 0 {
      assert a[..n - 1] == a[..n][..n - 1] && b[..n - 1] == b[..n][..n - 1];
      assert a[n - 1] == a[..n][n - 1] && b[n - 1] == b[..n][n - 1];
      SamePrefix(a, b, n - 1);
    }
  }

  lemma {:induction false} SameWhole(laid: seq<Contribution>, cs: seq<Contribution>)
    requires Solids(cs) && AllAmong(laid, cs) && Distinct(AllCells(cs)) && AllCells(laid) == AllCells(cs)
    ensures laid == cs
  {
    SameOrder(laid, cs, |laid|);
    SamePrefix(laid, cs, |laid|);
    if |laid| < |cs| {
      CellsGrow(cs, |laid|, |cs|);
    }
    assert laid[..|laid|] == laid && cs[..|cs|] == cs;
  }

  /** The walk accepts the laid lines exactly when the body is laid out in its fragments' order. */
  lemma {:induction false} OrderDecides(l: Layout, cs: seq<Contribution>, laid: seq<Contribution>)
    requires InText(l, cs) && cs != [] && Distinct(AllCells(cs)) && AllAmong(laid, cs)
    ensures FollowsFragments(cs, AllLines(l, laid)) <==> laid == cs
  {
    hide FollowsFragments, AllLines, AllCells;
    if laid == cs {
      OrderComplete(l, cs);
    }
    if FollowsFragments(cs, AllLines(l, laid)) {
      AmongText(l, laid, cs);
      LaidHolds(l, laid);
      OrderSound(cs, AllLines(l, laid));
      SameWhole(laid, cs);
    }
  }

  lemma {:induction false} LaidHolds(l: Layout, laid: seq<Contribution>)
    requires InText(l, laid)
    ensures AllCells(AllLines(l, laid)) == AllCells(laid) && Solids(AllLines(l, laid))
  {
    AllLinesHold(l, laid, |laid|);
  }

  lemma {:induction false} AmongText(l: Layout, laid: seq<Contribution>, cs: seq<Contribution>)
    requires InText(l, cs) && AllAmong(laid, cs)
    ensures InText(l, laid)
  {
    forall i | 0 <= i < |laid|
      ensures laid[i].unit < |l.units| && laid[i].range.start < laid[i].range.end && InBounds(laid[i].range, l.units[laid[i].unit].text)
    {
      var k :| 0 <= k < |cs| && cs[k] == laid[i];
    }
  }

  // ---- Only fragments are laid out

  lemma {:induction false} CellAmongFragments(l: Layout, cs: seq<Contribution>, cell: Id, n: nat)
    requires n <= |cs|
    ensures AllAmong(InCell(l, cs, cell, n), cs)
  {
    if n > 0 {
      CellAmongFragments(l, cs, cell, n - 1);
    }
  }

  lemma {:induction false} ColumnsAmong(l: Layout, cs: seq<Contribution>, cells: seq<Block>, columns: seq<nat>, n: nat)
    requires n <= |columns|
    ensures AllAmong(InColumns(l, cs, cells, columns, n), cs)
  {
    hide InCell;
    if n > 0 {
      ColumnsAmong(l, cs, cells, columns, n - 1);
      if columns[n - 1] < |cells| {
        CellAmongFragments(l, cs, cells[columns[n - 1]].id, |cs|);
      }
    }
  }

  lemma {:induction false} RowsAmong(l: Layout, cs: seq<Contribution>, windows: seq<TableWindow>, n: nat)
    requires n <= |windows|
    ensures AllAmong(InRows(l, cs, windows, n), cs)
  {
    hide InColumns;
    if n > 0 {
      RowsAmong(l, cs, windows, n - 1);
      ColumnsAmong(l, cs, CellsOfRow(l, windows[n - 1].row), windows[n - 1].columns, |windows[n - 1].columns|);
    }
  }

  lemma {:induction false} LaidAmong(l: Layout, cs: seq<Contribution>, windows: seq<TableWindow>, n: nat)
    requires n <= |cs|
    ensures AllAmong(LaidOrder(l, cs, windows, n), cs)
  {
    hide InRows, l.InTable;
    if n > 0 {
      LaidAmong(l, cs, windows, n - 1);
      RowsAmong(l, cs, windows, |windows|);
    }
  }

  // ---- What replaying accepts

  lemma {:induction false} RebuildPlaced(l: Layout, a: InputPart, b: InputPart, n: nat)
    requires b == a.(preparedRange := b.preparedRange) && n <= |a.contributions|
    ensures Rebuild(l, b, n) == Rebuild(l, a, n)
  {
    hide RebuildNext;
    if n > 0 {
      RebuildPlaced(l, a, b, n - 1);
    }
  }

  lemma {:induction false} ReplayPlaced(l: Layout, a: InputPart, b: InputPart)
    requires b == a.(preparedRange := b.preparedRange)
    ensures ReplayedPart(l, b) == ReplayedPart(l, a) && SeparatorOk(b) == SeparatorOk(a) && IsBody(b) == IsBody(a)
  {
    hide Rebuild;
    RebuildPlaced(l, a, b, |a.contributions|);
  }

  /** Placed parts that each pass their replay tile the prepared input and rebuild both texts. */
  lemma {:induction false} GoPlaced(l: Layout, parts: seq<InputPart>, primary: seq<Contribution>, n: nat)
    requires Yields(l, parts, primary) && n <= |parts|
    ensures Go(l, Placed(parts), n) == Ok(Gone(Texts(parts, n), BodyTexts(parts, n), PrimaryIn(parts, n)))
  {
    hide ReplayedPart, SeparatorOk, PrimaryOf, IsBody;
    if n > 0 {
      GoPlaced(l, parts, primary, n - 1);
      var part, placed := parts[n - 1], Placed(parts)[n - 1];
      GoMade(l, part, placed, Gone(Texts(parts, n - 1), BodyTexts(parts, n - 1), PrimaryIn(parts, n - 1)));
    }
  }

  lemma {:induction false} GoMade(l: Layout, part: InputPart, placed: InputPart, before: Gone)
    requires Made(l, part)
    requires placed == part.(preparedRange := TextRange(|before.prepared|, |before.prepared| + |part.text|))
    ensures GoNext(l, placed, before)
         == Ok(Gone(before.prepared + part.text, before.body + (if IsBody(part) then part.text else ""), before.primary + PrimaryOf(part)))
  {
    hide ReplayedPart, SeparatorOk;
    ReplayPlaced(l, part, placed);
    if part.role.FormattingSeparator? {
      assert before.primary + [] == before.primary;
    }
  }

  /** A prepared body's parts tile its prepared input, pass their replays and yield its laid lines. */
  lemma {:induction false} PreparedGoes(l: Layout, t: Tools, body: Body)
    requires Prepared(l, t, body).Ok? && Visible(l) && AllPrimary(l, Contributions(body.fragments))
    ensures
      var chunk := Prepared(l, t, body).value;
      var cs := Contributions(body.fragments);
      && t.count(chunk.preparedInput) == Ok(chunk.tokenCount) && chunk.bodyText != ""
      && Go(l, chunk.inputParts, |chunk.inputParts|)
         == Ok(Gone(chunk.preparedInput, chunk.bodyText, AllLines(l, LaidOrder(l, cs, body.windows, |cs|))))
  {
    hide BodyParts, Texts, BodyTexts, Placed, ContainerIds, Go, Yields, LaidOrder, AllLines, Visible;
    var cs := Contributions(body.fragments);
    BodyYields(l, t, cs, body.windows);
    var parts := BodyParts(l, t, cs, body.windows).value;
    GoPlaced(l, parts, AllLines(l, LaidOrder(l, cs, body.windows, |cs|)), |parts|);
    YieldsPrimary(l, parts, AllLines(l, LaidOrder(l, cs, body.windows, |cs|)));
  }

  lemma {:induction false} YieldsPrimary(l: Layout, parts: seq<InputPart>, primary: seq<Contribution>)
    requires Yields(l, parts, primary)
    ensures PrimaryIn(parts, |parts|) == primary
  {
  }

  /** The fragments of a chunk in the order it lays them out. */
  ghost predicate InOrder(l: Layout, cs: seq<Contribution>, windows: seq<TableWindow>) {
    LaidOrder(l, cs, windows, |cs|) == cs
  }

  /**
   * The preparer satisfies its replayer. A prepared chunk's part ranges, separators, source parts,
   * texts and count always replay; it is accepted exactly when it lays its fragments out in order.
   */
  lemma {:induction false} ReplayDecides(l: Layout, t: Tools, chunk: ChunkContent)
    requires Replays(l, t, chunk) && Visible(l)
    requires var cs := Contributions(chunk.fragments); AllPrimary(l, cs) && InText(l, cs) && Distinct(AllCells(cs))
    ensures ChunkReplay(l, t, chunk).Ok? <==> InOrder(l, Contributions(chunk.fragments), chunk.windows)
  {
    hide Prepared, Go, LaidOrder, AllLines, FollowsFragments, Visible, Distinct, AllCells;
    var cs := Contributions(chunk.fragments);
    var body := Body(chunk.fragments, chunk.windows);
    PreparedGoes(l, t, body);
    PreparedHolds(l, t, body);
    LaidAmong(l, cs, chunk.windows, |cs|);
    OrderDecides(l, cs, LaidOrder(l, cs, chunk.windows, |cs|));
  }
}
