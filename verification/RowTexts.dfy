/**
 * The prepared text of table rows of plain units: it always exists, and how long it is. Used to run
 * concrete documents through the packer.
 */
module RowTexts {
  import opened Common
  import opened Ranges
  import opened Brackets
  import opened Units
  import opened Slices
  import opened Layouts
  import opened Preparation

  /** A unit of one line, without wrappers, that maps back to its source. */
  ghost predicate OneLine(l: Layout, unit: nat) {
    && unit < |l.units| && l.units[unit].envelopes == [] && Maps(l.units[unit], l.markdown)
    && forall i :: 0 <= i < |l.units[unit].text| ==> l.units[unit].text[i] != '\n'
  }

  ghost predicate PlainPart(l: Layout, c: Contribution) {
    OneLine(l, c.unit) && c.range.start < c.range.end <= |l.units[c.unit].text|
  }

  ghost predicate AllPlain(l: Layout, cs: seq<Contribution>) {
    forall i :: 0 <= i < |cs| ==> PlainPart(l, cs[i])
  }

  // ---- Sizes

  function Size(parts: seq<InputPart>, n: nat): nat
    requires n <= |parts|
  {
    if n == 0 then 0 else Size(parts, n - 1) + |parts[n - 1].text|
  }

  lemma {:induction false} SizeIs(parts: seq<InputPart>, n: nat)
    requires n <= |parts|
    ensures |Texts(parts, n)| == Size(parts, n)
  {
    if n > 0 {
      SizeIs(parts, n - 1);
    }
  }

  lemma {:induction false} SizePrefix(a: seq<InputPart>, b: seq<InputPart>, n: nat)
    requires n <= |a|
    ensures Size(a + b, n) == Size(a, n)
  {
    if n > 0 {
      SizePrefix(a, b, n - 1);
    }
  }

  lemma {:induction false} SizeThen(a: seq<InputPart>, b: seq<InputPart>, n: nat)
    requires n <= |b|
    ensures Size(a + b, |a| + n) == Size(a, |a|) + Size(b, n)
  {
    if n == 0 {
      SizePrefix(a, b, |a|);
    } else {
      SizeThen(a, b, n - 1);
      assert (a + b)[|a| + n - 1] == b[n - 1];
    }
  }

  /** The size of all parts. */
  function Whole(parts: seq<InputPart>): nat {
    Size(parts, |parts|)
  }

  lemma {:induction false} WholeThen(a: seq<InputPart>, b: seq<InputPart>)
    ensures Whole(a + b) == Whole(a) + Whole(b)
  {
    SizeThen(a, b, |b|);
  }

  /** Body parts with text show in the body's text. */
  lemma {:induction false} BodyShows(parts: seq<InputPart>, i: nat, n: nat)
    requires i < n <= |parts| && IsBody(parts[i]) && parts[i].text != ""
    ensures BodyTexts(parts, n) != ""
  {
    if i < n - 1 {
      BodyShows(parts, i, n - 1);
    }
  }

  ghost predicate AllBody(parts: seq<InputPart>) {
    forall i :: 0 <= i < |parts| ==> IsBody(parts[i]) && parts[i].text != ""
  }

  lemma {:induction false} LayoutText(text: string)
    ensures AllBody(Formatted(text, true)) && Whole(Formatted(text, true)) == |text|
  {
    var parts := Formatted(text, true);
    if text != "" {
      assert Size(parts, 0) == 0;
      assert Size(parts, 1) == |text|;
    }
  }

  lemma {:induction false} RepeatSize(text: string, n: nat)
    ensures |Repeat(text, n)| == n * |text|
  {
    if n > 0 {
      RepeatSize(text, n - 1);
    }
  }

  lemma {:induction false} IndentationSize(l: Layout, unit: nat)
    ensures |Indentation(l, unit)| == 2 * ListDepth(l, unit)
  {
    RepeatSize("  ", ListDepth(l, unit));
  }

  // ---- A fragment

  lemma {:induction false} OneLineIs(text: string, start: nat, end: nat)
    requires start < end <= |text| && forall i :: 0 <= i < |text| ==> text[i] != '\n'
    ensures Lines(text, start, end) == [TextRange(start, end)]
  {
    var line := LineStart(text, start, end - 1);
    assert line == start;
    assert Lines(text, start, start) == [];
  }

  lemma {:induction false} PlainRange(length: nat, range: TextRange)
    requires range.start < range.end <= length
    ensures NormalizedRange(length, [], range.start, range.end) == Some(range)
  {
    assert Plain([], range.start);
  }

  /** A plain stretch is one part: its own text. */
  lemma {:induction false} PlainFragment(l: Layout, c: Contribution)
    requires PlainPart(l, c)
    ensures FragmentParts(l, c).Ok?
    ensures AllBody(FragmentParts(l, c).value) && Whole(FragmentParts(l, c).value) == c.range.end - c.range.start
  {
    hide Maps, NormalizedRange, Lines;
    var unit := l.units[c.unit];
    PlainRange(|unit.text|, c.range);
    var openings, closings := RepeatedOpenings(unit.envelopes, c.range, 0), RepeatedClosings(unit.envelopes, c.range, 0);
    assert openings == [] && closings == [];
    OneLineIs(unit.text, c.range.start, c.range.end);
    PlainLine(l, c);
    var source := SourceParts(l, c, SourceContent).value;
    assert RangeParts(l, c.unit, [], StructuralContext, 0) == Ok([]);
    assert FragmentParts(l, c) == Ok([] + source + []);
    assert [] + source + [] == source;
    assert Size(source, 0) == 0;
  }

  lemma {:induction false} PlainLine(l: Layout, c: Contribution)
    requires PlainPart(l, c) && Lines(l.units[c.unit].text, c.range.start, c.range.end) == [c.range]
    ensures SourceParts(l, c, SourceContent).Ok?
    ensures
      var source := SourceParts(l, c, SourceContent).value;
      |source| == 1 && source[0].role.SourceContent? && source[0].text == Slice(l.units[c.unit].text, c.range)
  {
    hide Maps, Lines, Clipped;
    LinesInBounds(l.units[c.unit].text, c.range.start, c.range.end);
    var lines := [c.range];
    assert LineParts(l, c.unit, lines, SourceContent, 0) == Ok([]);
    var part := PartOf(l, c, SourceContent).value;
    assert LineParts(l, c.unit, lines, SourceContent, 1) == Ok([] + LinePart(l, c.unit, c.range, SourceContent, part));
  }

  // ---- Rows

  /** How long the first n contributions of one cell are. */
  function CellSize(l: Layout, cs: seq<Contribution>, cell: Id, n: nat): nat
    requires n <= |cs|
  {
    if n == 0 then 0
    else
      CellSize(l, cs, cell, n - 1)
      + if l.InBlock(cs[n - 1].unit, cell) && cs[n - 1].range.start < cs[n - 1].range.end
        then cs[n - 1].range.end - cs[n - 1].range.start else 0
  }

  lemma {:induction false} CellIs(l: Layout, cs: seq<Contribution>, cell: Id, n: nat)
    requires AllPlain(l, cs) && n <= |cs|
    ensures CellParts(l, cs, cell, n).Ok?
    ensures AllBody(CellParts(l, cs, cell, n).value) && Whole(CellParts(l, cs, cell, n).value) == CellSize(l, cs, cell, n)
  {
    hide FragmentParts, l.InBlock, IsBody;
    if n > 0 {
      CellIs(l, cs, cell, n - 1);
      assert PlainPart(l, cs[n - 1]);
      PlainFragment(l, cs[n - 1]);
      WholeThen(CellParts(l, cs, cell, n - 1).value, FragmentParts(l, cs[n - 1]).value);
    }
  }

  /** The first n columns of a row: their cells, with a tab between them. */
  function ColumnsSize(l: Layout, cs: seq<Contribution>, cells: seq<Block>, columns: seq<nat>, n: nat): nat
    requires n <= |columns|
  {
    if n == 0 then 0
    else
      ColumnsSize(l, cs, cells, columns, n - 1) + (if n > 1 then 1 else 0)
      + if columns[n - 1] < |cells| then CellSize(l, cs, cells[columns[n - 1]].id, |cs|) else 0
  }

  lemma {:induction false} ColumnsAre(l: Layout, cs: seq<Contribution>, cells: seq<Block>, columns: seq<nat>, n: nat)
    requires AllPlain(l, cs) && n <= |columns| && forall i :: 0 <= i < n ==> columns[i] < |cells|
    ensures ColumnParts(l, cs, cells, columns, n).Ok?
    ensures AllBody(ColumnParts(l, cs, cells, columns, n).value)
    ensures Whole(ColumnParts(l, cs, cells, columns, n).value) == ColumnsSize(l, cs, cells, columns, n)
  {
    hide CellParts, CellSize, AllPlain, IsBody, Formatted;
    if n > 0 {
      ColumnsAre(l, cs, cells, columns, n - 1);
      var before, cell := ColumnParts(l, cs, cells, columns, n - 1).value, cells[columns[n - 1]].id;
      CellIs(l, cs, cell, |cs|);
      LayoutText("\t");
      WholeThen(before, Formatted("\t", true));
      WholeThen(before + Formatted("\t", true), CellParts(l, cs, cell, |cs|).value);
      WholeThen(before, CellParts(l, cs, cell, |cs|).value);
      assert before + [] == before;
    }
  }

  ghost predicate WindowsHold(l: Layout, windows: seq<TableWindow>) {
    forall k :: 0 <= k < |windows| ==> WindowHolds(l, windows[k])
  }

  ghost predicate WindowHolds(l: Layout, window: TableWindow) {
    l.RowCells(window.row).Ok? && forall i :: 0 <= i < |window.columns| ==> window.columns[i] < |l.RowCells(window.row).value|
  }

  /** The first n rows, with a line break and an indentation between them. */
  function RowsSize(l: Layout, cs: seq<Contribution>, windows: seq<TableWindow>, unit: nat, n: nat): nat
    requires n <= |windows|
  {
    if n == 0 then 0
    else
      RowsSize(l, cs, windows, unit, n - 1) + (if n > 1 then 1 + 2 * ListDepth(l, unit) else 0)
      + ColumnsSize(l, cs, CellsOfRow(l, windows[n - 1].row), windows[n - 1].columns, |windows[n - 1].columns|)
  }

  lemma {:induction false} RowsAre(l: Layout, cs: seq<Contribution>, windows: seq<TableWindow>, unit: nat, n: nat)
    requires AllPlain(l, cs) && WindowsHold(l, windows) && n <= |windows|
    ensures RowParts(l, cs, windows, unit, n).Ok?
    ensures AllBody(RowParts(l, cs, windows, unit, n).value)
    ensures Whole(RowParts(l, cs, windows, unit, n).value) == RowsSize(l, cs, windows, unit, n)
  {
    hide ColumnParts, ColumnsSize, AllPlain, IsBody, Formatted, l.RowCells, ListDepth;
    if n > 0 {
      RowsAre(l, cs, windows, unit, n - 1);
      assert WindowHolds(l, windows[n - 1]);
      var before := RowParts(l, cs, windows, unit, n - 1).value;
      var (cells, columns, text) := (l.RowCells(windows[n - 1].row).value, windows[n - 1].columns, "\n" + Indentation(l, unit));
      ColumnsAre(l, cs, cells, columns, |columns|);
      IndentationSize(l, unit);
      LayoutText(text);
      var row := ColumnParts(l, cs, cells, columns, |columns|).value;
      WholeThen(before, Formatted(text, true));
      WholeThen(before + Formatted(text, true), row);
      WholeThen(before, row);
      assert before + [] == before;
    }
  }

  // ---- A body of rows

  ghost predicate AllInTable(l: Layout, cs: seq<Contribution>) {
    forall i :: 0 <= i < |cs| ==> l.InTable(cs[i].unit)
  }

  /** All rows are laid out at the first contribution. */
  lemma {:induction false} RowsLaid(l: Layout, cs: seq<Contribution>, windows: seq<TableWindow>, n: nat)
    requires AllPlain(l, cs) && WindowsHold(l, windows) && AllInTable(l, cs) && 0 < n <= |cs| && ItemPrefix(l, cs[0].unit).Ok?
    ensures Lay(l, cs, windows, n).Ok? && Lay(l, cs, windows, n).value.laid && RowParts(l, cs, windows, cs[0].unit, |windows|).Ok?
    ensures Lay(l, cs, windows, n).value.parts
         == (if l.Nearest(cs[0].unit, {ListItem}).Some? then ItemPrefix(l, cs[0].unit).value else [])
            + RowParts(l, cs, windows, cs[0].unit, |windows|).value
  {
    hide RowParts, AllPlain, WindowsHold, ItemPrefix, l.InTable, l.Nearest, LastInTable;
    if n == 1 {
      RowsAre(l, cs, windows, cs[0].unit, |windows|);
      assert Lay(l, cs, windows, 0) == Ok(Laying([], None, {}, false));
      assert l.InTable(cs[0].unit);
      var prefix := if l.Nearest(cs[0].unit, {ListItem}).Some? then ItemPrefix(l, cs[0].unit).value else [];
      assert [] + [] + prefix == prefix;
    } else {
      RowsLaid(l, cs, windows, n - 1);
      assert l.InTable(cs[n - 1].unit);
    }
  }

  /** Sixty tokens for every character, and no context. */
  const Sixty: Tools := Tools((cs: seq<Contribution>, windows: seq<TableWindow>) => Ok([]), (text: string) => Ok(60 * |text|))

  /** Rows of plain units always make a chunk; what it counts. */
  lemma {:induction false} RowsPrepared(l: Layout, body: Body)
    requires body.fragments != [] && AllPlain(l, Contributions(body.fragments)) && AllInTable(l, Contributions(body.fragments))
    requires WindowsHold(l, body.windows) && l.Owner(body.fragments[0].contribution.unit).Ok?
    requires l.Nearest(body.fragments[0].contribution.unit, {ListItem}).None? || ItemPrefix(l, body.fragments[0].contribution.unit).Ok?
    requires RowsSize(l, Contributions(body.fragments), body.windows, body.fragments[0].contribution.unit, |body.windows|) > 0
    ensures Prepared(l, Sixty, body).Ok?
    ensures
      var (chunk, first) := (Prepared(l, Sixty, body).value, body.fragments[0].contribution.unit);
      var marker := if l.Nearest(first, {ListItem}).Some? then Whole(ItemPrefix(l, first).value) else 0;
      && chunk.tokenCount == 60 * (marker + RowsSize(l, Contributions(body.fragments), body.windows, first, |body.windows|))
      && chunk.fragments == body.fragments && chunk.windows == body.windows
  {
    hide RowParts, AllPlain, WindowsHold, ItemPrefix, l.InTable, l.Nearest, Lay, BodyTexts, Texts, ContainerIds, l.SectionOf, Placed, RowsSize;
    var cs, first := Contributions(body.fragments), body.fragments[0].contribution.unit;
    if l.Nearest(first, {ListItem}).None? {
      NoPrefix(l, first);
    }
    RowsLaid(l, cs, body.windows, |cs|);
    RowsAre(l, cs, body.windows, first, |body.windows|);
    assert AllContext(l, [], 0) == Ok([]);
    var own := Lay(l, cs, body.windows, |cs|).value.parts;
    assert BodyParts(l, Sixty, cs, body.windows) == Ok([] + [] + own);
    assert [] + [] + own == own;
    var rows := RowParts(l, cs, body.windows, first, |body.windows|).value;
    var prefix := own[..|own| - |rows|];
    assert own == prefix + rows;
    WholeThen(prefix, rows);
    SizeIs(own, |own|);
    assert rows != [] by { assert Whole([]) == 0; }
    assert own[|own| - 1] == rows[|rows| - 1];
    BodyShows(own, |own| - 1, |own|);
    assert Whole([]) == 0;
  }

  lemma {:induction false} NoPrefix(l: Layout, unit: nat)
    requires l.Nearest(unit, {ListItem}).None?
    ensures ItemPrefix(l, unit) == Ok([])
  {
  }
}
