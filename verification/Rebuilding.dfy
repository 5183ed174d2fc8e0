/**
 * What the preparer's parts are to the replayer: every part of a fragment, of context and of a
 * whole body rebuilds from its contributions, and the primary ones yield the lines of the order
 * the body is laid out in.
 */
module Rebuilding {
  import opened Common
  import opened Ranges
  import opened Brackets
  import opened Units
  import opened Slices
  import opened Layouts
  import opened Preparation
  import opened Splitting
  import opened Conservation
  import opened Replay

  /** A unit with text, whose kept part and delimiters have text too. */
  ghost predicate VisibleUnit(l: Layout, unit: nat)
    requires unit < |l.units|
  {
    && l.units[unit].text != ""
    && (l.Kept(unit).Some? ==> l.Kept(unit).value.start < l.Kept(unit).value.end)
    && forall e :: e in l.units[unit].envelopes ==> e.opening.start < e.opening.end && e.closing.start < e.closing.end
  }

  ghost predicate Visible(l: Layout) {
    forall u :: 0 <= u < |l.units| ==> VisibleUnit(l, u)
  }

  // ---- What parts yield

  function PrimaryOf(part: InputPart): seq<Contribution> {
    if part.role.SourceContent? then part.contributions else []
  }

  /** A part with text that passes its own replay. */
  ghost predicate Made(l: Layout, part: InputPart) {
    && part.text != ""
    && if part.role.FormattingSeparator? then SeparatorOk(part) else ReplayedPart(l, part) == Ok(PrimaryOf(part))
  }

  /** The primary contributions of the first n parts. */
  function PrimaryIn(parts: seq<InputPart>, n: nat): seq<Contribution>
    requires n <= |parts|
  {
    if n == 0 then [] else PrimaryIn(parts, n - 1) + PrimaryOf(parts[n - 1])
  }

  /** Parts that each pass their replay, and whose primary contributions are some list. */
  ghost predicate Yields(l: Layout, parts: seq<InputPart>, primary: seq<Contribution>) {
    && (forall i :: 0 <= i < |parts| ==> Made(l, parts[i]))
    && PrimaryIn(parts, |parts|) == primary
  }

  lemma {:induction false} PrimaryPrefix(a: seq<InputPart>, b: seq<InputPart>, n: nat)
    requires n <= |a|
    ensures PrimaryIn(a + b, n) == PrimaryIn(a, n)
  {
    if n > 0 {
      PrimaryPrefix(a, b, n - 1);
    }
  }

  lemma {:induction false} PrimaryThen(a: seq<InputPart>, b: seq<InputPart>, n: nat)
    requires n <= |b|
    ensures PrimaryIn(a + b, |a| + n) == PrimaryIn(a, |a|) + PrimaryIn(b, n)
  {
    if n == 0 {
      PrimaryPrefix(a, b, |a|);
    } else {
      PrimaryThen(a, b, n - 1);
      assert (a + b)[|a| + n - 1] == b[n - 1];
      Associative(PrimaryIn(a, |a|), PrimaryIn(b, n - 1), PrimaryOf(b[n - 1]));
    }
  }

  lemma {:induction false} YieldNothing(l: Layout)
    ensures Yields(l, [], [])
  {
  }

  lemma {:induction false} YieldBoth(l: Layout, a: seq<InputPart>, p: seq<Contribution>, b: seq<InputPart>, q: seq<Contribution>)
    requires Yields(l, a, p) && Yields(l, b, q)
    ensures Yields(l, a + b, p + q)
  {
    hide Made;
    PrimaryThen(a, b, |b|);
    assert |a + b| == |a| + |b|;
  }

  /** Appending parts without primary source leaves the primary contributions. */
  lemma {:induction false} YieldMore(l: Layout, a: seq<InputPart>, p: seq<Contribution>, b: seq<InputPart>)
    requires Yields(l, a, p) && Yields(l, b, [])
    ensures Yields(l, a + b, p)
  {
    hide Yields;
    YieldBoth(l, a, p, b, []);
    assert p + [] == p;
  }

  lemma {:induction false} YieldFormatted(l: Layout, text: string, bodyLayout: bool)
    ensures Yields(l, Formatted(text, bodyLayout), [])
  {
    hide ReplayedPart;
    var parts := Formatted(text, bodyLayout);
    if text != "" {
      assert PrimaryIn(parts, 0) == [];
    }
  }

  predicate Replayable(role: InputRole) {
    !role.FormattingSeparator?
  }

  /** A part of a unit rebuilds from its one contribution. */
  lemma {:induction false} YieldPart(l: Layout, c: Contribution, role: InputRole)
    requires PartOf(l, c, role).Ok? && Replayable(role) && c.range.start < c.range.end
    requires role.SourceContent? ==> l.units[c.unit].primary
    ensures Yields(l, [PartOf(l, c, role).value], if role.SourceContent? then [c] else [])
  {
    hide MappedSlice;
    var part := PartOf(l, c, role).value;
    var runs := MappedSlice(l.units[c.unit], c.range, l.markdown).value;
    assert AllShifted(runs, 0) == runs;
    assert Rebuild(l, part, 0) == Ok(Rebuilt("", [], []));
    assert "" + part.text == part.text && [] + runs == runs;
    var next := RebuildNext(l, c, role, Rebuilt("", [], []));
    assert Slice(l.units[c.unit].text, c.range) != "";
    assert next.Ok?;
    assert next.value.text == part.text;
    assert next.value.mappings == runs;
    assert next.value.primary == if role.SourceContent? then [c] else [];
    assert Rebuild(l, part, 1) == next;
    assert part.contributions == [c] && PrimaryOf(part) == if role.SourceContent? then [c] else [];
    assert ReplayedPart(l, part) == Ok(PrimaryOf(part));
    assert PrimaryIn([part], 0) == [];
  }

  lemma {:induction false} YieldWhole(l: Layout, unit: nat, role: InputRole)
    requires Visible(l) && WholePart(l, unit, role).Ok? && Replayable(role) && !role.SourceContent?
    ensures Yields(l, [WholePart(l, unit, role).value], [])
  {
    hide PartOf, Yields;
    assert VisibleUnit(l, unit);
    YieldPart(l, Contribution(unit, TextRange(0, |l.units[unit].text|)), role);
  }

  // ---- What a fragment yields

  ghost predicate AllNonempty(ranges: seq<TextRange>) {
    forall i :: 0 <= i < |ranges| ==> ranges[i].start < ranges[i].end
  }

  lemma {:induction false} RangePartsYield(l: Layout, unit: nat, ranges: seq<TextRange>, n: nat)
    requires n <= |ranges| && RangeParts(l, unit, ranges, StructuralContext, n).Ok? && AllNonempty(ranges)
    ensures Yields(l, RangeParts(l, unit, ranges, StructuralContext, n).value, [])
  {
    hide PartOf, Yields;
    if n == 0 {
      YieldNothing(l);
    } else {
      RangePartsYield(l, unit, ranges, n - 1);
      YieldPart(l, Contribution(unit, ranges[n - 1]), StructuralContext);
      YieldMore(l, RangeParts(l, unit, ranges, StructuralContext, n - 1).value, [],
                [PartOf(l, Contribution(unit, ranges[n - 1]), StructuralContext).value]);
    }
  }

  /** The first n lines of a unit as contributions. */
  function LineContributions(unit: nat, lines: seq<TextRange>, n: nat): seq<Contribution>
    requires n <= |lines|
  {
    if n == 0 then [] else LineContributions(unit, lines, n - 1) + [Contribution(unit, lines[n - 1])]
  }

  lemma {:induction false} LinesNonempty(text: string, start: nat, end: nat)
    requires end <= |text|
    ensures AllNonempty(Lines(text, start, end))
    decreases end
  {
    if start < end {
      LinesNonempty(text, start, LineStart(text, start, end - 1));
    }
  }

  lemma {:induction false} LinePartYields(l: Layout, unit: nat, line: TextRange, role: InputRole)
    requires unit < |l.units| && InBounds(line, l.units[unit].text) && line.start < line.end
    requires Replayable(role) && (role.SourceContent? ==> l.units[unit].primary)
    requires PartOf(l, Contribution(unit, line), role).Ok?
    ensures Yields(l, LinePart(l, unit, line, role, PartOf(l, Contribution(unit, line), role).value),
                   if role.SourceContent? then [Contribution(unit, line)] else [])
  {
    hide PartOf, Yields, Formatted, Indentation;
    var part := PartOf(l, Contribution(unit, line), role).value;
    var primary := if role.SourceContent? then [Contribution(unit, line)] else [];
    YieldPart(l, Contribution(unit, line), role);
    if Broken(l.units[unit].text, line) {
      YieldFormatted(l, Indentation(l, unit), role.SourceContent?);
      YieldMore(l, [part], primary, Formatted(Indentation(l, unit), role.SourceContent?));
    } else {
      assert [part] + [] == [part];
    }
  }

  lemma {:induction false} LinePartsYield(l: Layout, unit: nat, lines: seq<TextRange>, role: InputRole, n: nat)
    requires unit < |l.units| && AllInBounds(lines, l.units[unit].text) && AllNonempty(lines)
    requires Replayable(role) && (role.SourceContent? ==> l.units[unit].primary)
    requires n <= |lines| && LineParts(l, unit, lines, role, n).Ok?
    ensures Yields(l, LineParts(l, unit, lines, role, n).value,
                   if role.SourceContent? then LineContributions(unit, lines, n) else [])
  {
    hide PartOf, Yields, LinePart;
    if n == 0 {
      YieldNothing(l);
    } else {
      LinePartsYield(l, unit, lines, role, n - 1);
      LinePartYields(l, unit, lines[n - 1], role);
      var before := LineParts(l, unit, lines, role, n - 1).value;
      var more := LinePart(l, unit, lines[n - 1], role, PartOf(l, Contribution(unit, lines[n - 1]), role).value);
      if role.SourceContent? {
        YieldBoth(l, before, LineContributions(unit, lines, n - 1), more, [Contribution(unit, lines[n - 1])]);
      } else {
        YieldMore(l, before, [], more);
      }
    }
  }

  /** A stretch of a unit as one contribution a line. */
  function LinesOf(l: Layout, c: Contribution): seq<Contribution> {
    if c.unit < |l.units| && c.range.end <= |l.units[c.unit].text| then
      var lines := Lines(l.units[c.unit].text, c.range.start, c.range.end);
      LineContributions(c.unit, lines, |lines|)
    else []
  }

  lemma {:induction false} SourcePartsYield(l: Layout, c: Contribution, role: InputRole)
    requires c.unit < |l.units| && InBounds(c.range, l.units[c.unit].text) && SourceParts(l, c, role).Ok?
    requires Replayable(role) && (role.SourceContent? ==> l.units[c.unit].primary)
    ensures Yields(l, SourceParts(l, c, role).value, if role.SourceContent? then LinesOf(l, c) else [])
  {
    hide Yields, LineParts;
    var text := l.units[c.unit].text;
    LinesInBounds(text, c.range.start, c.range.end);
    LinesNonempty(text, c.range.start, c.range.end);
    var lines := Lines(text, c.range.start, c.range.end);
    LinePartsYield(l, c.unit, lines, role, |lines|);
  }

  lemma {:induction false} OpeningsNonempty(envelopes: seq<Envelope>, r: TextRange, n: nat)
    requires n <= |envelopes|
    requires forall e :: e in envelopes ==> e.opening.start < e.opening.end && e.closing.start < e.closing.end
    ensures AllNonempty(RepeatedOpenings(envelopes, r, n)) && AllNonempty(RepeatedClosings(envelopes, r, n))
  {
    if n > 0 {
      OpeningsNonempty(envelopes, r, n - 1);
      assert envelopes[n - 1] in envelopes;
    }
  }

  /** A primary fragment's parts yield its lines, whatever delimiters they repeat. */
  lemma {:induction false} FragmentYields(l: Layout, c: Contribution)
    requires Visible(l) && FragmentParts(l, c).Ok? && l.units[c.unit].primary
    ensures Yields(l, FragmentParts(l, c).value, LinesOf(l, c))
  {
    hide Yields, RangeParts, SourceParts, LinesOf, NormalizedRange;
    var unit := l.units[c.unit];
    assert VisibleUnit(l, c.unit);
    var openings := RepeatedOpenings(unit.envelopes, c.range, |unit.envelopes|);
    var closings := RepeatedClosings(unit.envelopes, c.range, |unit.envelopes|);
    OpeningsNonempty(unit.envelopes, c.range, |unit.envelopes|);
    RangePartsYield(l, c.unit, openings, |openings|);
    SourcePartsYield(l, c, SourceContent);
    RangePartsYield(l, c.unit, closings, |closings|);
    var before := RangeParts(l, c.unit, openings, StructuralContext, |openings|).value;
    var source := SourceParts(l, c, SourceContent).value;
    var after := RangeParts(l, c.unit, closings, StructuralContext, |closings|).value;
    YieldBoth(l, before, [], source, LinesOf(l, c));
    assert [] + LinesOf(l, c) == LinesOf(l, c);
    YieldMore(l, before + source, LinesOf(l, c), after);
  }

  // ---- What context yields

  lemma {:induction false} WholePartsYield(l: Layout, units: seq<nat>, role: ContextRole, n: nat)
    requires Visible(l) && n <= |units| && WholeParts(l, units, role, n).Ok?
    ensures Yields(l, WholeParts(l, units, role, n).value, [])
  {
    hide Yields, WholePart;
    if n == 0 {
      YieldNothing(l);
    } else {
      WholePartsYield(l, units, role, n - 1);
      YieldWhole(l, units[n - 1], role);
      YieldMore(l, WholeParts(l, units, role, n - 1).value, [], [WholePart(l, units[n - 1], role).value]);
    }
  }

  lemma {:induction false} HeaderPartsYield(l: Layout, columns: seq<seq<nat>>, role: ContextRole, n: nat)
    requires Visible(l) && n <= |columns| && HeaderParts(l, columns, role, n).Ok?
    ensures Yields(l, HeaderParts(l, columns, role, n).value, [])
  {
    hide Yields, WholeParts, Formatted;
    if n == 0 {
      YieldNothing(l);
    } else {
      HeaderPartsYield(l, columns, role, n - 1);
      var before := HeaderParts(l, columns, role, n - 1).value;
      var tab := if n > 1 then Formatted("\t", false) else [];
      YieldNothing(l);
      YieldFormatted(l, "\t", false);
      YieldMore(l, before, [], tab);
      WholePartsYield(l, columns[n - 1], role, |columns[n - 1]|);
      YieldMore(l, before + tab, [], WholeParts(l, columns[n - 1], role, |columns[n - 1]|).value);
    }
  }

  lemma {:induction false} SeparatorYields(l: Layout, previous: nat, unit: nat)
    requires ContextSeparator(l, previous, unit).Ok?
    ensures Yields(l, ContextSeparator(l, previous, unit).value, [])
  {
    hide Yields, Formatted, Indentation;
    var indent := "\n" + Indentation(l, unit);
    YieldNothing(l);
    YieldFormatted(l, indent + indent, false);
    YieldFormatted(l, indent, false);
  }

  lemma {:induction false} ContextUnitsYield(l: Layout, entry: ContextEntry, n: nat)
    requires Visible(l) && n <= |entry.units| && ContextUnits(l, entry, n).Ok?
    ensures Yields(l, ContextUnits(l, entry, n).value.parts, [])
  {
    hide Yields, SourceParts, Formatted, ContextSeparator, l.Kept, Repeat, ListDepth;
    if n == 0 {
      YieldNothing(l);
    } else {
      ContextUnitsYield(l, entry, n - 1);
      var before := ContextUnits(l, entry, n - 1).value;
      var unit := entry.units[n - 1];
      match l.Kept(unit)
      case None =>
      case Some(range) =>
        var separator :=
          if before.previous.Some? then ContextSeparator(l, before.previous.value, unit)
          else if entry.role.ParentListContext? then
            var depth := ListDepth(l, unit);
            Ok(Formatted(Repeat("  ", if depth == 0 then 0 else depth - 1), false))
          else Ok([]);
        assert separator.Ok?;
        YieldNothing(l);
        if before.previous.Some? {
          SeparatorYields(l, before.previous.value, unit);
        } else {
          var depth := ListDepth(l, unit);
          YieldFormatted(l, Repeat("  ", if depth == 0 then 0 else depth - 1), false);
        }
        var c := Contribution(unit, range);
        SourcePartsYield(l, c, entry.role);
        YieldMore(l, before.parts, [], separator.value);
        YieldMore(l, before.parts + separator.value, [], SourceParts(l, c, entry.role).value);
    }
  }

  lemma {:induction false} ContextPartsYield(l: Layout, entry: ContextEntry)
    requires Visible(l) && ContextParts(l, entry).Ok?
    ensures Yields(l, ContextParts(l, entry).value, [])
  {
    hide Yields, HeaderParts, ContextUnits;
    match entry.columns
    case Some(columns) => HeaderPartsYield(l, columns, entry.role, |columns|);
    case None => ContextUnitsYield(l, entry, |entry.units|);
  }

  lemma {:induction false} AllContextYields(l: Layout, entries: seq<ContextEntry>, n: nat)
    requires Visible(l) && n <= |entries| && AllContext(l, entries, n).Ok?
    ensures Yields(l, AllContext(l, entries, n).value, [])
  {
    hide Yields, ContextParts, Formatted;
    YieldNothing(l);
    if n > 0 {
      AllContextYields(l, entries, n - 1);
      ContextPartsYield(l, entries[n - 1]);
      var before := AllContext(l, entries, n - 1).value;
      var context := ContextParts(l, entries[n - 1]).value;
      if context != [] {
        var line := if before == [] then [] else Formatted("\n", false);
        YieldFormatted(l, "\n", false);
        YieldMore(l, before, [], line);
        YieldMore(l, before + line, [], context);
      }
    }
  }

  // ---- The order a body is laid out in

  /** Of the first n contributions, those in one cell. */
  function InCell(l: Layout, cs: seq<Contribution>, cell: Id, n: nat): seq<Contribution>
    requires n <= |cs|
  {
    if n == 0 then []
    else InCell(l, cs, cell, n - 1) + if l.InBlock(cs[n - 1].unit, cell) then [cs[n - 1]] else []
  }

  /** The contributions in the first n columns of a window, column by column. */
  function InColumns(l: Layout, cs: seq<Contribution>, cells: seq<Block>, columns: seq<nat>, n: nat): seq<Contribution>
    requires n <= |columns|
  {
    if n == 0 then []
    else
      InColumns(l, cs, cells, columns, n - 1)
      + if columns[n - 1] < |cells| then InCell(l, cs, cells[columns[n - 1]].id, |cs|) else []
  }

  /** The contributions in the first n windows, row by row. */
  function InRows(l: Layout, cs: seq<Contribution>, windows: seq<TableWindow>, n: nat): seq<Contribution>
    requires n <= |windows|
  {
    if n == 0 then []
    else
      InRows(l, cs, windows, n - 1)
      + InColumns(l, cs, CellsOfRow(l, windows[n - 1].row), windows[n - 1].columns, |windows[n - 1].columns|)
  }

  /** The order in which the first n contributions are laid out: a table's all at its first, row by row. */
  function LaidOrder(l: Layout, cs: seq<Contribution>, windows: seq<TableWindow>, n: nat): seq<Contribution>
    requires n <= |cs|
  {
    if n == 0 then []
    else
      LaidOrder(l, cs, windows, n - 1)
      + if !l.InTable(cs[n - 1].unit) then [cs[n - 1]]
        else if LastInTable(l, cs, n - 1).Some? then []
        else InRows(l, cs, windows, |windows|)
  }

  /** The lines of the first n contributions. */
  function LinesOfAll(l: Layout, cs: seq<Contribution>, n: nat): seq<Contribution>
    requires n <= |cs|
  {
    if n == 0 then [] else LinesOfAll(l, cs, n - 1) + LinesOf(l, cs[n - 1])
  }

  function AllLines(l: Layout, cs: seq<Contribution>): seq<Contribution> {
    LinesOfAll(l, cs, |cs|)
  }

  lemma {:induction false} LinesPrefix(l: Layout, a: seq<Contribution>, b: seq<Contribution>, n: nat)
    requires n <= |a|
    ensures LinesOfAll(l, a + b, n) == LinesOfAll(l, a, n)
  {
    hide LinesOf;
    if n > 0 {
      LinesPrefix(l, a, b, n - 1);
    }
  }

  lemma {:induction false} LinesThen(l: Layout, a: seq<Contribution>, b: seq<Contribution>, n: nat)
    requires n <= |b|
    ensures LinesOfAll(l, a + b, |a| + n) == AllLines(l, a) + LinesOfAll(l, b, n)
  {
    hide LinesOf;
    if n == 0 {
      LinesPrefix(l, a, b, |a|);
    } else {
      LinesThen(l, a, b, n - 1);
      assert (a + b)[|a| + n - 1] == b[n - 1];
      Associative(AllLines(l, a), LinesOfAll(l, b, n - 1), LinesOf(l, b[n - 1]));
    }
  }

  lemma {:induction false} LinesConcat(l: Layout, a: seq<Contribution>, b: seq<Contribution>)
    ensures AllLines(l, a + b) == AllLines(l, a) + AllLines(l, b)
  {
    LinesThen(l, a, b, |b|);
    assert |a + b| == |a| + |b|;
  }

  lemma {:induction false} LinesOne(l: Layout, c: Contribution)
    ensures AllLines(l, [c]) == LinesOf(l, c)
  {
    hide LinesOf;
    assert LinesOfAll(l, [c], 0) == [];
  }

  /** Every fragment of a body is primary text. */
  ghost predicate AllPrimary(l: Layout, cs: seq<Contribution>) {
    forall i :: 0 <= i < |cs| ==> cs[i].unit < |l.units| && l.units[cs[i].unit].primary
  }

  lemma {:induction false} YieldLaid(l: Layout, a: seq<InputPart>, laid: seq<Contribution>, b: seq<InputPart>, more: seq<Contribution>)
    requires Yields(l, a, AllLines(l, laid)) && Yields(l, b, AllLines(l, more))
    ensures Yields(l, a + b, AllLines(l, laid + more))
  {
    hide Yields, AllLines;
    YieldBoth(l, a, AllLines(l, laid), b, AllLines(l, more));
    LinesConcat(l, laid, more);
  }

  lemma {:induction false} YieldLaidNothing(l: Layout)
    ensures Yields(l, [], AllLines(l, []))
  {
  }

  lemma {:induction false} CellYields(l: Layout, cs: seq<Contribution>, cell: Id, n: nat)
    requires Visible(l) && AllPrimary(l, cs) && n <= |cs| && CellParts(l, cs, cell, n).Ok?
    ensures Yields(l, CellParts(l, cs, cell, n).value, AllLines(l, InCell(l, cs, cell, n)))
  {
    hide Yields, FragmentParts, AllLines, Visible;
    if n == 0 {
      YieldLaidNothing(l);
    } else {
      CellYields(l, cs, cell, n - 1);
      if l.InBlock(cs[n - 1].unit, cell) {
        FragmentYields(l, cs[n - 1]);
        LinesOne(l, cs[n - 1]);
        YieldLaid(l, CellParts(l, cs, cell, n - 1).value, InCell(l, cs, cell, n - 1),
                  FragmentParts(l, cs[n - 1]).value, [cs[n - 1]]);
      } else {
        assert InCell(l, cs, cell, n - 1) + [] == InCell(l, cs, cell, n - 1);
      }
    }
  }

  lemma {:induction false} ColumnsYield(l: Layout, cs: seq<Contribution>, cells: seq<Block>, columns: seq<nat>, n: nat)
    requires Visible(l) && AllPrimary(l, cs) && n <= |columns| && ColumnParts(l, cs, cells, columns, n).Ok?
    ensures Yields(l, ColumnParts(l, cs, cells, columns, n).value, AllLines(l, InColumns(l, cs, cells, columns, n)))
  {
    hide Yields, CellParts, InCell, AllLines, Visible, Formatted;
    if n == 0 {
      YieldLaidNothing(l);
    } else {
      ColumnsYield(l, cs, cells, columns, n - 1);
      CellYields(l, cs, cells[columns[n - 1]].id, |cs|);
      var before, laid := ColumnParts(l, cs, cells, columns, n - 1).value, InColumns(l, cs, cells, columns, n - 1);
      var tab := if n > 1 then Formatted("\t", true) else [];
      YieldNothing(l);
      YieldFormatted(l, "\t", true);
      YieldMore(l, before, AllLines(l, laid), tab);
      YieldLaid(l, before + tab, laid, CellParts(l, cs, cells[columns[n - 1]].id, |cs|).value,
                InCell(l, cs, cells[columns[n - 1]].id, |cs|));
    }
  }

  lemma {:induction false} RowsYield(l: Layout, cs: seq<Contribution>, windows: seq<TableWindow>, unit: nat, n: nat)
    requires Visible(l) && AllPrimary(l, cs) && n <= |windows| && RowParts(l, cs, windows, unit, n).Ok?
    ensures Yields(l, RowParts(l, cs, windows, unit, n).value, AllLines(l, InRows(l, cs, windows, n)))
  {
    hide Yields, ColumnParts, InColumns, AllLines, Visible, Formatted, Indentation, l.RowCells;
    if n == 0 {
      YieldLaidNothing(l);
    } else {
      RowsYield(l, cs, windows, unit, n - 1);
      var cells, columns := CellsOfRow(l, windows[n - 1].row), windows[n - 1].columns;
      ColumnsYield(l, cs, cells, columns, |columns|);
      var before, laid := RowParts(l, cs, windows, unit, n - 1).value, InRows(l, cs, windows, n - 1);
      var line := if n > 1 then Formatted("\n" + Indentation(l, unit), true) else [];
      YieldNothing(l);
      YieldFormatted(l, "\n" + Indentation(l, unit), true);
      YieldMore(l, before, AllLines(l, laid), line);
      YieldLaid(l, before + line, laid, ColumnParts(l, cs, cells, columns, |columns|).value,
                InColumns(l, cs, cells, columns, |columns|));
    }
  }

  lemma {:induction false} PrefixYields(l: Layout, unit: nat)
    requires Visible(l) && ItemPrefix(l, unit).Ok?
    ensures Yields(l, ItemPrefix(l, unit).value, [])
  {
    hide Yields, WholePart, Formatted, Visible, OwnedUnits, FirstMarker, l.Nearest, Repeat, ListDepth;
    YieldNothing(l);
    match l.Nearest(unit, {ListItem})
    case None =>
    case Some(item) =>
      var depth := ListDepth(l, unit);
      var indent := Repeat("  ", if depth == 0 then 0 else depth - 1);
      var marker := FirstMarker(l, OwnedUnits(l, item.id, |l.units|), 0).value;
      YieldFormatted(l, indent, true);
      YieldWhole(l, marker, StructuralContext);
      YieldMore(l, Formatted(indent, true), [], [WholePart(l, marker, StructuralContext).value]);
  }

  lemma {:induction false} BodySeparatorYields(l: Layout, previous: nat, unit: nat)
    requires BodySeparator(l, previous, unit).Ok?
    ensures Yields(l, BodySeparator(l, previous, unit).value, [])
  {
    hide Yields, Formatted, Indentation, l.Nearest;
    var indent := "\n" + Indentation(l, unit);
    YieldNothing(l);
    YieldFormatted(l, indent + indent, true);
    YieldFormatted(l, "\n", true);
  }

  /** One more contribution laid out adds its lines, or its table's at the table's first. */
  lemma {:induction false} LayNextYields(l: Layout, cs: seq<Contribution>, windows: seq<TableWindow>, state: Laying, c: Contribution, laid: seq<Contribution>)
    requires Visible(l) && AllPrimary(l, cs) && c in cs
    requires LayNext(l, cs, windows, state, c.unit, c).Ok? && Yields(l, state.parts, AllLines(l, laid))
    ensures
      var next := LayNext(l, cs, windows, state, c.unit, c).value;
      && next.laid == (state.laid || l.InTable(c.unit))
      && Yields(l, next.parts, AllLines(l, laid +
           if !l.InTable(c.unit) then [c] else if state.laid then [] else InRows(l, cs, windows, |windows|)))
  {
    hide Yields, RowParts, InRows, AllLines, Visible, FragmentParts, ItemPrefix, BodySeparator, l.Nearest, l.InTable;
    var row := l.InTable(c.unit);
    if row && state.laid {
      assert laid + [] == laid;
    } else {
      YieldNothing(l);
      var separator := if state.previous.Some? then BodySeparator(l, state.previous.value, c.unit) else Ok([]);
      var item := l.Nearest(c.unit, {ListItem});
      var prefix := if item.Some? && item.value.id !in state.seen then ItemPrefix(l, c.unit) else Ok([]);
      if state.previous.Some? {
        BodySeparatorYields(l, state.previous.value, c.unit);
      }
      if item.Some? && item.value.id !in state.seen {
        PrefixYields(l, c.unit);
      }
      YieldMore(l, state.parts, AllLines(l, laid), separator.value);
      YieldMore(l, state.parts + separator.value, AllLines(l, laid), prefix.value);
      var before := state.parts + separator.value + prefix.value;
      if row {
        RowsYield(l, cs, windows, c.unit, |windows|);
        YieldLaid(l, before, laid, RowParts(l, cs, windows, c.unit, |windows|).value, InRows(l, cs, windows, |windows|));
      } else {
        FragmentYields(l, c);
        LinesOne(l, c);
        YieldLaid(l, before, laid, FragmentParts(l, c).value, [c]);
      }
    }
  }

  lemma {:induction false} LayYields(l: Layout, cs: seq<Contribution>, windows: seq<TableWindow>, n: nat)
    requires Visible(l) && AllPrimary(l, cs) && n <= |cs| && Lay(l, cs, windows, n).Ok?
    ensures
      var state := Lay(l, cs, windows, n).value;
      && state.laid == LastInTable(l, cs, n).Some?
      && Yields(l, state.parts, AllLines(l, LaidOrder(l, cs, windows, n)))
  {
    hide Yields, LayNext, InRows, AllLines, Visible, l.InTable;
    if n == 0 {
      YieldLaidNothing(l);
    } else {
      LayYields(l, cs, windows, n - 1);
      LayNextYields(l, cs, windows, Lay(l, cs, windows, n - 1).value, cs[n - 1], LaidOrder(l, cs, windows, n - 1));
    }
  }

  /** The parts of a body pass their replay, and their primary contributions are its laid order's lines. */
  lemma {:induction false} BodyYields(l: Layout, t: Tools, cs: seq<Contribution>, windows: seq<TableWindow>)
    requires Visible(l) && AllPrimary(l, cs) && BodyParts(l, t, cs, windows).Ok?
    ensures Yields(l, BodyParts(l, t, cs, windows).value, AllLines(l, LaidOrder(l, cs, windows, |cs|)))
  {
    hide Yields, AllContext, Lay, AllLines, LaidOrder, Visible, Formatted;
    var entries := t.select(cs, windows).value;
    AllContextYields(l, entries, |entries|);
    LayYields(l, cs, windows, |cs|);
    var context := AllContext(l, entries, |entries|).value;
    var blank := if context == [] then [] else Formatted("\n\n", false);
    YieldNothing(l);
    YieldFormatted(l, "\n\n", false);
    YieldMore(l, context, [], blank);
    var own, primary := Lay(l, cs, windows, |cs|).value.parts, AllLines(l, LaidOrder(l, cs, windows, |cs|));
    YieldBoth(l, context + blank, [], own, primary);
    assert [] + primary == primary;
  }
}
