/** What a prepared chunk reads as: its text, told from the fragments, their list items, blocks and tables. */
module Reading {
  import opened Common
  import opened Ranges
  import opened Brackets
  import opened Units
  import opened Slices
  import opened Layouts
  import opened Preparation
  import opened Rebuilding

  // ---- The text, told from the fragments

  function Blanks(n: nat): string {
    seq(n, _ => ' ')
  }

  /** How many lists a unit lies in, of its first n blocks. */
  function Lists(path: seq<Block>, n: nat): nat
    requires n <= |path|
  {
    if n == 0 then 0 else Lists(path, n - 1) + if path[n - 1].kind.List? then 1 else 0
  }

  function Depth(l: Layout, unit: nat): nat {
    Lists(l.Ancestors(unit), |l.Ancestors(unit)|)
  }

  /** A line break, with the blanks that its list depth asks for. */
  function NewLine(l: Layout, unit: nat): string {
    "\n" + Blanks(2 * Depth(l, unit))
  }

  /** The innermost list item around a unit. */
  function ItemOf(l: Layout, unit: nat): Option<Id> {
    match l.Nearest(unit, {ListItem}) case Some(item) => Some(item.id) case None => None
  }

  /** Text whose line breaks are followed by the blanks of its list depth. */
  function Indented(text: string, blanks: string, n: nat): string
    requires n <= |text|
  {
    if n == 0 then "" else Indented(text, blanks, n - 1) + [text[n - 1]] + if text[n - 1] == '\n' then blanks else ""
  }

  function Stretch(l: Layout, unit: nat, range: TextRange): string {
    if unit < |l.units| && InBounds(range, l.units[unit].text) then
      var text := Slice(l.units[unit].text, range);
      Indented(text, Blanks(2 * Depth(l, unit)), |text|)
    else ""
  }

  /** The source of some ranges of a unit, one after the other. */
  function Pieced(l: Layout, unit: nat, ranges: seq<TextRange>, n: nat): string
    requires n <= |ranges|
  {
    if n == 0 || unit >= |l.units| then ""
    else Pieced(l, unit, ranges, n - 1) + if InBounds(ranges[n - 1], l.units[unit].text) then Slice(l.units[unit].text, ranges[n - 1]) else ""
  }

  /** A fragment: its text, in the prepared input between the delimiters it repeats. */
  function Shown(l: Layout, c: Contribution, whole: bool): string {
    if !whole || c.unit >= |l.units| then Stretch(l, c.unit, c.range)
    else
      var envelopes := l.units[c.unit].envelopes;
      var (before, after) := (RepeatedOpenings(envelopes, c.range, |envelopes|), RepeatedClosings(envelopes, c.range, |envelopes|));
      Pieced(l, c.unit, before, |before|) + Stretch(l, c.unit, c.range) + Pieced(l, c.unit, after, |after|)
  }

  /** Between two units: a line break between list items, a blank line between blocks of one, nothing inside a block. */
  function Between(l: Layout, previous: nat, unit: nat): string {
    if ItemOf(l, previous) != ItemOf(l, unit) then "\n"
    else if previous < |l.units| && unit < |l.units| && l.units[previous].block != l.units[unit].block then
      NewLine(l, unit) + NewLine(l, unit)
    else ""
  }

  /** The marker of a list item: its first unit that is one. */
  function MarkerFrom(l: Layout, item: Id, u: nat): string
    requires u <= |l.units|
    decreases |l.units| - u
  {
    if u == |l.units| then ""
    else if l.units[u].block == item && l.units[u].field.ListMarker? then l.units[u].text
    else MarkerFrom(l, item, u + 1)
  }

  /** Before a list item's first text: the blanks of the lists around its own, and in the prepared input its marker. */
  function Lead(l: Layout, unit: nat, whole: bool): string {
    match ItemOf(l, unit)
    case None => ""
    case Some(item) => Blanks(2 * (if Depth(l, unit) == 0 then 0 else Depth(l, unit) - 1)) + if whole then MarkerFrom(l, item, 0) else ""
  }

  /** A cell: the body's fragments in it. */
  function CellText(l: Layout, cs: seq<Contribution>, cell: Id, whole: bool, n: nat): string
    requires n <= |cs|
  {
    if n == 0 then "" else CellText(l, cs, cell, whole, n - 1) + if l.InBlock(cs[n - 1].unit, cell) then Shown(l, cs[n - 1], whole) else ""
  }

  /** A row: its cells, with a tab between them. */
  function RowText(l: Layout, cs: seq<Contribution>, cells: seq<Block>, columns: seq<nat>, whole: bool, n: nat): string
    requires n <= |columns|
  {
    if n == 0 then ""
    else
      RowText(l, cs, cells, columns, whole, n - 1) + (if n > 1 then "\t" else "")
      + if columns[n - 1] < |cells| then CellText(l, cs, cells[columns[n - 1]].id, whole, |cs|) else ""
  }

  /** The rows of a table, each on a line as deep as the unit they stand at. */
  function RowsText(l: Layout, cs: seq<Contribution>, windows: seq<TableWindow>, unit: nat, whole: bool, n: nat): string
    requires n <= |windows|
  {
    if n == 0 then ""
    else
      RowsText(l, cs, windows, unit, whole, n - 1) + (if n > 1 then NewLine(l, unit) else "")
      + RowText(l, cs, CellsOfRow(l, windows[n - 1].row), windows[n - 1].columns, whole, |windows[n - 1].columns|)
  }

  /** Whether a fragment is shown where it stands: text outside tables, and the first in one, where all rows are. */
  predicate Stands(l: Layout, cs: seq<Contribution>, i: nat)
    requires i < |cs|
  {
    l.InTable(cs[i].unit) ==> forall j :: 0 <= j < i ==> !l.InTable(cs[j].unit)
  }

  /** The unit that what fragment i shows comes after: the last shown before it, after rows the last of the table. */
  function Before(l: Layout, cs: seq<Contribution>, i: nat): Option<nat>
    requires i <= |cs|
  {
    if i == 0 then None
    else if !Stands(l, cs, i - 1) then Before(l, cs, i - 1)
    else if l.InTable(cs[i - 1].unit) then LastInTable(l, cs, |cs|)
    else Some(cs[i - 1].unit)
  }

  /** Whether a fragment is the first shown of its list item. */
  predicate Leads(l: Layout, cs: seq<Contribution>, i: nat)
    requires i < |cs|
  {
    forall j :: 0 <= j < i && Stands(l, cs, j) ==> ItemOf(l, cs[j].unit) != ItemOf(l, cs[i].unit)
  }

  /** What fragment i adds to the text. */
  function Adds(l: Layout, cs: seq<Contribution>, windows: seq<TableWindow>, whole: bool, i: nat): string
    requires i < |cs|
  {
    var unit := cs[i].unit;
    if !Stands(l, cs, i) then ""
    else
      (match Before(l, cs, i) case Some(previous) => Between(l, previous, unit) case None => "")
      + (if Leads(l, cs, i) then Lead(l, unit, whole) else "")
      + if l.InTable(unit) then RowsText(l, cs, windows, unit, whole, |windows|) else Shown(l, cs[i], whole)
  }

  /** A body's text: of its first n fragments. */
  function Reads(l: Layout, cs: seq<Contribution>, windows: seq<TableWindow>, whole: bool, n: nat): string
    requires n <= |cs|
  {
    if n == 0 then "" else Reads(l, cs, windows, whole, n - 1) + Adds(l, cs, windows, whole, n - 1)
  }

  // ---- What parts read as

  /** The text of parts: all of it, or the body's alone. */
  function TextOf(parts: seq<InputPart>, whole: bool): string {
    if whole then Texts(parts, |parts|) else BodyTexts(parts, |parts|)
  }

  lemma {:induction false} TextsPrefix(a: seq<InputPart>, b: seq<InputPart>, n: nat)
    requires n <= |a|
    ensures Texts(a + b, n) == Texts(a, n) && BodyTexts(a + b, n) == BodyTexts(a, n)
  {
    if n > 0 {
      TextsPrefix(a, b, n - 1);
    }
  }

  lemma {:induction false} TextsThen(a: seq<InputPart>, b: seq<InputPart>, n: nat)
    requires n <= |b|
    ensures Texts(a + b, |a| + n) == Texts(a, |a|) + Texts(b, n)
  {
    if n == 0 {
      TextsPrefix(a, b, |a|);
    } else {
      TextsThen(a, b, n - 1);
      assert (a + b)[|a| + n - 1] == b[n - 1];
    }
  }

  lemma {:induction false} BodyTextsThen(a: seq<InputPart>, b: seq<InputPart>, n: nat)
    requires n <= |b|
    ensures BodyTexts(a + b, |a| + n) == BodyTexts(a, |a|) + BodyTexts(b, n)
  {
    hide IsBody;
    if n == 0 {
      TextsPrefix(a, b, |a|);
    } else {
      BodyTextsThen(a, b, n - 1);
      assert (a + b)[|a| + n - 1] == b[n - 1];
    }
  }

  lemma {:induction false} TextThen(a: seq<InputPart>, b: seq<InputPart>, whole: bool)
    ensures TextOf(a + b, whole) == TextOf(a, whole) + TextOf(b, whole)
  {
    hide Texts, BodyTexts;
    TextsThen(a, b, |b|);
    BodyTextsThen(a, b, |b|);
    assert |a + b| == |a| + |b|;
  }

  lemma {:induction false} NoText(whole: bool)
    ensures TextOf([], whole) == ""
  {
  }

  lemma {:induction false} OneText(part: InputPart, whole: bool)
    ensures TextOf([part], whole) == if whole || IsBody(part) then part.text else ""
  {
    assert Texts([part], 0) == "" && BodyTexts([part], 0) == "";
  }

  lemma {:induction false} FormattedText(text: string, bodyLayout: bool, whole: bool)
    ensures TextOf(Formatted(text, bodyLayout), whole) == if whole || bodyLayout then text else ""
  {
    hide TextOf;
    NoText(whole);
    if text != "" {
      OneText(Formatted(text, bodyLayout)[0], whole);
    }
  }

  // ---- Depth and indentation

  lemma {:induction false} ListsCount(path: seq<Block>, n: nat)
    requires n <= |path|
    ensures |KindsOf(path, {List}, n)| == Lists(path, n)
  {
    if n > 0 {
      ListsCount(path, n - 1);
    }
  }

  lemma {:induction false} DepthIs(l: Layout, unit: nat)
    ensures ListDepth(l, unit) == Depth(l, unit)
  {
    ListsCount(l.Ancestors(unit), |l.Ancestors(unit)|);
  }

  lemma {:induction false} RepeatIs(n: nat)
    ensures Repeat("  ", n) == Blanks(2 * n)
  {
    if n > 0 {
      RepeatIs(n - 1);
    }
  }

  lemma {:induction false} IndentationIs(l: Layout, unit: nat)
    ensures Indentation(l, unit) == Blanks(2 * Depth(l, unit)) && "\n" + Indentation(l, unit) == NewLine(l, unit)
  {
    hide ListDepth, Depth, Blanks;
    DepthIs(l, unit);
    RepeatIs(ListDepth(l, unit));
  }

  // ---- Lines

  lemma {:induction false} IndentedThen(text: string, blanks: string, m: nat, n: nat)
    requires m <= n <= |text|
    ensures Indented(text, blanks, n) == Indented(text, blanks, m) + Indented(text[m..], blanks, n - m)
  {
    if m < n {
      IndentedThen(text, blanks, m, n - 1);
    }
  }

  /** A line without breaks inside it. */
  lemma {:induction false} IndentedLine(text: string, blanks: string, n: nat)
    requires n <= |text| && forall i :: 0 <= i < n ==> text[i] != '\n'
    ensures Indented(text, blanks, n) == text[..n]
  {
    if n > 0 {
      IndentedLine(text, blanks, n - 1);
    }
  }

  lemma {:induction false} OneLineText(l: Layout, unit: nat, line: TextRange, role: InputRole, whole: bool)
    requires unit < |l.units| && line.start < line.end <= |l.units[unit].text|
    requires forall k :: line.start <= k < line.end - 1 ==> l.units[unit].text[k] != '\n'
    requires PartOf(l, Contribution(unit, line), role).Ok?
    ensures
      var part := PartOf(l, Contribution(unit, line), role).value;
      TextOf(LinePart(l, unit, line, role, part), whole)
      == if whole || role.SourceContent? then Stretch(l, unit, line) else ""
  {
    hide MappedSlice, Formatted, TextOf, Depth, Blanks, LinePart, Indented, Indentation;
    var part := PartOf(l, Contribution(unit, line), role).value;
    var (text, blanks) := (Slice(l.units[unit].text, line), Blanks(2 * Depth(l, unit)));
    LinePartText(l, unit, line, role, part, whole);
    OneText(part, whole);
    FormattedText(Indentation(l, unit), role.SourceContent?, whole);
    IndentationIs(l, unit);
    LineIndented(text, blanks);
  }

  lemma {:induction false} LinePartText(l: Layout, unit: nat, line: TextRange, role: InputRole, part: InputPart, whole: bool)
    requires unit < |l.units| && InBounds(line, l.units[unit].text)
    ensures
      TextOf(LinePart(l, unit, line, role, part), whole)
      == TextOf([part], whole) + if Broken(l.units[unit].text, line) then TextOf(Formatted(Indentation(l, unit), role.SourceContent?), whole) else ""
  {
    hide Formatted, TextOf, Indentation;
    TextThen([part], Formatted(Indentation(l, unit), role.SourceContent?), whole);
    assert [part] + [] == [part];
  }

  /** A line is followed by blanks exactly when it ends with a line break. */
  lemma {:induction false} LineIndented(text: string, blanks: string)
    requires text != "" && forall k :: 0 <= k < |text| - 1 ==> text[k] != '\n'
    ensures Indented(text, blanks, |text|) == text + if text[|text| - 1] == '\n' then blanks else ""
  {
    IndentedLine(text, blanks, |text| - 1);
    assert text[..|text| - 1] + [text[|text| - 1]] == text;
  }

  /** The lines of a stretch, one after the other, are the stretch. */
  lemma {:induction false} StretchThen(l: Layout, unit: nat, start: nat, mid: nat, end: nat)
    requires unit < |l.units| && start <= mid <= end <= |l.units[unit].text|
    ensures Stretch(l, unit, TextRange(start, end)) == Stretch(l, unit, TextRange(start, mid)) + Stretch(l, unit, TextRange(mid, end))
  {
    hide Depth, Blanks;
    var (text, blanks) := (l.units[unit].text, Blanks(2 * Depth(l, unit)));
    var all := text[start..end];
    IndentedThen(all, blanks, mid - start, |all|);
    assert all[mid - start..] == text[mid..end];
    IndentedSame(all, text[start..mid], blanks, mid - start);
  }

  lemma {:induction false} IndentedSame(a: string, b: string, blanks: string, n: nat)
    requires n <= |a| && n <= |b| && a[..n] == b[..n]
    ensures Indented(a, blanks, n) == Indented(b, blanks, n)
  {
    if n > 0 {
      assert a[n - 1] == a[..n][n - 1] == b[..n][n - 1] == b[n - 1];
      assert a[..n - 1] == a[..n][..n - 1] && b[..n - 1] == b[..n][..n - 1];
      IndentedSame(a, b, blanks, n - 1);
    }
  }

  lemma {:induction false} LinesRead(l: Layout, unit: nat, start: nat, end: nat, role: InputRole, whole: bool, lines: seq<TextRange>, more: seq<TextRange>)
    requires unit < |l.units| && end <= |l.units[unit].text| && lines == Lines(l.units[unit].text, start, end)
    requires AllInBounds(lines + more, l.units[unit].text) && LineParts(l, unit, lines + more, role, |lines|).Ok?
    ensures TextOf(LineParts(l, unit, lines + more, role, |lines|).value, whole)
         == if (whole || role.SourceContent?) && start <= end then Stretch(l, unit, TextRange(start, end)) else ""
    decreases end
  {
    hide PartOf, LinePart, TextOf, Stretch;
    if end <= start {
      NoText(whole);
      StretchNothing(l, unit, start);
    } else {
      var line := LineStart(l.units[unit].text, start, end - 1);
      var front := Lines(l.units[unit].text, start, line);
      assert lines == front + [TextRange(line, end)];
      assert lines + more == front + ([TextRange(line, end)] + more);
      LinesRead(l, unit, start, line, role, whole, front, [TextRange(line, end)] + more);
      var before := LineParts(l, unit, lines + more, role, |front|).value;
      assert (lines + more)[|front|] == TextRange(line, end);
      var part := PartOf(l, Contribution(unit, TextRange(line, end)), role).value;
      OneLineText(l, unit, TextRange(line, end), role, whole);
      TextThen(before, LinePart(l, unit, TextRange(line, end), role, part), whole);
      StretchThen(l, unit, start, line, end);
    }
  }

  lemma {:induction false} StretchNothing(l: Layout, unit: nat, start: nat)
    ensures Stretch(l, unit, TextRange(start, start)) == ""
  {
  }

  lemma {:induction false} SourceRead(l: Layout, c: Contribution, role: InputRole, whole: bool)
    requires c.unit < |l.units| && InBounds(c.range, l.units[c.unit].text) && SourceParts(l, c, role).Ok?
    ensures TextOf(SourceParts(l, c, role).value, whole) == if whole || role.SourceContent? then Stretch(l, c.unit, c.range) else ""
  {
    hide LineParts, TextOf, Stretch, Lines;
    var lines := Lines(l.units[c.unit].text, c.range.start, c.range.end);
    LinesInBounds(l.units[c.unit].text, c.range.start, c.range.end);
    assert lines + [] == lines;
    LinesRead(l, c.unit, c.range.start, c.range.end, role, whole, lines, []);
  }

  lemma {:induction false} RangesRead(l: Layout, unit: nat, ranges: seq<TextRange>, role: InputRole, whole: bool, n: nat)
    requires n <= |ranges| && !role.SourceContent? && RangeParts(l, unit, ranges, role, n).Ok?
    ensures TextOf(RangeParts(l, unit, ranges, role, n).value, whole) == if whole then Pieced(l, unit, ranges, n) else ""
  {
    hide MappedSlice, TextOf;
    if n == 0 {
      NoText(whole);
    } else {
      RangesRead(l, unit, ranges, role, whole, n - 1);
      var part := PartOf(l, Contribution(unit, ranges[n - 1]), role).value;
      OneText(part, whole);
      TextThen(RangeParts(l, unit, ranges, role, n - 1).value, [part], whole);
    }
  }

  lemma {:induction false} FragmentRead(l: Layout, c: Contribution, whole: bool)
    requires FragmentParts(l, c).Ok?
    ensures TextOf(FragmentParts(l, c).value, whole) == Shown(l, c, whole)
  {
    hide NormalizedRange, RangeParts, SourceParts, TextOf, Stretch, Pieced, RepeatedOpenings, RepeatedClosings;
    var unit := l.units[c.unit];
    var openings := RepeatedOpenings(unit.envelopes, c.range, |unit.envelopes|);
    var closings := RepeatedClosings(unit.envelopes, c.range, |unit.envelopes|);
    var before := RangeParts(l, c.unit, openings, StructuralContext, |openings|).value;
    var source := SourceParts(l, c, SourceContent).value;
    var after := RangeParts(l, c.unit, closings, StructuralContext, |closings|).value;
    RangesRead(l, c.unit, openings, StructuralContext, whole, |openings|);
    RangesRead(l, c.unit, closings, StructuralContext, whole, |closings|);
    SourceRead(l, c, SourceContent, whole);
    TextThen(before, source, whole);
    TextThen(before + source, after, whole);
  }

  // ---- Separators and markers

  lemma {:induction false} SeparatorRead(l: Layout, previous: nat, unit: nat, whole: bool)
    requires BodySeparator(l, previous, unit).Ok?
    ensures TextOf(BodySeparator(l, previous, unit).value, whole) == Between(l, previous, unit)
  {
    hide TextOf, Formatted, Indentation, l.Nearest, Depth, Blanks;
    NoText(whole);
    IndentationIs(l, unit);
    FormattedText("\n", true, whole);
    FormattedText(NewLine(l, unit) + NewLine(l, unit), true, whole);
  }

  lemma {:induction false} OwnedFrom(l: Layout, block: Id, n: nat)
    requires n <= |l.units|
    ensures forall i :: 0 <= i < |OwnedUnits(l, block, n)| ==> OwnedUnits(l, block, n)[i] < n && l.units[OwnedUnits(l, block, n)[i]].block == block
    ensures forall i, j :: 0 <= i < j < |OwnedUnits(l, block, n)| ==> OwnedUnits(l, block, n)[i] < OwnedUnits(l, block, n)[j]
    ensures forall u: nat :: u < n && l.units[u].block == block ==> u in OwnedUnits(l, block, n)
  {
    if n > 0 {
      OwnedFrom(l, block, n - 1);
      var (before, all) := (OwnedUnits(l, block, n - 1), OwnedUnits(l, block, n));
      assert forall u :: u in before ==> u in all;
      if l.units[n - 1].block == block {
        assert all[|before|] == n - 1;
      }
    }
  }

  /** The first marker among an item's units is the first in the document. */
  lemma {:induction false} MarkerRead(l: Layout, item: Id, units: seq<nat>, i: nat, u: nat)
    requires i <= |units| && u <= |l.units| && FirstMarker(l, units, i).Some?
    requires forall k :: i <= k < |units| ==> u <= units[k] < |l.units| && l.units[units[k]].block == item
    requires forall k, m :: i <= k < m < |units| ==> units[k] < units[m]
    requires forall v: nat :: u <= v < |l.units| && l.units[v].block == item ==> exists k :: i <= k < |units| && units[k] == v
    ensures FirstMarker(l, units, i).value < |l.units| && MarkerFrom(l, item, u) == l.units[FirstMarker(l, units, i).value].text
    decreases |l.units| - u
  {
    if u < |l.units| {
      if l.units[u].block != item {
        MarkerRead(l, item, units, i, u + 1);
      } else {
        var k :| i <= k < |units| && units[k] == u;
        assert k == i;
        if !l.units[u].field.ListMarker? {
          MarkerRead(l, item, units, i + 1, u + 1);
        }
      }
    }
  }

  lemma {:induction false} WholeRead(l: Layout, unit: nat, role: InputRole, whole: bool)
    requires !role.SourceContent? && WholePart(l, unit, role).Ok?
    ensures unit < |l.units| && TextOf([WholePart(l, unit, role).value], whole) == if whole then l.units[unit].text else ""
  {
    hide TextOf, MappedSlice;
    OneText(WholePart(l, unit, role).value, whole);
    assert Slice(l.units[unit].text, TextRange(0, |l.units[unit].text|)) == l.units[unit].text;
  }

  lemma {:induction false} PrefixRead(l: Layout, unit: nat, whole: bool)
    requires ItemPrefix(l, unit).Ok?
    ensures TextOf(ItemPrefix(l, unit).value, whole) == Lead(l, unit, whole)
  {
    hide TextOf, Formatted, WholePart, l.Nearest, Depth, Blanks, ListDepth, OwnedUnits, FirstMarker, MarkerFrom;
    NoText(whole);
    if l.Nearest(unit, {ListItem}).Some? {
      var item := l.Nearest(unit, {ListItem}).value;
      DepthIs(l, unit);
      var n := if ListDepth(l, unit) == 0 then 0 else ListDepth(l, unit) - 1;
      RepeatIs(n);
      FormattedText(Repeat("  ", n), true, whole);
      OwnedMarker(l, item.id);
      var marker := FirstMarker(l, OwnedUnits(l, item.id, |l.units|), 0).value;
      WholeRead(l, marker, StructuralContext, whole);
      TextThen(Formatted(Repeat("  ", n), true), [WholePart(l, marker, StructuralContext).value], whole);
    }
  }

  lemma {:induction false} OwnedMarker(l: Layout, item: Id)
    ensures
      var marker := FirstMarker(l, OwnedUnits(l, item, |l.units|), 0);
      marker.Some? ==> marker.value < |l.units| && MarkerFrom(l, item, 0) == l.units[marker.value].text
  {
    hide FirstMarker, MarkerFrom, OwnedUnits;
    var units := OwnedUnits(l, item, |l.units|);
    OwnedFrom(l, item, |l.units|);
    if FirstMarker(l, units, 0).Some? {
      MarkerRead(l, item, units, 0, 0);
    }
  }

  // ---- Rows

  lemma {:induction false} CellRead(l: Layout, cs: seq<Contribution>, cell: Id, whole: bool, n: nat)
    requires n <= |cs| && CellParts(l, cs, cell, n).Ok?
    ensures TextOf(CellParts(l, cs, cell, n).value, whole) == CellText(l, cs, cell, whole, n)
  {
    hide TextOf, FragmentParts, Shown, l.InBlock;
    if n == 0 {
      NoText(whole);
    } else {
      CellRead(l, cs, cell, whole, n - 1);
      if l.InBlock(cs[n - 1].unit, cell) {
        FragmentRead(l, cs[n - 1], whole);
        TextThen(CellParts(l, cs, cell, n - 1).value, FragmentParts(l, cs[n - 1]).value, whole);
      }
    }
  }

  lemma {:induction false} RowRead(l: Layout, cs: seq<Contribution>, cells: seq<Block>, columns: seq<nat>, whole: bool, n: nat)
    requires n <= |columns| && ColumnParts(l, cs, cells, columns, n).Ok?
    ensures TextOf(ColumnParts(l, cs, cells, columns, n).value, whole) == RowText(l, cs, cells, columns, whole, n)
  {
    hide TextOf, CellParts, CellText, Formatted;
    if n == 0 {
      NoText(whole);
    } else {
      RowRead(l, cs, cells, columns, whole, n - 1);
      var before, cell := ColumnParts(l, cs, cells, columns, n - 1).value, cells[columns[n - 1]].id;
      var tab := if n > 1 then Formatted("\t", true) else [];
      CellRead(l, cs, cell, whole, |cs|);
      FormattedText("\t", true, whole);
      NoText(whole);
      TextThen(before, tab, whole);
      TextThen(before + tab, CellParts(l, cs, cell, |cs|).value, whole);
    }
  }

  lemma {:induction false} RowsRead(l: Layout, cs: seq<Contribution>, windows: seq<TableWindow>, unit: nat, whole: bool, n: nat)
    requires n <= |windows| && RowParts(l, cs, windows, unit, n).Ok?
    ensures TextOf(RowParts(l, cs, windows, unit, n).value, whole) == RowsText(l, cs, windows, unit, whole, n)
  {
    hide TextOf, ColumnParts, RowText, Formatted, l.RowCells, Depth, Blanks, Indentation;
    if n == 0 {
      NoText(whole);
    } else {
      RowsRead(l, cs, windows, unit, whole, n - 1);
      var before := RowParts(l, cs, windows, unit, n - 1).value;
      var (cells, columns) := (l.RowCells(windows[n - 1].row).value, windows[n - 1].columns);
      var line := if n > 1 then Formatted("\n" + Indentation(l, unit), true) else [];
      IndentationIs(l, unit);
      RowRead(l, cs, cells, columns, whole, |columns|);
      FormattedText("\n" + Indentation(l, unit), true, whole);
      NoText(whole);
      TextThen(before, line, whole);
      TextThen(before + line, ColumnParts(l, cs, cells, columns, |columns|).value, whole);
    }
  }

  // ---- The body

  /** The last of a body's fragments in a table. */
  lemma {:induction false} LastInTableIs(l: Layout, cs: seq<Contribution>, n: nat)
    requires n <= |cs|
    ensures
      match LastInTable(l, cs, n)
      case None => forall i :: 0 <= i < n ==> !l.InTable(cs[i].unit)
      case Some(unit) => exists i :: 0 <= i < n && cs[i].unit == unit && l.InTable(unit) && forall j :: i < j < n ==> !l.InTable(cs[j].unit)
  {
    hide l.InTable;
    if n > 0 {
      LastInTableIs(l, cs, n - 1);
    }
  }

  /** What laying out the first n fragments has seen. */
  ghost predicate Seen(l: Layout, cs: seq<Contribution>, state: Laying, n: nat)
    requires n <= |cs|
  {
    && state.previous == Before(l, cs, n)
    && (state.laid <==> exists j :: 0 <= j < n && l.InTable(cs[j].unit))
    && forall id: Id :: id in state.seen <==> ItemSeen(l, cs, id, n)
  }

  ghost predicate ItemSeen(l: Layout, cs: seq<Contribution>, id: Id, n: nat)
    requires n <= |cs|
  {
    exists j :: 0 <= j < n && Stands(l, cs, j) && ItemOf(l, cs[j].unit) == Some(id)
  }

  lemma {:induction false} LeadsExactly(l: Layout, cs: seq<Contribution>, state: Laying, n: nat)
    requires n < |cs| && Seen(l, cs, state, n) && ItemOf(l, cs[n].unit).Some?
    ensures Leads(l, cs, n) <==> ItemOf(l, cs[n].unit).value !in state.seen
  {
    hide l.Nearest, l.InTable, Stands, Before;
    assert ItemOf(l, cs[n].unit).value in state.seen <==> ItemSeen(l, cs, ItemOf(l, cs[n].unit).value, n);
  }

  lemma {:induction false} StandsExactly(l: Layout, cs: seq<Contribution>, state: Laying, n: nat)
    requires n < |cs| && Seen(l, cs, state, n)
    ensures Stands(l, cs, n) <==> !(l.InTable(cs[n].unit) && state.laid)
  {
    hide l.InTable, Before, ItemSeen;
  }

  lemma {:induction false} SeenNext(l: Layout, cs: seq<Contribution>, windows: seq<TableWindow>, state: Laying, n: nat)
    requires n < |cs| && Seen(l, cs, state, n) && LayNext(l, cs, windows, state, cs[n].unit, cs[n]).Ok?
    ensures Seen(l, cs, LayNext(l, cs, windows, state, cs[n].unit, cs[n]).value, n + 1)
  {
    hide l.Nearest, l.InTable, RowParts, FragmentParts, BodySeparator, ItemPrefix, LastInTable, Stands;
    StandsExactly(l, cs, state, n);
    var (item, next) := (ItemOf(l, cs[n].unit), LayNext(l, cs, windows, state, cs[n].unit, cs[n]).value);
    forall id: Id ensures ItemSeen(l, cs, id, n + 1) <==> ItemSeen(l, cs, id, n) || (Stands(l, cs, n) && item == Some(id)) {
      if ItemSeen(l, cs, id, n) {
        var j :| 0 <= j < n && Stands(l, cs, j) && ItemOf(l, cs[j].unit) == Some(id);
        assert 0 <= j < n + 1;
      }
    }
    if l.InTable(cs[n].unit) {
      assert exists j :: 0 <= j < n + 1 && l.InTable(cs[j].unit);
    } else if state.laid {
      var j :| 0 <= j < n && l.InTable(cs[j].unit);
      assert 0 <= j < n + 1;
    }
  }

  /** What one more fragment adds to the parts: a separator, an item's prefix, and rows or its own parts. */
  lemma {:induction false} NextParts(l: Layout, cs: seq<Contribution>, windows: seq<TableWindow>, state: Laying, n: nat)
    returns (separator: seq<InputPart>, prefix: seq<InputPart>, own: seq<InputPart>)
    requires n < |cs| && LayNext(l, cs, windows, state, cs[n].unit, cs[n]).Ok? && !(l.InTable(cs[n].unit) && state.laid)
    ensures LayNext(l, cs, windows, state, cs[n].unit, cs[n]).value.parts == state.parts + separator + prefix + own
    ensures if state.previous.None? then separator == [] else BodySeparator(l, state.previous.value, cs[n].unit) == Ok(separator)
    ensures
      if ItemOf(l, cs[n].unit).Some? && ItemOf(l, cs[n].unit).value !in state.seen then ItemPrefix(l, cs[n].unit) == Ok(prefix) else prefix == []
    ensures if l.InTable(cs[n].unit) then RowParts(l, cs, windows, cs[n].unit, |windows|) == Ok(own) else FragmentParts(l, cs[n]) == Ok(own)
  {
    hide l.Nearest, l.InTable, RowParts, FragmentParts, BodySeparator, ItemPrefix, LastInTable;
    var unit := cs[n].unit;
    separator := if state.previous.Some? then BodySeparator(l, state.previous.value, unit).value else [];
    prefix := if ItemOf(l, unit).Some? && ItemOf(l, unit).value !in state.seen then ItemPrefix(l, unit).value else [];
    own := if l.InTable(unit) then RowParts(l, cs, windows, unit, |windows|).value else FragmentParts(l, cs[n]).value;
  }

  lemma {:induction false} FourTexts(a: seq<InputPart>, b: seq<InputPart>, c: seq<InputPart>, d: seq<InputPart>, whole: bool)
    ensures TextOf(a + b + c + d, whole) == TextOf(a, whole) + (TextOf(b, whole) + TextOf(c, whole) + TextOf(d, whole))
  {
    hide TextOf;
    TextThen(a, b, whole);
    TextThen(a + b, c, whole);
    TextThen(a + b + c, d, whole);
    assert TextOf(a, whole) + TextOf(b, whole) + TextOf(c, whole) + TextOf(d, whole)
        == TextOf(a, whole) + (TextOf(b, whole) + TextOf(c, whole) + TextOf(d, whole));
  }

  lemma {:induction false} LeadRead(l: Layout, cs: seq<Contribution>, state: Laying, whole: bool, n: nat, prefix: seq<InputPart>)
    requires n < |cs| && Seen(l, cs, state, n)
    requires
      if ItemOf(l, cs[n].unit).Some? && ItemOf(l, cs[n].unit).value !in state.seen then ItemPrefix(l, cs[n].unit) == Ok(prefix) else prefix == []
    ensures TextOf(prefix, whole) == if Leads(l, cs, n) then Lead(l, cs[n].unit, whole) else ""
  {
    hide TextOf, ItemPrefix, Lead, ItemOf, Leads, Seen;
    NoText(whole);
    NoLead(l, cs[n].unit, whole);
    if ItemOf(l, cs[n].unit).Some? {
      LeadsExactly(l, cs, state, n);
    }
    if ItemPrefix(l, cs[n].unit) == Ok(prefix) {
      PrefixRead(l, cs[n].unit, whole);
    }
  }

  /** One more fragment laid out adds what it reads as. */
  lemma {:induction false} NextRead(l: Layout, cs: seq<Contribution>, windows: seq<TableWindow>, state: Laying, whole: bool, n: nat)
    requires n < |cs| && Seen(l, cs, state, n) && LayNext(l, cs, windows, state, cs[n].unit, cs[n]).Ok?
    ensures TextOf(LayNext(l, cs, windows, state, cs[n].unit, cs[n]).value.parts, whole) == TextOf(state.parts, whole) + Adds(l, cs, windows, whole, n)
  {
    hide l.InTable, RowParts, FragmentParts, BodySeparator, ItemPrefix, LayNext, Stands, Leads, Lead, ItemOf, TextOf, Between, Shown, RowsText, Before, ItemSeen;
    StandsExactly(l, cs, state, n);
    var unit := cs[n].unit;
    if Stands(l, cs, n) {
      var separator, prefix, own := NextParts(l, cs, windows, state, n);
      NoText(whole);
      if state.previous.Some? {
        SeparatorRead(l, state.previous.value, unit, whole);
      }
      LeadRead(l, cs, state, whole, n, prefix);
      if l.InTable(unit) {
        RowsRead(l, cs, windows, unit, whole, |windows|);
      } else {
        FragmentRead(l, cs[n], whole);
      }
      FourTexts(state.parts, separator, prefix, own, whole);
    } else {
      StoodStill(l, cs, windows, state, n);
    }
  }

  lemma {:induction false} StoodStill(l: Layout, cs: seq<Contribution>, windows: seq<TableWindow>, state: Laying, n: nat)
    requires n < |cs| && l.InTable(cs[n].unit) && state.laid
    ensures LayNext(l, cs, windows, state, cs[n].unit, cs[n]) == Ok(state)
  {
    hide l.InTable;
  }

  lemma {:induction false} NoLead(l: Layout, unit: nat, whole: bool)
    ensures ItemOf(l, unit).None? ==> Lead(l, unit, whole) == ""
  {
  }

  lemma {:induction false} LayRead(l: Layout, cs: seq<Contribution>, windows: seq<TableWindow>, whole: bool, n: nat)
    requires n <= |cs| && Lay(l, cs, windows, n).Ok?
    ensures Seen(l, cs, Lay(l, cs, windows, n).value, n)
    ensures TextOf(Lay(l, cs, windows, n).value.parts, whole) == Reads(l, cs, windows, whole, n)
  {
    hide LayNext, TextOf, Adds, Stands, l.InTable, l.Nearest, Before, LastInTable;
    if n == 0 {
      NoText(whole);
      NothingSeen(l, cs);
    } else {
      LayRead(l, cs, windows, whole, n - 1);
      var state := Lay(l, cs, windows, n - 1).value;
      SeenNext(l, cs, windows, state, n - 1);
      NextRead(l, cs, windows, state, whole, n - 1);
    }
  }

  lemma {:induction false} NothingSeen(l: Layout, cs: seq<Contribution>)
    ensures Seen(l, cs, Laying([], None, {}, false), 0)
  {
  }

  // ---- Context

  /** Between two units of context: nothing after a marker, a blank line between blocks, a line break after what a block shows of itself. */
  function ContextBetween(l: Layout, previous: nat, unit: nat): string {
    if previous >= |l.units| || unit >= |l.units| || l.units[previous].field.ListMarker? then ""
    else if l.units[previous].block != l.units[unit].block then NewLine(l, unit) + NewLine(l, unit)
    else if !l.units[previous].primary then NewLine(l, unit)
    else ""
  }

  /** The last of the first n units of which something is kept. */
  function KeptBefore(l: Layout, units: seq<nat>, n: nat): Option<nat>
    requires n <= |units|
  {
    if n == 0 then None else if l.Kept(units[n - 1]).Some? then Some(units[n - 1]) else KeptBefore(l, units, n - 1)
  }

  /** Units of context: the kept part of each, a list's first line as deep as the list. */
  function UnitsText(l: Layout, role: InputRole, units: seq<nat>, n: nat): string
    requires n <= |units|
  {
    if n == 0 then ""
    else if l.Kept(units[n - 1]).None? then UnitsText(l, role, units, n - 1)
    else
      var unit := units[n - 1];
      UnitsText(l, role, units, n - 1)
      + (match KeptBefore(l, units, n - 1)
         case Some(previous) => ContextBetween(l, previous, unit)
         case None => if role.ParentListContext? then Blanks(2 * (if Depth(l, unit) == 0 then 0 else Depth(l, unit) - 1)) else "")
      + Stretch(l, unit, l.Kept(unit).value)
  }

  /** Whole units, one after the other. */
  function WholeText(l: Layout, units: seq<nat>, n: nat): string
    requires n <= |units|
  {
    if n == 0 then "" else WholeText(l, units, n - 1) + if units[n - 1] < |l.units| then l.units[units[n - 1]].text else ""
  }

  /** A table header: its columns, with a tab between them. */
  function HeaderText(l: Layout, columns: seq<seq<nat>>, n: nat): string
    requires n <= |columns|
  {
    if n == 0 then ""
    else HeaderText(l, columns, n - 1) + (if n > 1 then "\t" else "") + WholeText(l, columns[n - 1], |columns[n - 1]|)
  }

  function EntryText(l: Layout, entry: ContextEntry): string {
    match entry.columns
    case Some(columns) => HeaderText(l, columns, |columns|)
    case None => UnitsText(l, entry.role, entry.units, |entry.units|)
  }

  /** A chunk's context: its entries that have text, each on a line. */
  function ContextText(l: Layout, entries: seq<ContextEntry>, n: nat): string
    requires n <= |entries|
  {
    if n == 0 then ""
    else
      var (before, own) := (ContextText(l, entries, n - 1), EntryText(l, entries[n - 1]));
      if own == "" then before else before + (if before == "" then "" else "\n") + own
  }

  /** Parts of context: text, none of it the body's. */
  ghost predicate Around(parts: seq<InputPart>) {
    forall i :: 0 <= i < |parts| ==> parts[i].text != "" && !IsBody(parts[i])
  }

  lemma {:induction false} AroundText(parts: seq<InputPart>, n: nat)
    requires Around(parts) && n <= |parts|
    ensures BodyTexts(parts, n) == "" && (Texts(parts, n) == "" <==> n == 0)
  {
    if n > 0 {
      AroundText(parts, n - 1);
    }
  }

  lemma {:induction false} AroundIs(parts: seq<InputPart>)
    requires Around(parts)
    ensures TextOf(parts, false) == "" && (TextOf(parts, true) == "" <==> parts == [])
  {
    hide Around;
    AroundText(parts, |parts|);
  }

  lemma {:induction false} AroundBoth(a: seq<InputPart>, b: seq<InputPart>)
    requires Around(a) && Around(b)
    ensures Around(a + b)
  {
  }

  lemma {:induction false} AroundFormatted(text: string)
    ensures Around(Formatted(text, false))
  {
  }

  lemma {:induction false} AroundLines(l: Layout, unit: nat, lines: seq<TextRange>, role: ContextRole, n: nat)
    requires unit < |l.units| && AllInBounds(lines, l.units[unit].text) && n <= |lines| && LineParts(l, unit, lines, role, n).Ok?
    requires forall i :: 0 <= i < n ==> lines[i].start < lines[i].end
    ensures Around(LineParts(l, unit, lines, role, n).value)
  {
    hide MappedSlice, Around, Indentation, Formatted;
    if n == 0 {
      AroundNothing();
    } else {
      AroundLines(l, unit, lines, role, n - 1);
      var part := PartOf(l, Contribution(unit, lines[n - 1]), role).value;
      AroundOne(part);
      AroundFormatted(Indentation(l, unit));
      AroundBoth([part], Formatted(Indentation(l, unit), false));
      assert [part] + [] == [part];
      AroundBoth(LineParts(l, unit, lines, role, n - 1).value, LinePart(l, unit, lines[n - 1], role, part));
    }
  }

  lemma {:induction false} AroundNothing()
    ensures Around([])
  {
  }

  lemma {:induction false} AroundOne(part: InputPart)
    ensures Around([part]) <==> part.text != "" && !IsBody(part)
  {
    assert [part][0] == part;
  }

  lemma {:induction false} SourceAround(l: Layout, c: Contribution, role: ContextRole)
    requires c.unit < |l.units| && InBounds(c.range, l.units[c.unit].text) && SourceParts(l, c, role).Ok?
    ensures Around(SourceParts(l, c, role).value)
  {
    hide LineParts, Around, Lines;
    LinesInBounds(l.units[c.unit].text, c.range.start, c.range.end);
    LinesSome(l.units[c.unit].text, c.range.start, c.range.end);
    var lines := Lines(l.units[c.unit].text, c.range.start, c.range.end);
    AroundLines(l, c.unit, lines, role, |lines|);
  }

  lemma {:induction false} LinesSome(text: string, start: nat, end: nat)
    requires end <= |text|
    ensures forall i :: 0 <= i < |Lines(text, start, end)| ==> Lines(text, start, end)[i].start < Lines(text, start, end)[i].end
    decreases end
  {
    if start < end {
      LinesSome(text, start, LineStart(text, start, end - 1));
    }
  }

  lemma {:induction false} ContextSeparatorRead(l: Layout, previous: nat, unit: nat)
    requires ContextSeparator(l, previous, unit).Ok?
    ensures Around(ContextSeparator(l, previous, unit).value)
    ensures previous < |l.units| && unit < |l.units| ==> TextOf(ContextSeparator(l, previous, unit).value, true) == ContextBetween(l, previous, unit)
  {
    hide TextOf, Formatted, Indentation, Around, Depth, Blanks;
    NoText(true);
    AroundNothing();
    IndentationIs(l, unit);
    FormattedText(NewLine(l, unit) + NewLine(l, unit), false, true);
    FormattedText(NewLine(l, unit), false, true);
    AroundFormatted(NewLine(l, unit) + NewLine(l, unit));
    AroundFormatted(NewLine(l, unit));
  }

  lemma {:induction false} UnitsRead(l: Layout, entry: ContextEntry, n: nat)
    requires n <= |entry.units| && ContextUnits(l, entry, n).Ok?
    ensures
      var gathered := ContextUnits(l, entry, n).value;
      && Around(gathered.parts) && TextOf(gathered.parts, true) == UnitsText(l, entry.role, entry.units, n)
      && gathered.previous == KeptBefore(l, entry.units, n) && (gathered.previous.Some? ==> gathered.previous.value < |l.units|)
  {
    hide TextOf, Around, SourceParts, ContextSeparator, Formatted, Stretch, Depth, Blanks, ListDepth, ContextBetween;
    if n == 0 {
      NoText(true);
      AroundNothing();
    } else {
      UnitsRead(l, entry, n - 1);
      var (before, unit) := (ContextUnits(l, entry, n - 1).value, entry.units[n - 1]);
      if l.Kept(unit).Some? {
        DepthIs(l, unit);
        var deep := if ListDepth(l, unit) == 0 then 0 else ListDepth(l, unit) - 1;
        RepeatIs(deep);
        FormattedText(Repeat("  ", deep), false, true);
        AroundFormatted(Repeat("  ", deep));
        AroundNothing();
        NoText(true);
        var separator := if before.previous.Some? then ContextSeparator(l, before.previous.value, unit).value
                         else if entry.role.ParentListContext? then Formatted(Repeat("  ", deep), false) else [];
        if before.previous.Some? {
          ContextSeparatorRead(l, before.previous.value, unit);
        }
        var c := Contribution(unit, l.Kept(unit).value);
        SourceRead(l, c, entry.role, true);
        SourceAround(l, c, entry.role);
        TextThen(before.parts, separator, true);
        TextThen(before.parts + separator, SourceParts(l, c, entry.role).value, true);
        AroundBoth(before.parts, separator);
        AroundBoth(before.parts + separator, SourceParts(l, c, entry.role).value);
      }
    }
  }

  lemma {:induction false} WholesRead(l: Layout, units: seq<nat>, role: ContextRole, n: nat)
    requires Visible(l) && n <= |units| && WholeParts(l, units, role, n).Ok?
    ensures Around(WholeParts(l, units, role, n).value) && TextOf(WholeParts(l, units, role, n).value, true) == WholeText(l, units, n)
  {
    hide TextOf, Around, MappedSlice;
    if n == 0 {
      NoText(true);
      AroundNothing();
    } else {
      WholesRead(l, units, role, n - 1);
      var part := WholePart(l, units[n - 1], role).value;
      WholeRead(l, units[n - 1], role, true);
      assert VisibleUnit(l, units[n - 1]);
      AroundOne(part);
      AroundBoth(WholeParts(l, units, role, n - 1).value, [part]);
      TextThen(WholeParts(l, units, role, n - 1).value, [part], true);
    }
  }

  lemma {:induction false} HeaderRead(l: Layout, columns: seq<seq<nat>>, role: ContextRole, n: nat)
    requires Visible(l) && n <= |columns| && HeaderParts(l, columns, role, n).Ok?
    ensures Around(HeaderParts(l, columns, role, n).value) && TextOf(HeaderParts(l, columns, role, n).value, true) == HeaderText(l, columns, n)
  {
    hide TextOf, Around, WholeParts, WholeText, Formatted, Visible;
    if n == 0 {
      NoText(true);
      AroundNothing();
    } else {
      HeaderRead(l, columns, role, n - 1);
      var (before, column) := (HeaderParts(l, columns, role, n - 1).value, WholeParts(l, columns[n - 1], role, |columns[n - 1]|).value);
      var tab := if n > 1 then Formatted("\t", false) else [];
      WholesRead(l, columns[n - 1], role, |columns[n - 1]|);
      FormattedText("\t", false, true);
      AroundFormatted("\t");
      NoText(true);
      AroundNothing();
      TextThen(before, tab, true);
      TextThen(before + tab, column, true);
      AroundBoth(before, tab);
      AroundBoth(before + tab, column);
    }
  }

  lemma {:induction false} EntryRead(l: Layout, entry: ContextEntry)
    requires Visible(l) && ContextParts(l, entry).Ok?
    ensures Around(ContextParts(l, entry).value) && TextOf(ContextParts(l, entry).value, true) == EntryText(l, entry)
  {
    hide TextOf, Around, ContextUnits, HeaderParts, Visible, HeaderText, UnitsText;
    match entry.columns
    case Some(columns) => HeaderRead(l, columns, entry.role, |columns|);
    case None => UnitsRead(l, entry, |entry.units|);
  }

  lemma {:induction false} ContextRead(l: Layout, entries: seq<ContextEntry>, n: nat)
    requires Visible(l) && n <= |entries| && AllContext(l, entries, n).Ok?
    ensures Around(AllContext(l, entries, n).value) && TextOf(AllContext(l, entries, n).value, true) == ContextText(l, entries, n)
  {
    hide TextOf, Around, ContextParts, Visible, EntryText, Formatted;
    if n == 0 {
      NoText(true);
      AroundNothing();
    } else {
      ContextRead(l, entries, n - 1);
      EntryRead(l, entries[n - 1]);
      var (before, own) := (AllContext(l, entries, n - 1).value, ContextParts(l, entries[n - 1]).value);
      var line := if before == [] then [] else Formatted("\n", false);
      AroundIs(before);
      AroundIs(own);
      FormattedText("\n", false, true);
      AroundFormatted("\n");
      NoText(true);
      AroundNothing();
      TextThen(before, line, true);
      TextThen(before + line, own, true);
      AroundBoth(before, line);
      AroundBoth(before + line, own);
    }
  }

  // ---- The chunk

  /**
   * What a prepared chunk reads as. Its body text is its fragments' text alone, with the line breaks,
   * blanks and tabs of its layout; its prepared input is the context, a blank line if there is any,
   * and the body with list markers and repeated delimiters.
   */
  lemma {:induction false} PreparedReads(l: Layout, t: Tools, body: Body)
    requires Visible(l) && Prepared(l, t, body).Ok?
    ensures t.select(Contributions(body.fragments), body.windows).Ok?
    ensures
      var (chunk, cs) := (Prepared(l, t, body).value, Contributions(body.fragments));
      var entries := t.select(cs, body.windows).value;
      var context := ContextText(l, entries, |entries|);
      && chunk.bodyText == Reads(l, cs, body.windows, false, |cs|)
      && chunk.preparedInput == context + (if context == "" then "" else "\n\n") + Reads(l, cs, body.windows, true, |cs|)
      && t.count(chunk.preparedInput) == Ok(chunk.tokenCount)
  {
    hide TextOf, Around, AllContext, Lay, Reads, ContextText, Visible, Formatted, Placed, ContainerIds, l.SectionOf, l.Owner;
    var cs := Contributions(body.fragments);
    var entries := t.select(cs, body.windows).value;
    var (context, own) := (AllContext(l, entries, |entries|).value, Lay(l, cs, body.windows, |cs|).value.parts);
    var line := if context == [] then [] else Formatted("\n\n", false);
    var parts := BodyParts(l, t, cs, body.windows).value;
    assert parts == context + line + own;
    ContextRead(l, entries, |entries|);
    AroundIs(context);
    PreparedTexts(l, t, body, parts);
    forall whole: bool ensures TextOf(parts, whole) == TextOf(context, whole) + TextOf(line, whole) + Reads(l, cs, body.windows, whole, |cs|) {
      LayRead(l, cs, body.windows, whole, |cs|);
      TextThen(context, line, whole);
      TextThen(context + line, own, whole);
    }
    NoText(true);
    NoText(false);
    FormattedText("\n\n", false, true);
    FormattedText("\n\n", false, false);
  }

  lemma {:induction false} PreparedTexts(l: Layout, t: Tools, body: Body, parts: seq<InputPart>)
    requires Prepared(l, t, body).Ok? && BodyParts(l, t, Contributions(body.fragments), body.windows) == Ok(parts)
    ensures
      var chunk := Prepared(l, t, body).value;
      && chunk.preparedInput == TextOf(parts, true) && chunk.bodyText == TextOf(parts, false)
      && t.count(chunk.preparedInput) == Ok(chunk.tokenCount)
  {
    hide BodyParts, Texts, BodyTexts, Placed, ContainerIds;
  }

  // ---- Containers

  lemma {:induction false} AddedIds(ids: seq<Id>, path: seq<Block>, n: nat)
    requires n <= |path| && forall i, j :: 0 <= i < j < |ids| ==> ids[i] != ids[j]
    ensures
      var all := AddIds(ids, path, n);
      && (forall i, j :: 0 <= i < j < |all| ==> all[i] != all[j]) && ids <= all
      && forall id: Id :: id in all <==> id in ids || exists k :: 0 <= k < n && path[k].id == id
  {
    if n > 0 {
      AddedIds(ids, path, n - 1);
    }
  }

  /** A chunk names every block around its fragments, once, those of earlier fragments first. */
  lemma {:induction false} ContainersExactly(l: Layout, cs: seq<Contribution>, n: nat)
    requires n <= |cs|
    ensures
      var ids := ContainerIds(l, cs, n);
      && (forall i, j :: 0 <= i < j < |ids| ==> ids[i] != ids[j])
      && (forall m :: 0 <= m <= n ==> ContainerIds(l, cs, m) <= ids)
      && forall id: Id :: id in ids <==> exists i, k :: 0 <= i < n && 0 <= k < |l.Ancestors(cs[i].unit)| && l.Ancestors(cs[i].unit)[k].id == id
  {
    if n > 0 {
      ContainersExactly(l, cs, n - 1);
      var path := l.Ancestors(cs[n - 1].unit);
      AddedIds(ContainerIds(l, cs, n - 1), path, |path|);
    }
  }
}
