/** What the parts of a prepared chunk are: each one's role, and the source it names. */
module Parts {
  import opened Common
  import opened Ranges
  import opened Brackets
  import opened Units
  import opened Slices
  import opened Layouts
  import opened Preparation

  /** Whether a part names one stretch of source, in a role. */
  predicate Names(part: InputPart, role: InputRole, c: Contribution) {
    part.role == role && part.contributions == [c] && !part.bodyLayout
  }

  predicate Within(inner: Contribution, outer: Contribution) {
    inner.unit == outer.unit && outer.range.start <= inner.range.start && inner.range.end <= outer.range.end
  }

  /** Whether a part is formatting, or a line of a contribution in a role. */
  ghost predicate LineOf(part: InputPart, role: InputRole, c: Contribution) {
    part.role.FormattingSeparator? || exists line: Contribution :: Names(part, role, line) && Within(line, c)
  }

  /** Whether a part repeats a delimiter of a unit. */
  ghost predicate Repeats(l: Layout, part: InputPart, unit: nat) {
    && unit < |l.units|
    && exists e :: e in l.units[unit].envelopes
                   && (Names(part, StructuralContext, Contribution(unit, e.opening)) || Names(part, StructuralContext, Contribution(unit, e.closing)))
  }

  /** Whether a part is a whole list marker. */
  ghost predicate IsMarker(l: Layout, part: InputPart) {
    exists unit: nat :: unit < |l.units| && l.units[unit].field.ListMarker?
                        && Names(part, StructuralContext, Contribution(unit, TextRange(0, |l.units[unit].text|)))
  }

  /** A part of a body: formatting, a line of one of its contributions as source, a delimiter repeated for one, or a marker. */
  ghost predicate OfBody(l: Layout, cs: seq<Contribution>, part: InputPart) {
    || part.role.FormattingSeparator?
    || IsMarker(l, part)
    || exists c :: c in cs && (LineOf(part, SourceContent, c) || Repeats(l, part, c.unit))
  }

  /** A part of the context: formatting, or text of a unit that an entry names, in the entry's role. */
  ghost predicate OfEntry(entry: ContextEntry, part: InputPart) {
    || part.role.FormattingSeparator?
    || exists c: Contribution :: Names(part, entry.role, c) && Listed(entry, c.unit)
  }

  predicate Listed(entry: ContextEntry, unit: nat) {
    match entry.columns
    case Some(columns) => exists column :: column in columns && unit in column
    case None => unit in entry.units
  }

  ghost predicate OfContext(entries: seq<ContextEntry>, part: InputPart) {
    part.role.FormattingSeparator? || exists k :: 0 <= k < |entries| && OfEntry(entries[k], part)
  }

  // ---- Lines of source

  lemma {:induction false} LinesInside(text: string, start: nat, end: nat)
    requires end <= |text|
    ensures forall i :: 0 <= i < |Lines(text, start, end)| ==> start <= Lines(text, start, end)[i].start && Lines(text, start, end)[i].end <= end
    decreases end
  {
    if start < end {
      LinesInside(text, start, LineStart(text, start, end - 1));
    }
  }

  lemma {:induction false} FormattedIs(text: string, bodyLayout: bool)
    ensures forall i :: 0 <= i < |Formatted(text, bodyLayout)| ==> Formatted(text, bodyLayout)[i].role.FormattingSeparator?
  {
  }

  lemma {:induction false} PartNames(l: Layout, c: Contribution, role: InputRole)
    requires PartOf(l, c, role).Ok?
    ensures Names(PartOf(l, c, role).value, role, c)
  {
    hide MappedSlice;
  }

  lemma {:induction false} LinesAre(l: Layout, unit: nat, lines: seq<TextRange>, role: InputRole, n: nat, c: Contribution)
    requires unit < |l.units| && AllInBounds(lines, l.units[unit].text) && n <= |lines|
    requires LineParts(l, unit, lines, role, n).Ok? && c.unit == unit
    requires forall i :: 0 <= i < |lines| ==> c.range.start <= lines[i].start && lines[i].end <= c.range.end
    ensures forall part :: part in LineParts(l, unit, lines, role, n).value ==> LineOf(part, role, c)
  {
    hide PartOf, Formatted;
    if n > 0 {
      LinesAre(l, unit, lines, role, n - 1, c);
      PartNames(l, Contribution(unit, lines[n - 1]), role);
      FormattedIs(Indentation(l, unit), role.SourceContent?);
      var line := Contribution(unit, lines[n - 1]);
      assert Within(line, c);
    }
  }

  lemma {:induction false} SourceAre(l: Layout, c: Contribution, role: InputRole)
    requires c.unit < |l.units| && InBounds(c.range, l.units[c.unit].text) && SourceParts(l, c, role).Ok?
    ensures forall part :: part in SourceParts(l, c, role).value ==> LineOf(part, role, c)
  {
    hide LineParts, Lines, LineOf;
    LinesInBounds(l.units[c.unit].text, c.range.start, c.range.end);
    LinesInside(l.units[c.unit].text, c.range.start, c.range.end);
    var lines := Lines(l.units[c.unit].text, c.range.start, c.range.end);
    LinesAre(l, c.unit, lines, role, |lines|, c);
  }

  // ---- Fragments

  lemma {:induction false} RangesAre(l: Layout, unit: nat, ranges: seq<TextRange>, n: nat)
    requires n <= |ranges| && RangeParts(l, unit, ranges, StructuralContext, n).Ok? && unit < |l.units|
    requires forall r :: r in ranges ==> exists e :: e in l.units[unit].envelopes && (r == e.opening || r == e.closing)
    ensures forall part :: part in RangeParts(l, unit, ranges, StructuralContext, n).value ==> Repeats(l, part, unit)
  {
    hide PartOf;
    if n > 0 {
      RangesAre(l, unit, ranges, n - 1);
      PartNames(l, Contribution(unit, ranges[n - 1]), StructuralContext);
      assert ranges[n - 1] in ranges;
      var e :| e in l.units[unit].envelopes && (ranges[n - 1] == e.opening || ranges[n - 1] == e.closing);
    }
  }

  lemma {:induction false} OpeningsAre(envelopes: seq<Envelope>, range: TextRange, n: nat)
    requires n <= |envelopes|
    ensures forall r :: r in RepeatedOpenings(envelopes, range, n) ==> exists e :: e in envelopes && r == e.opening
    ensures forall r :: r in RepeatedClosings(envelopes, range, n) ==> exists e :: e in envelopes && r == e.closing
  {
    if n > 0 {
      OpeningsAre(envelopes, range, n - 1);
      assert envelopes[n - 1] in envelopes;
    }
  }

  lemma {:induction false} FragmentIs(l: Layout, c: Contribution)
    requires FragmentParts(l, c).Ok?
    ensures forall part :: part in FragmentParts(l, c).value ==> LineOf(part, SourceContent, c) || Repeats(l, part, c.unit)
  {
    hide NormalizedRange, SourceParts, RangeParts, LineOf, Repeats, RepeatedOpenings, RepeatedClosings;
    var unit := l.units[c.unit];
    OpeningsAre(unit.envelopes, c.range, |unit.envelopes|);
    var openings, closings := RepeatedOpenings(unit.envelopes, c.range, |unit.envelopes|), RepeatedClosings(unit.envelopes, c.range, |unit.envelopes|);
    forall r | r in openings ensures exists e :: e in unit.envelopes && (r == e.opening || r == e.closing) {
      var e :| e in unit.envelopes && r == e.opening;
    }
    forall r | r in closings ensures exists e :: e in unit.envelopes && (r == e.opening || r == e.closing) {
      var e :| e in unit.envelopes && r == e.closing;
    }
    RangesAre(l, c.unit, openings, |openings|);
    RangesAre(l, c.unit, closings, |closings|);
    SourceAre(l, c, SourceContent);
  }

  ghost predicate AllOfBody(l: Layout, cs: seq<Contribution>, parts: seq<InputPart>) {
    forall part :: part in parts ==> OfBody(l, cs, part)
  }

  lemma {:induction false} FormattedOfBody(l: Layout, cs: seq<Contribution>, text: string)
    ensures AllOfBody(l, cs, Formatted(text, true))
  {
    hide IsMarker, LineOf, Repeats;
  }

  lemma {:induction false} FragmentOfBody(l: Layout, cs: seq<Contribution>, c: Contribution)
    requires FragmentParts(l, c).Ok? && c in cs
    ensures AllOfBody(l, cs, FragmentParts(l, c).value)
  {
    hide FragmentParts, LineOf, Repeats, IsMarker;
    FragmentIs(l, c);
  }

  lemma {:induction false} BothOfBody(l: Layout, cs: seq<Contribution>, a: seq<InputPart>, b: seq<InputPart>)
    requires AllOfBody(l, cs, a) && AllOfBody(l, cs, b)
    ensures AllOfBody(l, cs, a + b)
  {
    hide OfBody;
  }

  lemma {:induction false} NothingOfBody(l: Layout, cs: seq<Contribution>)
    ensures AllOfBody(l, cs, [])
  {
  }

  lemma {:induction false} CellOfBody(l: Layout, cs: seq<Contribution>, cell: Id, n: nat)
    requires n <= |cs| && CellParts(l, cs, cell, n).Ok?
    ensures AllOfBody(l, cs, CellParts(l, cs, cell, n).value)
  {
    hide FragmentParts, AllOfBody;
    if n == 0 {
      NothingOfBody(l, cs);
    } else {
      CellOfBody(l, cs, cell, n - 1);
      if l.InBlock(cs[n - 1].unit, cell) {
        FragmentOfBody(l, cs, cs[n - 1]);
        BothOfBody(l, cs, CellParts(l, cs, cell, n - 1).value, FragmentParts(l, cs[n - 1]).value);
      }
    }
  }

  lemma {:induction false} ColumnsOfBody(l: Layout, cs: seq<Contribution>, cells: seq<Block>, columns: seq<nat>, n: nat)
    requires n <= |columns| && ColumnParts(l, cs, cells, columns, n).Ok?
    ensures AllOfBody(l, cs, ColumnParts(l, cs, cells, columns, n).value)
  {
    hide CellParts, AllOfBody, Formatted;
    NothingOfBody(l, cs);
    if n > 0 {
      ColumnsOfBody(l, cs, cells, columns, n - 1);
      CellOfBody(l, cs, cells[columns[n - 1]].id, |cs|);
      FormattedOfBody(l, cs, "\t");
      var before, tab := ColumnParts(l, cs, cells, columns, n - 1).value, if n > 1 then Formatted("\t", true) else [];
      BothOfBody(l, cs, before, tab);
      BothOfBody(l, cs, before + tab, CellParts(l, cs, cells[columns[n - 1]].id, |cs|).value);
    }
  }

  lemma {:induction false} RowsOfBody(l: Layout, cs: seq<Contribution>, windows: seq<TableWindow>, unit: nat, n: nat)
    requires n <= |windows| && RowParts(l, cs, windows, unit, n).Ok?
    ensures AllOfBody(l, cs, RowParts(l, cs, windows, unit, n).value)
  {
    hide ColumnParts, AllOfBody, Formatted, l.RowCells, Indentation;
    NothingOfBody(l, cs);
    if n > 0 {
      RowsOfBody(l, cs, windows, unit, n - 1);
      var cells, columns := l.RowCells(windows[n - 1].row).value, windows[n - 1].columns;
      ColumnsOfBody(l, cs, cells, columns, |columns|);
      FormattedOfBody(l, cs, "\n" + Indentation(l, unit));
      var before, line := RowParts(l, cs, windows, unit, n - 1).value, if n > 1 then Formatted("\n" + Indentation(l, unit), true) else [];
      BothOfBody(l, cs, before, line);
      BothOfBody(l, cs, before + line, ColumnParts(l, cs, cells, columns, |columns|).value);
    }
  }

  lemma {:induction false} MarkerFound(l: Layout, units: seq<nat>, i: nat)
    requires i <= |units| && FirstMarker(l, units, i).Some?
    ensures FirstMarker(l, units, i).value < |l.units| && l.units[FirstMarker(l, units, i).value].field.ListMarker?
    decreases |units| - i
  {
    if !(units[i] < |l.units| && l.units[units[i]].field.ListMarker?) {
      MarkerFound(l, units, i + 1);
    }
  }

  lemma {:induction false} PrefixOfBody(l: Layout, cs: seq<Contribution>, unit: nat)
    requires ItemPrefix(l, unit).Ok?
    ensures AllOfBody(l, cs, ItemPrefix(l, unit).value)
  {
    hide PartOf, FirstMarker, OwnedUnits, AllOfBody, Formatted, ListDepth, l.Nearest;
    NothingOfBody(l, cs);
    var item := l.Nearest(unit, {ListItem});
    if item.Some? {
      var owned := OwnedUnits(l, item.value.id, |l.units|);
      MarkerFound(l, owned, 0);
      var marker, depth := FirstMarker(l, owned, 0).value, ListDepth(l, unit);
      var whole := Contribution(marker, TextRange(0, |l.units[marker].text|));
      PartNames(l, whole, StructuralContext);
      var part := PartOf(l, whole, StructuralContext).value;
      OneOfBody(l, cs, marker, part);
      var blanks := Repeat("  ", if depth == 0 then 0 else depth - 1);
      FormattedOfBody(l, cs, blanks);
      BothOfBody(l, cs, Formatted(blanks, true), [part]);
    }
  }

  lemma {:induction false} OneOfBody(l: Layout, cs: seq<Contribution>, marker: nat, part: InputPart)
    requires marker < |l.units| && l.units[marker].field.ListMarker?
    requires Names(part, StructuralContext, Contribution(marker, TextRange(0, |l.units[marker].text|)))
    ensures AllOfBody(l, cs, [part])
  {
    assert IsMarker(l, part);
  }

  lemma {:induction false} SeparatorOfBody(l: Layout, cs: seq<Contribution>, previous: nat, unit: nat)
    requires BodySeparator(l, previous, unit).Ok?
    ensures AllOfBody(l, cs, BodySeparator(l, previous, unit).value)
  {
    hide AllOfBody, Formatted, Indentation, l.Nearest;
    NothingOfBody(l, cs);
    FormattedOfBody(l, cs, "\n");
    var indent := "\n" + Indentation(l, unit);
    FormattedOfBody(l, cs, indent + indent);
  }

  /** Every part of a body laid out is formatting, a line of one of its fragments, a delimiter of one or a marker. */
  lemma {:induction false} LaidOfBody(l: Layout, cs: seq<Contribution>, windows: seq<TableWindow>, n: nat)
    requires n <= |cs| && Lay(l, cs, windows, n).Ok?
    ensures AllOfBody(l, cs, Lay(l, cs, windows, n).value.parts)
  {
    hide AllOfBody, LayNext;
    NothingOfBody(l, cs);
    if n > 0 {
      LaidOfBody(l, cs, windows, n - 1);
      NextOfBody(l, cs, windows, Lay(l, cs, windows, n - 1).value, cs[n - 1]);
    }
  }

  lemma {:induction false} NextOfBody(l: Layout, cs: seq<Contribution>, windows: seq<TableWindow>, state: Laying, c: Contribution)
    requires c in cs && AllOfBody(l, cs, state.parts) && LayNext(l, cs, windows, state, c.unit, c).Ok?
    ensures AllOfBody(l, cs, LayNext(l, cs, windows, state, c.unit, c).value.parts)
  {
    hide AllOfBody, BodySeparator, ItemPrefix, RowParts, FragmentParts, l.InTable, l.Nearest, LastInTable;
    var unit := c.unit;
    NothingOfBody(l, cs);
    if !(l.InTable(unit) && state.laid) {
      var item := l.Nearest(unit, {ListItem});
      var first := item.Some? && item.value.id !in state.seen;
      var separator := if state.previous.Some? then BodySeparator(l, state.previous.value, unit).value else [];
      var prefix := if first then ItemPrefix(l, unit).value else [];
      if state.previous.Some? {
        SeparatorOfBody(l, cs, state.previous.value, unit);
      }
      if first {
        PrefixOfBody(l, cs, unit);
      }
      BothOfBody(l, cs, state.parts, separator);
      BothOfBody(l, cs, state.parts + separator, prefix);
      if l.InTable(unit) {
        RowsOfBody(l, cs, windows, unit, |windows|);
        BothOfBody(l, cs, state.parts + separator + prefix, RowParts(l, cs, windows, unit, |windows|).value);
      } else {
        FragmentOfBody(l, cs, c);
        BothOfBody(l, cs, state.parts + separator + prefix, FragmentParts(l, c).value);
      }
    }
  }

  // ---- Context

  lemma {:induction false} SeparatorIs(l: Layout, previous: nat, unit: nat)
    requires ContextSeparator(l, previous, unit).Ok?
    ensures forall part :: part in ContextSeparator(l, previous, unit).value ==> part.role.FormattingSeparator?
  {
    hide Indentation;
  }

  lemma {:induction false} UnitsOfEntry(l: Layout, entry: ContextEntry, n: nat)
    requires n <= |entry.units| && ContextUnits(l, entry, n).Ok? && entry.columns.None?
    ensures forall part :: part in ContextUnits(l, entry, n).value.parts ==> OfEntry(entry, part)
  {
    hide SourceParts, ContextSeparator, ListDepth, l.Kept;
    if n > 0 {
      UnitsOfEntry(l, entry, n - 1);
      var before, unit := ContextUnits(l, entry, n - 1).value, entry.units[n - 1];
      if l.Kept(unit).Some? {
        var c := Contribution(unit, l.Kept(unit).value);
        SourceAre(l, c, entry.role);
        if before.previous.Some? {
          SeparatorIs(l, before.previous.value, unit);
        }
        LinesOfEntry(entry, SourceParts(l, c, entry.role).value, c);
      }
    }
  }

  lemma {:induction false} LinesOfEntry(entry: ContextEntry, parts: seq<InputPart>, c: Contribution)
    requires Listed(entry, c.unit) && forall part :: part in parts ==> LineOf(part, entry.role, c)
    ensures forall part :: part in parts ==> OfEntry(entry, part)
  {
  }

  lemma {:induction false} WholesOfEntry(l: Layout, units: seq<nat>, entry: ContextEntry, n: nat)
    requires n <= |units| && WholeParts(l, units, entry.role, n).Ok? && forall unit :: unit in units ==> Listed(entry, unit)
    ensures forall part :: part in WholeParts(l, units, entry.role, n).value ==> OfEntry(entry, part)
  {
    hide PartOf, Listed;
    if n > 0 {
      WholesOfEntry(l, units, entry, n - 1);
      var c := Contribution(units[n - 1], TextRange(0, |l.units[units[n - 1]].text|));
      PartNames(l, c, entry.role);
      assert units[n - 1] in units;
    }
  }

  lemma {:induction false} HeaderOfEntry(l: Layout, entry: ContextEntry, columns: seq<seq<nat>>, n: nat)
    requires n <= |columns| && HeaderParts(l, columns, entry.role, n).Ok? && entry.columns == Some(columns)
    ensures forall part :: part in HeaderParts(l, columns, entry.role, n).value ==> OfEntry(entry, part)
  {
    hide WholeParts;
    if n > 0 {
      HeaderOfEntry(l, entry, columns, n - 1);
      assert columns[n - 1] in columns;
      WholesOfEntry(l, columns[n - 1], entry, |columns[n - 1]|);
    }
  }

  /** Every part of the context is formatting or text that some entry names, in that entry's role. */
  lemma {:induction false} ContextOfEntries(l: Layout, entries: seq<ContextEntry>, n: nat)
    requires n <= |entries| && AllContext(l, entries, n).Ok?
    ensures forall part :: part in AllContext(l, entries, n).value ==> OfContext(entries, part)
  {
    hide ContextParts, OfEntry, Formatted;
    if n > 0 {
      ContextOfEntries(l, entries, n - 1);
      EntryIs(l, entries[n - 1]);
      FormattedIs("\n", false);
      var before, own := AllContext(l, entries, n - 1).value, ContextParts(l, entries[n - 1]).value;
      var line := if before == [] then [] else Formatted("\n", false);
      assert AllContext(l, entries, n).value == if own == [] then before else before + line + own;
      forall part | part in own ensures OfContext(entries, part) {
        assert OfEntry(entries[n - 1], part);
      }
    }
  }

  lemma {:induction false} EntryIs(l: Layout, entry: ContextEntry)
    requires ContextParts(l, entry).Ok?
    ensures forall part :: part in ContextParts(l, entry).value ==> OfEntry(entry, part)
  {
    hide ContextUnits, HeaderParts, OfEntry;
    match entry.columns
    case Some(columns) => HeaderOfEntry(l, entry, columns, |columns|);
    case None => UnitsOfEntry(l, entry, |entry.units|);
  }

  // ---- The chunk

  /** A part of a chunk before its place in the prepared input is set. */
  function Unplaced(part: InputPart): InputPart {
    part.(preparedRange := TextRange(0, 0))
  }

  ghost predicate OfChunk(l: Layout, cs: seq<Contribution>, entries: seq<ContextEntry>, part: InputPart, k: nat, i: nat) {
    if i < k then OfContext(entries, part) else OfBody(l, cs, part)
  }

  /** The parts of a chunk are its context's, then its body's. */
  lemma {:induction false} PartsExactly(l: Layout, t: Tools, body: Body) returns (k: nat)
    requires Prepared(l, t, body).Ok?
    ensures t.select(Contributions(body.fragments), body.windows).Ok?
    ensures
      var (parts, cs) := (Prepared(l, t, body).value.inputParts, Contributions(body.fragments));
      var entries := t.select(cs, body.windows).value;
      k <= |parts| && forall i :: 0 <= i < |parts| ==> OfChunk(l, cs, entries, parts[i], k, i)
  {
    hide AllContext, Lay, OfEntry, IsMarker, Repeats, LineOf, ContainerIds, Texts, BodyTexts;
    var cs := Contributions(body.fragments);
    var entries := t.select(cs, body.windows).value;
    var (context, own) := (AllContext(l, entries, |entries|).value, Lay(l, cs, body.windows, |cs|).value.parts);
    ContextOfEntries(l, entries, |entries|);
    LaidOfBody(l, cs, body.windows, |cs|);
    var line := if context == [] then [] else Formatted("\n\n", false);
    var parts := BodyParts(l, t, cs, body.windows).value;
    assert parts == context + line + own;
    k := |context + line|;
    forall i | 0 <= i < |parts| ensures OfChunk(l, cs, entries, Prepared(l, t, body).value.inputParts[i], k, i) {
      if i < |context| {
        assert parts[i] in context;
        PlacedContext(entries, parts[i], Placed(parts)[i]);
      } else if i >= k {
        assert parts[i] in own;
        PlacedBody(l, cs, parts[i], Placed(parts)[i]);
      }
    }
  }

  lemma {:induction false} PlacedContext(entries: seq<ContextEntry>, part: InputPart, placed: InputPart)
    requires OfContext(entries, part) && Unplaced(placed) == Unplaced(part)
    ensures OfContext(entries, placed)
  {
    if !part.role.FormattingSeparator? {
      var k :| 0 <= k < |entries| && OfEntry(entries[k], part);
      var c: Contribution :| Names(part, entries[k].role, c) && Listed(entries[k], c.unit);
      assert Names(placed, entries[k].role, c);
    }
  }

  lemma {:induction false} PlacedBody(l: Layout, cs: seq<Contribution>, part: InputPart, placed: InputPart)
    requires OfBody(l, cs, part) && Unplaced(placed) == Unplaced(part)
    ensures OfBody(l, cs, placed)
  {
    forall role: InputRole, c: Contribution | Names(part, role, c) ensures Names(placed, role, c) {
    }
  }
}
