/** The prepared input of a body: its context, a blank line and its own parts, counted as one text. */
module Preparation {
  import opened Common
  import opened Ranges
  import opened Brackets
  import opened Units
  import opened Slices
  import opened Layouts

  datatype InputRole =
    | SourceContent | HeadingContext | TableHeaderContext | ParentListContext | StructuralContext
    | FormattingSeparator

  /** The roles of repeated text: neither the body's own source nor generated layout. */
  type ContextRole = r: InputRole | !r.SourceContent? && !r.FormattingSeparator? witness HeadingContext

  datatype InputPart = InputPart(
    role: InputRole, text: string, preparedRange: TextRange,
    contributions: seq<Contribution>, mappings: seq<MappingRun>, bodyLayout: bool)

  /** Context a chunk repeats: which units, in which role and, for a table header, by column. */
  datatype ContextEntry = ContextEntry(role: ContextRole, units: seq<nat>, columns: Option<seq<seq<nat>>>)

  datatype ChunkContent = ChunkContent(
    section: Option<Id>, containers: seq<Id>, fragments: seq<Fragment>, windows: seq<TableWindow>,
    bodyText: string, inputParts: seq<InputPart>, preparedInput: string, tokenCount: nat)

  /**
   * What preparation calls and this model takes as arbitrary: which context a body repeats, and
   * the token counter.
   */
  datatype Tools = Tools(
    select: (seq<Contribution>, seq<TableWindow>) -> Result<seq<ContextEntry>>,
    count: string -> Result<nat>)

  function Repeat(text: string, n: nat): string {
    if n == 0 then "" else Repeat(text, n - 1) + text
  }

  // ---- Parts of one unit

  /** `formatting`: text that no source contributed; empty text adds nothing. */
  function Formatted(text: string, bodyLayout: bool): seq<InputPart> {
    if text == "" then []
    else
      var range := TextRange(0, |text|);
      [InputPart(FormattingSeparator, text, range, [], [MappingRun(range, Formatting, [])], bodyLayout)]
  }

  /** A contribution's text and mappings in a role. */
  function PartOf(l: Layout, c: Contribution, role: InputRole): Result<InputPart> {
    var unit :- l.UnitAt(c.unit);
    if !InBounds(c.range, unit.text) then Err(Structure)
    else
      var mappings :- MappedSlice(unit, c.range, l.markdown);
      Ok(InputPart(role, Slice(unit.text, c.range), TextRange(0, 0), [c], mappings, false))
  }

  function WholePart(l: Layout, unit: nat, role: InputRole): Result<InputPart> {
    var own :- l.UnitAt(unit);
    PartOf(l, Contribution(unit, TextRange(0, |own.text|)), role)
  }

  function ListDepth(l: Layout, unit: nat): nat {
    |KindsOf(l.Ancestors(unit), {List}, |l.Ancestors(unit)|)|
  }

  function Indentation(l: Layout, unit: nat): string {
    Repeat("  ", ListDepth(l, unit))
  }

  /** Where the line that holds a position starts, no further back than `start`. */
  function LineStart(text: string, start: nat, p: nat): (r: nat)
    requires p < |text|
    ensures start <= p ==> start <= r <= p
    ensures start < r <= p ==> text[r - 1] == '\n'
    ensures forall k :: r <= k < p && start <= k ==> text[k] != '\n'
  {
    if p <= start || text[p - 1] == '\n' then p else LineStart(text, start, p - 1)
  }

  /** The lines of a stretch of text, each with its line break. */
  function Lines(text: string, start: nat, end: nat): seq<TextRange>
    requires end <= |text|
    decreases end
  {
    if end <= start then []
    else
      var line := LineStart(text, start, end - 1);
      Lines(text, start, line) + [TextRange(line, end)]
  }

  /** `split_inclusive`: the lines of a stretch, found from its start. */
  method SplitLines(text: string, range: TextRange) returns (lines: seq<TextRange>)
    requires InBounds(range, text)
    ensures lines == Lines(text, range.start, range.end)
  {
    lines := [];
    var start := range.start;
    while start < range.end
      invariant range.start <= start <= range.end
      invariant start == range.start || start == range.end || text[start - 1] == '\n'
      invariant lines == Lines(text, range.start, start)
    {
      var end := start + 1;
      while end < range.end && text[end - 1] != '\n'
        invariant start < end <= range.end
        invariant forall k :: start <= k < end - 1 ==> text[k] != '\n'
      {
        end := end + 1;
      }
      LineFrom(text, range.start, start, end);
      lines := lines + [TextRange(start, end)];
      start := end;
    }
  }

  lemma {:induction false} LineFrom(text: string, start: nat, mid: nat, end: nat)
    requires start <= mid < end <= |text|
    requires mid == start || text[mid - 1] == '\n'
    requires forall k :: mid <= k < end - 1 ==> text[k] != '\n'
    ensures LineStart(text, start, end - 1) == mid
  {
    var line := LineStart(text, start, end - 1);
  }

  predicate Broken(text: string, line: TextRange)
    requires InBounds(line, text)
  {
    line.start < line.end && text[line.end - 1] == '\n'
  }

  ghost predicate AllInBounds(ranges: seq<TextRange>, text: string) {
    forall i :: 0 <= i < |ranges| ==> InBounds(ranges[i], text)
  }

  lemma {:induction false} LinesInBounds(text: string, start: nat, end: nat)
    requires end <= |text|
    ensures AllInBounds(Lines(text, start, end), text)
    decreases end
  {
    if start < end {
      LinesInBounds(text, start, LineStart(text, start, end - 1));
    }
  }

  /** A line's part, and the indentation its line break is followed by. */
  function LinePart(l: Layout, unit: nat, line: TextRange, role: InputRole, part: InputPart): seq<InputPart>
    requires unit < |l.units| && InBounds(line, l.units[unit].text)
  {
    [part] + if Broken(l.units[unit].text, line) then Formatted(Indentation(l, unit), role.SourceContent?) else []
  }

  /** The parts of the first n lines of a unit, each line break followed by the unit's list indentation. */
  function LineParts(l: Layout, unit: nat, lines: seq<TextRange>, role: InputRole, n: nat): Result<seq<InputPart>>
    requires unit < |l.units| && AllInBounds(lines, l.units[unit].text)
    requires n <= |lines|
  {
    if n == 0 then Ok([])
    else
      var before :- LineParts(l, unit, lines, role, n - 1);
      var part :- PartOf(l, Contribution(unit, lines[n - 1]), role);
      Ok(before + LinePart(l, unit, lines[n - 1], role, part))
  }

  /** A stretch of a unit, line by line. */
  function SourceParts(l: Layout, c: Contribution, role: InputRole): Result<seq<InputPart>>
    requires c.unit < |l.units| && InBounds(c.range, l.units[c.unit].text)
  {
    var lines := Lines(l.units[c.unit].text, c.range.start, c.range.end);
    LinesInBounds(l.units[c.unit].text, c.range.start, c.range.end);
    LineParts(l, c.unit, lines, role, |lines|)
  }

  lemma {:induction false} LinePartsStop(l: Layout, unit: nat, lines: seq<TextRange>, role: InputRole, n: nat, m: nat)
    requires unit < |l.units| && AllInBounds(lines, l.units[unit].text)
    requires n <= m <= |lines| && LineParts(l, unit, lines, role, n).Err?
    ensures LineParts(l, unit, lines, role, m) == LineParts(l, unit, lines, role, n)
  {
    if n < m {
      LinePartsStop(l, unit, lines, role, n, m - 1);
    }
  }

  /** The loop of `append_source`: the parts it appends, or the first refusal. */
  method AppendLines(l: Layout, unit: nat, lines: seq<TextRange>, role: InputRole) returns (r: Result<seq<InputPart>>)
    requires unit < |l.units| && AllInBounds(lines, l.units[unit].text)
    ensures r == LineParts(l, unit, lines, role, |lines|)
  {
    hide PartOf, LinePart;
    var parts: seq<InputPart> := [];
    for i := 0 to |lines|
      invariant LineParts(l, unit, lines, role, i) == Ok(parts)
    {
      var part := PartOf(l, Contribution(unit, lines[i]), role);
      if part.Err? {
        LinePartsStop(l, unit, lines, role, i + 1, |lines|);
        return Err(part.error);
      }
      parts := parts + LinePart(l, unit, lines[i], role, part.value);
    }
    r := Ok(parts);
  }

  /** `append_source`: a stretch of a unit, line by line. */
  method AppendSource(l: Layout, c: Contribution, role: InputRole) returns (r: Result<seq<InputPart>>)
    requires c.unit < |l.units| && InBounds(c.range, l.units[c.unit].text)
    ensures r == SourceParts(l, c, role)
  {
    var lines := SplitLines(l.units[c.unit].text, c.range);
    LinesInBounds(l.units[c.unit].text, c.range.start, c.range.end);
    r := AppendLines(l, c.unit, lines, role);
  }

  function RangeParts(l: Layout, unit: nat, ranges: seq<TextRange>, role: InputRole, n: nat): Result<seq<InputPart>>
    requires n <= |ranges|
  {
    if n == 0 then Ok([])
    else
      var before :- RangeParts(l, unit, ranges, role, n - 1);
      var part :- PartOf(l, Contribution(unit, ranges[n - 1]), role);
      Ok(before + [part])
  }

  /** `fragment_parts`: a fragment with the delimiters of the wrappers it starts or ends inside. */
  function FragmentParts(l: Layout, c: Contribution): Result<seq<InputPart>> {
    var unit :- l.UnitAt(c.unit);
    if NormalizedRange(|unit.text|, unit.envelopes, c.range.start, c.range.end) != Some(c.range)
       || !InBounds(c.range, unit.text) then Err(Structure)
    else
      var openings := RepeatedOpenings(unit.envelopes, c.range, |unit.envelopes|);
      var closings := RepeatedClosings(unit.envelopes, c.range, |unit.envelopes|);
      var before :- RangeParts(l, c.unit, openings, StructuralContext, |openings|);
      var source :- SourceParts(l, c, SourceContent);
      var after :- RangeParts(l, c.unit, closings, StructuralContext, |closings|);
      Ok(before + source + after)
  }

  // ---- Context

  function ContextSeparator(l: Layout, previous: nat, unit: nat): Result<seq<InputPart>> {
    var preceding :- l.UnitAt(previous);
    if preceding.field.ListMarker? then Ok([])
    else
      var following :- l.UnitAt(unit);
      var indent := "\n" + Indentation(l, unit);
      Ok(if preceding.block != following.block then Formatted(indent + indent, false)
         else if !preceding.primary then Formatted(indent, false)
         else [])
  }

  datatype Gathered = Gathered(parts: seq<InputPart>, previous: Option<nat>)

  /** The first n units of a context entry, with the separators their blocks need; chrome is skipped. */
  function ContextUnits(l: Layout, entry: ContextEntry, n: nat): Result<Gathered>
    requires n <= |entry.units|
  {
    if n == 0 then Ok(Gathered([], None))
    else
      var before :- ContextUnits(l, entry, n - 1);
      var unit := entry.units[n - 1];
      var own :- l.UnitAt(unit);
      match l.Kept(unit)
      case None => Ok(before)
      case Some(range) =>
        var separator :-
          if before.previous.Some? then ContextSeparator(l, before.previous.value, unit)
          else if entry.role.ParentListContext? then
            var depth := ListDepth(l, unit);
            Ok(Formatted(Repeat("  ", if depth == 0 then 0 else depth - 1), false))
          else Ok([]);
        if !InBounds(range, own.text) then Err(Structure)
        else
          var source :- SourceParts(l, Contribution(unit, range), entry.role);
          Ok(Gathered(before.parts + separator + source, Some(unit)))
  }

  function WholeParts(l: Layout, units: seq<nat>, role: InputRole, n: nat): Result<seq<InputPart>>
    requires n <= |units|
  {
    if n == 0 then Ok([])
    else
      var before :- WholeParts(l, units, role, n - 1);
      var part :- WholePart(l, units[n - 1], role);
      Ok(before + [part])
  }

  /** A table header's first n columns, separated by tabs. */
  function HeaderParts(l: Layout, columns: seq<seq<nat>>, role: InputRole, n: nat): Result<seq<InputPart>>
    requires n <= |columns|
  {
    if n == 0 then Ok([])
    else
      var before :- HeaderParts(l, columns, role, n - 1);
      var column :- WholeParts(l, columns[n - 1], role, |columns[n - 1]|);
      Ok(before + (if n > 1 then Formatted("\t", false) else []) + column)
  }

  function ContextParts(l: Layout, entry: ContextEntry): Result<seq<InputPart>> {
    match entry.columns
    case Some(columns) => HeaderParts(l, columns, entry.role, |columns|)
    case None =>
      var gathered :- ContextUnits(l, entry, |entry.units|);
      Ok(gathered.parts)
  }

  /** The context of the first n entries, each on a line of its own. */
  function AllContext(l: Layout, entries: seq<ContextEntry>, n: nat): Result<seq<InputPart>>
    requires n <= |entries|
  {
    if n == 0 then Ok([])
    else
      var before :- AllContext(l, entries, n - 1);
      var context :- ContextParts(l, entries[n - 1]);
      if context == [] then Ok(before)
      else Ok(before + (if before == [] then [] else Formatted("\n", false)) + context)
  }

  // ---- The body's own parts

  function OwnedUnits(l: Layout, block: Id, n: nat): seq<nat>
    requires n <= |l.units|
  {
    if n == 0 then []
    else OwnedUnits(l, block, n - 1) + if l.units[n - 1].block == block then [n - 1] else []
  }

  function FirstMarker(l: Layout, units: seq<nat>, i: nat): Option<nat>
    requires i <= |units|
    decreases |units| - i
  {
    if i == |units| then None
    else if units[i] < |l.units| && l.units[units[i]].field.ListMarker? then Some(units[i])
    else FirstMarker(l, units, i + 1)
  }

  /** The indentation and the source-backed marker of the list item a unit is in, if any. */
  function ItemPrefix(l: Layout, unit: nat): Result<seq<InputPart>> {
    match l.Nearest(unit, {ListItem})
    case None => Ok([])
    case Some(item) =>
      var depth := ListDepth(l, unit);
      var indent := Formatted(Repeat("  ", if depth == 0 then 0 else depth - 1), true);
      match FirstMarker(l, OwnedUnits(l, item.id, |l.units|), 0)
      case None => Err(Structure)
      case Some(marker) =>
        var part :- WholePart(l, marker, StructuralContext);
        Ok(indent + [part])
  }

  function BlockIdOf(block: Option<Block>): Option<Id> {
    match block case None => None case Some(b) => Some(b.id)
  }

  /** A line break between list items, a blank line between blocks of one item. */
  function BodySeparator(l: Layout, previous: nat, unit: nat): Result<seq<InputPart>> {
    if BlockIdOf(l.Nearest(unit, {ListItem})) != BlockIdOf(l.Nearest(previous, {ListItem})) then
      Ok(Formatted("\n", true))
    else
      var own :- l.UnitAt(unit);
      var before :- l.UnitAt(previous);
      var indent := "\n" + Indentation(l, unit);
      Ok(if own.block != before.block then Formatted(indent + indent, true) else [])
  }

  /** Of the first n contributions, those in one cell. */
  function CellParts(l: Layout, cs: seq<Contribution>, cell: Id, n: nat): Result<seq<InputPart>>
    requires n <= |cs|
  {
    if n == 0 then Ok([])
    else
      var before :- CellParts(l, cs, cell, n - 1);
      if l.InBlock(cs[n - 1].unit, cell) then
        var parts :- FragmentParts(l, cs[n - 1]);
        Ok(before + parts)
      else Ok(before)
  }

  /** The first n columns of a window, separated by tabs. */
  function ColumnParts(l: Layout, cs: seq<Contribution>, cells: seq<Block>, columns: seq<nat>, n: nat): Result<seq<InputPart>>
    requires n <= |columns|
  {
    if n == 0 then Ok([])
    else
      var before :- ColumnParts(l, cs, cells, columns, n - 1);
      if columns[n - 1] >= |cells| then Err(Structure)
      else
        var cell :- CellParts(l, cs, cells[columns[n - 1]].id, |cs|);
        Ok(before + (if n > 1 then Formatted("\t", true) else []) + cell)
  }

  /** The first n windows as rows, separated by line breaks indented as the unit. */
  function RowParts(l: Layout, cs: seq<Contribution>, windows: seq<TableWindow>, unit: nat, n: nat): Result<seq<InputPart>>
    requires n <= |windows|
  {
    if n == 0 then Ok([])
    else
      var before :- RowParts(l, cs, windows, unit, n - 1);
      var cells :- l.RowCells(windows[n - 1].row);
      var columns := windows[n - 1].columns;
      var row :- ColumnParts(l, cs, cells, columns, |columns|);
      Ok(before + (if n > 1 then Formatted("\n" + Indentation(l, unit), true) else []) + row)
  }

  /** The last of the first n contributions that lies in a table. */
  function LastInTable(l: Layout, cs: seq<Contribution>, n: nat): Option<nat>
    requires n <= |cs|
  {
    if n == 0 then None
    else if l.InTable(cs[n - 1].unit) then Some(cs[n - 1].unit)
    else LastInTable(l, cs, n - 1)
  }

  /** Where laying out a body stands. */
  datatype Laying = Laying(parts: seq<InputPart>, previous: Option<nat>, seen: set<Id>, laid: bool)

  /** One more contribution laid out; a table's are all laid out, row by row, at its first. */
  function LayNext(l: Layout, cs: seq<Contribution>, windows: seq<TableWindow>, state: Laying, unit: nat, c: Contribution): Result<Laying>
    requires unit == c.unit
  {
    var row := l.InTable(unit);
    if row && state.laid then Ok(state)
    else
      var separator :- if state.previous.Some? then BodySeparator(l, state.previous.value, unit) else Ok([]);
      var item := l.Nearest(unit, {ListItem});
      var first := item.Some? && item.value.id !in state.seen;
      var prefix :- if first then ItemPrefix(l, unit) else Ok([]);
      var seen := if item.Some? then state.seen + {item.value.id} else state.seen;
      if row then
        var rows :- RowParts(l, cs, windows, unit, |windows|);
        Ok(Laying(state.parts + separator + prefix + rows, LastInTable(l, cs, |cs|), seen, true))
      else
        var parts :- FragmentParts(l, c);
        Ok(Laying(state.parts + separator + prefix + parts, Some(unit), seen, state.laid))
  }

  function Lay(l: Layout, cs: seq<Contribution>, windows: seq<TableWindow>, n: nat): Result<Laying>
    requires n <= |cs|
  {
    if n == 0 then Ok(Laying([], None, {}, false))
    else
      var before :- Lay(l, cs, windows, n - 1);
      LayNext(l, cs, windows, before, cs[n - 1].unit, cs[n - 1])
  }

  // ---- The prepared input

  /** The text of the first n parts. */
  function Texts(parts: seq<InputPart>, n: nat): string
    requires n <= |parts|
  {
    if n == 0 then "" else Texts(parts, n - 1) + parts[n - 1].text
  }

  predicate IsBody(part: InputPart) {
    part.role.SourceContent? || part.bodyLayout
  }

  /** The body's text in the first n parts: its source and its layout, without context. */
  function BodyTexts(parts: seq<InputPart>, n: nat): string
    requires n <= |parts|
  {
    if n == 0 then "" else BodyTexts(parts, n - 1) + if IsBody(parts[n - 1]) then parts[n - 1].text else ""
  }

  /** The parts, each with its place in the prepared input. */
  function Placed(parts: seq<InputPart>): (r: seq<InputPart>)
    ensures |r| == |parts|
  {
    seq(|parts|, i requires 0 <= i < |parts| =>
      parts[i].(preparedRange := TextRange(|Texts(parts, i)|, |Texts(parts, i)| + |parts[i].text|)))
  }

  function AddIds(ids: seq<Id>, path: seq<Block>, n: nat): seq<Id>
    requires n <= |path|
  {
    if n == 0 then ids
    else
      var before := AddIds(ids, path, n - 1);
      if path[n - 1].id in before then before else before + [path[n - 1].id]
  }

  function ContainerIds(l: Layout, cs: seq<Contribution>, n: nat): seq<Id>
    requires n <= |cs|
  {
    if n == 0 then []
    else
      var path := l.Ancestors(cs[n - 1].unit);
      AddIds(ContainerIds(l, cs, n - 1), path, |path|)
  }

  /** The parts of a body: its context, a blank line and its own parts. */
  function BodyParts(l: Layout, t: Tools, cs: seq<Contribution>, windows: seq<TableWindow>): Result<seq<InputPart>> {
    var entries :- t.select(cs, windows);
    var context :- AllContext(l, entries, |entries|);
    var own :- Lay(l, cs, windows, |cs|);
    Ok(context + (if context == [] then [] else Formatted("\n\n", false)) + own.parts)
  }

  /** `prepare`: the chunk a body makes. */
  function Prepared(l: Layout, t: Tools, body: Body): Result<ChunkContent> {
    var cs := Contributions(body.fragments);
    if cs == [] then Err(Structure)
    else
      var parts :- BodyParts(l, t, cs, body.windows);
      var text := BodyTexts(parts, |parts|);
      if text == "" then Err(Structure)
      else
        var tokens :- t.count(Texts(parts, |parts|));
        var owner :- l.Owner(cs[0].unit);
        Ok(ChunkContent(l.SectionOf(cs[0].unit), ContainerIds(l, cs, |cs|), body.fragments, body.windows,
                        text, Placed(parts), Texts(parts, |parts|), tokens))
  }

  /** The part loop of `prepare`: grows both texts and sets each part's range in place. */
  method PlaceParts(parts: seq<InputPart>) returns (placed: seq<InputPart>, prepared: string, body: string)
    ensures placed == Placed(parts)
    ensures prepared == Texts(parts, |parts|) && body == BodyTexts(parts, |parts|)
  {
    placed, prepared, body := parts, "", "";
    for i := 0 to |parts|
      invariant |placed| == |parts|
      invariant prepared == Texts(parts, i) && body == BodyTexts(parts, i)
      invariant forall k :: 0 <= k < i ==> placed[k] == Placed(parts)[k]
      invariant forall k :: i <= k < |parts| ==> placed[k] == parts[k]
    {
      var start := |prepared|;
      prepared := prepared + parts[i].text;
      placed := placed[i := parts[i].(preparedRange := TextRange(start, |prepared|))];
      if IsBody(parts[i]) {
        body := body + parts[i].text;
      }
    }
  }

  method Prepare(l: Layout, t: Tools, body: Body) returns (r: Result<ChunkContent>)
    ensures r == Prepared(l, t, body)
  {
    var cs := Contributions(body.fragments);
    if cs == [] {
      return Err(Structure);
    }
    var parts := BodyParts(l, t, cs, body.windows);
    if parts.Err? {
      return Err(parts.error);
    }
    var placed, prepared, text := PlaceParts(parts.value);
    if text == "" {
      return Err(Structure);
    }
    var tokens := t.count(prepared);
    if tokens.Err? {
      return Err(tokens.error);
    }
    var owner := l.Owner(cs[0].unit);
    if owner.Err? {
      return Err(owner.error);
    }
    r := Ok(ChunkContent(l.SectionOf(cs[0].unit), ContainerIds(l, cs, |cs|), body.fragments, body.windows,
                         text, placed, prepared, tokens.value));
  }
}
