/** Replaying chunks: every prepared part must rebuild from its source, and the parts walk the fragments. */
module Replay {
  import opened Common
  import opened Ranges
  import opened Brackets
  import opened Units
  import opened Slices
  import opened Layouts
  import opened Preparation
  import opened Splitting
  import opened Conservation

  // ---- One part

  /** `check_separator`: a formatting separator contributes no source and maps as formatting only. */
  predicate SeparatorOk(part: InputPart) {
    && part.contributions == []
    && part.mappings == [MappingRun(TextRange(0, |part.text|), Formatting, [])]
  }

  function Shifted(run: MappingRun, offset: nat): MappingRun {
    run.(range := TextRange(run.range.start + offset, run.range.end + offset))
  }

  function AllShifted(runs: seq<MappingRun>, offset: nat): seq<MappingRun> {
    seq(|runs|, i requires 0 <= i < |runs| => Shifted(runs[i], offset))
  }

  /** What a part's contributions rebuild. */
  datatype Rebuilt = Rebuilt(text: string, mappings: seq<MappingRun>, primary: seq<Contribution>)

  /** What one more contribution adds. */
  function RebuildNext(l: Layout, c: Contribution, role: InputRole, before: Rebuilt): Result<Rebuilt> {
    if c.unit >= |l.units| then Err(InvalidChunks)
    else
      var unit := l.units[c.unit];
      if !InBounds(c.range, unit.text) || Slice(unit.text, c.range) == "" then Err(InvalidChunks)
      else
        var runs :- MappedSlice(unit, c.range, l.markdown);
        if role.SourceContent? && !unit.primary then Err(InvalidChunks)
        else
          Ok(Rebuilt(before.text + Slice(unit.text, c.range),
                     before.mappings + AllShifted(runs, |before.text|),
                     before.primary + if role.SourceContent? then [c] else []))
  }

  /** What the first n contributions of a part rebuild. */
  function Rebuild(l: Layout, part: InputPart, n: nat): Result<Rebuilt>
    requires n <= |part.contributions|
  {
    if n == 0 then Ok(Rebuilt("", [], []))
    else
      var before :- Rebuild(l, part, n - 1);
      RebuildNext(l, part.contributions[n - 1], part.role, before)
  }

  /** `replay_part`: the primary contributions of a part that its contributions rebuild. */
  function ReplayedPart(l: Layout, part: InputPart): Result<seq<Contribution>> {
    if part.bodyLayout || part.contributions == [] then Err(InvalidChunks)
    else
      var rebuilt :- Rebuild(l, part, |part.contributions|);
      if rebuilt.text != part.text || rebuilt.mappings != part.mappings then Err(InvalidChunks)
      else Ok(rebuilt.primary)
  }

  lemma {:induction false} RebuildStops(l: Layout, part: InputPart, n: nat, m: nat)
    requires n <= m <= |part.contributions| && Rebuild(l, part, n).Err?
    ensures Rebuild(l, part, m) == Rebuild(l, part, n)
  {
    hide RebuildNext;
    if n < m {
      RebuildStops(l, part, n, m - 1);
    }
  }

  method ReplayPart(l: Layout, part: InputPart) returns (r: Result<seq<Contribution>>)
    ensures r == ReplayedPart(l, part)
  {
    hide MappedSlice, AllShifted;
    if part.bodyLayout || part.contributions == [] {
      return Err(InvalidChunks);
    }
    var primary: seq<Contribution> := [];
    var text := "";
    var mappings: seq<MappingRun> := [];
    for i := 0 to |part.contributions|
      invariant Rebuild(l, part, i) == Ok(Rebuilt(text, mappings, primary))
    {
      var c := part.contributions[i];
      ghost var next := RebuildNext(l, c, part.role, Rebuilt(text, mappings, primary));
      assert Rebuild(l, part, i + 1) == next;
      if next.Err? {
        RebuildStops(l, part, i + 1, |part.contributions|);
      }
      if c.unit >= |l.units| {
        return Err(InvalidChunks);
      }
      var unit := l.units[c.unit];
      if !InBounds(c.range, unit.text) {
        return Err(InvalidChunks);
      }
      var selected := Slice(unit.text, c.range);
      if selected == "" {
        return Err(InvalidChunks);
      }
      var runs := MappedSlice(unit, c.range, l.markdown);
      if runs.Err? {
        return Err(runs.error);
      }
      mappings := mappings + AllShifted(runs.value, |text|);
      text := text + selected;
      if part.role.SourceContent? {
        if !unit.primary {
          return Err(InvalidChunks);
        }
        primary := primary + [c];
      }
      assert primary == next.value.primary;
    }
    if text != part.text || mappings != part.mappings {
      return Err(InvalidChunks);
    }
    r := Ok(primary);
  }

  // ---- The order of a chunk's fragments

  /** Where the walk over a chunk's fragments stands. */
  datatype Place = Place(fragment: nat, cursor: nat)

  function CursorAt(cs: seq<Contribution>, fragment: nat): nat {
    if fragment < |cs| then cs[fragment].range.start else 0
  }

  /** The walk over the fragments after the first n primary contributions; none once one is out of order. */
  function Follow(cs: seq<Contribution>, primary: seq<Contribution>, n: nat): Option<Place>
    requires n <= |primary|
  {
    if n == 0 then Some(Place(0, CursorAt(cs, 0)))
    else
      match Follow(cs, primary, n - 1)
      case None => None
      case Some(at) =>
        var c := primary[n - 1];
        if || at.fragment >= |cs| || c.unit != cs[at.fragment].unit || c.range.start != at.cursor
           || c.range.end > cs[at.fragment].range.end then None
        else if c.range.end == cs[at.fragment].range.end then Some(Place(at.fragment + 1, CursorAt(cs, at.fragment + 1)))
        else Some(Place(at.fragment, c.range.end))
  }

  /** `check_fragment_order`: the primary contributions walk the fragments in order, each exactly. */
  predicate FollowsFragments(cs: seq<Contribution>, primary: seq<Contribution>) {
    && cs != []
    && Follow(cs, primary, |primary|).Some?
    && Follow(cs, primary, |primary|).value.fragment == |cs|
  }

  lemma {:induction false} FollowStops(cs: seq<Contribution>, primary: seq<Contribution>, n: nat, m: nat)
    requires n <= m <= |primary| && Follow(cs, primary, n).None?
    ensures Follow(cs, primary, m).None?
  {
    if n < m {
      FollowStops(cs, primary, n, m - 1);
    }
  }

  method CheckFragmentOrder(fragments: seq<Fragment>, primary: seq<Contribution>) returns (ok: bool)
    ensures ok == FollowsFragments(Contributions(fragments), primary)
  {
    ghost var cs := Contributions(fragments);
    if fragments == [] {
      return false;
    }
    var fragment: nat := 0;
    var cursor: nat := fragments[0].contribution.range.start;
    for i := 0 to |primary|
      invariant Follow(cs, primary, i) == Some(Place(fragment, cursor))
    {
      if fragment >= |fragments| {
        FollowStops(cs, primary, i + 1, |primary|);
        return false;
      }
      var expected := fragments[fragment].contribution;
      if || primary[i].unit != expected.unit
         || primary[i].range.start != cursor
         || primary[i].range.end > expected.range.end
      {
        FollowStops(cs, primary, i + 1, |primary|);
        return false;
      }
      cursor := primary[i].range.end;
      if cursor == expected.range.end {
        fragment := fragment + 1;
        cursor := if fragment < |fragments| then fragments[fragment].contribution.range.start else 0;
      }
    }
    ok := fragment == |fragments|;
  }

  // ---- One chunk

  /** What walking a chunk's parts gathers. */
  datatype Gone = Gone(prepared: string, body: string, primary: seq<Contribution>)

  function GoNext(l: Layout, part: InputPart, before: Gone): Result<Gone> {
    var prepared := before.prepared + part.text;
    if part.text == "" || part.preparedRange != TextRange(|before.prepared|, |prepared|) then Err(InvalidChunks)
    else
      var body := before.body + if IsBody(part) then part.text else "";
      if part.role.FormattingSeparator? then
        if SeparatorOk(part) then Ok(Gone(prepared, body, before.primary)) else Err(InvalidChunks)
      else
        var primary :- ReplayedPart(l, part);
        Ok(Gone(prepared, body, before.primary + primary))
  }

  function Go(l: Layout, parts: seq<InputPart>, n: nat): Result<Gone>
    requires n <= |parts|
  {
    if n == 0 then Ok(Gone("", "", []))
    else
      var before :- Go(l, parts, n - 1);
      GoNext(l, parts[n - 1], before)
  }

  lemma {:induction false} GoStops(l: Layout, parts: seq<InputPart>, n: nat, m: nat)
    requires n <= m <= |parts| && Go(l, parts, n).Err?
    ensures Go(l, parts, m) == Go(l, parts, n)
  {
    hide GoNext;
    if n < m {
      GoStops(l, parts, n, m - 1);
    }
  }

  /** The checks of `validate_chunks` on one chunk, before its windows and its body are prepared again. */
  function ChunkReplay(l: Layout, t: Tools, chunk: ChunkContent): Result<()> {
    if chunk.fragments == [] || chunk.tokenCount > MaxTokens then Err(InvalidChunks)
    else
      var tokens :- t.count(chunk.preparedInput);
      if tokens != chunk.tokenCount then Err(InvalidChunks)
      else
        var gone :- Go(l, chunk.inputParts, |chunk.inputParts|);
        if gone.prepared != chunk.preparedInput || gone.body != chunk.bodyText || gone.body == "" then Err(InvalidChunks)
        else if !FollowsFragments(Contributions(chunk.fragments), gone.primary) then Err(InvalidChunks)
        else Ok(())
  }

  method ValidateChunk(l: Layout, t: Tools, chunk: ChunkContent) returns (r: Result<()>)
    ensures r == ChunkReplay(l, t, chunk)
  {
    hide ReplayedPart, FollowsFragments;
    if chunk.fragments == [] || chunk.tokenCount > MaxTokens {
      return Err(InvalidChunks);
    }
    var tokens := t.count(chunk.preparedInput);
    if tokens.Err? {
      return Err(tokens.error);
    }
    if tokens.value != chunk.tokenCount {
      return Err(InvalidChunks);
    }
    var prepared, body := "", "";
    var primary: seq<Contribution> := [];
    for i := 0 to |chunk.inputParts|
      invariant Go(l, chunk.inputParts, i) == Ok(Gone(prepared, body, primary))
    {
      var part := chunk.inputParts[i];
      if Go(l, chunk.inputParts, i + 1).Err? {
        GoStops(l, chunk.inputParts, i + 1, |chunk.inputParts|);
      }
      ghost var next := GoNext(l, part, Gone(prepared, body, primary));
      assert Go(l, chunk.inputParts, i + 1) == next;
      var start := |prepared|;
      prepared := prepared + part.text;
      if part.text == "" || part.preparedRange != TextRange(start, |prepared|) {
        return Err(InvalidChunks);
      }
      if IsBody(part) {
        body := body + part.text;
      }
      if part.role.FormattingSeparator? {
        if !SeparatorOk(part) {
          return Err(InvalidChunks);
        }
      } else {
        var more := ReplayPart(l, part);
        if more.Err? {
          return Err(more.error);
        }
        primary := primary + more.value;
      }
      assert next.Ok? && next.value.body == body;
    }
    if prepared != chunk.preparedInput || body != chunk.bodyText || body == "" {
      return Err(InvalidChunks);
    }
    var ordered := CheckFragmentOrder(chunk.fragments, primary);
    r := if ordered then Ok(()) else Err(InvalidChunks);
  }

  // ---- A chunk's table windows

  predicate WindowHolds(window: TableWindow, own: TableWindow)
    requires own.columns != []
  {
    window.table == own.table && window.row == own.row && window.rowIndex == own.rowIndex && own.columns[0] in window.columns
  }

  /** The positions of the first n windows that hold a cell. */
  function Matching(windows: seq<TableWindow>, own: TableWindow, n: nat): (r: seq<nat>)
    requires n <= |windows| && own.columns != []
    ensures forall i :: 0 <= i < |r| ==> r[i] < n
  {
    if n == 0 then []
    else Matching(windows, own, n - 1) + if WindowHolds(windows[n - 1], own) then [n - 1] else []
  }

  /** `matching_window`: the one window of a chunk that holds a fragment's own table cell. */
  function MatchingWindow(windows: seq<TableWindow>, own: TableWindow): (r: Result<nat>)
    ensures r.Ok? ==> r.value < |windows|
  {
    if own.columns == [] then Err(Structure)
    else
      var matching := Matching(windows, own, |windows|);
      if |matching| == 1 then Ok(matching[0]) else Err(Structure)
  }

  /** The windows that the first n fragments fall in. */
  function Witnessed(l: Layout, cs: seq<Contribution>, windows: seq<TableWindow>, n: nat): Result<set<nat>>
    requires n <= |cs|
  {
    if n == 0 then Ok({})
    else
      var before :- Witnessed(l, cs, windows, n - 1);
      var unit := cs[n - 1].unit;
      if unit >= |l.units| then Err(Structure)
      else
        var own :- l.Window(unit, false);
        match own
        case Some(window) =>
          var position :- MatchingWindow(windows, window);
          Ok(before + {position})
        case None => if windows != [] && l.rules.packing.ByContainer? then Err(Structure) else Ok(before)
  }

  /** `witness_windows`: each table fragment falls in one window, and each window holds one. */
  function WitnessWindows(l: Layout, cs: seq<Contribution>, windows: seq<TableWindow>): Result<()> {
    var witnessed :- Witnessed(l, cs, windows, |cs|);
    if |witnessed| != |windows| then Err(Structure) else Ok(())
  }

  /** Whether a window names columns of its row in increasing order. */
  predicate ColumnsOk(l: Layout, window: TableWindow) {
    && l.RowCells(window.row).Ok?
    && window.columns != []
    && (forall i :: 0 <= i < |window.columns| ==> window.columns[i] < |l.RowCells(window.row).value|)
    && forall i :: 0 <= i < |window.columns| - 1 ==> window.columns[i] < window.columns[i + 1]
  }

  /** Whether a window follows another: a later row of one table, over the same columns. */
  predicate FollowsWindow(left: TableWindow, right: TableWindow) {
    left.table == right.table && left.rowIndex < right.rowIndex && left.columns == right.columns
  }

  /** `order_windows`. */
  predicate WindowsOrdered(l: Layout, windows: seq<TableWindow>) {
    && (forall i :: 0 <= i < |windows| ==> ColumnsOk(l, windows[i]))
    && forall i :: 0 <= i < |windows| - 1 ==> FollowsWindow(windows[i], windows[i + 1])
  }

  lemma {:induction false} WitnessedStops(l: Layout, cs: seq<Contribution>, windows: seq<TableWindow>, n: nat, m: nat)
    requires n <= m <= |cs| && Witnessed(l, cs, windows, n).Err?
    ensures Witnessed(l, cs, windows, m) == Witnessed(l, cs, windows, n)
  {
    hide l.Window, MatchingWindow;
    if n < m {
      WitnessedStops(l, cs, windows, n, m - 1);
    }
  }

  method WitnessChunk(l: Layout, chunk: ChunkContent) returns (r: Result<()>)
    ensures r == WitnessWindows(l, Contributions(chunk.fragments), chunk.windows)
  {
    hide l.Window, MatchingWindow;
    ghost var cs := Contributions(chunk.fragments);
    var witnessed: set<nat> := {};
    for i := 0 to |chunk.fragments|
      invariant Witnessed(l, cs, chunk.windows, i) == Ok(witnessed)
    {
      if Witnessed(l, cs, chunk.windows, i + 1).Err? {
        WitnessedStops(l, cs, chunk.windows, i + 1, |cs|);
      }
      var unit := chunk.fragments[i].contribution.unit;
      if unit >= |l.units| {
        return Err(Structure);
      }
      var own := l.Window(unit, false);
      if own.Err? {
        return Err(own.error);
      }
      match own.value {
        case Some(window) =>
          var position := MatchingWindow(chunk.windows, window);
          if position.Err? {
            return Err(position.error);
          }
          witnessed := witnessed + {position.value};
        case None =>
          if chunk.windows != [] && l.rules.packing.ByContainer? {
            return Err(Structure);
          }
      }
    }
    r := if |witnessed| != |chunk.windows| then Err(Structure) else Ok(());
  }

  // ---- All chunks

  /** Whether a chunk passes every check of `validate_chunks` and `validate_preparation`. */
  ghost predicate Accepted(l: Layout, t: Tools, chunk: ChunkContent) {
    && ChunkReplay(l, t, chunk).Ok?
    && WitnessWindows(l, Contributions(chunk.fragments), chunk.windows).Ok?
    && WindowsOrdered(l, chunk.windows)
    && Prepared(l, t, Body(chunk.fragments, chunk.windows)) == Ok(chunk)
  }

  /** One chunk of `validate_preparation`: its windows, and its body prepared again. */
  method ValidateBody(l: Layout, t: Tools, chunk: ChunkContent) returns (ok: bool)
    ensures ok <==> && WitnessWindows(l, Contributions(chunk.fragments), chunk.windows).Ok?
                    && WindowsOrdered(l, chunk.windows)
                    && Prepared(l, t, Body(chunk.fragments, chunk.windows)) == Ok(chunk)
  {
    hide Prepared, Witnessed, ColumnsOk;
    var witnessed := WitnessChunk(l, chunk);
    if witnessed.Err? || !WindowsOrdered(l, chunk.windows) {
      return false;
    }
    var prepared := Prepare(l, t, Body(chunk.fragments, chunk.windows));
    ok := prepared == Ok(chunk);
  }

  /** `validate_chunks`: every chunk replays; then every chunk's preparation does. */
  method ValidateChunks(l: Layout, t: Tools, chunks: seq<ChunkContent>) returns (ok: bool)
    ensures ok <==> forall i :: 0 <= i < |chunks| ==> Accepted(l, t, chunks[i])
  {
    hide Prepared, ChunkReplay, WitnessWindows, WindowsOrdered;
    for i := 0 to |chunks|
      invariant forall k :: 0 <= k < i ==> ChunkReplay(l, t, chunks[k]).Ok?
    {
      var replayed := ValidateChunk(l, t, chunks[i]);
      if replayed.Err? {
        assert !Accepted(l, t, chunks[i]);
        return false;
      }
    }
    for i := 0 to |chunks|
      invariant forall k :: 0 <= k < i ==> Accepted(l, t, chunks[k])
    {
      var prepared := ValidateBody(l, t, chunks[i]);
      if !prepared {
        assert !Accepted(l, t, chunks[i]);
        return false;
      }
    }
    ok := true;
  }
}
