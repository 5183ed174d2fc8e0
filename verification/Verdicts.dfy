/** What the validator's acceptance of a chunk means, said of the chunk itself. */
module Verdicts {
  import opened Common
  import opened Ranges
  import opened Units
  import opened Slices
  import opened Layouts
  import opened Preparation
  import opened Conservation
  import opened Replay
  import opened Ordering

  /** The source texts of the first n contributions, one after the other. */
  ghost function SourceTexts(l: Layout, cs: seq<Contribution>, n: nat): string
    requires n <= |cs| && forall i :: 0 <= i < |cs| ==> Reads(l, cs[i])
  {
    if n == 0 then "" else SourceTexts(l, cs, n - 1) + l.units[cs[n - 1].unit].text[cs[n - 1].range.start..cs[n - 1].range.end]
  }

  /** Whether a contribution names some text of some unit. */
  predicate Reads(l: Layout, c: Contribution) {
    c.unit < |l.units| && c.range.start < c.range.end <= |l.units[c.unit].text|
  }

  /** A part is either formatting, of no source, or reads as the source it names; its own source is of primary units. */
  ghost predicate PartSound(l: Layout, part: InputPart) {
    && part.text != ""
    && if part.role.FormattingSeparator? then
         part.contributions == [] && part.mappings == [MappingRun(TextRange(0, |part.text|), Formatting, [])]
       else
         && !part.bodyLayout && part.contributions != []
         && (forall i :: 0 <= i < |part.contributions| ==>
               Reads(l, part.contributions[i]) && (part.role.SourceContent? ==> l.units[part.contributions[i].unit].primary))
         && part.text == SourceTexts(l, part.contributions, |part.contributions|)
  }

  /** The source that the first n parts name as the body's own. */
  ghost function OwnSource(parts: seq<InputPart>, n: nat): seq<Contribution>
    requires n <= |parts|
  {
    if n == 0 then [] else OwnSource(parts, n - 1) + if parts[n - 1].role.SourceContent? then parts[n - 1].contributions else []
  }

  ghost predicate PartsSound(l: Layout, parts: seq<InputPart>, n: nat) {
    n <= |parts| && forall i :: 0 <= i < n ==> PartSound(l, parts[i])
  }

  /** The first n parts lie one after the other in the prepared input, each over its own text. */
  ghost predicate PartsTile(parts: seq<InputPart>, prepared: string, n: nat) {
    && n <= |parts|
    && (forall i :: 0 <= i < n ==>
          InBounds(parts[i].preparedRange, prepared) && prepared[parts[i].preparedRange.start..parts[i].preparedRange.end] == parts[i].text)
    && (forall i :: 0 < i < n ==> parts[i - 1].preparedRange.end == parts[i].preparedRange.start)
    && if n == 0 then prepared == "" else parts[0].preparedRange.start == 0 && parts[n - 1].preparedRange.end == |prepared|
  }

  /** A chunk's table windows: every table fragment lies in exactly one, each holds a fragment, and by container no other text stands beside them. */
  ghost predicate WindowsMeet(l: Layout, cs: seq<Contribution>, windows: seq<TableWindow>) {
    && (forall i :: 0 <= i < |cs| ==> cs[i].unit < |l.units| && l.Window(cs[i].unit, false).Ok?)
    && (forall i :: 0 <= i < |cs| && l.Window(cs[i].unit, false).value.Some? ==> exists k: nat :: OnlyIn(windows, l.Window(cs[i].unit, false).value.value, k))
    && (forall k: nat :: k < |windows| ==> Fallen(l, cs, windows, |cs|, k))
    && (windows != [] && l.rules.packing.ByContainer? ==> forall i :: 0 <= i < |cs| ==> l.Window(cs[i].unit, false).value.Some?)
  }

  /** Whether one of the first n fragments lies in a window and in no other. */
  ghost predicate Fallen(l: Layout, cs: seq<Contribution>, windows: seq<TableWindow>, n: nat, k: nat)
    requires n <= |cs| && forall i :: 0 <= i < n ==> cs[i].unit < |l.units| && l.Window(cs[i].unit, false).Ok?
  {
    exists i :: 0 <= i < n && l.Window(cs[i].unit, false).value.Some? && OnlyIn(windows, l.Window(cs[i].unit, false).value.value, k)
  }

  predicate CellIn(own: TableWindow, window: TableWindow) {
    own.columns != [] && window.table == own.table && window.row == own.row && window.rowIndex == own.rowIndex && own.columns[0] in window.columns
  }

  ghost predicate OnlyIn(windows: seq<TableWindow>, own: TableWindow, k: nat) {
    k < |windows| && forall m :: 0 <= m < |windows| ==> (CellIn(own, windows[m]) <==> m == k)
  }

  /** Columns of their rows in increasing order, of later and later rows of one table, the same columns each. */
  ghost predicate InOrder(l: Layout, windows: seq<TableWindow>) {
    && (forall i :: 0 <= i < |windows| ==> l.RowCells(windows[i].row).Ok? && Increasing(windows[i].columns, |l.RowCells(windows[i].row).value|))
    && forall i :: 0 < i < |windows| ==>
         && windows[i - 1].table == windows[i].table && windows[i - 1].rowIndex < windows[i].rowIndex
         && windows[i - 1].columns == windows[i].columns
  }

  predicate Increasing(columns: seq<nat>, below: nat) {
    && columns != [] && (forall i :: 0 <= i < |columns| ==> columns[i] < below)
    && forall i, j :: 0 <= i < j < |columns| ==> columns[i] < columns[j]
  }

  lemma {:induction false} Rising(columns: seq<nat>, i: nat, j: nat)
    requires i < j < |columns| && forall k :: 0 <= k < |columns| - 1 ==> columns[k] < columns[k + 1]
    ensures columns[i] < columns[j]
  {
    if i < j - 1 {
      Rising(columns, i, j - 1);
    }
  }

  lemma {:induction false} ColumnsIncrease(l: Layout, window: TableWindow)
    requires ColumnsOk(l, window)
    ensures l.RowCells(window.row).Ok? && Increasing(window.columns, |l.RowCells(window.row).value|)
  {
    hide l.RowCells;
    forall i, j | 0 <= i < j < |window.columns| ensures window.columns[i] < window.columns[j] {
      Rising(window.columns, i, j);
    }
  }

  lemma {:induction false} WindowsIncrease(l: Layout, windows: seq<TableWindow>)
    requires WindowsOrdered(l, windows)
    ensures InOrder(l, windows)
  {
    hide l.RowCells, ColumnsOk, Increasing;
    forall i | 0 <= i < |windows| ensures l.RowCells(windows[i].row).Ok? && Increasing(windows[i].columns, |l.RowCells(windows[i].row).value|) {
      ColumnsIncrease(l, windows[i]);
    }
    forall i | 0 < i < |windows|
      ensures windows[i - 1].table == windows[i].table && windows[i - 1].rowIndex < windows[i].rowIndex && windows[i - 1].columns == windows[i].columns
    {
      assert FollowsWindow(windows[i - 1], windows[i - 1 + 1]);
    }
  }

  // ---- One part

  lemma {:induction false} RebuildReads(l: Layout, part: InputPart, n: nat)
    requires n <= |part.contributions| && Rebuild(l, part, n).Ok?
    ensures forall i :: 0 <= i < n ==>
              Reads(l, part.contributions[i]) && (part.role.SourceContent? ==> l.units[part.contributions[i].unit].primary)
    ensures Rebuild(l, part, n).value.primary == if part.role.SourceContent? then part.contributions[..n] else []
    ensures (forall i :: 0 <= i < |part.contributions| ==> Reads(l, part.contributions[i]))
            ==> Rebuild(l, part, n).value.text == SourceTexts(l, part.contributions, n)
  {
    hide MappedSlice, AllShifted;
    if n > 0 {
      RebuildReads(l, part, n - 1);
      assert part.contributions[..n] == part.contributions[..n - 1] + [part.contributions[n - 1]];
    }
  }

  lemma {:induction false} ReplayedSound(l: Layout, part: InputPart)
    requires part.text != ""
    requires if part.role.FormattingSeparator? then SeparatorOk(part) else ReplayedPart(l, part).Ok?
    ensures PartSound(l, part)
    ensures !part.role.FormattingSeparator? ==>
              ReplayedPart(l, part).value == if part.role.SourceContent? then part.contributions else []
  {
    hide Rebuild;
    if !part.role.FormattingSeparator? {
      RebuildReads(l, part, |part.contributions|);
      assert part.contributions[..|part.contributions|] == part.contributions;
    }
  }

  // ---- All parts

  lemma {:induction false} GoneSound(l: Layout, parts: seq<InputPart>, n: nat)
    requires n <= |parts| && Go(l, parts, n).Ok?
    ensures
      var gone := Go(l, parts, n).value;
      && PartsSound(l, parts, n) && PartsTile(parts, gone.prepared, n)
      && gone.body == BodyTexts(parts, n) && gone.primary == OwnSource(parts, n)
  {
    hide ReplayedPart, PartSound, SeparatorOk;
    if n > 0 {
      GoneSound(l, parts, n - 1);
      ReplayedSound(l, parts[n - 1]);
      var before, after := Go(l, parts, n - 1).value.prepared, Go(l, parts, n).value.prepared;
      assert after == before + parts[n - 1].text;
      TileNext(parts, before, n - 1);
    }
  }

  lemma {:induction false} TileNext(parts: seq<InputPart>, prepared: string, n: nat)
    requires n < |parts| && PartsTile(parts, prepared, n) && parts[n].preparedRange == TextRange(|prepared|, |prepared| + |parts[n].text|)
    ensures PartsTile(parts, prepared + parts[n].text, n + 1)
  {
    var after := prepared + parts[n].text;
    forall i | 0 <= i < n ensures after[parts[i].preparedRange.start..parts[i].preparedRange.end] == parts[i].text {
      assert after[parts[i].preparedRange.start..parts[i].preparedRange.end] == prepared[parts[i].preparedRange.start..parts[i].preparedRange.end];
    }
  }

  lemma {:induction false} OwnSolid(l: Layout, parts: seq<InputPart>, n: nat)
    requires PartsSound(l, parts, n)
    ensures Solids(OwnSource(parts, n))
  {
    if n > 0 {
      OwnSolid(l, parts, n - 1);
      assert PartSound(l, parts[n - 1]);
    }
  }

  // ---- Windows

  lemma {:induction false} MatchingExactly(windows: seq<TableWindow>, own: TableWindow, n: nat)
    requires n <= |windows| && own.columns != []
    ensures forall k: nat :: k in Matching(windows, own, n) <==> k < n && CellIn(own, windows[k])
    ensures forall i, j :: 0 <= i < j < |Matching(windows, own, n)| ==> Matching(windows, own, n)[i] < Matching(windows, own, n)[j]
  {
    if n > 0 {
      MatchingExactly(windows, own, n - 1);
    }
  }

  lemma {:induction false} MatchedOnly(windows: seq<TableWindow>, own: TableWindow)
    requires MatchingWindow(windows, own).Ok?
    ensures OnlyIn(windows, own, MatchingWindow(windows, own).value)
  {
    hide Matching;
    MatchingExactly(windows, own, |windows|);
    var matching := Matching(windows, own, |windows|);
    forall m: nat | m < |windows| && CellIn(own, windows[m]) ensures m == matching[0] {
      assert m in matching;
    }
    assert matching[0] in matching;
  }

  lemma {:induction false} WitnessedMeet(l: Layout, cs: seq<Contribution>, windows: seq<TableWindow>, n: nat)
    requires n <= |cs| && Witnessed(l, cs, windows, n).Ok?
    ensures forall i :: 0 <= i < n ==> cs[i].unit < |l.units| && l.Window(cs[i].unit, false).Ok?
    ensures forall i :: 0 <= i < n && l.Window(cs[i].unit, false).value.Some? ==>
              exists k: nat :: OnlyIn(windows, l.Window(cs[i].unit, false).value.value, k)
    ensures windows != [] && l.rules.packing.ByContainer? ==> forall i :: 0 <= i < n ==> l.Window(cs[i].unit, false).value.Some?
    ensures forall k: nat :: k in Witnessed(l, cs, windows, n).value ==> k < |windows| && Fallen(l, cs, windows, n, k)
  {
    hide l.Window, MatchingWindow, OnlyIn;
    if n > 0 {
      WitnessedMeet(l, cs, windows, n - 1);
      var own := l.Window(cs[n - 1].unit, false).value;
      if own.Some? {
        MatchedOnly(windows, own.value);
      }
    }
  }

  lemma {:induction false} Fills(s: set<nat>, n: nat)
    requires (forall k: nat :: k in s ==> k < n) && |s| == n
    ensures forall k: nat :: k < n ==> k in s
  {
    if n > 0 {
      if n - 1 in s {
        Fills(s - {n - 1}, n - 1);
      } else {
        Bounded(s, n - 1);
      }
    }
  }

  lemma {:induction false} Bounded(s: set<nat>, n: nat)
    requires forall k: nat :: k in s ==> k < n
    ensures |s| <= n
  {
    if n == 0 {
      assert s == {};
    } else {
      Bounded(s - {n - 1}, n - 1);
    }
  }

  lemma {:induction false} WitnessMeets(l: Layout, cs: seq<Contribution>, windows: seq<TableWindow>)
    requires WitnessWindows(l, cs, windows).Ok?
    ensures WindowsMeet(l, cs, windows)
  {
    hide l.Window, OnlyIn, Witnessed, Fallen;
    WitnessedMeet(l, cs, windows, |cs|);
    Fills(Witnessed(l, cs, windows, |cs|).value, |windows|);
  }

  // ---- The chunk

  /**
   * An accepted chunk has fragments and at most 700 tokens, as counted of its prepared input. Its
   * parts lie one after the other in that input; each is formatting or reads as the source it
   * names. The body's parts read as the body's text, which is not empty, and name exactly the
   * characters of the fragments, in order. Its table windows and fragments meet, in row order.
   */
  lemma {:induction false} AcceptedSound(l: Layout, t: Tools, chunk: ChunkContent)
    requires Accepted(l, t, chunk)
    ensures chunk.fragments != [] && chunk.tokenCount <= 700 && t.count(chunk.preparedInput) == Ok(chunk.tokenCount)
    ensures PartsSound(l, chunk.inputParts, |chunk.inputParts|) && PartsTile(chunk.inputParts, chunk.preparedInput, |chunk.inputParts|)
    ensures chunk.bodyText == BodyTexts(chunk.inputParts, |chunk.inputParts|) && chunk.bodyText != ""
    ensures AllCells(OwnSource(chunk.inputParts, |chunk.inputParts|)) == AllCells(Contributions(chunk.fragments))
    ensures WindowsMeet(l, Contributions(chunk.fragments), chunk.windows) && InOrder(l, chunk.windows)
  {
    hide Go, FollowsFragments, WitnessWindows, WindowsOrdered, Prepared, PartsSound, PartsTile, InOrder, WindowsMeet;
    var parts := chunk.inputParts;
    GoneSound(l, parts, |parts|);
    OwnSolid(l, parts, |parts|);
    OrderSound(Contributions(chunk.fragments), OwnSource(parts, |parts|));
    WitnessMeets(l, Contributions(chunk.fragments), chunk.windows);
    WindowsIncrease(l, chunk.windows);
  }
}
