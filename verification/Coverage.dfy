/**
 * Checking that chunks cover every indexed character exactly once: what the checker accepts, and
 * what its acceptance means.
 */
module Coverage {
  import opened Common
  import opened Ranges
  import opened Brackets
  import opened Units
  import opened Layouts
  import opened Preparation
  import opened Conservation
  import Sorting

  datatype UnitCoverage = UnitCoverage(unit: nat, primaryRanges: seq<TextRange>, chromeRanges: seq<TextRange>)

  function AllFragments(chunks: seq<ChunkContent>, n: nat): seq<Fragment>
    requires n <= |chunks|
  {
    if n == 0 then [] else AllFragments(chunks, n - 1) + chunks[n - 1].fragments
  }

  /** Whether a fragment may follow those already collected. */
  predicate Admitted(l: Layout, fragments: seq<Fragment>, i: nat, collected: seq<seq<TextRange>>)
    requires i < |fragments| && |collected| == |l.units|
  {
    var c := fragments[i].contribution;
    && c.unit < |l.units|
    && l.units[c.unit].primary
    && c.range.start < c.range.end
    && InBounds(c.range, l.units[c.unit].text)
    && fragments[i].partOrdinal == |collected[c.unit]|
    && (i > 0 ==> fragments[i - 1].contribution.unit <= c.unit)
  }

  /** The ranges of each unit in the first n fragments. */
  function Collected(l: Layout, fragments: seq<Fragment>, n: nat): (r: Result<seq<seq<TextRange>>>)
    requires n <= |fragments|
    ensures r.Ok? ==> |r.value| == |l.units|
  {
    if n == 0 then Ok(seq(|l.units|, _ => []))
    else
      var before :- Collected(l, fragments, n - 1);
      if !Admitted(l, fragments, n - 1, before) then Err(InvalidChunks)
      else
        var c := fragments[n - 1].contribution;
        Ok(before[c.unit := before[c.unit] + [c.range]])
  }

  function ByPosition(ranges: seq<TextRange>): seq<TextRange> {
    Sorting.SortBy(ranges, (r: TextRange) => (r.start as int, r.end as int))
  }

  /** Where a walk over the first n ranges stands: each must start where the one before ended. */
  function Walked(ranges: seq<TextRange>, start: nat, n: nat): Option<nat>
    requires n <= |ranges|
  {
    if n == 0 then Some(start)
    else if Walked(ranges, start, n - 1) == Some(ranges[n - 1].start) then Some(ranges[n - 1].end)
    else None
  }

  /** The ranges left out as chrome around a unit's kept part. */
  function ChromeRanges(kept: Option<TextRange>, length: nat): seq<TextRange> {
    match kept
    case None => [TextRange(0, length)]
    case Some(range) =>
      (if 0 < range.start then [TextRange(0, range.start)] else [])
      + if range.end < length then [TextRange(range.end, length)] else []
  }

  /** A character of a unit is either in its kept part or in one of its chrome ranges, and in no two of those. */
  lemma {:induction false} ChromeExactly(kept: Option<TextRange>, length: nat, p: nat)
    requires kept.Some? ==> kept.value.start <= kept.value.end <= length
    ensures
      (exists i :: 0 <= i < |ChromeRanges(kept, length)| && Holds(ChromeRanges(kept, length)[i], p))
      <==> p < length && !(kept.Some? && Holds(kept.value, p))
    ensures forall i, j :: 0 <= i < j < |ChromeRanges(kept, length)| ==> ChromeRanges(kept, length)[i].end <= ChromeRanges(kept, length)[j].start
  {
    var ranges := ChromeRanges(kept, length);
    if p < length && !(kept.Some? && Holds(kept.value, p)) {
      assert Holds(ranges[if kept.Some? && 0 < kept.value.start <= p then |ranges| - 1 else 0], p);
    }
  }

  /** The first n units, each primary one covered exactly. */
  function Covered(l: Layout, collected: seq<seq<TextRange>>, n: nat): Result<seq<UnitCoverage>>
    requires n <= |l.units| == |collected|
  {
    if n == 0 then Ok([])
    else
      var before :- Covered(l, collected, n - 1);
      var unit := l.units[n - 1];
      if !unit.primary then Ok(before)
      else
        var ranges := ByPosition(collected[n - 1]);
        var kept := l.Kept(n - 1);
        var (start, end) := if kept.Some? then (kept.value.start, kept.value.end) else (0, 0);
        if Walked(ranges, start, |ranges|) != Some(end) then Err(InvalidChunks)
        else Ok(before + [UnitCoverage(n - 1, ranges, ChromeRanges(kept, |unit.text|))])
  }

  /** Each indexed character exactly once, and nothing of the chrome. */
  function ValidCoverage(l: Layout, chunks: seq<ChunkContent>): Result<seq<UnitCoverage>> {
    var fragments := AllFragments(chunks, |chunks|);
    var collected :- Collected(l, fragments, |fragments|);
    Covered(l, collected, |l.units|)
  }

  lemma {:induction false} CollectedStop(l: Layout, fragments: seq<Fragment>, n: nat, m: nat)
    requires n <= m <= |fragments| && Collected(l, fragments, n).Err?
    ensures Collected(l, fragments, m) == Err(InvalidChunks)
  {
    if n < m {
      CollectedStop(l, fragments, n, m - 1);
    } else if n > 0 && Collected(l, fragments, n - 1).Err? {
      CollectedStop(l, fragments, n - 1, n - 1);
    }
  }

  lemma {:induction false} CoveredStop(l: Layout, collected: seq<seq<TextRange>>, n: nat, m: nat)
    requires n <= m <= |l.units| == |collected| && Covered(l, collected, n).Err?
    ensures Covered(l, collected, m) == Err(InvalidChunks)
  {
    if n < m {
      CoveredStop(l, collected, n, m - 1);
    } else if n > 0 && Covered(l, collected, n - 1).Err? {
      CoveredStop(l, collected, n - 1, n - 1);
    }
  }

  lemma {:induction false} WalkedStop(ranges: seq<TextRange>, start: nat, n: nat, m: nat)
    requires n <= m <= |ranges| && Walked(ranges, start, n).None?
    ensures Walked(ranges, start, m).None?
  {
    if n < m {
      WalkedStop(ranges, start, n, m - 1);
    }
  }

  /** The walk over one unit's sorted ranges. */
  method Walk(ranges: seq<TextRange>, start: nat, end: nat) returns (covered: bool)
    ensures covered <==> Walked(ranges, start, |ranges|) == Some(end)
  {
    var next: nat := start;
    for i := 0 to |ranges|
      invariant Walked(ranges, start, i) == Some(next)
    {
      if ranges[i].start != next {
        WalkedStop(ranges, start, i + 1, |ranges|);
        return false;
      }
      next := ranges[i].end;
    }
    covered := next == end;
  }

  /** `validate_coverage`. */
  method ValidateCoverage(l: Layout, chunks: seq<ChunkContent>) returns (r: Result<seq<UnitCoverage>>)
    ensures r == ValidCoverage(l, chunks)
  {
    hide ByPosition, Walked, ChromeRanges;
    var fragments := AllFragments(chunks, |chunks|);
    var ranges: seq<seq<TextRange>> := seq(|l.units|, _ => []);
    for i := 0 to |fragments|
      invariant Collected(l, fragments, i) == Ok(ranges)
    {
      if !Admitted(l, fragments, i, ranges) {
        CollectedStop(l, fragments, i + 1, |fragments|);
        return Err(InvalidChunks);
      }
      var c := fragments[i].contribution;
      ranges := ranges[c.unit := ranges[c.unit] + [c.range]];
    }
    var coverage: seq<UnitCoverage> := [];
    for u := 0 to |l.units|
      invariant Covered(l, ranges, u) == Ok(coverage)
    {
      if l.units[u].primary {
        var sorted := ByPosition(ranges[u]);
        var kept := l.Kept(u);
        var (start, end) := if kept.Some? then (kept.value.start, kept.value.end) else (0, 0);
        var covered := Walk(sorted, start, end);
        if !covered {
          CoveredStop(l, ranges, u + 1, |l.units|);
          return Err(InvalidChunks);
        }
        coverage := coverage + [UnitCoverage(u, sorted, ChromeRanges(kept, |l.units[u].text|))];
      }
    }
    r := Ok(coverage);
  }

  // ---- What is to be covered

  /** The kept part of every indexed unit among the first n, in unit order. */
  ghost function KeptContributions(l: Layout, n: nat): seq<Contribution>
    requires n <= |l.units|
  {
    if n == 0 then []
    else KeptContributions(l, n - 1) + if l.Indexed(n - 1) then [Contribution(n - 1, l.Kept(n - 1).value)] else []
  }

  /** Every character the profile indexes, in order. */
  ghost function IndexedCells(l: Layout): seq<Cell> {
    AllCells(KeptContributions(l, |l.units|))
  }

  /** Kept parts are nonempty parts of their units' texts. */
  ghost predicate KeptParts(l: Layout) {
    forall u :: 0 <= u < |l.units| && l.Indexed(u) ==>
      var range := l.Kept(u).value;
      range.start < range.end && InBounds(range, l.units[u].text)
  }

  // ---- Characters of one unit

  ghost function OffsetsOf(cells: seq<Cell>, unit: nat, n: nat): seq<nat>
    requires n <= |cells|
  {
    if n == 0 then []
    else OffsetsOf(cells, unit, n - 1) + if cells[n - 1].0 == unit then [cells[n - 1].1] else []
  }

  /** The offsets of a range. */
  ghost function Run(range: TextRange): seq<nat> {
    if range.end <= range.start then [] else seq(range.end - range.start, i requires 0 <= i => range.start + i)
  }

  ghost function Runs(ranges: seq<TextRange>, n: nat): seq<nat>
    requires n <= |ranges|
  {
    if n == 0 then [] else Runs(ranges, n - 1) + Run(ranges[n - 1])
  }

  ghost function RangesIn(cs: seq<Contribution>, unit: nat, n: nat): seq<TextRange>
    requires n <= |cs|
  {
    if n == 0 then [] else RangesIn(cs, unit, n - 1) + if cs[n - 1].unit == unit then [cs[n - 1].range] else []
  }

  lemma {:induction false} OffsetsPrefix(a: seq<Cell>, b: seq<Cell>, unit: nat, n: nat)
    requires n <= |a|
    ensures OffsetsOf(a + b, unit, n) == OffsetsOf(a, unit, n)
  {
    if n > 0 {
      OffsetsPrefix(a, b, unit, n - 1);
    }
  }

  lemma {:induction false} OffsetsThen(a: seq<Cell>, b: seq<Cell>, unit: nat, n: nat)
    requires n <= |b|
    ensures OffsetsOf(a + b, unit, |a| + n) == OffsetsOf(a, unit, |a|) + OffsetsOf(b, unit, n)
  {
    if n == 0 {
      OffsetsPrefix(a, b, unit, |a|);
    } else {
      OffsetsThen(a, b, unit, n - 1);
      assert (a + b)[|a| + n - 1] == b[n - 1];
    }
  }

  lemma {:induction false} OffsetsOfOne(c: Contribution, unit: nat, n: nat)
    requires n <= |CellsOf(c)|
    ensures OffsetsOf(CellsOf(c), unit, n) == if c.unit == unit then Run(c.range)[..n] else []
  {
    if n > 0 {
      OffsetsOfOne(c, unit, n - 1);
      if c.unit == unit {
        assert Run(c.range)[..n] == Run(c.range)[..n - 1] + [c.range.start + (n - 1)];
      }
    }
  }

  lemma {:induction false} OffsetsOfAll(c: Contribution, unit: nat)
    ensures OffsetsOf(CellsOf(c), unit, |CellsOf(c)|) == if c.unit == unit then Run(c.range) else []
  {
    OffsetsOfOne(c, unit, |CellsOf(c)|);
    assert Run(c.range)[..|Run(c.range)|] == Run(c.range);
  }

  lemma {:induction false} NoRuns()
    ensures Runs([], 0) == [] && forall unit :: OffsetsOf([], unit, 0) == []
  {
  }

  /** A unit's characters among some contributions are those of its own ranges, in order. */
  lemma {:induction false} OffsetsOfCells(cs: seq<Contribution>, unit: nat, n: nat)
    requires n <= |cs|
    ensures
      var ranges := RangesIn(cs, unit, n);
      OffsetsOf(Cells(cs, n), unit, |Cells(cs, n)|) == Runs(ranges, |ranges|)
  {
    hide CellsOf, Run, Runs, OffsetsOf;
    if n == 0 {
      NoRuns();
    } else {
      OffsetsOfCells(cs, unit, n - 1);
      var c := cs[n - 1];
      OffsetsThen(Cells(cs, n - 1), CellsOf(c), unit, |CellsOf(c)|);
      OffsetsOfAll(c, unit);
      var before := RangesIn(cs, unit, n - 1);
      if c.unit == unit {
        RunsThen(before, c.range);
      } else {
        assert RangesIn(cs, unit, n) == before;
      }
    }
  }

  lemma {:induction false} RunsThen(ranges: seq<TextRange>, range: TextRange)
    ensures Runs(ranges + [range], |ranges| + 1) == Runs(ranges, |ranges|) + Run(range)
  {
    RunsPrefix(ranges, [range], |ranges|);
  }

  lemma {:induction false} RunsPrefix(a: seq<TextRange>, b: seq<TextRange>, n: nat)
    requires n <= |a|
    ensures Runs(a + b, n) == Runs(a, n)
  {
    if n > 0 {
      RunsPrefix(a, b, n - 1);
    }
  }

  // ---- Ranges that run through a stretch tile it

  ghost predicate Nonempty(ranges: seq<TextRange>) {
    forall i :: 0 <= i < |ranges| ==> ranges[i].start < ranges[i].end
  }

  lemma {:induction false} RunsWalk(ranges: seq<TextRange>, whole: TextRange, n: nat)
    requires n <= |ranges| && Nonempty(ranges)
    requires whole.start <= whole.end && Runs(ranges, n) == Run(whole)
    ensures Walked(ranges, whole.start, n) == Some(whole.end)
    decreases n
  {
    if n == 0 {
      assert |Run(whole)| == 0;
    } else {
      var last, before := ranges[n - 1], Runs(ranges, n - 1);
      var length := whole.end - whole.start;
      assert |Run(last)| == last.end - last.start && |Run(whole)| == length;
      assert Run(whole)[|before|] == Run(last)[0];
      assert Run(whole)[length - 1] == Run(last)[|Run(last)| - 1];
      assert before == Run(whole)[..|before|];
      assert Run(whole)[..|before|] == Run(TextRange(whole.start, last.start));
      RunsWalk(ranges, TextRange(whole.start, last.start), n - 1);
    }
  }

  lemma {:induction false} WalkedOrdered(ranges: seq<TextRange>, start: nat, n: nat)
    requires n <= |ranges| && Nonempty(ranges) && Walked(ranges, start, n).Some?
    ensures forall i :: 0 <= i < n ==> start <= ranges[i].start && ranges[i].end <= Walked(ranges, start, n).value
    ensures forall i, j :: 0 <= i < j < n ==> ranges[i].end <= ranges[j].start
    ensures start <= Walked(ranges, start, n).value
  {
    if n > 0 {
      WalkedOrdered(ranges, start, n - 1);
    }
  }

  lemma {:induction false} WalkedSorted(ranges: seq<TextRange>, start: nat)
    requires Nonempty(ranges) && Walked(ranges, start, |ranges|).Some?
    ensures ByPosition(ranges) == ranges
  {
    WalkedOrdered(ranges, start, |ranges|);
    Sorting.SortBySortedIdentity(ranges, (r: TextRange) => (r.start as int, r.end as int));
  }

  // ---- Covering exactly the indexed characters is enough

  lemma {:induction false} CellAt(cs: seq<Contribution>, i: nat, k: nat, n: nat)
    requires i < n <= |cs| && cs[i].range.start + k < cs[i].range.end
    ensures |Cells(cs, i)| + k < |Cells(cs, n)|
    ensures Cells(cs, n)[|Cells(cs, i)| + k] == (cs[i].unit, cs[i].range.start + k)
    ensures |Cells(cs, i + 1)| == |Cells(cs, i)| + (cs[i].range.end - cs[i].range.start)
  {
    hide CellsOf;
    CellOf(cs[i], k);
    if i < n - 1 {
      CellAt(cs, i, k, n - 1);
    }
  }

  lemma {:induction false} CellOf(c: Contribution, k: nat)
    requires c.range.start + k < c.range.end
    ensures |CellsOf(c)| == c.range.end - c.range.start && CellsOf(c)[k] == (c.unit, c.range.start + k)
  {
  }

  /** Where the k-th character of the i-th contribution stands among all of them. */
  lemma {:induction false} CellAmong(cs: seq<Contribution>, i: nat, k: nat) returns (p: nat)
    requires i < |cs| && cs[i].range.start + k < cs[i].range.end
    ensures p == |Cells(cs, i)| + k && p < |AllCells(cs)|
    ensures AllCells(cs)[p] == (cs[i].unit, cs[i].range.start + k)
  {
    CellAt(cs, i, k, |cs|);
    p := |Cells(cs, i)| + k;
  }

  /** Characters of the kept parts of the first n units. */
  ghost predicate AreKept(l: Layout, cells: seq<Cell>, n: nat) {
    forall i :: 0 <= i < |cells| ==>
      cells[i].0 < n && l.Indexed(cells[i].0) && Holds(l.Kept(cells[i].0).value, cells[i].1)
  }

  ghost predicate UnitsOrdered(cells: seq<Cell>) {
    forall i, j :: 0 <= i < j < |cells| ==> cells[i].0 <= cells[j].0
  }

  lemma {:induction false} KeptThen(l: Layout, before: seq<Cell>, c: Contribution)
    requires AreKept(l, before, c.unit) && UnitsOrdered(before)
    requires l.Indexed(c.unit) && l.Kept(c.unit).value == c.range
    ensures AreKept(l, before + CellsOf(c), c.unit + 1) && UnitsOrdered(before + CellsOf(c))
  {
  }

  lemma {:induction false} KeptCells(l: Layout, n: nat)
    requires n <= |l.units|
    ensures AreKept(l, AllCells(KeptContributions(l, n)), n)
    ensures UnitsOrdered(AllCells(KeptContributions(l, n)))
  {
    hide CellsOf;
    if n > 0 {
      KeptCells(l, n - 1);
      var before := KeptContributions(l, n - 1);
      if l.Indexed(n - 1) {
        var last := Contribution(n - 1, l.Kept(n - 1).value);
        KeptThen(l, AllCells(before), last);
        CellsConcat(before, [last]);
        CellsOne(last);
      } else {
        assert KeptContributions(l, n) == before;
      }
    }
  }

  lemma {:induction false} KeptRanges(l: Layout, unit: nat, n: nat)
    requires unit < |l.units| && n <= |l.units|
    ensures
      var kept := KeptContributions(l, n);
      RangesIn(kept, unit, |kept|) == if unit < n && l.Indexed(unit) then [l.Kept(unit).value] else []
  {
    if n > 0 {
      KeptRanges(l, unit, n - 1);
      var before := KeptContributions(l, n - 1);
      if l.Indexed(n - 1) {
        var c := Contribution(n - 1, l.Kept(n - 1).value);
        assert KeptContributions(l, n) == before + [c];
        RangesInThen(before, c, unit);
      } else {
        assert KeptContributions(l, n) == before + [] == before;
      }
    }
  }

  lemma {:induction false} RangesInPrefix(a: seq<Contribution>, b: seq<Contribution>, unit: nat, n: nat)
    requires n <= |a|
    ensures RangesIn(a + b, unit, n) == RangesIn(a, unit, n)
  {
    if n > 0 {
      RangesInPrefix(a, b, unit, n - 1);
    }
  }

  lemma {:induction false} RangesInThen(cs: seq<Contribution>, c: Contribution, unit: nat)
    ensures RangesIn(cs + [c], unit, |cs| + 1) == RangesIn(cs, unit, |cs|) + if c.unit == unit then [c.range] else []
  {
    RangesInPrefix(cs, [c], unit, |cs|);
  }

  /** Fragments that name exactly the indexed characters, in order, and number each unit's parts. */
  ghost predicate Exact(l: Layout, fragments: seq<Fragment>) {
    var cs := Contributions(fragments);
    && (forall i :: 0 <= i < |cs| ==> cs[i].range.start < cs[i].range.end)
    && AllCells(cs) == IndexedCells(l)
    && Numbered(fragments)
  }

  /** Each fragment carries how many earlier ones its unit has. */
  ghost predicate Numbered(fragments: seq<Fragment>) {
    forall i :: 0 <= i < |fragments| ==>
      fragments[i].partOrdinal == |RangesIn(Contributions(fragments), fragments[i].contribution.unit, i)|
  }

  lemma {:induction false} FragmentKept(l: Layout, cs: seq<Contribution>, i: nat)
    requires KeptParts(l) && AllCells(cs) == IndexedCells(l)
    requires i < |cs| && cs[i].range.start < cs[i].range.end
    ensures cs[i].unit < |l.units| && l.Indexed(cs[i].unit)
    ensures InBounds(cs[i].range, l.units[cs[i].unit].text)
  {
    hide AllCells, KeptContributions;
    KeptCells(l, |l.units|);
    var p := CellAmong(cs, i, 0);
    var q := CellAmong(cs, i, cs[i].range.end - cs[i].range.start - 1);
    assert IndexedCells(l)[p].0 == IndexedCells(l)[q].0 == cs[i].unit;
  }

  lemma {:induction false} FragmentsOrdered(l: Layout, cs: seq<Contribution>, i: nat)
    requires AllCells(cs) == IndexedCells(l)
    requires i + 1 < |cs| && cs[i].range.start < cs[i].range.end && cs[i + 1].range.start < cs[i + 1].range.end
    ensures cs[i].unit <= cs[i + 1].unit
  {
    hide AllCells, KeptContributions, CellsOf;
    KeptCells(l, |l.units|);
    var p := CellAmong(cs, i, 0);
    var q := CellAmong(cs, i + 1, 0);
    CellAt(cs, i, 0, i + 1);
    assert p < q;
    assert IndexedCells(l)[p].0 == cs[i].unit && IndexedCells(l)[q].0 == cs[i + 1].unit;
  }

  lemma {:induction false} AdmittedExact(l: Layout, fragments: seq<Fragment>, i: nat, collected: seq<seq<TextRange>>)
    requires KeptParts(l) && Exact(l, fragments)
    requires i < |fragments| && |collected| == |l.units|
    requires forall u :: 0 <= u < |l.units| ==> collected[u] == RangesIn(Contributions(fragments), u, i)
    ensures Admitted(l, fragments, i, collected)
  {
    hide AllCells, IndexedCells, KeptParts, RangesIn;
    var cs := Contributions(fragments);
    FragmentKept(l, cs, i);
    if i > 0 {
      FragmentsOrdered(l, cs, i - 1);
    }
    assert fragments[i].contribution == cs[i];
  }

  lemma {:induction false} CollectedExact(l: Layout, fragments: seq<Fragment>, n: nat)
    requires KeptParts(l) && Exact(l, fragments) && n <= |fragments|
    ensures Collected(l, fragments, n).Ok?
    ensures forall u :: 0 <= u < |l.units| ==>
              Collected(l, fragments, n).value[u] == RangesIn(Contributions(fragments), u, n)
  {
    hide Exact, KeptParts;
    if n > 0 {
      CollectedExact(l, fragments, n - 1);
      AdmittedExact(l, fragments, n - 1, Collected(l, fragments, n - 1).value);
    }
  }

  lemma {:induction false} RangesNonempty(cs: seq<Contribution>, unit: nat, n: nat)
    requires n <= |cs| && forall i :: 0 <= i < |cs| ==> cs[i].range.start < cs[i].range.end
    ensures Nonempty(RangesIn(cs, unit, n))
  {
    if n > 0 {
      RangesNonempty(cs, unit, n - 1);
    }
  }

  /** The ranges of one primary unit walk through its kept part, already in order. */
  lemma {:induction false} UnitWalks(l: Layout, cs: seq<Contribution>, unit: nat)
    requires KeptParts(l) && AllCells(cs) == IndexedCells(l)
    requires forall i :: 0 <= i < |cs| ==> cs[i].range.start < cs[i].range.end
    requires unit < |l.units| && l.units[unit].primary
    ensures
      var ranges := RangesIn(cs, unit, |cs|);
      var kept := if l.Kept(unit).Some? then l.Kept(unit).value else TextRange(0, 0);
      && ByPosition(ranges) == ranges
      && Walked(ranges, kept.start, |ranges|) == Some(kept.end)
  {
    hide ByPosition, AllCells, CellsOf;
    var ranges := RangesIn(cs, unit, |cs|);
    var kept := KeptContributions(l, |l.units|);
    var whole := if l.Kept(unit).Some? then l.Kept(unit).value else TextRange(0, 0);
    SameRuns(cs, kept, unit);
    KeptRanges(l, unit, |l.units|);
    RangesNonempty(cs, unit, |cs|);
    assert Runs(ranges, |ranges|) == Run(whole) by {
      if l.Indexed(unit) {
        assert Runs([whole], 0) == [];
      } else {
        assert Run(whole) == [];
      }
    }
    RunsWalk(ranges, whole, |ranges|);
    WalkedSorted(ranges, whole.start);
  }

  lemma {:induction false} SameRuns(a: seq<Contribution>, b: seq<Contribution>, unit: nat)
    requires AllCells(a) == AllCells(b)
    ensures Runs(RangesIn(a, unit, |a|), |RangesIn(a, unit, |a|)|) == Runs(RangesIn(b, unit, |b|), |RangesIn(b, unit, |b|)|)
  {
    OffsetsOfCells(a, unit, |a|);
    OffsetsOfCells(b, unit, |b|);
  }

  /** The coverage of the first n units: each primary unit's fragments, in order. */
  ghost function CoverageOf(l: Layout, cs: seq<Contribution>, n: nat): seq<UnitCoverage>
    requires n <= |l.units|
  {
    if n == 0 then []
    else
      CoverageOf(l, cs, n - 1)
      + if l.units[n - 1].primary then
          [UnitCoverage(n - 1, RangesIn(cs, n - 1, |cs|), ChromeRanges(l.Kept(n - 1), |l.units[n - 1].text|))]
        else []
  }

  lemma {:induction false} CoveredExact(l: Layout, cs: seq<Contribution>, collected: seq<seq<TextRange>>, n: nat)
    requires KeptParts(l) && AllCells(cs) == IndexedCells(l)
    requires forall i :: 0 <= i < |cs| ==> cs[i].range.start < cs[i].range.end
    requires n <= |l.units| == |collected|
    requires forall u :: 0 <= u < |l.units| ==> collected[u] == RangesIn(cs, u, |cs|)
    ensures Covered(l, collected, n) == Ok(CoverageOf(l, cs, n))
  {
    hide ByPosition, AllCells, IndexedCells, KeptParts, Walked, RangesIn, ChromeRanges;
    if n > 0 {
      CoveredExact(l, cs, collected, n - 1);
      if l.units[n - 1].primary {
        UnitWalks(l, cs, n - 1);
        assert ByPosition(collected[n - 1]) == RangesIn(cs, n - 1, |cs|);
      } else {
        assert CoverageOf(l, cs, n) == CoverageOf(l, cs, n - 1);
      }
    }
  }

  /**
   * The checker accepts any chunks whose fragments name exactly the indexed characters in order,
   * and reports each unit's fragments as they come.
   */
  lemma {:induction false} ExactCovers(l: Layout, chunks: seq<ChunkContent>)
    requires KeptParts(l) && Exact(l, AllFragments(chunks, |chunks|))
    ensures ValidCoverage(l, chunks)
         == Ok(CoverageOf(l, Contributions(AllFragments(chunks, |chunks|)), |l.units|))
  {
    hide AllCells, IndexedCells, KeptParts, RangesIn;
    var fragments := AllFragments(chunks, |chunks|);
    CollectedExact(l, fragments, |fragments|);
    CoveredExact(l, Contributions(fragments), Collected(l, fragments, |fragments|).value, |l.units|);
  }

  // ---- Accepted chunks cover every indexed character exactly once

  /** How many of the first n ranges hold an offset. */
  ghost function Times(ranges: seq<TextRange>, p: nat, n: nat): nat
    requires n <= |ranges|
  {
    if n == 0 then 0 else Times(ranges, p, n - 1) + if Holds(ranges[n - 1], p) then 1 else 0
  }

  lemma {:induction false} TimesShift(x: TextRange, ranges: seq<TextRange>, p: nat, n: nat)
    requires n <= |ranges|
    ensures Times([x] + ranges, p, n + 1) == (if Holds(x, p) then 1 else 0) + Times(ranges, p, n)
  {
    if n > 0 {
      TimesShift(x, ranges, p, n - 1);
    } else {
      assert Times([x] + ranges, p, 0) == 0;
    }
  }

  lemma {:induction false} TimesInsert(x: TextRange, ranges: seq<TextRange>, key: TextRange -> Sorting.Key, p: nat)
    ensures Times(Sorting.Insert(x, ranges, key), p, |ranges| + 1) == (if Holds(x, p) then 1 else 0) + Times(ranges, p, |ranges|)
  {
    if ranges == [] || Sorting.Leq(key(x), key(ranges[0])) {
      TimesShift(x, ranges, p, |ranges|);
      assert ranges == [] ==> [x] + ranges == [x];
    } else {
      TimesInsert(x, ranges[1..], key, p);
      TimesShift(ranges[0], Sorting.Insert(x, ranges[1..], key), p, |ranges|);
      TimesShift(ranges[0], ranges[1..], p, |ranges| - 1);
      assert ranges == [ranges[0]] + ranges[1..];
    }
  }

  lemma {:induction false} TimesSorted(ranges: seq<TextRange>, key: TextRange -> Sorting.Key, p: nat)
    ensures Times(Sorting.SortBy(ranges, key), p, |ranges|) == Times(ranges, p, |ranges|)
  {
    if ranges != [] {
      TimesSorted(ranges[1..], key, p);
      TimesInsert(ranges[0], Sorting.SortBy(ranges[1..], key), key, p);
      TimesShift(ranges[0], ranges[1..], p, |ranges| - 1);
      assert ranges == [ranges[0]] + ranges[1..];
    }
  }

  lemma {:induction false} TimesWalked(ranges: seq<TextRange>, start: nat, p: nat, n: nat)
    requires n <= |ranges| && Nonempty(ranges) && Walked(ranges, start, n).Some?
    ensures Times(ranges, p, n) == if start <= p < Walked(ranges, start, n).value then 1 else 0
    ensures start <= Walked(ranges, start, n).value
  {
    if n > 0 {
      TimesWalked(ranges, start, p, n - 1);
    }
  }

  lemma {:induction false} CollectedRanges(l: Layout, fragments: seq<Fragment>, n: nat)
    requires n <= |fragments| && Collected(l, fragments, n).Ok?
    ensures forall u :: 0 <= u < |l.units| ==>
              Collected(l, fragments, n).value[u] == RangesIn(Contributions(fragments), u, n)
    ensures forall u :: 0 <= u < |l.units| ==> Nonempty(RangesIn(Contributions(fragments), u, n))
  {
    if n > 0 {
      CollectedRanges(l, fragments, n - 1);
    }
  }

  lemma {:induction false} CoveredEach(l: Layout, collected: seq<seq<TextRange>>, unit: nat, n: nat)
    requires unit < n <= |l.units| == |collected| && Covered(l, collected, n).Ok?
    requires l.units[unit].primary
    ensures
      var ranges := ByPosition(collected[unit]);
      var kept := if l.Kept(unit).Some? then l.Kept(unit).value else TextRange(0, 0);
      Walked(ranges, kept.start, |ranges|) == Some(kept.end)
  {
    hide ByPosition, Walked, ChromeRanges;
    if unit < n - 1 {
      CoveredEach(l, collected, unit, n - 1);
    }
  }

  lemma {:induction false} MultisetNonempty(ranges: seq<TextRange>)
    requires Nonempty(ranges)
    ensures Nonempty(ByPosition(ranges))
  {
    var sorted := ByPosition(ranges);
    forall i | 0 <= i < |sorted| ensures sorted[i].start < sorted[i].end {
      Sorting.MemberOfEqualMultisets(sorted, ranges, sorted[i]);
    }
  }

  /**
   * What acceptance means: a character of a primary unit lies in exactly one fragment when the
   * profile indexes it, and in none when it is chrome.
   */
  lemma {:induction false} AcceptedOnce(l: Layout, chunks: seq<ChunkContent>, unit: nat, p: nat)
    requires ValidCoverage(l, chunks).Ok?
    requires unit < |l.units| && l.units[unit].primary
    ensures
      var ranges := RangesIn(Contributions(AllFragments(chunks, |chunks|)), unit, |AllFragments(chunks, |chunks|)|);
      Times(ranges, p, |ranges|) == if l.Kept(unit).Some? && Holds(l.Kept(unit).value, p) then 1 else 0
  {
    hide ByPosition;
    var fragments := AllFragments(chunks, |chunks|);
    var collected := Collected(l, fragments, |fragments|).value;
    CollectedRanges(l, fragments, |fragments|);
    CoveredEach(l, collected, unit, |l.units|);
    TimesByPosition(collected[unit], p);
    MultisetNonempty(collected[unit]);
    var kept := if l.Kept(unit).Some? then l.Kept(unit).value else TextRange(0, 0);
    TimesWalked(ByPosition(collected[unit]), kept.start, p, |ByPosition(collected[unit])|);
  }

  lemma {:induction false} TimesByPosition(ranges: seq<TextRange>, p: nat)
    ensures |ByPosition(ranges)| == |ranges|
    ensures Times(ByPosition(ranges), p, |ranges|) == Times(ranges, p, |ranges|)
  {
    TimesSorted(ranges, (r: TextRange) => (r.start as int, r.end as int), p);
  }

  // ---- When chunks are accepted

  /** Whether a fragment is text of a primary unit, numbered by how many its unit has before, and of no earlier unit than the one before. */
  ghost predicate Listed(l: Layout, fragments: seq<Fragment>, i: nat)
    requires i < |fragments|
  {
    var c := fragments[i].contribution;
    && c.unit < |l.units| && l.units[c.unit].primary && c.range.start < c.range.end <= |l.units[c.unit].text|
    && fragments[i].partOrdinal == |RangesIn(Contributions(fragments), c.unit, i)|
    && (i > 0 ==> fragments[i - 1].contribution.unit <= c.unit)
  }

  /** Whether a unit's fragments hold each character of its kept part once, and no other. */
  ghost predicate HeldOnce(ranges: seq<TextRange>, kept: Option<TextRange>) {
    forall p: nat :: Times(ranges, p, |ranges|) == if kept.Some? && Holds(kept.value, p) then 1 else 0
  }

  lemma {:induction false} CollectedListed(l: Layout, fragments: seq<Fragment>, n: nat)
    requires n <= |fragments|
    ensures Collected(l, fragments, n).Ok? <==> forall i :: 0 <= i < n ==> Listed(l, fragments, i)
  {
    hide RangesIn;
    if n > 0 {
      CollectedListed(l, fragments, n - 1);
      if Collected(l, fragments, n - 1).Ok? {
        CollectedRanges(l, fragments, n - 1);
        var c := fragments[n - 1].contribution;
        assert c.unit < |l.units| ==> Collected(l, fragments, n - 1).value[c.unit] == RangesIn(Contributions(fragments), c.unit, n - 1);
        assert Admitted(l, fragments, n - 1, Collected(l, fragments, n - 1).value) <==> Listed(l, fragments, n - 1);
      }
    }
  }

  lemma {:induction false} TimesOver(ranges: seq<TextRange>, i: nat, p: nat, n: nat)
    requires i < n <= |ranges| && Holds(ranges[i], p)
    ensures Times(ranges, p, n) >= 1 && forall j: nat :: j < n && j != i && Holds(ranges[j], p) ==> Times(ranges, p, n) >= 2
  {
    if i < n - 1 {
      TimesOver(ranges, i, p, n - 1);
    } else {
      forall j: nat | j < n - 1 && Holds(ranges[j], p) ensures Times(ranges, p, n - 1) >= 1 {
        TimesOver(ranges, j, p, n - 1);
      }
    }
  }

  lemma {:induction false} TimesNone(ranges: seq<TextRange>, p: nat, n: nat)
    requires n <= |ranges| && forall i :: 0 <= i < n ==> !Holds(ranges[i], p)
    ensures Times(ranges, p, n) == 0
  {
    if n > 0 {
      TimesNone(ranges, p, n - 1);
    }
  }

  ghost predicate ByStart(ranges: seq<TextRange>) {
    && (forall i :: 0 <= i < |ranges| ==> ranges[i].start < ranges[i].end)
    && forall i, j :: 0 <= i < j < |ranges| ==> ranges[i].start <= ranges[j].start
  }

  /** Where ranges in order hold each character of a stretch once and no other, each starts where the one before ends. */
  lemma {:induction false} OnceWalks(ranges: seq<TextRange>, start: nat, end: nat, n: nat)
    requires ByStart(ranges) && n <= |ranges| && start <= end
    requires forall p: nat :: Times(ranges, p, |ranges|) == if start <= p < end then 1 else 0
    ensures Walked(ranges, start, n) == Some(if n == 0 then start else ranges[n - 1].end)
    ensures forall i :: 0 <= i < n ==> ranges[i].end <= if n == 0 then start else ranges[n - 1].end
  {
    if n > 0 {
      OnceWalks(ranges, start, end, n - 1);
      var reached := if n == 1 then start else ranges[n - 2].end;
      var next := ranges[n - 1].start;
      TimesOver(ranges, n - 1, next, |ranges|);
      assert start <= next < end;
      assert n > 1 ==> (Holds(ranges[n - 2], next) <==> next < ranges[n - 2].end);
      if n > 1 {
        TimesOver(ranges, n - 2, ranges[n - 2].start, |ranges|);
      }
      assert reached < next ==> forall i :: 0 <= i < |ranges| ==> !Holds(ranges[i], reached);
      if reached < next {
        TimesNone(ranges, reached, |ranges|);
      }
    }
  }

  lemma {:induction false} OnceEnds(ranges: seq<TextRange>, start: nat, end: nat)
    requires ByStart(ranges) && start <= end
    requires forall p: nat :: Times(ranges, p, |ranges|) == if start <= p < end then 1 else 0
    ensures Walked(ranges, start, |ranges|) == Some(end)
  {
    OnceWalks(ranges, start, end, |ranges|);
    var reached := if ranges == [] then start else ranges[|ranges| - 1].end;
    if ranges != [] {
      TimesOver(ranges, |ranges| - 1, ranges[|ranges| - 1].start, |ranges|);
    }
    if reached < end {
      TimesNone(ranges, reached, |ranges|);
    }
    if end < reached {
      TimesOver(ranges, |ranges| - 1, reached - 1, |ranges|);
    }
  }

  lemma {:induction false} PositionSorted(ranges: seq<TextRange>)
    requires Nonempty(ranges)
    ensures ByStart(ByPosition(ranges))
  {
    var key := (r: TextRange) => (r.start as int, r.end as int);
    Sorting.SortBySorted(ranges, key);
    MultisetNonempty(ranges);
    var sorted := ByPosition(ranges);
    forall i, j | 0 <= i < j < |sorted| ensures sorted[i].start <= sorted[j].start {
      assert Sorting.Leq(key(sorted[i]), key(sorted[j]));
    }
  }

  lemma {:induction false} WalksExactly(ranges: seq<TextRange>, kept: Option<TextRange>)
    requires Nonempty(ranges) && (kept.Some? ==> kept.value.start <= kept.value.end)
    ensures
      var (start, end) := if kept.Some? then (kept.value.start, kept.value.end) else (0, 0);
      Walked(ByPosition(ranges), start, |ByPosition(ranges)|) == Some(end) <==> HeldOnce(ranges, kept)
  {
    hide ByPosition, Walked, Times;
    var (start, end) := if kept.Some? then (kept.value.start, kept.value.end) else (0, 0);
    var sorted := ByPosition(ranges);
    PositionSorted(ranges);
    MultisetNonempty(ranges);
    forall p: nat ensures Times(sorted, p, |sorted|) == Times(ranges, p, |ranges|) {
      TimesByPosition(ranges, p);
    }
    if HeldOnce(ranges, kept) {
      OnceEnds(sorted, start, end);
    }
    if Walked(sorted, start, |sorted|) == Some(end) {
      forall p: nat ensures Times(ranges, p, |ranges|) == if kept.Some? && Holds(kept.value, p) then 1 else 0 {
        TimesWalked(sorted, start, p, |sorted|);
      }
    }
  }

  lemma {:induction false} CoveredExactly(l: Layout, collected: seq<seq<TextRange>>, n: nat)
    requires n <= |l.units| == |collected| && forall u :: 0 <= u < |l.units| && l.Kept(u).Some? ==> l.Kept(u).value.start <= l.Kept(u).value.end
    requires forall u :: 0 <= u < |collected| ==> Nonempty(collected[u])
    ensures Covered(l, collected, n).Ok? <==> forall u :: 0 <= u < n && l.units[u].primary ==> HeldOnce(collected[u], l.Kept(u))
  {
    hide ByPosition, Walked, HeldOnce, ChromeRanges, l.Kept;
    if n > 0 {
      CoveredExactly(l, collected, n - 1);
      WalksExactly(collected[n - 1], l.Kept(n - 1));
    }
  }

  /**
   * Chunks are accepted exactly when every fragment is text of a primary unit, in order of units and
   * numbered, and each unit's fragments hold every character of its kept part once and no other.
   */
  lemma {:induction false} AcceptsExactly(l: Layout, chunks: seq<ChunkContent>)
    requires forall u :: 0 <= u < |l.units| && l.Kept(u).Some? ==> l.Kept(u).value.start <= l.Kept(u).value.end
    ensures
      var fragments := AllFragments(chunks, |chunks|);
      var cs := Contributions(fragments);
      ValidCoverage(l, chunks).Ok?
      <==> && (forall i :: 0 <= i < |fragments| ==> Listed(l, fragments, i))
           && forall u :: 0 <= u < |l.units| && l.units[u].primary ==> HeldOnce(RangesIn(cs, u, |cs|), l.Kept(u))
  {
    hide Covered, HeldOnce, RangesIn, Listed, l.Kept;
    var fragments := AllFragments(chunks, |chunks|);
    var cs := Contributions(fragments);
    CollectedListed(l, fragments, |fragments|);
    if Collected(l, fragments, |fragments|).Ok? {
      CollectedRanges(l, fragments, |fragments|);
      var collected := Collected(l, fragments, |fragments|).value;
      CoveredExactly(l, collected, |l.units|);
    }
  }
}
