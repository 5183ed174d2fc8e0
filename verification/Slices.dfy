/** The mapping runs of a part of a unit's text. */
module Slices {
  import opened Common
  import opened Ranges
  import opened Units

  /** Whether nonempty runs partition a stretch of text, in order. */
  ghost predicate Tiles(runs: seq<MappingRun>, start: nat, end: nat) {
    && (forall i :: 0 <= i < |runs| ==> runs[i].range.start < runs[i].range.end)
    && (forall i :: 0 < i < |runs| ==> runs[i].range.start == runs[i - 1].range.end)
    && if runs == [] then start == end else runs[0].range.start == start && runs[|runs| - 1].range.end == end
  }

  /** Whether a run's origins are what its mode promises about its text. */
  predicate Justified(run: MappingRun, text: string, markdown: string) {
    && (forall o :: o in run.origins ==> o.span.Valid(markdown))
    && match run.mode
       case ExactCopy =>
         |run.origins| == 1 && run.origins[0].span.Valid(markdown)
         && markdown[run.origins[0].span.start..run.origins[0].span.end] == text
       case CanonicalTransformation => run.origins != []
       case Formatting => run.origins == []
  }

  /** Whether the run at a position continues the partition and is justified. */
  predicate RunMaps(unit: SourceUnit, i: nat, markdown: string)
    requires i < |unit.mappings|
  {
    var run := unit.mappings[i];
    && InBounds(run.range, unit.text)
    && run.range.start == (if i == 0 then 0 else unit.mappings[i - 1].range.end)
    && run.range.start < run.range.end
    && Justified(run, Slice(unit.text, run.range), markdown)
  }

  /** Whether a unit's runs partition its text and each is justified. */
  predicate Maps(unit: SourceUnit, markdown: string) {
    && (forall i :: 0 <= i < |unit.mappings| ==> RunMaps(unit, i, markdown))
    && |unit.text| == if unit.mappings == [] then 0 else unit.mappings[|unit.mappings| - 1].range.end
  }

  /** What a range keeps of a run, in the range's own offsets; only an exact copy narrows its origin. */
  function Clip(run: MappingRun, range: TextRange): seq<MappingRun> {
    var start, end := Max(run.range.start, range.start), Min(run.range.end, range.end);
    if start >= end then []
    else
      var origins :=
        if run.mode.ExactCopy? && |run.origins| == 1 then
          var from := run.origins[0].span.start + (start - run.range.start);
          [Origin(run.origins[0].block, Span(from, from + (end - start)))]
        else run.origins;
      [MappingRun(TextRange(start - range.start, end - range.start), run.mode, origins)]
  }

  function Clipped(runs: seq<MappingRun>, range: TextRange, n: nat): seq<MappingRun>
    requires n <= |runs|
  {
    if n == 0 then [] else Clipped(runs, range, n - 1) + Clip(runs[n - 1], range)
  }

  /** The mapping runs of a part of a unit's text; a unit that does not map back is refused. */
  function MappedSlice(unit: SourceUnit, range: TextRange, markdown: string): Result<seq<MappingRun>> {
    if !InBounds(range, unit.text) || !Maps(unit, markdown) then Err(InvalidMapping)
    else Ok(Clipped(unit.mappings, range, |unit.mappings|))
  }

  /** `mapped_slice`: one pass over the runs that checks each and clips it. */
  method SliceMappings(unit: SourceUnit, range: TextRange, markdown: string) returns (r: Result<seq<MappingRun>>)
    ensures r == MappedSlice(unit, range, markdown)
  {
    if !InBounds(range, unit.text) {
      return Err(InvalidMapping);
    }
    var cursor := 0;
    var result: seq<MappingRun> := [];
    for i := 0 to |unit.mappings|
      invariant cursor == if i == 0 then 0 else unit.mappings[i - 1].range.end
      invariant forall k :: 0 <= k < i ==> RunMaps(unit, k, markdown)
      invariant result == Clipped(unit.mappings, range, i)
    {
      var run := unit.mappings[i];
      if || !InBounds(run.range, unit.text)
         || run.range.start != cursor
         || run.range.start == run.range.end
         || (exists o :: o in run.origins && !o.span.Valid(markdown))
      {
        assert !RunMaps(unit, i, markdown);
        return Err(InvalidMapping);
      }
      cursor := run.range.end;
      var text := Slice(unit.text, run.range);
      match run.mode {
        case ExactCopy =>
          if |run.origins| != 1 || markdown[run.origins[0].span.start..run.origins[0].span.end] != text {
            assert !RunMaps(unit, i, markdown);
            return Err(InvalidMapping);
          }
        case CanonicalTransformation =>
          if run.origins == [] {
            assert !RunMaps(unit, i, markdown);
            return Err(InvalidMapping);
          }
        case Formatting =>
          if run.origins != [] {
            assert !RunMaps(unit, i, markdown);
            return Err(InvalidMapping);
          }
      }
      result := result + Clip(run, range);
    }
    if cursor != |unit.text| {
      return Err(InvalidMapping);
    }
    r := Ok(result);
  }

  // ---- A slice partitions its range

  /** The end of the first n runs. */
  ghost function Reach(runs: seq<MappingRun>, n: nat): nat
    requires n <= |runs|
  {
    if n == 0 then 0 else runs[n - 1].range.end
  }

  ghost predicate Consecutive(runs: seq<MappingRun>) {
    forall i :: 0 <= i < |runs| ==> Reach(runs, i) == runs[i].range.start < runs[i].range.end
  }

  lemma {:induction false} TilesThen(runs: seq<MappingRun>, start: nat, mid: nat, run: MappingRun)
    requires Tiles(runs, start, mid) && run.range.start == mid < run.range.end
    ensures Tiles(runs + [run], start, run.range.end)
  {
  }

  /** How much of a range the first `reach` offsets of the text cover. */
  function Covered(range: TextRange, reach: nat): nat {
    var end := Min(reach, range.end);
    if end <= range.start then 0 else end - range.start
  }

  lemma {:induction false} ClipTiles(before: seq<MappingRun>, run: MappingRun, range: TextRange)
    requires run.range.start < run.range.end
    requires Tiles(before, 0, Covered(range, run.range.start))
    ensures Tiles(before + Clip(run, range), 0, Covered(range, run.range.end))
  {
    var clip := Clip(run, range);
    if clip == [] {
      assert before + clip == before;
    } else {
      TilesThen(before, 0, Covered(range, run.range.start), clip[0]);
    }
  }

  lemma {:induction false} ClippedTiles(runs: seq<MappingRun>, range: TextRange, n: nat)
    requires Consecutive(runs) && n <= |runs|
    ensures Tiles(Clipped(runs, range, n), 0, Covered(range, Reach(runs, n)))
  {
    if n > 0 {
      ClippedTiles(runs, range, n - 1);
      ClipTiles(Clipped(runs, range, n - 1), runs[n - 1], range);
    }
  }

  lemma {:induction false} MapsConsecutive(unit: SourceUnit, markdown: string)
    requires Maps(unit, markdown)
    ensures Consecutive(unit.mappings) && Reach(unit.mappings, |unit.mappings|) == |unit.text|
  {
    forall i | 0 <= i < |unit.mappings|
      ensures Reach(unit.mappings, i) == unit.mappings[i].range.start < unit.mappings[i].range.end
    {
      assert RunMaps(unit, i, markdown);
    }
  }

  /** Every slice partitions the range it was asked for, from offset 0, into nonempty runs. */
  lemma {:induction false} SliceTiles(unit: SourceUnit, range: TextRange, markdown: string)
    requires MappedSlice(unit, range, markdown).Ok?
    ensures Tiles(MappedSlice(unit, range, markdown).value, 0, range.end - range.start)
  {
    MapsConsecutive(unit, markdown);
    ClippedTiles(unit.mappings, range, |unit.mappings|);
  }

  // ---- A slice is itself a mapped unit

  /** A part of a unit as a unit of its own, with the slice's runs. */
  function Part(unit: SourceUnit, range: TextRange): SourceUnit
    requires InBounds(range, unit.text)
  {
    unit.(text := Slice(unit.text, range), mappings := Clipped(unit.mappings, range, |unit.mappings|))
  }

  lemma {:induction false} SubSlice<T>(s: seq<T>, a: nat, b: nat, i: nat, j: nat)
    requires a <= b <= |s| && i <= j <= b - a
    ensures s[a..b][i..j] == s[a + i..a + j]
  {
    forall k | 0 <= k < j - i ensures s[a..b][i..j][k] == s[a + i..a + j][k] {
      assert s[a..b][i..j][k] == s[a..b][i + k];
    }
  }

  /** What a range keeps of a justified run is justified by the narrowed origin. */
  lemma {:induction false} ClipJustified(text: string, whole: MappingRun, range: TextRange, markdown: string)
    requires InBounds(range, text) && InBounds(whole.range, text)
    requires Justified(whole, Slice(text, whole.range), markdown)
    ensures forall run :: run in Clip(whole, range) ==>
              && InBounds(run.range, Slice(text, range))
              && Justified(run, Slice(Slice(text, range), run.range), markdown)
              && run.mode == whole.mode
              && (!run.mode.ExactCopy? ==> run.origins == whole.origins)
              && (run.mode.ExactCopy? ==>
                    var (from, to) := (whole.origins[0], run.origins[0]);
                    && to.block == from.block && to.span.end - to.span.start == run.range.end - run.range.start
                    && to.span.start - from.span.start == run.range.start + range.start - whole.range.start)
  {
    var start, end := Max(whole.range.start, range.start), Min(whole.range.end, range.end);
    if start < end {
      SubSlice(text, range.start, range.end, start - range.start, end - range.start);
      if whole.mode.ExactCopy? {
        var span := whole.origins[0].span;
        var offset, length := start - whole.range.start, end - start;
        SubSlice(text, whole.range.start, whole.range.end, offset, offset + length);
        SubSlice(markdown, span.start, span.end, offset, offset + length);
      }
    }
  }

  lemma {:induction false} ClippedJustified(unit: SourceUnit, range: TextRange, markdown: string, n: nat)
    requires Maps(unit, markdown) && InBounds(range, unit.text) && n <= |unit.mappings|
    ensures forall run :: run in Clipped(unit.mappings, range, n) ==>
              && InBounds(run.range, Slice(unit.text, range))
              && Justified(run, Slice(Slice(unit.text, range), run.range), markdown)
  {
    if n > 0 {
      ClippedJustified(unit, range, markdown, n - 1);
      assert RunMaps(unit, n - 1, markdown);
      ClipJustified(unit.text, unit.mappings[n - 1], range, markdown);
    }
  }

  /**
   * What a slice says is true of its text: every exact run equals the Markdown at its narrowed
   * origin, every transformed run keeps whole origins, and the part maps back like the unit did.
   */
  lemma {:induction false} PartMaps(unit: SourceUnit, range: TextRange, markdown: string)
    requires MappedSlice(unit, range, markdown).Ok?
    ensures Maps(Part(unit, range), markdown)
  {
    SliceTiles(unit, range, markdown);
    ClippedJustified(unit, range, markdown, |unit.mappings|);
    TiledMaps(Part(unit, range), markdown);
  }

  lemma {:induction false} TiledMaps(unit: SourceUnit, markdown: string)
    requires Tiles(unit.mappings, 0, |unit.text|)
    requires forall run :: run in unit.mappings ==>
               InBounds(run.range, unit.text) && Justified(run, Slice(unit.text, run.range), markdown)
    ensures Maps(unit, markdown)
  {
    forall i | 0 <= i < |unit.mappings| ensures RunMaps(unit, i, markdown) {
      assert unit.mappings[i] in unit.mappings;
    }
  }

  // ---- Slices compose

  lemma {:induction false} ClipTwice(run: MappingRun, range: TextRange, inner: TextRange)
    requires range.start <= range.end && inner.start <= inner.end <= range.end - range.start
    ensures Clip(run, TextRange(range.start + inner.start, range.start + inner.end))
         == match |Clip(run, range)| case 0 => [] case _ => Clip(Clip(run, range)[0], inner)
  {
  }

  lemma {:induction false} ClippedAppend(a: seq<MappingRun>, b: seq<MappingRun>, range: TextRange, n: nat)
    requires n <= |a|
    ensures Clipped(a + b, range, n) == Clipped(a, range, n)
  {
    if n > 0 {
      ClippedAppend(a, b, range, n - 1);
    }
  }

  lemma {:induction false} ClippedThen(before: seq<MappingRun>, clip: seq<MappingRun>, inner: TextRange)
    requires |clip| <= 1
    ensures Clipped(before + clip, inner, |before + clip|)
         == Clipped(before, inner, |before|) + (if clip == [] then [] else Clip(clip[0], inner))
  {
    if clip == [] {
      assert before + clip == before;
    } else {
      ClippedAppend(before, clip, inner, |before|);
    }
  }

  lemma {:induction false} ClipThen(before: seq<MappingRun>, run: MappingRun, range: TextRange, inner: TextRange)
    requires range.start <= range.end && inner.start <= inner.end <= range.end - range.start
    ensures
      var once := before + Clip(run, range);
      Clipped(once, inner, |once|)
      == Clipped(before, inner, |before|) + Clip(run, TextRange(range.start + inner.start, range.start + inner.end))
  {
    ClipTwice(run, range, inner);
    ClippedThen(before, Clip(run, range), inner);
  }

  lemma {:induction false} ClippedTwice(runs: seq<MappingRun>, range: TextRange, inner: TextRange, n: nat)
    requires range.start <= range.end && inner.start <= inner.end <= range.end - range.start
    requires n <= |runs|
    ensures
      var once := Clipped(runs, range, n);
      Clipped(once, inner, |once|) == Clipped(runs, TextRange(range.start + inner.start, range.start + inner.end), n)
  {
    if n > 0 {
      ClippedTwice(runs, range, inner, n - 1);
      ClipThen(Clipped(runs, range, n - 1), runs[n - 1], range, inner);
    }
  }

  /** Slicing a slice is slicing once, with shifted offsets. */
  lemma {:induction false} SliceCompose(unit: SourceUnit, range: TextRange, inner: TextRange, markdown: string)
    requires MappedSlice(unit, range, markdown).Ok?
    requires InBounds(inner, Slice(unit.text, range))
    ensures MappedSlice(Part(unit, range), inner, markdown)
         == MappedSlice(unit, TextRange(range.start + inner.start, range.start + inner.end), markdown)
  {
    PartMaps(unit, range, markdown);
    ClippedTwice(unit.mappings, range, inner, |unit.mappings|);
  }
}
