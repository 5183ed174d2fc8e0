/** Source that no block spans, found by one walk over the sorted spans. */
module Gaps {
  import opened Common
  import opened Units
  import opened Documents
  import opened Accounting
  import Sorting

  /** The valid spans of the first n blocks. */
  function ValidSpans(blocks: seq<Block>, markdown: string, n: nat): seq<Span>
    requires n <= |blocks|
  {
    if n == 0 then [] else ValidSpans(blocks, markdown, n - 1) + Valids(blocks[n - 1].spans, markdown, |blocks[n - 1].spans|)
  }

  function Valids(spans: seq<Span>, markdown: string, n: nat): seq<Span>
    requires n <= |spans|
  {
    if n == 0 then [] else Valids(spans, markdown, n - 1) + if spans[n - 1].Valid(markdown) then [spans[n - 1]] else []
  }

  function StartKey(span: Span): Sorting.Key {
    (span.start, 0)
  }

  ghost predicate AllValid(spans: seq<Span>, markdown: string) {
    forall i :: 0 <= i < |spans| ==> spans[i].Valid(markdown)
  }

  /** Where the first n spans reach. */
  function Reached(spans: seq<Span>, n: nat): nat
    requires n <= |spans|
  {
    if n == 0 then 0 else Max(Reached(spans, n - 1), spans[n - 1].end)
  }

  /** `check_gap`: a stretch that is not blank is unparsed content. */
  function Gap(markdown: string, start: nat, end: nat): seq<Span>
    requires end <= |markdown|
  {
    if start < end && !Blank(markdown, start, end) then [Span(start, end)] else []
  }

  /** The gaps before the first n spans. */
  function GapsTo(spans: seq<Span>, markdown: string, n: nat): seq<Span>
    requires n <= |spans| && AllValid(spans, markdown)
  {
    if n == 0 then []
    else GapsTo(spans, markdown, n - 1) + Gap(markdown, Reached(spans, n - 1), spans[n - 1].start)
  }

  lemma {:induction false} ReachedInside(spans: seq<Span>, markdown: string, n: nat)
    requires n <= |spans| && AllValid(spans, markdown)
    ensures Reached(spans, n) <= |markdown|
  {
    if n > 0 {
      ReachedInside(spans, markdown, n - 1);
    }
  }

  lemma {:induction false} ValidsValid(spans: seq<Span>, markdown: string, n: nat)
    requires n <= |spans|
    ensures AllValid(Valids(spans, markdown, n), markdown)
    ensures forall s :: s in Valids(spans, markdown, n) <==> s in spans[..n] && s.Valid(markdown)
  {
    if n > 0 {
      ValidsValid(spans, markdown, n - 1);
      assert spans[..n] == spans[..n - 1] + [spans[n - 1]];
    }
  }

  lemma {:induction false} SpansValid(blocks: seq<Block>, markdown: string, n: nat)
    requires n <= |blocks|
    ensures AllValid(ValidSpans(blocks, markdown, n), markdown)
  {
    hide Valids;
    if n > 0 {
      SpansValid(blocks, markdown, n - 1);
      ValidsValid(blocks[n - 1].spans, markdown, |blocks[n - 1].spans|);
    }
  }

  lemma {:induction false} SortedValid(spans: seq<Span>, markdown: string)
    requires AllValid(spans, markdown)
    ensures AllValid(Sorting.SortBy(spans, StartKey), markdown)
  {
    var sorted := Sorting.SortBy(spans, StartKey);
    forall i | 0 <= i < |sorted| ensures sorted[i].Valid(markdown) {
      Sorting.MemberOfEqualMultisets(sorted, spans, sorted[i]);
    }
  }

  /** What `check_uncovered` reports: the stretches outside every block span that are not blank. */
  function Uncovered(blocks: seq<Block>, markdown: string): seq<Span> {
    SpansValid(blocks, markdown, |blocks|);
    SortedValid(ValidSpans(blocks, markdown, |blocks|), markdown);
    var spans := Sorting.SortBy(ValidSpans(blocks, markdown, |blocks|), StartKey);
    ReachedInside(spans, markdown, |spans|);
    GapsTo(spans, markdown, |spans|) + Gap(markdown, Reached(spans, |spans|), |markdown|)
  }

  method CheckUncovered(blocks: seq<Block>, markdown: string) returns (gaps: seq<Span>)
    ensures gaps == Uncovered(blocks, markdown)
  {
    var spans: seq<Span> := [];
    for b := 0 to |blocks|
      invariant spans == ValidSpans(blocks, markdown, b)
    {
      for i := 0 to |blocks[b].spans|
        invariant spans == ValidSpans(blocks, markdown, b) + Valids(blocks[b].spans, markdown, i)
      {
        if blocks[b].spans[i].Valid(markdown) {
          spans := spans + [blocks[b].spans[i]];
        }
      }
    }
    SpansValid(blocks, markdown, |blocks|);
    SortedValid(spans, markdown);
    spans := Sorting.SortBy(spans, StartKey);
    ReachedInside(spans, markdown, |spans|);
    var cursor: nat := 0;
    gaps := [];
    for i := 0 to |spans|
      invariant cursor == Reached(spans, i) && gaps == GapsTo(spans, markdown, i)
    {
      if cursor < spans[i].start {
        gaps := gaps + Gap(markdown, cursor, spans[i].start);
      }
      cursor := Max(cursor, spans[i].end);
    }
    gaps := gaps + Gap(markdown, cursor, |markdown|);
  }

  // ---- The walk is exact

  /** Whether one of the first n spans holds a character. */
  ghost predicate InSpan(spans: seq<Span>, n: nat, p: nat)
    requires n <= |spans|
  {
    exists i :: 0 <= i < n && spans[i].start <= p < spans[i].end
  }

  ghost predicate InGap(gaps: seq<Span>, p: nat) {
    exists g :: g in gaps && g.start <= p < g.end
  }

  lemma {:induction false} GapHolds(markdown: string, start: nat, end: nat, p: nat)
    requires start <= p < end <= |markdown| && !IsWhitespace(markdown[p])
    ensures InGap(Gap(markdown, start, end), p)
  {
    assert !BlankBetween(markdown, start, end);
    assert Span(start, end) in Gap(markdown, start, end);
  }

  lemma {:induction false} MoreGaps(a: seq<Span>, b: seq<Span>, p: nat)
    requires InGap(a, p) || InGap(b, p)
    ensures InGap(a + b, p)
  {
    if InGap(a, p) {
      var g :| g in a && g.start <= p < g.end;
      assert g in a + b;
    } else {
      var g :| g in b && g.start <= p < g.end;
      assert g in a + b;
    }
  }

  lemma {:induction false} GapsFind(spans: seq<Span>, markdown: string, n: nat, p: nat)
    requires n <= |spans| && AllValid(spans, markdown)
    requires p < Reached(spans, n) && p < |markdown| && !IsWhitespace(markdown[p]) && !InSpan(spans, n, p)
    ensures InGap(GapsTo(spans, markdown, n), p)
  {
    hide IsWhitespace, InGap, Gap;
    if n > 0 {
      var before, last := Reached(spans, n - 1), spans[n - 1];
      if p < before {
        GapsFind(spans, markdown, n - 1, p);
      } else {
        assert !(last.start <= p < last.end);
        GapHolds(markdown, before, last.start, p);
      }
      MoreGaps(GapsTo(spans, markdown, n - 1), Gap(markdown, before, last.start), p);
    }
  }

  lemma {:induction false} ReachedEnds(spans: seq<Span>, n: nat, i: nat)
    requires i < n <= |spans|
    ensures spans[i].end <= Reached(spans, n)
  {
    if i < n - 1 {
      ReachedEnds(spans, n - 1, i);
    }
  }

  /** A stretch that no span touches and that is not blank. */
  ghost predicate TrueGap(spans: seq<Span>, markdown: string, gap: Span) {
    && gap.start < gap.end <= |markdown|
    && !BlankBetween(markdown, gap.start, gap.end)
    && forall i :: 0 <= i < |spans| ==> spans[i].end <= gap.start || gap.end <= spans[i].start
  }

  lemma {:induction false} GapsTrue(spans: seq<Span>, markdown: string, n: nat, gap: Span)
    requires n <= |spans| && AllValid(spans, markdown) && Sorting.Sorted(spans, StartKey)
    requires gap in GapsTo(spans, markdown, n)
    ensures TrueGap(spans, markdown, gap)
  {
    hide BlankBetween, Blank;
    if gap in GapsTo(spans, markdown, n - 1) {
      GapsTrue(spans, markdown, n - 1, gap);
    } else {
      forall i | 0 <= i < |spans| ensures spans[i].end <= gap.start || gap.end <= spans[i].start {
        if i < n - 1 {
          ReachedEnds(spans, n - 1, i);
        } else if n - 1 < i {
          assert Sorting.Leq(StartKey(spans[n - 1]), StartKey(spans[i]));
        }
      }
    }
  }

  lemma {:induction false} SpansAre(blocks: seq<Block>, markdown: string, n: nat, s: Span)
    requires n <= |blocks|
    ensures s in ValidSpans(blocks, markdown, n) <==> s.Valid(markdown) && exists i :: 0 <= i < n && s in blocks[i].spans
  {
    hide Valids;
    if n > 0 {
      SpansAre(blocks, markdown, n - 1, s);
      var own := blocks[n - 1].spans;
      ValidsValid(own, markdown, |own|);
      assert own[..|own|] == own;
    }
  }

  /** Whether a block spans a character, validly. */
  ghost predicate Spanned(blocks: seq<Block>, markdown: string, p: nat) {
    exists i, s :: 0 <= i < |blocks| && s in blocks[i].spans && s.Valid(markdown) && s.start <= p < s.end
  }

  lemma {:induction false} SpannedSorted(blocks: seq<Block>, markdown: string, p: nat)
    ensures
      var spans := Sorting.SortBy(ValidSpans(blocks, markdown, |blocks|), StartKey);
      InSpan(spans, |spans|, p) <==> Spanned(blocks, markdown, p)
  {
    var valid := ValidSpans(blocks, markdown, |blocks|);
    var spans := Sorting.SortBy(valid, StartKey);
    if InSpan(spans, |spans|, p) {
      var i :| 0 <= i < |spans| && spans[i].start <= p < spans[i].end;
      Sorting.MemberOfEqualMultisets(spans, valid, spans[i]);
      SpansAre(blocks, markdown, |blocks|, spans[i]);
    }
    if Spanned(blocks, markdown, p) {
      var i, s :| 0 <= i < |blocks| && s in blocks[i].spans && s.Valid(markdown) && s.start <= p < s.end;
      SpansAre(blocks, markdown, |blocks|, s);
      Sorting.MemberOfEqualMultisets(spans, valid, s);
    }
  }

  /** Every character outside the block spans that is not blank lies in a reported gap. */
  lemma {:induction false} UncoveredFinds(blocks: seq<Block>, markdown: string, p: nat)
    requires p < |markdown| && !IsWhitespace(markdown[p]) && !Spanned(blocks, markdown, p)
    ensures InGap(Uncovered(blocks, markdown), p)
  {
    hide IsWhitespace, InGap, Gap, Spanned, InSpan;
    SpansValid(blocks, markdown, |blocks|);
    SortedValid(ValidSpans(blocks, markdown, |blocks|), markdown);
    var spans := Sorting.SortBy(ValidSpans(blocks, markdown, |blocks|), StartKey);
    ReachedInside(spans, markdown, |spans|);
    SpannedSorted(blocks, markdown, p);
    var reached := Reached(spans, |spans|);
    if p < reached {
      GapsFind(spans, markdown, |spans|, p);
    } else {
      GapHolds(markdown, reached, |markdown|, p);
    }
    MoreGaps(GapsTo(spans, markdown, |spans|), Gap(markdown, reached, |markdown|), p);
  }

  /** Every reported gap is a stretch of the source that no block spans, and it is not blank. */
  lemma {:induction false} UncoveredTrue(blocks: seq<Block>, markdown: string, gap: Span)
    requires gap in Uncovered(blocks, markdown)
    ensures gap.start < gap.end && gap.Valid(markdown) && !BlankBetween(markdown, gap.start, gap.end)
    ensures forall p: nat :: gap.start <= p < gap.end ==> !Spanned(blocks, markdown, p)
  {
    hide Spanned, BlankBetween, Blank;
    SpansValid(blocks, markdown, |blocks|);
    SortedValid(ValidSpans(blocks, markdown, |blocks|), markdown);
    var spans := Sorting.SortBy(ValidSpans(blocks, markdown, |blocks|), StartKey);
    Sorting.SortBySorted(ValidSpans(blocks, markdown, |blocks|), StartKey);
    ReachedInside(spans, markdown, |spans|);
    if gap in GapsTo(spans, markdown, |spans|) {
      GapsTrue(spans, markdown, |spans|, gap);
    } else {
      forall i | 0 <= i < |spans| ensures spans[i].end <= gap.start {
        ReachedEnds(spans, |spans|, i);
      }
    }
    forall p: nat | gap.start <= p < gap.end ensures !Spanned(blocks, markdown, p) {
      SpannedSorted(blocks, markdown, p);
    }
  }

  /** Every character that is not blank lies in a valid block span. */
  ghost predicate Represented(blocks: seq<Block>, markdown: string) {
    forall p: nat :: p < |markdown| && !IsWhitespace(markdown[p]) ==> Spanned(blocks, markdown, p)
  }

  /** The check reports nothing exactly when every character that is not blank lies in a valid block span. */
  lemma {:induction false} UncoveredExact(blocks: seq<Block>, markdown: string)
    ensures Uncovered(blocks, markdown) == [] <==> Represented(blocks, markdown)
  {
    hide Uncovered, Spanned;
    if Uncovered(blocks, markdown) == [] {
      forall p: nat | p < |markdown| && !IsWhitespace(markdown[p]) ensures Spanned(blocks, markdown, p) {
        if !Spanned(blocks, markdown, p) {
          UncoveredFinds(blocks, markdown, p);
        }
      }
    } else {
      var gap := Uncovered(blocks, markdown)[0];
      UncoveredTrue(blocks, markdown, gap);
      var p: nat :| gap.start <= p < gap.end && !IsWhitespace(markdown[p]);
    }
  }
}
