/** Ranges of a unit's text that a chunk may hold: no cut falls inside an inline delimiter. */
module Ranges {
  import opened Common

  datatype TextRange = TextRange(start: nat, end: nat)

  /** An inline wrapper, such as a deletion, by its two delimiters. */
  datatype Envelope = Envelope(opening: TextRange, closing: TextRange)

  predicate Holds(r: TextRange, p: nat) {
    r.start <= p < r.end
  }

  /**
   * What the mapper establishes: nonempty delimiters inside the text, listed by opening, and any
   * two wrappers either apart or one inside the other's content.
   */
  ghost predicate WellNested(length: nat, envelopes: seq<Envelope>) {
    && (forall i :: DelimitedAt(length, envelopes, i))
    && (forall i, j :: NestedAt(envelopes, i, j))
  }

  ghost predicate DelimitedAt(length: nat, envelopes: seq<Envelope>, i: int) {
    0 <= i < |envelopes| ==> Delimited(length, envelopes[i])
  }

  ghost predicate NestedAt(envelopes: seq<Envelope>, i: int, j: int) {
    0 <= i < j < |envelopes| ==> Nested(envelopes[i], envelopes[j])
  }

  ghost predicate Delimited(length: nat, e: Envelope) {
    e.opening.start < e.opening.end <= e.closing.start < e.closing.end <= length
  }

  /** The second wrapper opens later: after the first has closed, or inside its content. */
  ghost predicate Nested(outer: Envelope, inner: Envelope) {
    || outer.closing.end <= inner.opening.start
    || (outer.opening.end <= inner.opening.start && inner.closing.end <= outer.closing.start)
  }

  /** Whether a position lies strictly inside a delimiter. */
  predicate SplitsDelimiter(e: Envelope, p: nat) {
    e.opening.start < p < e.opening.end || e.closing.start < p < e.closing.end
  }

  /** Whether a range ending here would end inside an opening delimiter or just after it. */
  predicate EndsInOpening(e: Envelope, p: nat) {
    e.opening.start < p <= e.opening.end
  }

  /** A cut that leaves every delimiter whole and every closing with the text before it. */
  ghost predicate CleanCut(envelopes: seq<Envelope>, p: nat) {
    forall e :: e in envelopes ==> !EndsInOpening(e, p) && !Holds(e.closing, p)
  }

  /** The farthest end of a closing delimiter that holds a position. */
  function Advance(envelopes: seq<Envelope>, end: nat): (next: Option<nat>)
    ensures next.None? <==> forall e :: e in envelopes ==> !Holds(e.closing, end)
    ensures next.Some? ==> exists e :: e in envelopes && Holds(e.closing, end) && e.closing.end == next.value
  {
    if envelopes == [] then None
    else
      assert envelopes == [envelopes[0]] + envelopes[1..];
      var rest := Advance(envelopes[1..], end);
      if !Holds(envelopes[0].closing, end) then rest
      else if rest.Some? && envelopes[0].closing.end <= rest.value then rest
      else Some(envelopes[0].closing.end)
  }

  /** The end after at most `passes` steps over closing delimiters. */
  function TakeClosings(envelopes: seq<Envelope>, end: nat, passes: nat): (r: nat)
    ensures end <= r
    decreases passes
  {
    if passes == 0 then end
    else
      match Advance(envelopes, end)
      case Some(next) => TakeClosings(envelopes, next, passes - 1)
      case None => end
  }

  /** Whether a range holds some text outside every delimiter. */
  predicate Substantive(envelopes: seq<Envelope>, start: nat, end: nat) {
    exists p :: start <= p < end && Plain(envelopes, p)
  }

  predicate Plain(envelopes: seq<Envelope>, p: nat) {
    forall e :: e in envelopes ==> !Holds(e.opening, p) && !Holds(e.closing, p)
  }

  predicate Refused(length: nat, envelopes: seq<Envelope>, start: nat, end: nat) {
    || !(start < end <= length)
    || (exists e :: e in envelopes && (SplitsDelimiter(e, start) || EndsInOpening(e, end)))
  }

  /** The range a chunk may hold from `start` towards `end`, or none. */
  function NormalizedRange(length: nat, envelopes: seq<Envelope>, start: nat, end: nat): Option<TextRange> {
    if Refused(length, envelopes, start, end) then None
    else
      var last := TakeClosings(envelopes, end, |envelopes|);
      if last <= length && Substantive(envelopes, start, last) then Some(TextRange(start, last)) else None
  }

  /** `normalized_range`: the end moves past one closing delimiter in each pass. */
  method NormalizeRange(length: nat, envelopes: seq<Envelope>, start: nat, stop: nat) returns (r: Option<TextRange>)
    ensures r == NormalizedRange(length, envelopes, start, stop)
  {
    if !(start <= stop <= length) || start == stop {
      return None;
    }
    var i := 0;
    while i < |envelopes|
      invariant 0 <= i <= |envelopes|
      invariant forall k :: 0 <= k < i ==> !SplitsDelimiter(envelopes[k], start) && !EndsInOpening(envelopes[k], stop)
    {
      if SplitsDelimiter(envelopes[i], start) || EndsInOpening(envelopes[i], stop) {
        return None;
      }
      i := i + 1;
    }
    assert !Refused(length, envelopes, start, stop);
    var end: nat := stop;
    for pass := 0 to |envelopes|
      invariant TakeClosings(envelopes, stop, |envelopes|) == TakeClosings(envelopes, end, |envelopes| - pass)
    {
      var next := Advance(envelopes, end);
      if next.None? {
        break;
      }
      end := next.value;
    }
    assert end == TakeClosings(envelopes, stop, |envelopes|);
    if end <= length && Substantive(envelopes, start, end) {
      r := Some(TextRange(start, end));
    } else {
      r := None;
    }
  }

  // ---- One pass per envelope is enough

  /** How many closing delimiters end after a position. */
  ghost function Ahead(envelopes: seq<Envelope>, p: nat): (n: nat)
    ensures n <= |envelopes|
  {
    if envelopes == [] then 0
    else (if envelopes[0].closing.end > p then 1 else 0) + Ahead(envelopes[1..], p)
  }

  lemma {:induction false} AheadFalls(envelopes: seq<Envelope>, p: nat, q: nat)
    requires p <= q
    ensures Ahead(envelopes, q) <= Ahead(envelopes, p)
    ensures (exists e :: e in envelopes && p < e.closing.end <= q) ==> Ahead(envelopes, q) < Ahead(envelopes, p)
  {
    if envelopes != [] {
      AheadFalls(envelopes[1..], p, q);
      assert envelopes == [envelopes[0]] + envelopes[1..];
    }
  }

  /** However the delimiters lie, as many passes as there are envelopes reach the fixed point. */
  lemma {:induction false} ClosingsTaken(envelopes: seq<Envelope>, end: nat, passes: nat)
    requires Ahead(envelopes, end) <= passes
    ensures Advance(envelopes, TakeClosings(envelopes, end, passes)).None?
    decreases passes
  {
    var next := Advance(envelopes, end);
    if next.Some? {
      AheadFalls(envelopes, end, next.value);
      assert passes > 0;
      ClosingsTaken(envelopes, next.value, passes - 1);
    }
  }

  /** The end reached is where the range was asked to end, or the end of some closing delimiter. */
  lemma {:induction false} ClosingsEnd(envelopes: seq<Envelope>, end: nat, passes: nat)
    ensures
      var last := TakeClosings(envelopes, end, passes);
      last == end || exists e :: e in envelopes && e.closing.end == last
    decreases passes
  {
    if passes > 0 && Advance(envelopes, end).Some? {
      ClosingsEnd(envelopes, Advance(envelopes, end).value, passes - 1);
    }
  }

  /** A position that no closing delimiter holds is never passed. */
  lemma {:induction false} ClosingsStop(length: nat, envelopes: seq<Envelope>, end: nat, passes: nat, stop: nat)
    requires WellNested(length, envelopes)
    requires end <= stop && Advance(envelopes, stop).None?
    ensures TakeClosings(envelopes, end, passes) <= stop
    decreases passes
  {
    var next := Advance(envelopes, end);
    if passes > 0 && next.Some? {
      var e :| e in envelopes && Holds(e.closing, end) && e.closing.end == next.value;
      assert !Holds(e.closing, stop);
      assert end < stop;
      ClosingsStop(length, envelopes, next.value, passes - 1, stop);
    }
  }

  // ---- What a normalized range is

  /** In a nested family no closing delimiter ends inside an opening one or just after it. */
  lemma {:induction false} ClosingAvoidsOpenings(length: nat, envelopes: seq<Envelope>, closed: Envelope, inner: Envelope)
    requires WellNested(length, envelopes)
    requires closed in envelopes && inner in envelopes
    ensures !EndsInOpening(inner, closed.closing.end)
  {
    var i :| 0 <= i < |envelopes| && envelopes[i] == closed;
    var j :| 0 <= j < |envelopes| && envelopes[j] == inner;
    assert DelimitedAt(length, envelopes, i) && DelimitedAt(length, envelopes, j);
    if i < j {
      assert NestedAt(envelopes, i, j);
    } else if j < i {
      assert NestedAt(envelopes, j, i);
    }
  }

  /**
   * Every range it returns starts where asked, reaches at least as far as asked, ends at a clean
   * cut inside the text, and passes no stop that is itself a clean cut.
   */
  lemma {:induction false} NormalizedRangeCuts(length: nat, envelopes: seq<Envelope>, start: nat, end: nat)
    requires WellNested(length, envelopes)
    requires NormalizedRange(length, envelopes, start, end).Some?
    ensures
      var r := NormalizedRange(length, envelopes, start, end).value;
      && r.start == start < end <= r.end <= length
      && CleanCut(envelopes, r.end)
      && Substantive(envelopes, start, r.end)
      && forall stop :: end <= stop && CleanCut(envelopes, stop) ==> r.end <= stop
  {
    var r := NormalizedRange(length, envelopes, start, end).value;
    ClosingsTaken(envelopes, end, |envelopes|);
    ClosingsEnd(envelopes, end, |envelopes|);
    forall e | e in envelopes ensures !EndsInOpening(e, r.end) {
      if r.end != end {
        var closed :| closed in envelopes && closed.closing.end == r.end;
        ClosingAvoidsOpenings(length, envelopes, closed, e);
      }
    }
    forall stop | end <= stop && CleanCut(envelopes, stop) ensures r.end <= stop {
      ClosingsStop(length, envelopes, end, |envelopes|, stop);
    }
  }

  /** Normalizing a normalized range gives it back: the check a fragment repeats never fails. */
  lemma {:induction false} NormalizedRangeIdempotent(length: nat, envelopes: seq<Envelope>, start: nat, end: nat)
    requires WellNested(length, envelopes)
    requires NormalizedRange(length, envelopes, start, end).Some?
    ensures
      var r := NormalizedRange(length, envelopes, start, end).value;
      NormalizedRange(length, envelopes, r.start, r.end) == Some(r)
  {
    NormalizedRangeCuts(length, envelopes, start, end);
    var r := NormalizedRange(length, envelopes, start, end).value;
    assert !Refused(length, envelopes, r.start, r.end);
    assert Advance(envelopes, r.end).None?;
  }

  /**
   * Exactly which ranges stand as they are: nonempty ranges of the text with some plain text, that
   * start inside no delimiter and end at a clean cut.
   */
  lemma {:induction false} NormalizedExactly(length: nat, envelopes: seq<Envelope>, r: TextRange)
    requires WellNested(length, envelopes)
    ensures NormalizedRange(length, envelopes, r.start, r.end) == Some(r) <==>
              && r.start < r.end <= length
              && (forall e :: e in envelopes ==> !SplitsDelimiter(e, r.start))
              && CleanCut(envelopes, r.end)
              && Substantive(envelopes, r.start, r.end)
  {
    if NormalizedRange(length, envelopes, r.start, r.end) == Some(r) {
      NormalizedRangeCuts(length, envelopes, r.start, r.end);
    }
    if CleanCut(envelopes, r.end) {
      assert TakeClosings(envelopes, r.end, |envelopes|) == r.end;
    }
  }
}
