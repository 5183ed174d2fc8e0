/** Delimiters as brackets: read in order, the delimiters of every piece of a unit form a balanced word. */
module Brackets {
  import opened Common
  import opened Ranges

  /** A delimiter of the envelope with the given index. */
  datatype Bracket = Open(e: nat) | Close(e: nat)

  /** A reader keeps the open wrappers on a stack; a closing that is not the last opened is a mismatch. */
  ghost function Read(stack: Option<seq<nat>>, b: Bracket): Option<seq<nat>> {
    if stack.None? then None
    else
      var s := stack.value;
      match b
      case Open(e) => Some(s + [e])
      case Close(e) => if s != [] && s[|s| - 1] == e then Some(s[..|s| - 1]) else None
  }

  /** The stack after the first n brackets of a word. */
  ghost function Run(stack: Option<seq<nat>>, word: seq<Bracket>, n: nat): Option<seq<nat>>
    requires n <= |word|
  {
    if n == 0 then stack else Read(Run(stack, word, n - 1), word[n - 1])
  }

  /** Whether reading a whole word turns one stack into another. */
  ghost predicate Reads(before: seq<nat>, word: seq<Bracket>, after: seq<nat>) {
    Run(Some(before), word, |word|) == Some(after)
  }

  ghost predicate Balanced(word: seq<Bracket>) {
    Reads([], word, [])
  }

  ghost predicate OpensAt(envelopes: seq<Envelope>, i: int, p: nat) {
    0 <= i < |envelopes| && envelopes[i].opening.start == p
  }

  ghost predicate ClosesAt(envelopes: seq<Envelope>, i: int, p: nat) {
    0 <= i < |envelopes| && envelopes[i].closing.start == p
  }

  /** The bracket of the delimiter that starts at a position, if any. */
  ghost function BracketAt(envelopes: seq<Envelope>, p: nat): seq<Bracket> {
    if exists i :: OpensAt(envelopes, i, p) then
      var i :| OpensAt(envelopes, i, p); [Open(i)]
    else if exists i :: ClosesAt(envelopes, i, p) then
      var i :| ClosesAt(envelopes, i, p); [Close(i)]
    else []
  }

  /** The brackets of the delimiters that start in a stretch of the text, in text order. */
  ghost function Scan(envelopes: seq<Envelope>, start: nat, end: nat): seq<Bracket>
    decreases end
  {
    if end <= start then [] else Scan(envelopes, start, end - 1) + BracketAt(envelopes, end - 1)
  }

  /** The brackets of the first n of some stretches, one after the other. */
  ghost function ScanAll(envelopes: seq<Envelope>, ranges: seq<TextRange>, n: nat): seq<Bracket>
    requires n <= |ranges|
  {
    if n == 0 then [] else ScanAll(envelopes, ranges, n - 1) + Scan(envelopes, ranges[n - 1].start, ranges[n - 1].end)
  }

  ghost function Word(envelopes: seq<Envelope>, ranges: seq<TextRange>): seq<Bracket> {
    ScanAll(envelopes, ranges, |ranges|)
  }

  /** Whether a range holds some of an envelope's content, so that it must show its delimiters. */
  predicate Active(e: Envelope, r: TextRange) {
    r.start < e.closing.start && r.end > e.opening.end
  }

  /** The opening delimiters a piece repeats before its text, of the first n envelopes: the outermost first. */
  function RepeatedOpenings(envelopes: seq<Envelope>, r: TextRange, n: nat): seq<TextRange>
    requires n <= |envelopes|
  {
    if n == 0 then []
    else
      var e := envelopes[n - 1];
      RepeatedOpenings(envelopes, r, n - 1) + if Active(e, r) && r.start > e.opening.start then [e.opening] else []
  }

  /** The closing delimiters a piece repeats after its text, of the first n envelopes: the innermost first. */
  function RepeatedClosings(envelopes: seq<Envelope>, r: TextRange, n: nat): seq<TextRange>
    requires n <= |envelopes|
  {
    if n == 0 then []
    else
      var e := envelopes[n - 1];
      (if Active(e, r) && r.end < e.closing.end then [e.closing] else []) + RepeatedClosings(envelopes, r, n - 1)
  }

  // ---- The stack after reading the text up to a position

  ghost predicate IsOpen(e: Envelope, p: nat) {
    e.opening.start < p <= e.closing.start
  }

  /** The first n wrappers open at a position, in list order: the outermost first. */
  ghost function OpenAt(envelopes: seq<Envelope>, p: nat, n: nat): seq<nat>
    requires n <= |envelopes|
  {
    if n == 0 then []
    else OpenAt(envelopes, p, n - 1) + if IsOpen(envelopes[n - 1], p) then [n - 1] else []
  }

  ghost function Opens(stack: seq<nat>): seq<Bracket> {
    seq(|stack|, i requires 0 <= i < |stack| => Open(stack[i]))
  }

  ghost function Closes(stack: seq<nat>): seq<Bracket> {
    seq(|stack|, i requires 0 <= i < |stack| => Close(stack[|stack| - 1 - i]))
  }

  lemma {:induction false} RunPrefix(stack: Option<seq<nat>>, a: seq<Bracket>, b: seq<Bracket>, n: nat)
    requires n <= |a|
    ensures Run(stack, a + b, n) == Run(stack, a, n)
  {
    if n > 0 {
      RunPrefix(stack, a, b, n - 1);
    }
  }

  lemma {:induction false} RunConcat(stack: Option<seq<nat>>, a: seq<Bracket>, b: seq<Bracket>, n: nat)
    requires n <= |b|
    ensures Run(stack, a + b, |a| + n) == Run(Run(stack, a, |a|), b, n)
  {
    if n == 0 {
      RunPrefix(stack, a, b, |a|);
    } else {
      RunConcat(stack, a, b, n - 1);
    }
  }

  lemma {:induction false} ReadsThen(before: seq<nat>, a: seq<Bracket>, mid: seq<nat>, b: seq<Bracket>, after: seq<nat>)
    requires Reads(before, a, mid) && Reads(mid, b, after)
    ensures Reads(before, a + b, after)
  {
    RunConcat(Some(before), a, b, |b|);
  }

  lemma {:induction false} RunOpens(stack: seq<nat>, n: nat)
    requires n <= |stack|
    ensures Run(Some([]), Opens(stack), n) == Some(stack[..n])
  {
    if n > 0 {
      RunOpens(stack, n - 1);
      assert stack[..n - 1] + [stack[n - 1]] == stack[..n];
    }
  }

  lemma {:induction false} RunCloses(stack: seq<nat>, n: nat)
    requires n <= |stack|
    ensures Run(Some(stack), Closes(stack), n) == Some(stack[..|stack| - n])
  {
    if n > 0 {
      RunCloses(stack, n - 1);
      var left := stack[..|stack| - n + 1];
      assert left[..|left| - 1] == stack[..|stack| - n];
    } else {
      assert stack[..|stack|] == stack;
    }
  }

  lemma {:induction false} ScanSplit(envelopes: seq<Envelope>, start: nat, mid: nat, end: nat)
    requires start <= mid <= end
    ensures Scan(envelopes, start, end) == Scan(envelopes, start, mid) + Scan(envelopes, mid, end)
    decreases end
  {
    if mid < end {
      ScanSplit(envelopes, start, mid, end - 1);
    }
  }

  lemma {:induction false} ScanAllPrefix(envelopes: seq<Envelope>, a: seq<TextRange>, b: seq<TextRange>, n: nat)
    requires n <= |a|
    ensures ScanAll(envelopes, a + b, n) == ScanAll(envelopes, a, n)
  {
    if n > 0 {
      ScanAllPrefix(envelopes, a, b, n - 1);
    }
  }

  lemma {:induction false} ScanAllConcat(envelopes: seq<Envelope>, a: seq<TextRange>, b: seq<TextRange>, n: nat)
    requires n <= |b|
    ensures ScanAll(envelopes, a + b, |a| + n) == Word(envelopes, a) + ScanAll(envelopes, b, n)
  {
    if n == 0 {
      ScanAllPrefix(envelopes, a, b, |a|);
    } else {
      ScanAllConcat(envelopes, a, b, n - 1);
      var front, last := ScanAll(envelopes, b, n - 1), Scan(envelopes, b[n - 1].start, b[n - 1].end);
      calc {
        ScanAll(envelopes, a + b, |a| + n);
        { assert (a + b)[|a| + n - 1] == b[n - 1]; }
        ScanAll(envelopes, a + b, |a| + n - 1) + last;
        (Word(envelopes, a) + front) + last;
        { Associative(Word(envelopes, a), front, last); }
        Word(envelopes, a) + (front + last);
      }
    }
  }

  lemma {:induction false} Associative<T>(a: seq<T>, b: seq<T>, c: seq<T>)
    ensures (a + b) + c == a + (b + c)
  {
  }

  /** The word of two lists of stretches is the two words, one after the other. */
  lemma {:induction false} WordConcat(envelopes: seq<Envelope>, a: seq<TextRange>, b: seq<TextRange>)
    ensures Word(envelopes, a + b) == Word(envelopes, a) + Word(envelopes, b)
  {
    ScanAllConcat(envelopes, a, b, |b|);
  }

  lemma {:induction false} WordOne(envelopes: seq<Envelope>, r: TextRange)
    ensures Word(envelopes, [r]) == Scan(envelopes, r.start, r.end)
  {
    assert ScanAll(envelopes, [r], 0) == [];
  }

  // ---- Delimiters of a nested family never overlap

  lemma {:induction false} Apart(length: nat, envelopes: seq<Envelope>, i: nat, j: nat)
    requires WellNested(length, envelopes)
    requires i < |envelopes| && j < |envelopes| && i != j
    ensures
      var a, b := envelopes[i], envelopes[j];
      && (a.opening.end <= b.opening.start || b.opening.end <= a.opening.start)
      && (a.opening.end <= b.closing.start || b.closing.end <= a.opening.start)
      && (a.closing.end <= b.closing.start || b.closing.end <= a.closing.start)
      && (i < j ==> a.opening.start < b.opening.start)
  {
    assert DelimitedAt(length, envelopes, i) && DelimitedAt(length, envelopes, j);
    if i < j {
      assert NestedAt(envelopes, i, j);
    } else {
      assert NestedAt(envelopes, j, i);
    }
  }

  lemma {:induction false} BracketAtOpening(length: nat, envelopes: seq<Envelope>, i: nat)
    requires WellNested(length, envelopes)
    requires i < |envelopes|
    ensures BracketAt(envelopes, envelopes[i].opening.start) == [Open(i)]
  {
    var p := envelopes[i].opening.start;
    assert DelimitedAt(length, envelopes, i);
    assert OpensAt(envelopes, i, p);
    forall j | OpensAt(envelopes, j, p) ensures j == i {
      if j != i {
        assert DelimitedAt(length, envelopes, j);
        Apart(length, envelopes, i, j);
      }
    }
  }

  lemma {:induction false} BracketAtClosing(length: nat, envelopes: seq<Envelope>, i: nat)
    requires WellNested(length, envelopes)
    requires i < |envelopes|
    ensures BracketAt(envelopes, envelopes[i].closing.start) == [Close(i)]
  {
    var p := envelopes[i].closing.start;
    assert DelimitedAt(length, envelopes, i);
    assert ClosesAt(envelopes, i, p);
    forall j | OpensAt(envelopes, j, p) ensures false {
      assert DelimitedAt(length, envelopes, j);
      if j != i {
        Apart(length, envelopes, j, i);
      }
    }
    forall j | ClosesAt(envelopes, j, p) ensures j == i {
      assert DelimitedAt(length, envelopes, j);
      if j != i {
        Apart(length, envelopes, i, j);
      }
    }
  }

  lemma {:induction false} ScanPlain(envelopes: seq<Envelope>, start: nat, end: nat)
    requires forall p :: start <= p < end ==> BracketAt(envelopes, p) == []
    ensures Scan(envelopes, start, end) == []
    decreases end
  {
    if start < end {
      ScanPlain(envelopes, start, end - 1);
    }
  }

  /** A delimiter scanned alone shows its own bracket. */
  lemma {:induction false} ScanDelimiter(length: nat, envelopes: seq<Envelope>, i: nat)
    requires WellNested(length, envelopes)
    requires i < |envelopes|
    ensures Scan(envelopes, envelopes[i].opening.start, envelopes[i].opening.end) == [Open(i)]
    ensures Scan(envelopes, envelopes[i].closing.start, envelopes[i].closing.end) == [Close(i)]
  {
    var e := envelopes[i];
    assert DelimitedAt(length, envelopes, i);
    forall r: TextRange, p | (r == e.opening || r == e.closing) && r.start < p < r.end
      ensures BracketAt(envelopes, p) == []
    {
      forall j | OpensAt(envelopes, j, p) || ClosesAt(envelopes, j, p) ensures false {
        assert DelimitedAt(length, envelopes, j);
        if j != i {
          Apart(length, envelopes, i, j);
          Apart(length, envelopes, j, i);
        }
      }
    }
    ScanOne(envelopes, e.opening);
    ScanOne(envelopes, e.closing);
    BracketAtOpening(length, envelopes, i);
    BracketAtClosing(length, envelopes, i);
  }

  lemma {:induction false} ScanOne(envelopes: seq<Envelope>, r: TextRange)
    requires r.start < r.end
    requires forall p :: r.start < p < r.end ==> BracketAt(envelopes, p) == []
    ensures Scan(envelopes, r.start, r.end) == BracketAt(envelopes, r.start)
  {
    ScanSplit(envelopes, r.start, r.start + 1, r.end);
    ScanPlain(envelopes, r.start + 1, r.end);
    assert Scan(envelopes, r.start, r.start) == [];
  }

  // ---- Reading a stretch of text

  lemma {:induction false} OpenAtOpening(length: nat, envelopes: seq<Envelope>, i: nat, n: nat)
    requires WellNested(length, envelopes)
    requires i < |envelopes| && n <= |envelopes|
    ensures
      var p := envelopes[i].opening.start;
      OpenAt(envelopes, p + 1, n) == OpenAt(envelopes, p, n) + if i < n then [i] else []
  {
    if n > 0 {
      OpenAtOpening(length, envelopes, i, n - 1);
      assert DelimitedAt(length, envelopes, i) && DelimitedAt(length, envelopes, n - 1);
      if n - 1 != i {
        Apart(length, envelopes, i, n - 1);
      }
    }
  }

  lemma {:induction false} OpenAtClosing(length: nat, envelopes: seq<Envelope>, i: nat, n: nat)
    requires WellNested(length, envelopes)
    requires i < |envelopes| && n <= |envelopes|
    ensures
      var p := envelopes[i].closing.start;
      OpenAt(envelopes, p, n) == OpenAt(envelopes, p + 1, n) + if i < n then [i] else []
  {
    if n > 0 {
      OpenAtClosing(length, envelopes, i, n - 1);
      assert DelimitedAt(length, envelopes, i) && DelimitedAt(length, envelopes, n - 1);
      if n - 1 != i {
        Apart(length, envelopes, n - 1, i);
        if i < n - 1 {
          assert NestedAt(envelopes, i, n - 1);
        } else {
          assert NestedAt(envelopes, n - 1, i);
        }
      }
    }
  }

  lemma {:induction false} OpenAtPlain(envelopes: seq<Envelope>, p: nat, n: nat)
    requires n <= |envelopes|
    requires forall i :: !OpensAt(envelopes, i, p) && !ClosesAt(envelopes, i, p)
    ensures OpenAt(envelopes, p + 1, n) == OpenAt(envelopes, p, n)
  {
    if n > 0 {
      OpenAtPlain(envelopes, p, n - 1);
      assert !OpensAt(envelopes, n - 1, p) && !ClosesAt(envelopes, n - 1, p);
    }
  }

  /** The wrappers open at a position. */
  ghost function Stack(envelopes: seq<Envelope>, p: nat): seq<nat> {
    OpenAt(envelopes, p, |envelopes|)
  }

  lemma {:induction false} RunPosition(length: nat, envelopes: seq<Envelope>, p: nat)
    requires WellNested(length, envelopes)
    ensures Reads(Stack(envelopes, p), BracketAt(envelopes, p), Stack(envelopes, p + 1))
  {
    var before := Some(Stack(envelopes, p));
    if i :| OpensAt(envelopes, i, p) {
      BracketAtOpening(length, envelopes, i);
      OpenAtOpening(length, envelopes, i, |envelopes|);
      assert Run(before, [Open(i)], 0) == before;
    } else if i :| ClosesAt(envelopes, i, p) {
      BracketAtClosing(length, envelopes, i);
      OpenAtClosing(length, envelopes, i, |envelopes|);
      assert Run(before, [Close(i)], 0) == before;
    } else {
      OpenAtPlain(envelopes, p, |envelopes|);
    }
  }

  /** Reading from one position to another turns the wrappers open at the first into the second's. */
  lemma {:induction false} RunScan(length: nat, envelopes: seq<Envelope>, start: nat, end: nat)
    requires WellNested(length, envelopes)
    requires start <= end
    ensures Reads(Stack(envelopes, start), Scan(envelopes, start, end), Stack(envelopes, end))
    decreases end
  {
    if start < end {
      RunScan(length, envelopes, start, end - 1);
      RunPosition(length, envelopes, end - 1);
      ReadsThen(Stack(envelopes, start), Scan(envelopes, start, end - 1), Stack(envelopes, end - 1),
                BracketAt(envelopes, end - 1), Stack(envelopes, end));
    }
  }

  // ---- The repeated delimiters are exactly the open wrappers

  /** Whether a position splits no delimiter and is not where a closing one starts. */
  ghost predicate StartsClean(envelopes: seq<Envelope>, p: nat) {
    forall e :: e in envelopes ==> !SplitsDelimiter(e, p) && e.closing.start != p
  }

  /** At such a start and at a clean end, a wrapper with content on the far side is open exactly when it straddles the cut. */
  lemma {:induction false} OpenExactly(length: nat, envelopes: seq<Envelope>, r: TextRange, e: Envelope)
    requires WellNested(length, envelopes)
    requires e in envelopes && r.start < r.end
    ensures StartsClean(envelopes, r.start) ==> (IsOpen(e, r.start) <==> Active(e, r) && r.start > e.opening.start)
    ensures CleanCut(envelopes, r.end) ==> (IsOpen(e, r.end) <==> Active(e, r) && r.end < e.closing.end)
  {
    var i :| 0 <= i < |envelopes| && envelopes[i] == e;
    assert DelimitedAt(length, envelopes, i);
  }

  ghost predicate ShowOpens(envelopes: seq<Envelope>, openings: seq<TextRange>, stack: seq<nat>) {
    Word(envelopes, openings) == Opens(stack)
  }

  ghost predicate ShowCloses(envelopes: seq<Envelope>, closings: seq<TextRange>, stack: seq<nat>) {
    Word(envelopes, closings) == Closes(stack)
  }

  lemma {:induction false} ShowOpening(length: nat, envelopes: seq<Envelope>, i: nat, openings: seq<TextRange>, stack: seq<nat>)
    requires WellNested(length, envelopes)
    requires i < |envelopes| && ShowOpens(envelopes, openings, stack)
    ensures ShowOpens(envelopes, openings + [envelopes[i].opening], stack + [i])
  {
    WordConcat(envelopes, openings, [envelopes[i].opening]);
    WordOne(envelopes, envelopes[i].opening);
    ScanDelimiter(length, envelopes, i);
    assert Opens(stack) + [Open(i)] == Opens(stack + [i]);
  }

  lemma {:induction false} ShowClosing(length: nat, envelopes: seq<Envelope>, i: nat, closings: seq<TextRange>, stack: seq<nat>)
    requires WellNested(length, envelopes)
    requires i < |envelopes| && ShowCloses(envelopes, closings, stack)
    ensures ShowCloses(envelopes, [envelopes[i].closing] + closings, stack + [i])
  {
    hide WellNested, Scan;
    WordConcat(envelopes, [envelopes[i].closing], closings);
    WordOne(envelopes, envelopes[i].closing);
    ScanDelimiter(length, envelopes, i);
    assert [Close(i)] + Closes(stack) == Closes(stack + [i]);
  }

  lemma {:induction false} OpeningsAreOpen(length: nat, envelopes: seq<Envelope>, r: TextRange, n: nat)
    requires WellNested(length, envelopes)
    requires StartsClean(envelopes, r.start) && r.start < r.end
    requires n <= |envelopes|
    ensures ShowOpens(envelopes, RepeatedOpenings(envelopes, r, n), OpenAt(envelopes, r.start, n))
  {
    if n > 0 {
      OpeningsAreOpen(length, envelopes, r, n - 1);
      OpenExactly(length, envelopes, r, envelopes[n - 1]);
      if IsOpen(envelopes[n - 1], r.start) {
        ShowOpening(length, envelopes, n - 1, RepeatedOpenings(envelopes, r, n - 1), OpenAt(envelopes, r.start, n - 1));
      } else {
        assert RepeatedOpenings(envelopes, r, n) == RepeatedOpenings(envelopes, r, n - 1);
        assert OpenAt(envelopes, r.start, n) == OpenAt(envelopes, r.start, n - 1);
      }
    }
  }

  lemma {:induction false} ClosingsAreOpen(length: nat, envelopes: seq<Envelope>, r: TextRange, n: nat)
    requires WellNested(length, envelopes)
    requires CleanCut(envelopes, r.end) && r.start < r.end
    requires n <= |envelopes|
    ensures ShowCloses(envelopes, RepeatedClosings(envelopes, r, n), OpenAt(envelopes, r.end, n))
  {
    if n > 0 {
      ClosingsAreOpen(length, envelopes, r, n - 1);
      OpenExactly(length, envelopes, r, envelopes[n - 1]);
      if IsOpen(envelopes[n - 1], r.end) {
        ShowClosing(length, envelopes, n - 1, RepeatedClosings(envelopes, r, n - 1), OpenAt(envelopes, r.end, n - 1));
      } else {
        assert RepeatedClosings(envelopes, r, n) == RepeatedClosings(envelopes, r, n - 1);
        assert OpenAt(envelopes, r.end, n) == OpenAt(envelopes, r.end, n - 1);
      }
    }
  }

  /** What a piece shows: the repeated openings, its own text, the repeated closings. */
  function PieceRanges(envelopes: seq<Envelope>, r: TextRange): seq<TextRange> {
    RepeatedOpenings(envelopes, r, |envelopes|) + [r] + RepeatedClosings(envelopes, r, |envelopes|)
  }

  lemma {:induction false} PieceWord(envelopes: seq<Envelope>, r: TextRange)
    ensures Word(envelopes, PieceRanges(envelopes, r))
         == Word(envelopes, RepeatedOpenings(envelopes, r, |envelopes|)) + Scan(envelopes, r.start, r.end)
            + Word(envelopes, RepeatedClosings(envelopes, r, |envelopes|))
  {
    var openings, closings := RepeatedOpenings(envelopes, r, |envelopes|), RepeatedClosings(envelopes, r, |envelopes|);
    WordConcat(envelopes, openings + [r], closings);
    WordConcat(envelopes, openings, [r]);
    WordOne(envelopes, r);
  }

  /**
   * A piece that starts at no closing delimiter and ends at a clean cut is balanced: each wrapper
   * that straddles a cut is reopened before the piece's text and closed after it, nested as in the
   * unit.
   */
  lemma {:induction false} PieceBalanced(length: nat, envelopes: seq<Envelope>, r: TextRange)
    requires WellNested(length, envelopes)
    requires StartsClean(envelopes, r.start) && CleanCut(envelopes, r.end) && r.start < r.end
    ensures Balanced(Word(envelopes, PieceRanges(envelopes, r)))
  {
    PieceWord(envelopes, r);
    OpeningsAreOpen(length, envelopes, r, |envelopes|);
    ClosingsAreOpen(length, envelopes, r, |envelopes|);
    BalancedBetween(length, envelopes, r);
  }

  lemma {:induction false} BalancedBetween(length: nat, envelopes: seq<Envelope>, r: TextRange)
    requires WellNested(length, envelopes)
    requires r.start <= r.end
    ensures Balanced(Opens(Stack(envelopes, r.start)) + Scan(envelopes, r.start, r.end) + Closes(Stack(envelopes, r.end)))
  {
    var before, text, after := Stack(envelopes, r.start), Scan(envelopes, r.start, r.end), Stack(envelopes, r.end);
    RunOpens(before, |before|);
    assert before[..|before|] == before;
    RunScan(length, envelopes, r.start, r.end);
    RunCloses(after, |after|);
    assert after[..0] == [];
    ReadsThen([], Opens(before), before, text, after);
    ReadsThen([], Opens(before) + text, after, Closes(after), []);
  }

  // ---- A piece that starts with a closing delimiter

  /** The wrappers whose openings a piece repeats, of the first n. */
  ghost function Reopened(envelopes: seq<Envelope>, r: TextRange, n: nat): seq<nat>
    requires n <= |envelopes|
  {
    if n == 0 then []
    else
      var e := envelopes[n - 1];
      Reopened(envelopes, r, n - 1) + if Active(e, r) && r.start > e.opening.start then [n - 1] else []
  }

  lemma {:induction false} OpeningsAreReopened(length: nat, envelopes: seq<Envelope>, r: TextRange, n: nat)
    requires WellNested(length, envelopes) && n <= |envelopes|
    ensures ShowOpens(envelopes, RepeatedOpenings(envelopes, r, n), Reopened(envelopes, r, n))
    ensures forall i :: i in Reopened(envelopes, r, n) ==> i < n && Active(envelopes[i], r)
  {
    hide WellNested;
    if n > 0 {
      OpeningsAreReopened(length, envelopes, r, n - 1);
      var e := envelopes[n - 1];
      if Active(e, r) && r.start > e.opening.start {
        ShowOpening(length, envelopes, n - 1, RepeatedOpenings(envelopes, r, n - 1), Reopened(envelopes, r, n - 1));
      } else {
        assert RepeatedOpenings(envelopes, r, n) == RepeatedOpenings(envelopes, r, n - 1);
      }
    }
  }

  lemma {:induction false} RunNone(word: seq<Bracket>, n: nat)
    requires n <= |word|
    ensures Run(None, word, n) == None
  {
    if n > 0 {
      RunNone(word, n - 1);
    }
  }

  /** A closing that meets a stack without its wrapper on top spoils whatever follows. */
  lemma {:induction false} Spoiled(stack: seq<nat>, i: nat, rest: seq<Bracket>)
    requires i !in stack
    ensures !Balanced(Opens(stack) + ([Close(i)] + rest))
  {
    var tail := [Close(i)] + rest;
    RunOpens(stack, |stack|);
    assert stack[..|stack|] == stack;
    RunConcat(Some([]), Opens(stack), tail, |tail|);
    RunConcat(Some(stack), [Close(i)], rest, |rest|);
    assert Run(Some(stack), [Close(i)], 0) == Some(stack);
    RunNone(rest, |rest|);
  }

  lemma {:induction false} ClosingFirst(length: nat, envelopes: seq<Envelope>, r: TextRange, i: nat)
    requires WellNested(length, envelopes) && i < |envelopes| && r.start < r.end && envelopes[i].closing.start == r.start
    ensures !Balanced(Word(envelopes, PieceRanges(envelopes, r)))
  {
    hide WellNested, Balanced;
    var opens, closes := RepeatedOpenings(envelopes, r, |envelopes|), RepeatedClosings(envelopes, r, |envelopes|);
    var stack := Reopened(envelopes, r, |envelopes|);
    OpeningsAreReopened(length, envelopes, r, |envelopes|);
    PieceWord(envelopes, r);
    BracketAtClosing(length, envelopes, i);
    ScanSplit(envelopes, r.start, r.start + 1, r.end);
    assert Scan(envelopes, r.start, r.start) == [];
    var rest := Scan(envelopes, r.start + 1, r.end);
    assert Scan(envelopes, r.start, r.end) == [Close(i)] + rest;
    Associative([Close(i)], rest, Word(envelopes, closes));
    Associative(Opens(stack), [Close(i)] + rest, Word(envelopes, closes));
    Spoiled(stack, i, rest + Word(envelopes, closes));
  }

  /**
   * Of the ranges a fragment may hold, exactly those that start at no closing delimiter have a
   * balanced piece.
   */
  lemma {:induction false} PieceBalancedExactly(length: nat, envelopes: seq<Envelope>, r: TextRange)
    requires WellNested(length, envelopes) && NormalizedRange(length, envelopes, r.start, r.end) == Some(r)
    ensures Balanced(Word(envelopes, PieceRanges(envelopes, r))) <==> forall e :: e in envelopes ==> e.closing.start != r.start
  {
    hide WellNested, Balanced;
    NormalizedExactly(length, envelopes, r);
    if e :| e in envelopes && e.closing.start == r.start {
      var i :| 0 <= i < |envelopes| && envelopes[i] == e;
      ClosingFirst(length, envelopes, r, i);
    } else {
      PieceBalanced(length, envelopes, r);
    }
  }

  /** Such a range: it starts with a closing delimiter, stands as it is, and its piece is not balanced. */
  lemma {:induction false} UncleanStartUnbalanced()
    ensures
      var e := Envelope(TextRange(0, 2), TextRange(3, 5));
      var r := TextRange(3, 6);
      && WellNested(6, [e]) && NormalizedRange(6, [e], r.start, r.end) == Some(r)
      && !Balanced(Word([e], PieceRanges([e], r)))
  {
    var e := Envelope(TextRange(0, 2), TextRange(3, 5));
    var r := TextRange(3, 6);
    assert Plain([e], 5);
    NormalizedExactly(6, [e], r);
    PieceWord([e], r);
    assert RepeatedOpenings([e], r, 0) == [] && RepeatedClosings([e], r, 0) == [];
    ScanDelimiter(6, [e], 0);
    ScanSplit([e], 3, 5, 6);
    assert BracketAt([e], 5) == [];
    ScanPlain([e], 5, 6);
    assert Word([e], PieceRanges([e], r)) == [Close(0)];
    assert Run(Some([]), [Close(0)], 0) == Some([]);
  }
}
