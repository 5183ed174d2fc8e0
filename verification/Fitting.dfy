/** Candidate cut points in a text and the search for a prefix that fits. */
module Fitting {
  import opened Common

  predicate IsSentenceEnd(c: char) {
    c in ['.', '!', '?', '\U{3002}', '\U{FF01}', '\U{FF1F}']
  }

  /** Whether a cut follows whitespace. */
  predicate AfterWhitespace(text: string, cut: nat) {
    1 <= cut <= |text| && IsWhitespace(text[cut - 1])
  }

  /** Whether a cut follows a line break in code, or the whitespace after a sentence end elsewhere. */
  predicate Meaningful(text: string, code: bool, cut: nat) {
    && AfterWhitespace(text, cut)
    && if code then text[cut - 1] == '\n' else 2 <= cut && IsSentenceEnd(text[cut - 2])
  }

  /** The cuts after whitespace up to a position. */
  function WhitespaceCuts(text: string, n: nat): seq<nat>
    requires n <= |text|
  {
    if n == 0 then [] else WhitespaceCuts(text, n - 1) + if AfterWhitespace(text, n) then [n] else []
  }

  /** The meaningful ones among them. */
  function MeaningfulCuts(text: string, code: bool, n: nat): seq<nat>
    requires n <= |text|
  {
    if n == 0 then [] else MeaningfulCuts(text, code, n - 1) + if Meaningful(text, code, n) then [n] else []
  }

  ghost predicate Increasing(cuts: seq<nat>) {
    forall i, j :: 0 <= i < j < |cuts| ==> cuts[i] < cuts[j]
  }

  lemma {:induction false} CutsAre(text: string, code: bool, n: nat)
    requires n <= |text|
    ensures Increasing(WhitespaceCuts(text, n)) && Increasing(MeaningfulCuts(text, code, n))
    ensures forall cut: nat :: cut in WhitespaceCuts(text, n) <==> cut <= n && AfterWhitespace(text, cut)
    ensures forall cut: nat :: cut in MeaningfulCuts(text, code, n) <==> cut <= n && Meaningful(text, code, cut)
  {
    hide Meaningful, AfterWhitespace;
    if n > 0 {
      CutsAre(text, code, n - 1);
      var (before, own) := (WhitespaceCuts(text, n - 1), MeaningfulCuts(text, code, n - 1));
      assert forall i :: 0 <= i < |before| ==> before[i] in before;
      assert forall i :: 0 <= i < |own| ==> own[i] in own;
    } else {
      NoCut(text, code);
    }
  }

  lemma {:induction false} NoCut(text: string, code: bool)
    ensures !AfterWhitespace(text, 0) && !Meaningful(text, code, 0)
  {
  }

  /** `boundaries`: the cuts after whitespace, each once and in order, and the meaningful ones among them. */
  method Boundaries(text: string, code: bool) returns (meaningful: seq<nat>, whitespace: seq<nat>)
    ensures meaningful == MeaningfulCuts(text, code, |text|) && whitespace == WhitespaceCuts(text, |text|)
    ensures Increasing(meaningful) && Increasing(whitespace)
    ensures forall cut: nat :: cut in whitespace <==> AfterWhitespace(text, cut)
    ensures forall cut: nat :: cut in meaningful <==> Meaningful(text, code, cut)
  {
    meaningful, whitespace := [], [];
    for position := 0 to |text|
      invariant meaningful == MeaningfulCuts(text, code, position) && whitespace == WhitespaceCuts(text, position)
    {
      var character := text[position];
      if IsWhitespace(character) {
        whitespace := whitespace + [position + 1];
        if (code && character == '\n') || (!code && position > 0 && IsSentenceEnd(text[position - 1])) {
          meaningful := meaningful + [position + 1];
        }
      }
    }
    CutsAre(text, code, |text|);
  }

  /** A length halved k times. */
  function Halved(n: nat, k: nat): (r: nat)
    ensures r <= n
  {
    if k == 0 then n else Halved(n, k - 1) / 2
  }

  /** The whole number below the binary logarithm. */
  function Log2(n: nat): nat
    requires n > 0
  {
    if n == 1 then 0 else 1 + Log2(n / 2)
  }

  lemma {:induction false} HalvedLog(n: nat, k: nat)
    requires n > 0 && Halved(n, k) > 0
    ensures k + Log2(Halved(n, k)) == Log2(n)
  {
    if k > 0 {
      assert Halved(n, k - 1) > 1;
      HalvedLog(n, k - 1);
    }
  }

  /** The first half that fits: every longer one was refused. */
  ghost predicate FirstFit(n: nat, fits: nat -> Result<bool>, k: nat) {
    && Halved(n, k) > 0 && fits(Halved(n, k)) == Ok(true)
    && forall j :: 0 <= j < k ==> fits(Halved(n, j)) == Ok(false)
  }

  /** Whether a cut is the last preferred one inside a prefix. */
  ghost predicate LastBefore(preferred: seq<nat>, end: nat, cut: nat) {
    cut in preferred && 0 < cut < end && forall c :: c in preferred && c < end ==> c <= cut
  }

  /** The last of the first n preferred cuts that lies inside a prefix. */
  function LastOf(preferred: seq<nat>, n: nat, end: nat): Option<nat>
    requires n <= |preferred|
  {
    if n == 0 then None
    else if 0 < preferred[n - 1] < end then Some(preferred[n - 1])
    else LastOf(preferred, n - 1, end)
  }

  /** The last preferred cut inside a prefix, or none. */
  method LastCut(preferred: seq<nat>, end: nat) returns (r: Option<nat>)
    requires Increasing(preferred)
    ensures r == LastOf(preferred, |preferred|, end)
    ensures r.Some? ==> LastBefore(preferred, end, r.value)
    ensures r.None? ==> forall c :: c in preferred ==> !(0 < c < end)
  {
    var i := |preferred|;
    while i > 0
      invariant 0 <= i <= |preferred| && LastOf(preferred, |preferred|, end) == LastOf(preferred, i, end)
      invariant forall k :: i <= k < |preferred| ==> !(0 < preferred[k] < end)
    {
      i := i - 1;
      if 0 < preferred[i] < end {
        return Some(preferred[i]);
      }
    }
    r := None;
  }

  /** What fits of the first `end` scalars of n: the first half that does, moved back to a preferred cut. */
  function Fitted(n: nat, preferred: seq<nat>, fits: nat -> Result<bool>, end: nat): Result<Option<nat>> {
    if end == 0 then Ok(None)
    else
      var fit :- fits(end);
      if !fit then (if end == 1 then Ok(None) else Fitted(n, preferred, fits, end / 2))
      else if end == n then Ok(Some(end))
      else
        match LastOf(preferred, |preferred|, end)
        case None => Ok(Some(end))
        case Some(cut) =>
          var better :- fits(cut);
          Ok(Some(if better then cut else end))
  }

  /** What fits was probed, and fitted. */
  lemma {:induction false} FittedFits(n: nat, preferred: seq<nat>, fits: nat -> Result<bool>, end: nat)
    requires Fitted(n, preferred, fits, end).Ok? && Fitted(n, preferred, fits, end).value.Some?
    ensures
      var chosen := Fitted(n, preferred, fits, end).value.value;
      0 < chosen <= end && fits(chosen) == Ok(true)
  {
    if fits(end) == Ok(true) {
      LastInside(preferred, |preferred|, end);
    } else {
      FittedFits(n, preferred, fits, end / 2);
    }
  }

  lemma {:induction false} LastInside(preferred: seq<nat>, n: nat, end: nat)
    requires n <= |preferred|
    ensures LastOf(preferred, n, end).Some? ==> 0 < LastOf(preferred, n, end).value < end
  {
    if n > 0 {
      LastInside(preferred, n - 1, end);
    }
  }

  /** Past the last halving nothing is left. */
  lemma {:induction false} HalvedOut(n: nat, k: nat, j: nat)
    requires k < j && Halved(n, k) <= 1
    ensures Halved(n, j) == 0
    decreases j
  {
    if j > k + 1 {
      HalvedOut(n, k, j - 1);
    }
  }

  /**
   * `fit_prefix`: the whole text if it fits, else the first half that fits by halving, moved back
   * to the last preferred cut inside it when that fits too. None only when nothing is left to
   * halve: the text is empty or its first scalar alone was refused. At most one probe per halving
   * and one for the preferred cut.
   */
  method FitPrefix(n: nat, preferred: seq<nat>, fits: nat -> Result<bool>)
    returns (r: Result<Option<nat>>, ghost probes: seq<nat>)
    requires Increasing(preferred)
    ensures r == Fitted(n, preferred, fits, n)
    ensures r.Ok? && r.value.Some? ==>
              exists k :: FirstFit(n, fits, k) &&
                var end, chosen := Halved(n, k), r.value.value;
                && 0 < chosen <= end && fits(chosen) == Ok(true)
                && (chosen == end
                    ==> k == 0 || (forall c :: c in preferred && 0 < c < end ==>
                          exists b :: LastBefore(preferred, end, b) && fits(b) == Ok(false)))
                && (chosen != end ==> k > 0 && LastBefore(preferred, end, chosen))
    ensures r.Ok? && r.value.None? ==> n == 0 || fits(1) == Ok(false)
    ensures r.Ok? && r.value.None? ==> forall k :: Halved(n, k) > 0 ==> fits(Halved(n, k)) == Ok(false)
    ensures r.Err? ==> exists p :: p in probes && fits(p) == Err(r.error)
    ensures n > 0 ==> |probes| <= Log2(n) + 2
    ensures n == 0 ==> probes == []
  {
    var end := n;
    ghost var k := 0;
    probes := [];
    while true
      invariant end == Halved(n, k) && if n > 0 then end > 0 else k == 0
      invariant forall j :: 0 <= j < k ==> fits(Halved(n, j)) == Ok(false)
      invariant |probes| == k
      invariant Fitted(n, preferred, fits, n) == Fitted(n, preferred, fits, end)
      decreases end
    {
      if end > 0 {
        HalvedLog(n, k);
        probes := probes + [end];
        var fit := fits(end);
        if fit.Err? {
          return Err(fit.error), probes;
        }
        if fit.value {
          assert FirstFit(n, fits, k);
          if end == n {
            return Ok(Some(end)), probes;
          }
          var boundary := LastCut(preferred, end);
          if boundary.Some? {
            probes := probes + [boundary.value];
            var better := fits(boundary.value);
            if better.Err? {
              return Err(better.error), probes;
            }
            if better.value {
              return Ok(Some(boundary.value)), probes;
            }
          }
          return Ok(Some(end)), probes;
        }
      }
      if end <= 1 {
        forall j: nat | Halved(n, j) > 0 ensures fits(Halved(n, j)) == Ok(false) {
          if j > k {
            HalvedOut(n, k, j);
          }
        }
        return Ok(None), probes;
      }
      end := end / 2;
      k := k + 1;
    }
  }
}
