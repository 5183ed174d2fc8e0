/** The source ledger as the mapping sees it: which units carry each entry's characters. */
module Ledger {
  import opened Common
  import opened Units
  import opened Documents
  import opened Mapping
  import opened Mappers
  import A = Accounting
  import Sorting

  datatype Disposition = Eligible | Structural | AsMetadata | AsReference

  /** What becomes of one ledger entry, and the units that carry its characters. */
  datatype Entry = Entry(index: nat, disposition: Disposition, units: set<nat>)

  /** An origin and the unit it is of. */
  datatype Carrier = Carrier(unit: nat, origin: Origin)

  function OriginCarriers(unit: nat, origins: seq<Origin>): (r: seq<Carrier>)
    ensures |r| == |origins| && forall k :: 0 <= k < |r| ==> r[k] == Carrier(unit, origins[k])
  {
    seq(|origins|, k requires 0 <= k < |origins| => Carrier(unit, origins[k]))
  }

  function RunCarriers(unit: nat, runs: seq<MappingRun>, n: nat): seq<Carrier>
    requires n <= |runs|
  {
    if n == 0 then []
    else RunCarriers(unit, runs, n - 1) + OriginCarriers(unit, runs[n - 1].origins)
  }

  /** The origins of the first n units, in order. */
  function Carriers(units: seq<SourceUnit>, n: nat): seq<Carrier>
    requires n <= |units|
  {
    if n == 0 then [] else Carriers(units, n - 1) + RunCarriers(n - 1, units[n - 1].mappings, |units[n - 1].mappings|)
  }

  predicate Overlaps(a: Span, b: Span) {
    a.start < b.end && b.start < a.end
  }

  /** Of the first n sources, those of an owner that overlap a span. */
  function Matches(sources: seq<Carrier>, owner: Id, span: Span, n: nat): seq<Carrier>
    requires n <= |sources|
  {
    if n == 0 then []
    else
      Matches(sources, owner, span, n - 1)
      + if sources[n - 1].origin.block == owner && Overlaps(sources[n - 1].origin.span, span) then [sources[n - 1]] else []
  }

  /** Of the first n sources, the spans of primary units. */
  function PrimarySpans(units: seq<SourceUnit>, sources: seq<Carrier>, n: nat): seq<Span>
    requires n <= |sources|
  {
    if n == 0 then []
    else
      PrimarySpans(units, sources, n - 1)
      + if sources[n - 1].unit < |units| && units[sources[n - 1].unit].primary then [sources[n - 1].origin.span] else []
  }

  function SpanStart(span: Span): Sorting.Key {
    (span.start, 0)
  }

  /** How far the first n spans, in order of start, cover an entry without a gap. */
  function CoveredTo(span: Span, spans: seq<Span>, n: nat): Option<nat>
    requires n <= |spans|
  {
    if n == 0 then Some(span.start)
    else
      match CoveredTo(span, spans, n - 1)
      case None => None
      case Some(reached) =>
        if spans[n - 1].start > reached then None else Some(Max(reached, Min(spans[n - 1].end, span.end)))
  }

  /** `represented`: whether the origins of primary units cover a span from its start to its end. */
  function Represented(span: Span, matches: seq<Carrier>, units: seq<SourceUnit>): bool {
    var spans := Sorting.SortBy(PrimarySpans(units, matches, |matches|), SpanStart);
    CoveredTo(span, spans, |spans|) == Some(span.end)
  }

  lemma {:induction false} CoveredStops(span: Span, spans: seq<Span>, n: nat, m: nat)
    requires n <= m <= |spans| && CoveredTo(span, spans, n).None?
    ensures CoveredTo(span, spans, m).None?
  {
    if n < m {
      CoveredStops(span, spans, n, m - 1);
    }
  }

  method CheckRepresented(span: Span, matches: seq<Carrier>, units: seq<SourceUnit>) returns (ok: bool)
    ensures ok == Represented(span, matches, units)
  {
    var spans: seq<Span> := [];
    for i := 0 to |matches|
      invariant spans == PrimarySpans(units, matches, i)
    {
      if matches[i].unit < |units| && units[matches[i].unit].primary {
        spans := spans + [matches[i].origin.span];
      }
    }
    spans := Sorting.SortBy(spans, SpanStart);
    var reached := span.start;
    for i := 0 to |spans|
      invariant CoveredTo(span, spans, i) == Some(reached)
    {
      if spans[i].start > reached {
        CoveredStops(span, spans, i + 1, |spans|);
        return false;
      }
      reached := Max(reached, Min(spans[i].end, span.end));
    }
    ok := reached == span.end;
  }

  // ---- The cursor is exact

  ghost predicate InSome(spans: seq<Span>, n: nat, p: nat)
    requires n <= |spans|
  {
    exists i :: 0 <= i < n && spans[i].start <= p < spans[i].end
  }

  ghost predicate AllOverlap(span: Span, spans: seq<Span>) {
    forall i :: 0 <= i < |spans| ==> Overlaps(spans[i], span)
  }

  lemma {:induction false} CoveredIsIn(span: Span, spans: seq<Span>, n: nat, p: nat)
    requires n <= |spans| && AllOverlap(span, spans) && span.start < span.end
    requires CoveredTo(span, spans, n).Some? && span.start <= p < CoveredTo(span, spans, n).value
    ensures CoveredTo(span, spans, n).value <= span.end && InSome(spans, n, p)
  {
    if n > 0 {
      var reached := CoveredTo(span, spans, n - 1).value;
      CoveredBounded(span, spans, n);
      if p < reached {
        CoveredIsIn(span, spans, n - 1, p);
      } else {
        assert spans[n - 1].start <= p < spans[n - 1].end;
      }
    }
  }

  lemma {:induction false} CoveredBounded(span: Span, spans: seq<Span>, n: nat)
    requires n <= |spans| && AllOverlap(span, spans) && span.start < span.end && CoveredTo(span, spans, n).Some?
    ensures span.start <= CoveredTo(span, spans, n).value <= span.end
  {
    if n > 0 {
      CoveredBounded(span, spans, n - 1);
    }
  }

  /** Where the cursor stops short, the next character is in none of the spans. */
  lemma {:induction false} GapFound(span: Span, spans: seq<Span>, n: nat) returns (p: nat)
    requires n <= |spans| && AllOverlap(span, spans) && span.start < span.end && Sorting.Sorted(spans, SpanStart)
    requires CoveredTo(span, spans, n).None? || (n == |spans| && CoveredTo(span, spans, n).value < span.end)
    ensures span.start <= p < span.end && !InSome(spans, |spans|, p)
  {
    if CoveredTo(span, spans, n).None? {
      if CoveredTo(span, spans, n - 1).None? {
        p := GapFound(span, spans, n - 1);
      } else {
        p := CoveredTo(span, spans, n - 1).value;
        CoveredBounded(span, spans, n - 1);
        forall i | 0 <= i < |spans| ensures !(spans[i].start <= p < spans[i].end) {
          if i < n - 1 {
            CoveredPast(span, spans, n - 1, i);
          } else {
            assert i == n - 1 || Sorting.Leq(SpanStart(spans[n - 1]), SpanStart(spans[i]));
          }
        }
      }
    } else {
      p := CoveredTo(span, spans, n).value;
      CoveredBounded(span, spans, n);
      forall i | 0 <= i < |spans| ensures !(spans[i].start <= p < spans[i].end) {
        CoveredPast(span, spans, n, i);
      }
    }
  }

  lemma {:induction false} CoveredPast(span: Span, spans: seq<Span>, n: nat, i: nat)
    requires i < n <= |spans| && CoveredTo(span, spans, n).Some?
    ensures Min(spans[i].end, span.end) <= CoveredTo(span, spans, n).value
  {
    if i < n - 1 {
      CoveredPast(span, spans, n - 1, i);
    }
  }

  /** Whether a character lies in an origin of a primary unit among some sources. */
  ghost predicate CarriedBy(units: seq<SourceUnit>, sources: seq<Carrier>, p: nat) {
    exists i :: 0 <= i < |sources| && sources[i].unit < |units| && units[sources[i].unit].primary
                && sources[i].origin.span.start <= p < sources[i].origin.span.end
  }

  lemma {:induction false} PrimarySpansAre(units: seq<SourceUnit>, sources: seq<Carrier>, n: nat, s: Span)
    requires n <= |sources|
    ensures s in PrimarySpans(units, sources, n)
       <==> exists i :: 0 <= i < n && sources[i].unit < |units| && units[sources[i].unit].primary && sources[i].origin.span == s
  {
    if n > 0 {
      PrimarySpansAre(units, sources, n - 1, s);
    }
  }

  lemma {:induction false} InSomeCarried(units: seq<SourceUnit>, sources: seq<Carrier>, p: nat)
    ensures
      var spans := Sorting.SortBy(PrimarySpans(units, sources, |sources|), SpanStart);
      InSome(spans, |spans|, p) <==> CarriedBy(units, sources, p)
  {
    var primary := PrimarySpans(units, sources, |sources|);
    var spans := Sorting.SortBy(primary, SpanStart);
    if InSome(spans, |spans|, p) {
      var i :| 0 <= i < |spans| && spans[i].start <= p < spans[i].end;
      Sorting.MemberOfEqualMultisets(spans, primary, spans[i]);
      PrimarySpansAre(units, sources, |sources|, spans[i]);
    }
    if CarriedBy(units, sources, p) {
      var i :| 0 <= i < |sources| && sources[i].unit < |units| && units[sources[i].unit].primary
               && sources[i].origin.span.start <= p < sources[i].origin.span.end;
      PrimarySpansAre(units, sources, |sources|, sources[i].origin.span);
      Sorting.MemberOfEqualMultisets(spans, primary, sources[i].origin.span);
    }
  }

  /** The greedy cursor accepts overlapping origins exactly when they cover every character of the span. */
  lemma {:induction false} RepresentedExactly(span: Span, matches: seq<Carrier>, units: seq<SourceUnit>)
    requires span.start < span.end && forall i :: 0 <= i < |matches| ==> Overlaps(matches[i].origin.span, span)
    ensures Represented(span, matches, units) <==> forall p: nat :: span.start <= p < span.end ==> CarriedBy(units, matches, p)
  {
    hide CarriedBy, InSome;
    var primary := PrimarySpans(units, matches, |matches|);
    var spans := Sorting.SortBy(primary, SpanStart);
    Sorting.SortBySorted(primary, SpanStart);
    forall i | 0 <= i < |spans| ensures Overlaps(spans[i], span) {
      Sorting.MemberOfEqualMultisets(spans, primary, spans[i]);
      PrimarySpansAre(units, matches, |matches|, spans[i]);
    }
    if Represented(span, matches, units) {
      forall p: nat | span.start <= p < span.end ensures CarriedBy(units, matches, p) {
        CoveredIsIn(span, spans, |spans|, p);
        InSomeCarried(units, matches, p);
      }
    } else {
      if CoveredTo(span, spans, |spans|).Some? {
        CoveredBounded(span, spans, |spans|);
      }
      var p := GapFound(span, spans, |spans|);
      InSomeCarried(units, matches, p);
    }
  }

  // ---- The ledger's entries

  function DispositionOf(kind: Option<BlockType>, role: A.Role): Result<Disposition> {
    if kind == Some(Metadata) then Ok(AsMetadata)
    else if kind == Some(ReferenceDefinition) then Ok(AsReference)
    else
      match role
      case ParsedContent => Ok(Eligible)
      case Unsupported => Ok(Eligible)
      case StructuralSyntax => Ok(Structural)
      case MetadataOrReference => Ok(AsMetadata)
      case Unaccounted => Err(InvalidMapping)
  }

  function OwnerKind(blocks: map<Id, Block>, owner: Option<Id>): Result<Option<BlockType>> {
    match owner
    case None => Ok(None)
    case Some(id) => if id in blocks then Ok(Some(blocks[id].kind)) else Err(InvalidMapping)
  }

  function MatchesOf(units: seq<SourceUnit>, segment: A.Segment): seq<Carrier> {
    match segment.owner
    case None => []
    case Some(owner) => Matches(Carriers(units, |units|), owner, segment.span, |Carriers(units, |units|)|)
  }

  /** One ledger entry, which must follow the one before and, when eligible, be carried whole. */
  function EntryOf(blocks: map<Id, Block>, markdown: string, units: seq<SourceUnit>, index: nat, cursor: nat, segment: A.Segment): Result<Entry> {
    if || !segment.span.Valid(markdown) || segment.span.start != cursor || segment.span.start == segment.span.end
       || segment.role == A.Unaccounted then Err(InvalidMapping)
    else
      var kind :- OwnerKind(blocks, segment.owner);
      var disposition :- DispositionOf(kind, segment.role);
      var matches := MatchesOf(units, segment);
      if disposition == Eligible && !Represented(segment.span, matches, units) then Err(InvalidMapping)
      else Ok(Entry(index, disposition, set m | m in matches :: m.unit))
  }

  function EndOf(segments: seq<A.Segment>, n: nat): nat
    requires n <= |segments|
  {
    if n == 0 then 0 else segments[n - 1].span.end
  }

  function Entries(blocks: map<Id, Block>, markdown: string, units: seq<SourceUnit>, segments: seq<A.Segment>, n: nat): Result<seq<Entry>>
    requires n <= |segments|
  {
    if n == 0 then Ok([])
    else
      var before :- Entries(blocks, markdown, units, segments, n - 1);
      var entry :- EntryOf(blocks, markdown, units, n - 1, EndOf(segments, n - 1), segments[n - 1]);
      Ok(before + [entry])
  }

  lemma {:induction false} EntriesStop(blocks: map<Id, Block>, markdown: string, units: seq<SourceUnit>, segments: seq<A.Segment>, n: nat, m: nat)
    requires n <= m <= |segments| && Entries(blocks, markdown, units, segments, n).Err?
    ensures Entries(blocks, markdown, units, segments, m) == Entries(blocks, markdown, units, segments, n)
  {
    hide EntryOf;
    if n < m {
      EntriesStop(blocks, markdown, units, segments, n, m - 1);
    }
  }

  /** Of the first n sources, each owner's, as `by_owner` lists them. */
  ghost predicate Grouped(groups: map<Id, seq<Carrier>>, sources: seq<Carrier>, n: nat)
    requires n <= |sources|
  {
    forall owner: Id :: (if owner in groups then groups[owner] else []) == OwnedBy(sources, owner, n)
  }

  function OwnedBy(sources: seq<Carrier>, owner: Id, n: nat): seq<Carrier>
    requires n <= |sources|
  {
    if n == 0 then []
    else OwnedBy(sources, owner, n - 1) + if sources[n - 1].origin.block == owner then [sources[n - 1]] else []
  }

  function Overlapping(sources: seq<Carrier>, span: Span, n: nat): seq<Carrier>
    requires n <= |sources|
  {
    if n == 0 then []
    else Overlapping(sources, span, n - 1) + if Overlaps(sources[n - 1].origin.span, span) then [sources[n - 1]] else []
  }

  lemma {:induction false} OverlappingThen(a: seq<Carrier>, x: Carrier, span: Span)
    ensures Overlapping(a + [x], span, |a| + 1) == Overlapping(a, span, |a|) + if Overlaps(x.origin.span, span) then [x] else []
  {
    OverlappingPrefix(a, [x], span, |a|);
  }

  lemma {:induction false} OverlappingPrefix(a: seq<Carrier>, b: seq<Carrier>, span: Span, n: nat)
    requires n <= |a|
    ensures Overlapping(a + b, span, n) == Overlapping(a, span, n)
  {
    if n > 0 {
      OverlappingPrefix(a, b, span, n - 1);
    }
  }

  /** An owner's sources that overlap a span are the sources of that owner that do. */
  lemma {:induction false} MatchesGroup(sources: seq<Carrier>, owner: Id, span: Span, n: nat)
    requires n <= |sources|
    ensures Overlapping(OwnedBy(sources, owner, n), span, |OwnedBy(sources, owner, n)|) == Matches(sources, owner, span, n)
  {
    if n > 0 {
      MatchesGroup(sources, owner, span, n - 1);
      if sources[n - 1].origin.block == owner {
        OverlappingThen(OwnedBy(sources, owner, n - 1), sources[n - 1], span);
      } else {
        assert OwnedBy(sources, owner, n) == OwnedBy(sources, owner, n - 1);
      }
    }
  }

  /** The owner index: every origin of every unit under the block it belongs to. */
  method GroupByOwner(units: seq<SourceUnit>) returns (groups: map<Id, seq<Carrier>>)
    ensures Grouped(groups, Carriers(units, |units|), |Carriers(units, |units|)|)
  {
    var sources := Carriers(units, |units|);
    groups := map[];
    for i := 0 to |sources|
      invariant Grouped(groups, sources, i)
    {
      var owner := sources[i].origin.block;
      groups := groups[owner := (if owner in groups then groups[owner] else []) + [sources[i]]];
    }
  }

  /** The whole ledger's entries, which must end where the source does. */
  function Accounted(source: Mapping.Source, segments: seq<A.Segment>, units: seq<SourceUnit>): Result<seq<Entry>> {
    var entries :- Entries(ById(source.blocks, |source.blocks|), source.markdown, units, segments, |segments|);
    if EndOf(segments, |segments|) != |source.markdown| then Err(InvalidMapping) else Ok(entries)
  }

  /** `map_accounting`: each entry in order with its disposition and the units that carry it. */
  method MapAccounting(source: Mapping.Source, segments: seq<A.Segment>, units: seq<SourceUnit>) returns (r: Result<seq<Entry>>)
    ensures r == Accounted(source, segments, units)
  {
    hide Represented, Matches, Grouped, Carriers;
    var groups := GroupByOwner(units);
    var blocks := ById(source.blocks, |source.blocks|);
    var cursor: nat := 0;
    var result: seq<Entry> := [];
    for i := 0 to |segments|
      invariant cursor == EndOf(segments, i)
      invariant Entries(blocks, source.markdown, units, segments, i) == Ok(result)
    {
      var segment := segments[i];
      ghost var entry := EntryOf(blocks, source.markdown, units, i, cursor, segment);
      if entry.Err? {
        EntriesStop(blocks, source.markdown, units, segments, i + 1, |segments|);
      }
      var span := segment.span;
      if !span.Valid(source.markdown) || span.start != cursor || span.start == span.end || segment.role == A.Unaccounted {
        return Err(InvalidMapping);
      }
      cursor := span.end;
      var kind := OwnerKind(blocks, segment.owner);
      if kind.Err? {
        return Err(kind.error);
      }
      var disposition := DispositionOf(kind.value, segment.role);
      if disposition.Err? {
        return Err(disposition.error);
      }
      var matches: seq<Carrier> := [];
      if segment.owner.Some? && segment.owner.value in groups {
        matches := Overlapping(groups[segment.owner.value], span, |groups[segment.owner.value]|);
      }
      GroupMatches(groups, units, segment);
      assert matches == MatchesOf(units, segment);
      var carried := CheckRepresented(span, matches, units);
      if disposition.value == Eligible && !carried {
        return Err(InvalidMapping);
      }
      result := result + [Entry(i, disposition.value, set m | m in matches :: m.unit)];
    }
    if cursor != |source.markdown| {
      return Err(InvalidMapping);
    }
    r := Ok(result);
  }

  lemma {:induction false} GroupMatches(groups: map<Id, seq<Carrier>>, units: seq<SourceUnit>, segment: A.Segment)
    requires Grouped(groups, Carriers(units, |units|), |Carriers(units, |units|)|)
    ensures segment.owner.Some? ==>
              var owner := segment.owner.value;
              MatchesOf(units, segment) == if owner in groups then Overlapping(groups[owner], segment.span, |groups[owner]|) else []
  {
    hide Carriers, Matches;
    if segment.owner.Some? {
      MatchesGroup(Carriers(units, |units|), segment.owner.value, segment.span, |Carriers(units, |units|)|);
      assert OwnedBy(Carriers(units, |units|), segment.owner.value, |Carriers(units, |units|)|)
          == if segment.owner.value in groups then groups[segment.owner.value] else [];
    }
  }

  // ---- What an accepted ledger means

  /** Whether a primary unit carries a character as coming from a block. */
  ghost predicate CarriedFrom(units: seq<SourceUnit>, block: Id, p: nat) {
    exists u, run, o ::
      0 <= u < |units| && units[u].primary && run in units[u].mappings && o in run.origins
      && o.block == block && o.span.start <= p < o.span.end
  }

  lemma {:induction false} RunCarriersAre(unit: nat, runs: seq<MappingRun>, n: nat, s: Carrier)
    requires n <= |runs|
    ensures s in RunCarriers(unit, runs, n) <==> s.unit == unit && exists k :: 0 <= k < n && s.origin in runs[k].origins
  {
    if n > 0 {
      RunCarriersAre(unit, runs, n - 1, s);
      var origins := runs[n - 1].origins;
      var last := OriginCarriers(unit, origins);
      assert s in last <==> s.unit == unit && s.origin in origins by {
        if s.unit == unit && s.origin in origins {
          var k :| 0 <= k < |origins| && origins[k] == s.origin;
          assert last[k] == s;
        }
      }
    }
  }

  lemma {:induction false} CarriersAre(units: seq<SourceUnit>, n: nat, s: Carrier)
    requires n <= |units|
    ensures s in Carriers(units, n) ==> s.unit < n && exists k :: 0 <= k < |units[s.unit].mappings| && s.origin in units[s.unit].mappings[k].origins
  {
    hide RunCarriers;
    if n > 0 {
      CarriersAre(units, n - 1, s);
      RunCarriersAre(n - 1, units[n - 1].mappings, |units[n - 1].mappings|, s);
    }
  }

  lemma {:induction false} MatchesAre(sources: seq<Carrier>, owner: Id, span: Span, n: nat)
    requires n <= |sources|
    ensures forall i :: 0 <= i < |Matches(sources, owner, span, n)| ==>
              && Matches(sources, owner, span, n)[i] in sources
              && Matches(sources, owner, span, n)[i].origin.block == owner
              && Overlaps(Matches(sources, owner, span, n)[i].origin.span, span)
  {
    if n > 0 {
      MatchesAre(sources, owner, span, n - 1);
    }
  }

  lemma {:induction false} MatchCarries(units: seq<SourceUnit>, segment: A.Segment, p: nat)
    requires CarriedBy(units, MatchesOf(units, segment), p)
    ensures segment.owner.Some? && CarriedFrom(units, segment.owner.value, p)
  {
    hide Carriers, Matches;
    var matches := MatchesOf(units, segment);
    var i :| 0 <= i < |matches| && matches[i].unit < |units| && units[matches[i].unit].primary
             && matches[i].origin.span.start <= p < matches[i].origin.span.end;
    MatchesAre(Carriers(units, |units|), segment.owner.value, segment.span, |Carriers(units, |units|)|);
    CarriersAre(units, |units|, matches[i]);
    var k :| 0 <= k < |units[matches[i].unit].mappings| && matches[i].origin in units[matches[i].unit].mappings[k].origins;
    assert units[matches[i].unit].mappings[k] in units[matches[i].unit].mappings;
  }

  lemma {:induction false} EntryMeans(blocks: map<Id, Block>, markdown: string, units: seq<SourceUnit>, index: nat, cursor: nat, segment: A.Segment, p: nat)
    requires EntryOf(blocks, markdown, units, index, cursor, segment).Ok?
    requires EntryOf(blocks, markdown, units, index, cursor, segment).value.disposition == Eligible
    requires segment.span.start <= p < segment.span.end
    ensures segment.owner.Some? && CarriedFrom(units, segment.owner.value, p)
  {
    hide Represented, Carriers, CarriedFrom, CarriedBy;
    var matches := MatchesOf(units, segment);
    if segment.owner.Some? {
      MatchesAre(Carriers(units, |units|), segment.owner.value, segment.span, |Carriers(units, |units|)|);
    }
    RepresentedExactly(segment.span, matches, units);
    MatchCarries(units, segment, p);
  }

  lemma {:induction false} EntryAt(blocks: map<Id, Block>, markdown: string, units: seq<SourceUnit>, segments: seq<A.Segment>, n: nat, i: nat)
    requires i < n <= |segments| && Entries(blocks, markdown, units, segments, n).Ok?
    ensures |Entries(blocks, markdown, units, segments, n).value| == n
    ensures EntryOf(blocks, markdown, units, i, EndOf(segments, i), segments[i]) == Ok(Entries(blocks, markdown, units, segments, n).value[i])
  {
    hide EntryOf;
    if n > 1 {
      EntryAt(blocks, markdown, units, segments, n - 1, if i < n - 1 then i else 0);
    }
  }

  /** A mapped document: its units, and its ledger's entries. */
  datatype MappedDocument = MappedDocument(units: seq<SourceUnit>, entries: seq<Entry>)

  /** The ledger tiles the source, and every character of an eligible entry is carried by a primary unit from its block. */
  ghost predicate Carried(markdown: string, segments: seq<A.Segment>, mapped: MappedDocument) {
    && |mapped.entries| == |segments| && EndOf(segments, |segments|) == |markdown|
    && (forall i :: 0 <= i < |segments| ==> segments[i].span.start == EndOf(segments, i) < segments[i].span.end)
    && forall i :: 0 <= i < |segments| && mapped.entries[i].disposition == Eligible ==> EntryCarried(mapped.units, segments[i])
  }

  ghost predicate EntryCarried(units: seq<SourceUnit>, segment: A.Segment) {
    segment.owner.Some? && forall p: nat :: segment.span.start <= p < segment.span.end ==> CarriedFrom(units, segment.owner.value, p)
  }

  function Whole(source: Mapping.Source, segments: seq<A.Segment>): Result<MappedDocument> {
    var units :- MappedUnits(source);
    var entries :- Accounted(source, segments, units);
    Ok(MappedDocument(units, entries))
  }

  /** `map_document`: every block once, then every ledger entry. */
  method MapDocument(source: Mapping.Source, segments: seq<A.Segment>) returns (r: Result<MappedDocument>)
    ensures r == Whole(source, segments)
    ensures r.Ok? ==> DocumentMapped(source, r.value.units) && Carried(source.markdown, segments, r.value)
  {
    hide DocumentMapped, EntryOf, CarriedFrom, MappedUnits, Entries;
    var units := MapUnits(source);
    if units.Err? {
      return Err(units.error);
    }
    var entries := MapAccounting(source, segments, units.value);
    if entries.Err? {
      return Err(entries.error);
    }
    var mapped := MappedDocument(units.value, entries.value);
    EntriesCarry(ById(source.blocks, |source.blocks|), source.markdown, segments, mapped);
    r := Ok(mapped);
  }

  lemma {:induction false} EntriesCarry(blocks: map<Id, Block>, markdown: string, segments: seq<A.Segment>, mapped: MappedDocument)
    requires Entries(blocks, markdown, mapped.units, segments, |segments|) == Ok(mapped.entries)
    requires EndOf(segments, |segments|) == |markdown|
    ensures Carried(markdown, segments, mapped)
  {
    hide CarriedFrom, EntryOf, Entries, EntryCarried;
    assert segments == [] ==> mapped.entries == [] by {
      NoEntries(blocks, markdown, mapped.units, segments);
    }
    forall i | 0 <= i < |segments| ensures segments[i].span.start == EndOf(segments, i) < segments[i].span.end {
      EntryAt(blocks, markdown, mapped.units, segments, |segments|, i);
      EntryFollows(blocks, markdown, mapped.units, i, EndOf(segments, i), segments[i]);
    }
    if segments != [] {
      EntryAt(blocks, markdown, mapped.units, segments, |segments|, 0);
    }
    forall i | 0 <= i < |segments| && mapped.entries[i].disposition == Eligible ensures EntryCarried(mapped.units, segments[i]) {
      EntryAt(blocks, markdown, mapped.units, segments, |segments|, i);
      EntryIsCarried(blocks, markdown, mapped.units, i, EndOf(segments, i), segments[i]);
    }
  }

  lemma {:induction false} NoEntries(blocks: map<Id, Block>, markdown: string, units: seq<SourceUnit>, segments: seq<A.Segment>)
    ensures Entries(blocks, markdown, units, segments, 0) == Ok([])
  {
  }

  lemma {:induction false} EntryIsCarried(blocks: map<Id, Block>, markdown: string, units: seq<SourceUnit>, index: nat, cursor: nat, segment: A.Segment)
    requires EntryOf(blocks, markdown, units, index, cursor, segment).Ok?
    requires EntryOf(blocks, markdown, units, index, cursor, segment).value.disposition == Eligible
    ensures EntryCarried(units, segment)
  {
    hide EntryOf, CarriedFrom;
    EntryFollows(blocks, markdown, units, index, cursor, segment);
    EntryMeans(blocks, markdown, units, index, cursor, segment, segment.span.start);
    var owner := segment.owner.value;
    forall p: nat | segment.span.start <= p < segment.span.end ensures CarriedFrom(units, owner, p) {
      EntryMeans(blocks, markdown, units, index, cursor, segment, p);
    }
  }

  lemma {:induction false} EntryFollows(blocks: map<Id, Block>, markdown: string, units: seq<SourceUnit>, index: nat, cursor: nat, segment: A.Segment)
    requires EntryOf(blocks, markdown, units, index, cursor, segment).Ok?
    ensures segment.span.start == cursor < segment.span.end
  {
    hide Represented, Carriers;
  }

  // ---- What each entry says, and when mapping succeeds

  /** Whether some run of a unit comes from a stretch of a block that overlaps a span. */
  ghost predicate Touches(units: seq<SourceUnit>, u: nat, block: Id, span: Span) {
    u < |units| && exists run, o :: run in units[u].mappings && o in run.origins && o.block == block && o.span.start < span.end && span.start < o.span.end
  }

  predicate OwnedByKind(blocks: map<Id, Block>, segment: A.Segment, kind: BlockType) {
    segment.owner.Some? && segment.owner.value in blocks && blocks[segment.owner.value].kind == kind
  }

  /** Whether a segment is source that units must carry: parsed or unsupported content outside metadata and definitions. */
  predicate MustCarry(blocks: map<Id, Block>, segment: A.Segment) {
    && segment.role in {A.ParsedContent, A.Unsupported}
    && !OwnedByKind(blocks, segment, Metadata) && !OwnedByKind(blocks, segment, ReferenceDefinition)
  }

  /** An entry names its segment, what becomes of it, and exactly the units that touch it. */
  ghost predicate EntryIs(blocks: map<Id, Block>, units: seq<SourceUnit>, index: nat, segment: A.Segment, entry: Entry) {
    && entry.index == index
    && (entry.disposition == Eligible <==> MustCarry(blocks, segment))
    && (entry.disposition == AsReference <==> OwnedByKind(blocks, segment, ReferenceDefinition))
    && (entry.disposition == Structural
        <==> && segment.role == A.StructuralSyntax
             && !OwnedByKind(blocks, segment, Metadata) && !OwnedByKind(blocks, segment, ReferenceDefinition))
    && forall u: nat :: u in entry.units <==> segment.owner.Some? && Touches(units, u, segment.owner.value, segment.span)
  }

  /** Whether a segment can be mapped: in place, said what it is, of a known block, and carried whole if it must be. */
  ghost predicate SegmentMaps(blocks: map<Id, Block>, markdown: string, units: seq<SourceUnit>, start: nat, segment: A.Segment) {
    && segment.span.start == start && start < segment.span.end <= |markdown|
    && segment.role != A.Unaccounted && (segment.owner.Some? ==> segment.owner.value in blocks)
    && (MustCarry(blocks, segment) ==> EntryCarried(units, segment))
  }

  lemma {:induction false} CarriersExactly(units: seq<SourceUnit>, n: nat, s: Carrier)
    requires n <= |units|
    ensures
      s in Carriers(units, n)
      <==> s.unit < n && exists k :: 0 <= k < |units[s.unit].mappings| && s.origin in units[s.unit].mappings[k].origins
  {
    hide RunCarriers;
    if n > 0 {
      CarriersExactly(units, n - 1, s);
      RunCarriersAre(n - 1, units[n - 1].mappings, |units[n - 1].mappings|, s);
    }
  }

  lemma {:induction false} MatchesExactly(sources: seq<Carrier>, owner: Id, span: Span, n: nat, m: Carrier)
    requires n <= |sources|
    ensures m in Matches(sources, owner, span, n) <==> m in sources[..n] && m.origin.block == owner && Overlaps(m.origin.span, span)
  {
    if n > 0 {
      MatchesExactly(sources, owner, span, n - 1, m);
      assert sources[..n] == sources[..n - 1] + [sources[n - 1]];
    }
  }

  lemma {:induction false} MatchIs(units: seq<SourceUnit>, segment: A.Segment, m: Carrier)
    ensures
      m in MatchesOf(units, segment)
      <==> && segment.owner.Some? && m.unit < |units| && m.origin.block == segment.owner.value && Overlaps(m.origin.span, segment.span)
           && exists k :: 0 <= k < |units[m.unit].mappings| && m.origin in units[m.unit].mappings[k].origins
  {
    hide Carriers, Matches, Overlaps;
    if segment.owner.Some? {
      var sources := Carriers(units, |units|);
      MatchesExactly(sources, segment.owner.value, segment.span, |sources|, m);
      assert sources[..|sources|] == sources;
      CarriersExactly(units, |units|, m);
    }
  }

  lemma {:induction false} UnitsTouch(units: seq<SourceUnit>, segment: A.Segment, u: nat)
    ensures (exists m :: m in MatchesOf(units, segment) && m.unit == u) <==> segment.owner.Some? && Touches(units, u, segment.owner.value, segment.span)
  {
    hide MatchesOf;
    if m :| m in MatchesOf(units, segment) && m.unit == u {
      MatchIs(units, segment, m);
      var k :| 0 <= k < |units[u].mappings| && m.origin in units[u].mappings[k].origins;
      assert units[u].mappings[k] in units[u].mappings;
    }
    if segment.owner.Some? && Touches(units, u, segment.owner.value, segment.span) {
      var run, o :| run in units[u].mappings && o in run.origins && o.block == segment.owner.value
                    && o.span.start < segment.span.end && segment.span.start < o.span.end;
      var k :| 0 <= k < |units[u].mappings| && units[u].mappings[k] == run;
      MatchIs(units, segment, Carrier(u, o));
    }
  }

  lemma {:induction false} CarriedExactly(units: seq<SourceUnit>, segment: A.Segment, p: nat)
    requires segment.span.start <= p < segment.span.end
    ensures CarriedBy(units, MatchesOf(units, segment), p) <==> segment.owner.Some? && CarriedFrom(units, segment.owner.value, p)
  {
    hide MatchesOf, CarriedFrom;
    if CarriedBy(units, MatchesOf(units, segment), p) {
      MatchCarries(units, segment, p);
    }
    if segment.owner.Some? && CarriedFrom(units, segment.owner.value, p) {
      CarriedMatches(units, segment, p);
    }
  }

  lemma {:induction false} CarriedMatches(units: seq<SourceUnit>, segment: A.Segment, p: nat)
    requires segment.owner.Some? && CarriedFrom(units, segment.owner.value, p) && segment.span.start <= p < segment.span.end
    ensures CarriedBy(units, MatchesOf(units, segment), p)
  {
    hide MatchesOf;
    var u, run, o :| 0 <= u < |units| && units[u].primary && run in units[u].mappings && o in run.origins
                     && o.block == segment.owner.value && o.span.start <= p < o.span.end;
    var k :| 0 <= k < |units[u].mappings| && units[u].mappings[k] == run;
    MatchIs(units, segment, Carrier(u, o));
    var i :| 0 <= i < |MatchesOf(units, segment)| && MatchesOf(units, segment)[i] == Carrier(u, o);
  }

  lemma {:induction false} RepresentedCarried(units: seq<SourceUnit>, segment: A.Segment)
    requires segment.span.start < segment.span.end
    ensures Represented(segment.span, MatchesOf(units, segment), units) <==> EntryCarried(units, segment)
  {
    hide Represented, CarriedFrom, CarriedBy, Carriers, Matches;
    var matches := MatchesOf(units, segment);
    if segment.owner.Some? {
      MatchesAre(Carriers(units, |units|), segment.owner.value, segment.span, |Carriers(units, |units|)|);
    }
    RepresentedExactly(segment.span, matches, units);
    forall p: nat | segment.span.start <= p < segment.span.end
      ensures CarriedBy(units, matches, p) <==> segment.owner.Some? && CarriedFrom(units, segment.owner.value, p)
    {
      CarriedExactly(units, segment, p);
    }
    assert segment.owner.None? ==> !CarriedBy(units, matches, segment.span.start);
  }

  lemma {:induction false} EntryExactly(blocks: map<Id, Block>, markdown: string, units: seq<SourceUnit>, index: nat, start: nat, segment: A.Segment)
    ensures EntryOf(blocks, markdown, units, index, start, segment).Ok? <==> SegmentMaps(blocks, markdown, units, start, segment)
    ensures
      EntryOf(blocks, markdown, units, index, start, segment).Ok?
      ==> EntryIs(blocks, units, index, segment, EntryOf(blocks, markdown, units, index, start, segment).value)
  {
    hide Represented, MatchesOf, EntryCarried, Touches;
    if segment.span.start < segment.span.end {
      RepresentedCarried(units, segment);
    }
    var entry := EntryOf(blocks, markdown, units, index, start, segment);
    if entry.Ok? {
      var matches := MatchesOf(units, segment);
      forall u: nat ensures u in entry.value.units <==> segment.owner.Some? && Touches(units, u, segment.owner.value, segment.span) {
        UnitsTouch(units, segment, u);
        assert u in entry.value.units <==> exists m :: m in matches && m.unit == u;
      }
    }
  }

  ghost predicate AllMap(blocks: map<Id, Block>, markdown: string, units: seq<SourceUnit>, segments: seq<A.Segment>, n: nat)
    requires n <= |segments|
  {
    forall i :: 0 <= i < n ==> SegmentMaps(blocks, markdown, units, EndOf(segments, i), segments[i])
  }

  lemma {:induction false} EntriesExactly(blocks: map<Id, Block>, markdown: string, units: seq<SourceUnit>, segments: seq<A.Segment>, n: nat)
    requires n <= |segments|
    ensures Entries(blocks, markdown, units, segments, n).Ok? <==> AllMap(blocks, markdown, units, segments, n)
    ensures Entries(blocks, markdown, units, segments, n).Ok? ==>
              var entries := Entries(blocks, markdown, units, segments, n).value;
              |entries| == n && forall i :: 0 <= i < n ==> EntryIs(blocks, units, i, segments[i], entries[i])
  {
    hide EntryOf, SegmentMaps, EntryIs;
    if n > 0 {
      EntriesExactly(blocks, markdown, units, segments, n - 1);
      EntryExactly(blocks, markdown, units, n - 1, EndOf(segments, n - 1), segments[n - 1]);
    }
  }

  /**
   * The ledger maps exactly when its segments follow each other through the whole source, say what
   * they are, name known blocks, and are carried whole by primary units from their block where they
   * must be. Every entry then says what becomes of its segment and which units touch it.
   */
  lemma {:induction false} AccountedExactly(source: Mapping.Source, segments: seq<A.Segment>, units: seq<SourceUnit>)
    ensures
      Accounted(source, segments, units).Ok?
      <==> && AllMap(ById(source.blocks, |source.blocks|), source.markdown, units, segments, |segments|)
           && EndOf(segments, |segments|) == |source.markdown|
    ensures Accounted(source, segments, units).Ok? ==>
              var entries := Accounted(source, segments, units).value;
              && |entries| == |segments|
              && forall i :: 0 <= i < |segments| ==> EntryIs(ById(source.blocks, |source.blocks|), units, i, segments[i], entries[i])
  {
    hide AllMap, EntryIs, Entries, ById;
    EntriesExactly(ById(source.blocks, |source.blocks|), source.markdown, units, segments, |segments|);
  }
}
