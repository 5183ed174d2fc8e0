/** The source ledger: a sweep over claims' endpoints, against the best claim on every character. */
module Accounting {
  import opened Common
  import opened Units
  import opened Documents

  datatype Role = StructuralSyntax | ParsedContent | MetadataOrReference | Unsupported | Unaccounted

  /** One claim on a stretch of the source. */
  datatype Claim = Claim(span: Span, role: Role, owner: Id, rank: nat)

  /** One segment of the ledger. */
  datatype Segment = Segment(span: Span, role: Role, owner: Option<Id>)

  // ---- The claims of a document

  /** How an inline node claims its own source, if it does. */
  function Classified(inline: Inline): Option<(Role, nat)> {
    match inline.content
    case Link(_) => Some((MetadataOrReference, 1))
    case Image(_, _) => Some((MetadataOrReference, 1))
    case InlineHtml(_) => Some((Unsupported, 3))
    case Math(text) =>
      if text == "" then Some((StructuralSyntax, 2))
      else if inline.children == [] then Some((ParsedContent, 2)) else None
    case _ => if inline.children == [] then Some((ParsedContent, 2)) else None
  }

  /** The claims of an inline node, then those of its descendants. */
  function InlineClaims(inline: Inline, owner: Id): seq<Claim>
    decreases inline, 1, 0
  {
    var own := Classified(inline);
    (if own.Some? then [Claim(inline.span, own.value.0, owner, own.value.1)] else [])
    + NestedClaims(inline, owner, |inline.children|)
  }

  /** The claims of an inline node's first n children. */
  function NestedClaims(inline: Inline, owner: Id, n: nat): seq<Claim>
    requires n <= |inline.children|
    decreases inline, 0, n
  {
    if n == 0 then []
    else NestedClaims(inline, owner, n - 1) + InlineClaims(inline.children[n - 1], owner)
  }

  function BlockRole(kind: BlockType): (Role, nat) {
    match kind
    case Metadata | ReferenceDefinition => (MetadataOrReference, 4)
    case Raw | Html => (Unsupported, 5)
    case _ => (StructuralSyntax, 0)
  }

  function SpanClaims(block: Block, n: nat): seq<Claim>
    requires n <= |block.spans|
  {
    if n == 0 then []
    else
      var (role, rank) := BlockRole(block.kind);
      SpanClaims(block, n - 1) + [Claim(block.spans[n - 1], role, block.id, rank)]
  }

  function ChildClaims(block: Block, n: nat): seq<Claim>
    requires n <= |block.children|
  {
    if n == 0 then []
    else
      ChildClaims(block, n - 1)
      + match block.children[n - 1]
        case InlineChild(inline) => InlineClaims(inline, block.id)
        case BlockChild(_) => []
  }

  /** Every claim of the first n blocks, in document order. */
  function Claims(blocks: seq<Block>, n: nat): seq<Claim>
    requires n <= |blocks|
  {
    if n == 0 then []
    else
      var block := blocks[n - 1];
      Claims(blocks, n - 1) + SpanClaims(block, |block.spans|) + ChildClaims(block, |block.children|)
  }

  // ---- The definition by character

  predicate Usable(claim: Claim, markdown: string) {
    claim.span.start < claim.span.end && claim.span.Valid(markdown)
  }

  predicate Covers(claim: Claim, markdown: string, p: nat) {
    Usable(claim, markdown) && claim.span.start <= p < claim.span.end
  }

  function Width(claim: Claim): int {
    claim.span.end - claim.span.start
  }

  /** Whether claim a wins over claim b: the higher rank, then the narrower span, then the later claim. */
  predicate Wins(claims: seq<Claim>, a: nat, b: nat)
    requires a < |claims| && b < |claims|
  {
    var (x, y) := (claims[a], claims[b]);
    || x.rank > y.rank
    || (x.rank == y.rank && (Width(x) < Width(y) || (Width(x) == Width(y) && a >= b)))
  }

  /** Whether a claim is the best of some claims on a character. */
  ghost predicate IsBest(claims: seq<Claim>, markdown: string, p: nat, best: nat) {
    && best < |claims| && Covers(claims[best], markdown, p)
    && forall other: nat :: other < |claims| && Covers(claims[other], markdown, p) ==> Wins(claims, best, other)
  }

  ghost predicate Unclaimed(claims: seq<Claim>, markdown: string, p: nat) {
    forall id: nat :: id < |claims| ==> !Covers(claims[id], markdown, p)
  }

  /** Whether two characters lie in one unclaimed stretch. */
  ghost predicate Together(claims: seq<Claim>, markdown: string, p: nat, q: nat) {
    forall k: nat :: (p <= k <= q || q <= k <= p) ==> Unclaimed(claims, markdown, k)
  }

  /** Whether the unclaimed stretch around a character is blank. */
  ghost predicate BlankAround(claims: seq<Claim>, markdown: string, p: nat) {
    forall q: nat :: q < |markdown| && Together(claims, markdown, p, q) ==> IsWhitespace(markdown[q])
  }

  /** What the ledger says of a character: its best claim, or the rule for unclaimed source. */
  ghost predicate Verdict(claims: seq<Claim>, markdown: string, p: nat, role: Role, owner: Option<Id>) {
    || (exists best: nat :: IsBest(claims, markdown, p, best) && role == claims[best].role && owner == Some(claims[best].owner))
    || (&& Unclaimed(claims, markdown, p) && owner == None
        && role == if BlankAround(claims, markdown, p) then StructuralSyntax else Unaccounted)
  }

  lemma {:induction false} VerdictUnique(claims: seq<Claim>, markdown: string, p: nat, r: Role, o: Option<Id>, s: Role, q: Option<Id>)
    requires Verdict(claims, markdown, p, r, o) && Verdict(claims, markdown, p, s, q)
    ensures r == s && o == q
  {
  }

  /** The ledger of a source up to a position: nonempty segments that tile it, neighbours telling apart. */
  ghost predicate Ledger(claims: seq<Claim>, markdown: string, segments: seq<Segment>, end: nat) {
    && (forall i :: 0 <= i < |segments| ==> segments[i].span.start < segments[i].span.end)
    && (forall i :: 0 < i < |segments| ==> segments[i - 1].span.end == segments[i].span.start)
    && (if segments == [] then end == 0 else segments[0].span.start == 0 && segments[|segments| - 1].span.end == end)
    && (forall i :: 0 < i < |segments| ==> segments[i - 1].role != segments[i].role || segments[i - 1].owner != segments[i].owner)
    && forall i, p: nat :: 0 <= i < |segments| && segments[i].span.start <= p < segments[i].span.end ==>
         Verdict(claims, markdown, p, segments[i].role, segments[i].owner)
  }

  // ---- Endpoints

  /** A claim starts or ends at a position. */
  datatype Event = Event(claim: nat, starts: bool)

  /** The events of the first n claims at a position. */
  function EventsOf(claims: seq<Claim>, markdown: string, p: nat, n: nat): seq<Event>
    requires n <= |claims|
  {
    if n == 0 then []
    else
      var claim := claims[n - 1];
      EventsOf(claims, markdown, p, n - 1)
      + (if Usable(claim, markdown) && claim.span.start == p then [Event(n - 1, true)] else [])
      + if Usable(claim, markdown) && claim.span.end == p then [Event(n - 1, false)] else []
  }

  ghost predicate IsEndpoint(claims: seq<Claim>, markdown: string, p: nat, n: nat)
    requires n <= |claims|
  {
    p == 0 || p == |markdown| || EventsOf(claims, markdown, p, n) != []
  }

  ghost predicate Indexes(endpoints: map<nat, seq<Event>>, claims: seq<Claim>, markdown: string, n: nat)
    requires n <= |claims|
  {
    && (forall p: nat :: p in endpoints <==> IsEndpoint(claims, markdown, p, n))
    && forall p: nat :: p in endpoints ==> endpoints[p] == EventsOf(claims, markdown, p, n)
  }

  function Pushed(endpoints: map<nat, seq<Event>>, p: nat, event: Event): map<nat, seq<Event>> {
    endpoints[p := (if p in endpoints then endpoints[p] else []) + [event]]
  }

  /** The endpoint index: what starts and ends at each position, and both ends of the source. */
  method Endpoints(claims: seq<Claim>, markdown: string) returns (endpoints: map<nat, seq<Event>>)
    ensures Indexes(endpoints, claims, markdown, |claims|)
  {
    hide Indexes, Pushed;
    endpoints := map[0 := [], |markdown| := []];
    IndexesNothing(claims, markdown);
    for id := 0 to |claims|
      invariant Indexes(endpoints, claims, markdown, id)
    {
      var span := claims[id].span;
      IndexesNext(endpoints, claims, markdown, id);
      if span.start < span.end && span.Valid(markdown) {
        endpoints := Pushed(endpoints, span.start, Event(id, true));
        endpoints := Pushed(endpoints, span.end, Event(id, false));
      }
    }
  }

  lemma {:induction false} IndexesNothing(claims: seq<Claim>, markdown: string)
    ensures Indexes(map[0 := [], |markdown| := []], claims, markdown, 0)
  {
  }

  lemma {:induction false} IndexesNext(endpoints: map<nat, seq<Event>>, claims: seq<Claim>, markdown: string, id: nat)
    requires id < |claims| && Indexes(endpoints, claims, markdown, id)
    ensures
      var span := claims[id].span;
      Indexes(if Usable(claims[id], markdown) then Pushed(Pushed(endpoints, span.start, Event(id, true)), span.end, Event(id, false)) else endpoints,
              claims, markdown, id + 1)
  {
    var span := claims[id].span;
    var next := if Usable(claims[id], markdown) then Pushed(Pushed(endpoints, span.start, Event(id, true)), span.end, Event(id, false)) else endpoints;
    forall p: nat
      ensures (p in next <==> IsEndpoint(claims, markdown, p, id + 1)) && (p in next ==> next[p] == EventsOf(claims, markdown, p, id + 1))
    {
      var before := EventsOf(claims, markdown, p, id);
      assert p in endpoints ==> endpoints[p] == before;
      assert p !in endpoints ==> before == [];
    }
  }

  lemma {:induction false} EventIn(claims: seq<Claim>, markdown: string, p: nat, n: nat, event: Event)
    requires n <= |claims|
    ensures event in EventsOf(claims, markdown, p, n)
       <==> && event.claim < n && Usable(claims[event.claim], markdown)
            && p == if event.starts then claims[event.claim].span.start else claims[event.claim].span.end
  {
    if n > 0 {
      EventIn(claims, markdown, p, n - 1, event);
    }
  }

  // ---- The sweep

  /** The claims that cover a position. */
  ghost predicate ActiveAt(claims: seq<Claim>, markdown: string, active: set<nat>, p: nat) {
    forall id: nat :: id in active <==> id < |claims| && Covers(claims[id], markdown, p)
  }

  /** `active.last()`: the claim that wins over all others, if any is active. */
  method Winner(claims: seq<Claim>, active: set<nat>) returns (best: Option<nat>)
    requires forall id :: id in active ==> id < |claims|
    ensures best.None? <==> active == {}
    ensures best.Some? ==> best.value in active && forall other :: other in active ==> Wins(claims, best.value, other)
  {
    best := None;
    var rest := active;
    while rest != {}
      invariant rest <= active
      invariant best.None? <==> rest == active
      invariant best.Some? ==> best.value in active && forall other :: other in active && other !in rest ==> Wins(claims, best.value, other)
      decreases |rest|
    {
      var id :| id in rest;
      rest := rest - {id};
      if best.None? || Wins(claims, id, best.value) {
        best := Some(id);
      }
    }
  }

  /** The least key of an index: the map is walked in key order. */
  method Least(keys: set<nat>) returns (least: nat)
    requires keys != {}
    ensures least in keys && forall k :: k in keys ==> least <= k
  {
    least :| least in keys;
    var rest := keys - {least};
    while rest != {}
      invariant rest <= keys && least in keys
      invariant forall k :: k in keys && k !in rest ==> least <= k
      decreases |rest|
    {
      var k :| k in rest;
      rest := rest - {k};
      least := if k < least then k else least;
    }
  }

  /** The events at a position applied to the active claims. */
  method Apply(claims: seq<Claim>, markdown: string, events: seq<Event>, before: set<nat>, p: nat) returns (active: set<nat>)
    requires events == EventsOf(claims, markdown, p, |claims|)
    requires if p == 0 then before == {} else ActiveAt(claims, markdown, before, p - 1)
    ensures ActiveAt(claims, markdown, active, p)
  {
    active := before;
    forall event ensures event in events
       <==> && event.claim < |claims| && Usable(claims[event.claim], markdown)
            && p == if event.starts then claims[event.claim].span.start else claims[event.claim].span.end
    {
      EventIn(claims, markdown, p, |claims|, event);
    }
    for i := 0 to |events|
      invariant forall id: nat :: id in active <==>
                  || (id in before && Event(id, false) !in events[..i])
                  || Event(id, true) in events[..i]
    {
      assert events[..i + 1] == events[..i] + [events[i]];
      assert events[i] in events;
      active := if events[i].starts then active + {events[i].claim} else active - {events[i].claim};
    }
    assert events[..|events|] == events;
    forall id: nat ensures id in active <==> id < |claims| && Covers(claims[id], markdown, p) {
      assert Event(id, true) in events <==> id < |claims| && Usable(claims[id], markdown) && claims[id].span.start == p;
      assert Event(id, false) in events <==> id < |claims| && Usable(claims[id], markdown) && claims[id].span.end == p;
    }
  }

  /** No endpoint lies strictly between two positions. */
  ghost predicate Stretch(claims: seq<Claim>, markdown: string, start: nat, end: nat) {
    && start < end
    && forall p: nat :: start < p < end ==> !IsEndpoint(claims, markdown, p, |claims|)
  }

  lemma {:induction false} StretchCovers(claims: seq<Claim>, markdown: string, start: nat, end: nat, p: nat, id: nat)
    requires Stretch(claims, markdown, start, end) && start <= p < end && id < |claims|
    ensures Covers(claims[id], markdown, p) <==> Covers(claims[id], markdown, start)
  {
    var span := claims[id].span;
    if Usable(claims[id], markdown) {
      EventIn(claims, markdown, span.start, |claims|, Event(id, true));
      EventIn(claims, markdown, span.end, |claims|, Event(id, false));
      assert IsEndpoint(claims, markdown, span.start, |claims|) && IsEndpoint(claims, markdown, span.end, |claims|);
    }
  }

  /** At both ends of an unclaimed stretch, other than the ends of the source, the next character is claimed. */
  lemma {:induction false} EndpointClaims(claims: seq<Claim>, markdown: string, p: nat)
    requires IsEndpoint(claims, markdown, p, |claims|) && 0 < p < |markdown|
    ensures !Unclaimed(claims, markdown, p - 1) || !Unclaimed(claims, markdown, p)
  {
    var event := EventsOf(claims, markdown, p, |claims|)[0];
    EventIn(claims, markdown, p, |claims|, event);
    assert Covers(claims[event.claim], markdown, if event.starts then p else p - 1);
  }

  ghost predicate BlankBetween(markdown: string, start: nat, end: nat)
    requires end <= |markdown|
  {
    forall q: nat :: start <= q < end ==> IsWhitespace(markdown[q])
  }

  ghost predicate UnclaimedBetween(claims: seq<Claim>, markdown: string, start: nat, end: nat) {
    forall q: nat :: start <= q < end ==> Unclaimed(claims, markdown, q)
  }

  lemma {:induction false} StretchIsWhole(claims: seq<Claim>, markdown: string, start: nat, end: nat, p: nat, q: nat)
    requires IsEndpoint(claims, markdown, start, |claims|) && IsEndpoint(claims, markdown, end, |claims|)
    requires start <= p < end <= |markdown| && q < |markdown| && UnclaimedBetween(claims, markdown, start, end)
    ensures Together(claims, markdown, p, q) <==> start <= q < end
  {
    hide Unclaimed, IsEndpoint;
    if q < start {
      EndpointClaims(claims, markdown, start);
      assert q <= start - 1 <= p && q <= start <= p;
      assert !Together(claims, markdown, p, q);
    } else if end <= q {
      EndpointClaims(claims, markdown, end);
      assert p <= end - 1 <= q && p <= end <= q;
      assert !Together(claims, markdown, p, q);
    }
  }

  lemma {:induction false} StretchBlank(claims: seq<Claim>, markdown: string, start: nat, end: nat, p: nat)
    requires IsEndpoint(claims, markdown, start, |claims|) && IsEndpoint(claims, markdown, end, |claims|)
    requires start <= p < end <= |markdown| && UnclaimedBetween(claims, markdown, start, end)
    ensures BlankAround(claims, markdown, p) <==> BlankBetween(markdown, start, end)
  {
    hide Together, IsEndpoint, Unclaimed, IsWhitespace;
    forall q: nat | q < |markdown| ensures Together(claims, markdown, p, q) <==> start <= q < end {
      StretchIsWhole(claims, markdown, start, end, p, q);
    }
  }

  /** The verdict on every character of a stretch is what the sweep gives it. */
  lemma {:induction false} StretchVerdict(claims: seq<Claim>, markdown: string, start: nat, end: nat, active: set<nat>, winner: Option<nat>, p: nat)
    requires Stretch(claims, markdown, start, end) && ActiveAt(claims, markdown, active, start)
    requires IsEndpoint(claims, markdown, start, |claims|) && IsEndpoint(claims, markdown, end, |claims|)
    requires start <= p < end <= |markdown|
    requires winner.None? <==> active == {}
    requires winner.Some? ==> winner.value in active && forall other :: other in active ==> Wins(claims, winner.value, other)
    ensures
      match winner
      case Some(id) => Verdict(claims, markdown, p, claims[id].role, Some(claims[id].owner))
      case None => Verdict(claims, markdown, p, if BlankBetween(markdown, start, end) then StructuralSyntax else Unaccounted, None)
  {
    hide Stretch, IsEndpoint, Covers, Wins;
    forall q: nat, id: nat | start <= q < end && id < |claims| ensures Covers(claims[id], markdown, q) <==> id in active {
      StretchCovers(claims, markdown, start, end, q, id);
    }
    match winner
    case Some(id) => assert IsBest(claims, markdown, p, id);
    case None => StretchBlank(claims, markdown, start, end, p);
  }

  /** The ledger with one more stretch: joined to the last segment when both say the same. */
  function Joined(segments: seq<Segment>, start: nat, end: nat, role: Role, owner: Option<Id>): seq<Segment> {
    if segments != [] && segments[|segments| - 1].role == role && segments[|segments| - 1].owner == owner then
      var last := segments[|segments| - 1];
      segments[|segments| - 1 := last.(span := Span(last.span.start, end))]
    else segments + [Segment(Span(start, end), role, owner)]
  }

  /** Whether the ledger says one thing of every character of a stretch. */
  ghost predicate AllSay(claims: seq<Claim>, markdown: string, start: nat, end: nat, role: Role, owner: Option<Id>) {
    forall p: nat :: start <= p < end ==> Verdict(claims, markdown, p, role, owner)
  }

  lemma {:induction false} JoinedLedger(claims: seq<Claim>, markdown: string, segments: seq<Segment>, start: nat, end: nat, role: Role, owner: Option<Id>)
    requires Ledger(claims, markdown, segments, start) && start < end
    requires AllSay(claims, markdown, start, end, role, owner)
    ensures Ledger(claims, markdown, Joined(segments, start, end, role, owner), end)
  {
    hide Verdict;
  }

  lemma {:induction false} StretchJoins(
      claims: seq<Claim>, markdown: string, segments: seq<Segment>, start: nat, end: nat, active: set<nat>, winner: Option<nat>)
    requires Ledger(claims, markdown, segments, start)
    requires Stretch(claims, markdown, start, end) && end <= |markdown| && ActiveAt(claims, markdown, active, start)
    requires IsEndpoint(claims, markdown, start, |claims|) && IsEndpoint(claims, markdown, end, |claims|)
    requires winner.None? <==> active == {}
    requires winner.Some? ==> winner.value in active && forall other :: other in active ==> Wins(claims, winner.value, other)
    ensures
      match winner
      case Some(id) => Ledger(claims, markdown, Joined(segments, start, end, claims[id].role, Some(claims[id].owner)), end)
      case None =>
        Ledger(claims, markdown, Joined(segments, start, end, if BlankBetween(markdown, start, end) then StructuralSyntax else Unaccounted, None), end)
  {
    hide Ledger, Verdict, IsEndpoint, Covers, Joined, Wins, BlankBetween;
    var blank := if BlankBetween(markdown, start, end) then StructuralSyntax else Unaccounted;
    match winner
    case Some(id) =>
      forall p: nat | start <= p < end ensures Verdict(claims, markdown, p, claims[id].role, Some(claims[id].owner)) {
        StretchVerdict(claims, markdown, start, end, active, winner, p);
      }
      JoinedLedger(claims, markdown, segments, start, end, claims[id].role, Some(claims[id].owner));
    case None =>
      forall p: nat | start <= p < end ensures Verdict(claims, markdown, p, blank, None) {
        StretchVerdict(claims, markdown, start, end, active, winner, p);
      }
      JoinedLedger(claims, markdown, segments, start, end, blank, None);
  }

  // ---- The whole sweep

  /** `account`: every character once, in order, with its best claim or the unclaimed rule. */
  method Account(claims: seq<Claim>, markdown: string) returns (segments: seq<Segment>)
    ensures Ledger(claims, markdown, segments, |markdown|)
  {
    hide Ledger, Stretch, Covers, Wins, EventsOf, Joined;
    var endpoints := Endpoints(claims, markdown);
    var keys := endpoints.Keys;
    var active: set<nat> := {};
    segments := [];
    var previous: nat := 0;
    // One past the last position swept; 0 before the first.
    ghost var swept: nat := 0;
    EmptyLedger(claims, markdown);
    while keys != {}
      invariant keys <= endpoints.Keys && forall p: nat :: p in keys <==> p in endpoints && swept <= p
      invariant if swept == 0 then previous == 0 && active == {} else previous == swept - 1
      invariant swept > 0 ==> ActiveAt(claims, markdown, active, previous) && previous in endpoints
      invariant swept > 0 ==> previous <= |markdown|
      invariant Ledger(claims, markdown, segments, previous)
      decreases |keys|
    {
      assert 0 in endpoints;
      var position := Least(keys);
      EndpointsInside(claims, markdown, position);
      ghost var before := active;
      if previous < position {
        assert swept > 0;
        StretchBetween(claims, markdown, endpoints, keys, previous, position);
        var winner := Winner(claims, active);
        StretchJoins(claims, markdown, segments, previous, position, active, winner);
        if winner.Some? {
          segments := Joined(segments, previous, position, claims[winner.value].role, Some(claims[winner.value].owner));
        } else if Blank(markdown, previous, position) {
          segments := Joined(segments, previous, position, StructuralSyntax, None);
        } else {
          segments := Joined(segments, previous, position, Unaccounted, None);
        }
        ActiveStays(claims, markdown, active, previous, position);
      }
      active := Apply(claims, markdown, endpoints[position], active, position);
      previous := position;
      keys := keys - {position};
      swept := position + 1;
    }
    assert |markdown| in endpoints;
  }

  predicate Blank(markdown: string, start: nat, end: nat)
    requires end <= |markdown|
    ensures Blank(markdown, start, end) <==> BlankBetween(markdown, start, end)
  {
    forall q :: start <= q < end ==> IsWhitespace(markdown[q])
  }

  lemma {:induction false} EmptyLedger(claims: seq<Claim>, markdown: string)
    ensures Ledger(claims, markdown, [], 0)
  {
  }

  lemma {:induction false} EndpointsInside(claims: seq<Claim>, markdown: string, p: nat)
    requires IsEndpoint(claims, markdown, p, |claims|)
    ensures p <= |markdown|
  {
    var events := EventsOf(claims, markdown, p, |claims|);
    if events != [] {
      EventIn(claims, markdown, p, |claims|, events[0]);
    }
  }

  lemma {:induction false} StretchBetween(claims: seq<Claim>, markdown: string, endpoints: map<nat, seq<Event>>, keys: set<nat>, start: nat, end: nat)
    requires Indexes(endpoints, claims, markdown, |claims|)
    requires forall p: nat :: p in keys <==> p in endpoints && start < p
    requires end in keys && forall p :: p in keys ==> end <= p
    ensures Stretch(claims, markdown, start, end)
  {
  }

  lemma {:induction false} ActiveStays(claims: seq<Claim>, markdown: string, active: set<nat>, start: nat, end: nat)
    requires start < end && Stretch(claims, markdown, start, end) && ActiveAt(claims, markdown, active, start)
    ensures ActiveAt(claims, markdown, active, end - 1)
  {
    hide Covers, Stretch;
    forall id: nat | id < |claims| ensures Covers(claims[id], markdown, end - 1) <==> Covers(claims[id], markdown, start) {
      StretchCovers(claims, markdown, start, end, end - 1, id);
    }
  }

  // ---- The ledger is the only one

  lemma {:induction false} SameSegment(claims: seq<Claim>, markdown: string, a: seq<Segment>, b: seq<Segment>, n: nat, end: nat)
    requires Ledger(claims, markdown, a, end) && Ledger(claims, markdown, b, end)
    requires n < |a| && n < |b| && a[n].span.start == b[n].span.start
    ensures a[n].role == b[n].role && a[n].owner == b[n].owner
    ensures b[n].span.end <= a[n].span.end
  {
    hide Verdict;
    var p := a[n].span.start;
    assert a[n].span.start <= p < a[n].span.end && b[n].span.start <= p < b[n].span.end;
    VerdictUnique(claims, markdown, p, a[n].role, a[n].owner, b[n].role, b[n].owner);
    if a[n].span.end < b[n].span.end {
      var q := a[n].span.end;
      SegmentsEnd(claims, markdown, b, n, end);
      assert n + 1 < |a|;
      assert a[n + 1].span.start == q;
      VerdictUnique(claims, markdown, q, a[n + 1].role, a[n + 1].owner, b[n].role, b[n].owner);
    }
  }

  lemma {:induction false} SegmentsEnd(claims: seq<Claim>, markdown: string, segments: seq<Segment>, n: nat, end: nat)
    requires Ledger(claims, markdown, segments, end) && n < |segments|
    ensures segments[n].span.end <= end
    decreases |segments| - n
  {
    hide Verdict;
    if n + 1 < |segments| {
      SegmentsEnd(claims, markdown, segments, n + 1, end);
    }
  }

  lemma {:induction false} SamePrefix(claims: seq<Claim>, markdown: string, a: seq<Segment>, b: seq<Segment>, n: nat, end: nat)
    requires Ledger(claims, markdown, a, end) && Ledger(claims, markdown, b, end) && n <= |a|
    ensures n <= |b| && a[..n] == b[..n]
  {
    hide Verdict;
    if n > 0 {
      SamePrefix(claims, markdown, a, b, n - 1, end);
      SegmentsEnd(claims, markdown, a, n - 1, end);
      assert n > 1 ==> a[..n - 1][n - 2] == b[..n - 1][n - 2];
      assert n - 1 < |b|;
      SameSegment(claims, markdown, a, b, n - 1, end);
      SameSegment(claims, markdown, b, a, n - 1, end);
      assert a[n - 1] == b[n - 1];
      assert a[..n] == a[..n - 1] + [a[n - 1]] && b[..n] == b[..n - 1] + [b[n - 1]];
    }
  }

  /** The sweep's result is determined by the definition: no other ledger tiles the source, tells neighbours apart and gives every character its verdict. */
  lemma {:induction false} LedgerUnique(claims: seq<Claim>, markdown: string, a: seq<Segment>, b: seq<Segment>)
    requires Ledger(claims, markdown, a, |markdown|) && Ledger(claims, markdown, b, |markdown|)
    ensures a == b
  {
    hide Ledger;
    SamePrefix(claims, markdown, a, b, |a|, |markdown|);
    SamePrefix(claims, markdown, b, a, |b|, |markdown|);
    assert a[..|a|] == a && b[..|b|] == b;
  }

  // ---- Gathering the claims

  /** `inline_contributions`: an inline node's claims, then its descendants', appended to a list. */
  method GatherInline(inline: Inline, owner: Id, before: seq<Claim>) returns (claims: seq<Claim>)
    ensures claims == before + InlineClaims(inline, owner)
    decreases inline
  {
    claims := before;
    var own := Classified(inline);
    if own.Some? {
      claims := claims + [Claim(inline.span, own.value.0, owner, own.value.1)];
    }
    ghost var ownFirst := claims;
    for i := 0 to |inline.children|
      invariant claims == ownFirst + NestedClaims(inline, owner, i)
    {
      claims := GatherInline(inline.children[i], owner, claims);
    }
  }

  /** The claims of every block: its spans first, then those of its inline children. */
  method Gather(blocks: seq<Block>) returns (claims: seq<Claim>)
    ensures claims == Claims(blocks, |blocks|)
  {
    hide InlineClaims, BlockRole;
    claims := [];
    for b := 0 to |blocks|
      invariant claims == Claims(blocks, b)
    {
      var block := blocks[b];
      var (role, rank) := BlockRole(block.kind);
      for i := 0 to |block.spans|
        invariant claims == Claims(blocks, b) + SpanClaims(block, i)
      {
        claims := claims + [Claim(block.spans[i], role, block.id, rank)];
      }
      for i := 0 to |block.children|
        invariant claims == Claims(blocks, b) + SpanClaims(block, |block.spans|) + ChildClaims(block, i)
      {
        match block.children[i] {
          case InlineChild(inline) => claims := GatherInline(inline, block.id, claims);
          case BlockChild(_) =>
        }
      }
    }
  }
}
