/** Making child lists and parent links of groups and units agree. */
module GroupLinks {
  import opened Common
  import Sorting

  datatype Kind = Row | TableGroup | Procedure | CodeGroup | Paragraphs | SectionGroup | Page

  /** A delivery unit by its first position. */
  datatype Unit = Unit(id: Id, parent: Option<Id>, start: nat)

  datatype Group = Group(id: Id, kind: Kind, parent: Option<Id>, start: nat, children: seq<Id>)

  /** `parent_priority`: the narrowest kind of group is preferred as a unit's parent. */
  function Priority(kind: Kind): nat {
    match kind
    case Row => 0
    case TableGroup | Procedure | CodeGroup | Paragraphs => 1
    case SectionGroup => 2
    case Page => 3
  }

  /** A group that would be a unit's parent. */
  type Candidate = (nat, Id)

  function CandidateOf(group: Group): Candidate {
    (Priority(group.kind), group.id)
  }

  predicate Before(a: Candidate, b: Candidate) {
    a.0 < b.0 || (a.0 == b.0 && a.1 <= b.1)
  }

  function Least(a: Candidate, b: Candidate): Candidate {
    if Before(a, b) then a else b
  }

  /** The least candidate among the first n groups that list a child. */
  function Best(groups: seq<Group>, child: Id, n: nat): Option<Candidate>
    requires n <= |groups|
  {
    if n == 0 then None
    else
      var before := Best(groups, child, n - 1);
      if child !in groups[n - 1].children then before
      else
        match before
        case None => Some(CandidateOf(groups[n - 1]))
        case Some(best) => Some(Least(best, CandidateOf(groups[n - 1])))
  }

  function ParentOf(groups: seq<Group>, child: Id): Option<Id> {
    match Best(groups, child, |groups|)
    case None => None
    case Some(best) => Some(best.1)
  }

  // ---- The result as a definition

  function WiredUnits(groups: seq<Group>, units: seq<Unit>): (r: seq<Unit>)
    ensures |r| == |units|
  {
    seq(|units|, i requires 0 <= i < |units| => units[i].(parent := ParentOf(groups, units[i].id)))
  }

  /** The groups, then the units, whose parent is some group. */
  function GroupsUnder(groups: seq<Group>, id: Id, n: nat): seq<Id>
    requires n <= |groups|
  {
    if n == 0 then []
    else GroupsUnder(groups, id, n - 1) + if groups[n - 1].parent == Some(id) then [groups[n - 1].id] else []
  }

  function UnitsUnder(units: seq<Unit>, id: Id, n: nat): seq<Id>
    requires n <= |units|
  {
    if n == 0 then []
    else UnitsUnder(units, id, n - 1) + if units[n - 1].parent == Some(id) then [units[n - 1].id] else []
  }

  function Under(groups: seq<Group>, units: seq<Unit>, id: Id): seq<Id> {
    GroupsUnder(groups, id, |groups|) + UnitsUnder(units, id, |units|)
  }

  /** The first position of every group and unit; a unit's counts where both have one identifier. */
  function GroupStarts(groups: seq<Group>, n: nat): map<Id, nat>
    requires n <= |groups|
  {
    if n == 0 then map[] else GroupStarts(groups, n - 1)[groups[n - 1].id := groups[n - 1].start]
  }

  function Starts(groups: seq<Group>, units: seq<Unit>, n: nat): map<Id, nat>
    requires n <= |units|
  {
    if n == 0 then GroupStarts(groups, |groups|) else Starts(groups, units, n - 1)[units[n - 1].id := units[n - 1].start]
  }

  function StartKey(starts: map<Id, nat>, id: Id): Sorting.Key {
    (if id in starts then starts[id] else LastStart, id)
  }

  function Ordered(starts: map<Id, nat>, ids: seq<Id>): seq<Id> {
    Sorting.SortBy(ids, (id: Id) => StartKey(starts, id))
  }

  function ChildrenOf(groups: seq<Group>, units: seq<Unit>, id: Id): seq<Id> {
    var ordered := Ordered(Starts(groups, units, |units|), Under(groups, units, id));
    Dedup(ordered, |ordered|)
  }

  function WiredGroups(groups: seq<Group>, units: seq<Unit>): (r: seq<Group>)
    ensures |r| == |groups|
  {
    seq(|groups|, i requires 0 <= i < |groups| => groups[i].(children := ChildrenOf(groups, units, groups[i].id)))
  }

  /** Groups and units have identifiers of their own, as digests of what they stand for. */
  ghost predicate Distinct(groups: seq<Group>, units: seq<Unit>) {
    && (forall i, j :: 0 <= i < j < |groups| ==> groups[i].id != groups[j].id)
    && (forall i, j :: 0 <= i < j < |units| ==> units[i].id != units[j].id)
    && forall i, j :: 0 <= i < |groups| && 0 <= j < |units| ==> groups[i].id != units[j].id
  }

  // ---- The wiring, in place

  ghost predicate IsUnit(units: seq<Unit>, id: Id) {
    exists i :: 0 <= i < |units| && units[i].id == id
  }

  /** The best candidate so far of every unit that some group listed. */
  ghost predicate Listed(parents: map<Id, Candidate>, groups: seq<Group>, units: seq<Unit>, n: nat)
    requires n <= |groups|
  {
    forall id: Id :: IsUnit(units, id) ==> Best(groups, id, n) == if id in parents then Some(parents[id]) else None
  }

  /** The same while the n-th group's children are being read, the first k of them done. */
  ghost predicate Listing(parents: map<Id, Candidate>, groups: seq<Group>, units: seq<Unit>, n: nat, k: nat)
    requires n < |groups| && k <= |groups[n].children|
  {
    forall id: Id :: IsUnit(units, id) ==>
      (if id in parents then Some(parents[id]) else None)
      == if id in groups[n].children[..k] then Best(groups, id, n + 1) else Best(groups, id, n)
  }

  method ListParents(groups: seq<Group>, units: seq<Unit>) returns (parents: map<Id, Candidate>)
    ensures Listed(parents, groups, units, |groups|)
  {
    var unitIds := set u | u in units :: u.id;
    parents := map[];
    for i := 0 to |groups|
      invariant Listed(parents, groups, units, i)
    {
      var children := groups[i].children;
      assert children[..0] == [];
      for k := 0 to |children|
        invariant Listing(parents, groups, units, i, k)
      {
        var child := children[k];
        ListNext(parents, groups, units, i, k);
        if child in unitIds {
          var candidate := CandidateOf(groups[i]);
          parents := parents[child := if child in parents then Least(parents[child], candidate) else candidate];
        }
      }
      assert children[..|children|] == children;
    }
  }

  lemma {:induction false} ListNext(parents: map<Id, Candidate>, groups: seq<Group>, units: seq<Unit>, n: nat, k: nat)
    requires n < |groups| && k < |groups[n].children| && Listing(parents, groups, units, n, k)
    ensures
      var (child, candidate) := (groups[n].children[k], CandidateOf(groups[n]));
      var next := if IsUnit(units, child) then parents[child := if child in parents then Least(parents[child], candidate) else candidate] else parents;
      Listing(next, groups, units, n, k + 1)
  {
    var children := groups[n].children;
    assert children[..k + 1] == children[..k] + [children[k]];
  }

  /** Children by parent: the groups' first, then the units'. */
  ghost predicate Gathered(children: map<Id, seq<Id>>, groups: seq<Group>, units: seq<Unit>, n: nat, m: nat)
    requires n <= |groups| && m <= |units|
  {
    forall id: Id :: (if id in children then children[id] else []) == GroupsUnder(groups, id, n) + UnitsUnder(units, id, m)
  }

  function Pushed(children: map<Id, seq<Id>>, parent: Option<Id>, child: Id): map<Id, seq<Id>> {
    match parent
    case None => children
    case Some(id) => children[id := (if id in children then children[id] else []) + [child]]
  }

  method GatherChildren(groups: seq<Group>, units: seq<Unit>) returns (children: map<Id, seq<Id>>)
    ensures Gathered(children, groups, units, |groups|, |units|)
  {
    children := map[];
    for i := 0 to |groups|
      invariant Gathered(children, groups, units, i, 0)
    {
      GatherGroup(children, groups, units, i);
      children := Pushed(children, groups[i].parent, groups[i].id);
    }
    for i := 0 to |units|
      invariant Gathered(children, groups, units, |groups|, i)
    {
      GatherUnit(children, groups, units, i);
      children := Pushed(children, units[i].parent, units[i].id);
    }
  }

  lemma {:induction false} GatherGroup(children: map<Id, seq<Id>>, groups: seq<Group>, units: seq<Unit>, n: nat)
    requires n < |groups| && Gathered(children, groups, units, n, 0)
    ensures Gathered(Pushed(children, groups[n].parent, groups[n].id), groups, units, n + 1, 0)
  {
    var next := Pushed(children, groups[n].parent, groups[n].id);
    forall id: Id ensures (if id in next then next[id] else []) == GroupsUnder(groups, id, n + 1) + UnitsUnder(units, id, 0) {
      assert (if id in children then children[id] else []) == GroupsUnder(groups, id, n) + UnitsUnder(units, id, 0);
      assert UnitsUnder(units, id, 0) == [];
    }
  }

  lemma {:induction false} GatherUnit(children: map<Id, seq<Id>>, groups: seq<Group>, units: seq<Unit>, m: nat)
    requires m < |units| && Gathered(children, groups, units, |groups|, m)
    ensures Gathered(Pushed(children, units[m].parent, units[m].id), groups, units, |groups|, m + 1)
  {
    var next := Pushed(children, units[m].parent, units[m].id);
    forall id: Id ensures (if id in next then next[id] else []) == GroupsUnder(groups, id, |groups|) + UnitsUnder(units, id, m + 1) {
      assert (if id in children then children[id] else []) == GroupsUnder(groups, id, |groups|) + UnitsUnder(units, id, m);
    }
  }

  /** Every unit's parent set in place, from the best candidates. */
  method SetParents(ghost groups: seq<Group>, units: array<Unit>, parents: map<Id, Candidate>)
    requires Listed(parents, groups, units[..], |groups|)
    modifies units
    ensures units[..] == WiredUnits(groups, old(units[..]))
  {
    hide Best;
    ghost var given := units[..];
    for i := 0 to units.Length
      invariant forall k :: 0 <= k < i ==> units[k] == WiredUnits(groups, given)[k]
      invariant forall k :: i <= k < units.Length ==> units[k] == given[k]
    {
      assert given[i].id == units[i].id && IsUnit(given, units[i].id);
      var parent := if units[i].id in parents then Some(parents[units[i].id].1) else None;
      units[i] := units[i].(parent := parent);
    }
  }

  /** Every group's children taken from the index, in place, sorted and without repetition. */
  method SetChildren(groups: array<Group>, ghost units: seq<Unit>, starts: map<Id, nat>, gathered: map<Id, seq<Id>>)
    requires Distinct(groups[..], units)
    requires Gathered(gathered, groups[..], units, groups.Length, |units|) && starts == Starts(groups[..], units, |units|)
    modifies groups
    ensures groups[..] == WiredGroups(old(groups[..]), units)
  {
    hide Dedup, Gathered, Starts, Under, Ordered;
    ghost var given := groups[..];
    var children := gathered;
    for i := 0 to groups.Length
      invariant forall k :: 0 <= k < i ==> groups[k] == WiredGroups(given, units)[k]
      invariant forall k :: i <= k < groups.Length ==> groups[k] == given[k]
      invariant forall k :: i <= k < groups.Length ==> (given[k].id in children <==> given[k].id in gathered)
      invariant forall id :: id in children ==> id in gathered && children[id] == gathered[id]
    {
      var group := groups[i];
      TakenIs(gathered, given, units, group.id);
      var taken := if group.id in children then children[group.id] else [];
      children := children - {group.id};
      var ordered := Ordered(starts, taken);
      groups[i] := group.(children := Dedup(ordered, |ordered|));
      assert groups[i] == WiredGroups(given, units)[i];
    }
  }

  /**
   * `wire_parentage`: every unit gets the best group that lists it as its parent, and every group
   * the groups and units whose parent it is as its children. Groups and units change in place; the
   * index maps are walked in list order, an order the final sort does not keep.
   */
  method WireParentage(groups: array<Group>, units: array<Unit>)
    requires Distinct(groups[..], units[..])
    modifies groups, units
    ensures units[..] == WiredUnits(old(groups[..]), old(units[..]))
    ensures groups[..] == WiredGroups(old(groups[..]), WiredUnits(old(groups[..]), old(units[..])))
  {
    hide Best, WiredGroups, WiredUnits, Listed, Gathered, Starts;
    var givenGroups := groups[..];
    ghost var givenUnits := units[..];
    var parents := ListParents(givenGroups, units[..]);
    SetParents(givenGroups, units, parents);
    WiredDistinct(givenGroups, givenUnits);
    var starts := AllStarts(groups[..], units[..]);
    var children := GatherChildren(groups[..], units[..]);
    SetChildren(groups, units[..], starts, children);
  }

  lemma {:induction false} TakenIs(gathered: map<Id, seq<Id>>, groups: seq<Group>, units: seq<Unit>, id: Id)
    requires Gathered(gathered, groups, units, |groups|, |units|)
    ensures (if id in gathered then gathered[id] else []) == Under(groups, units, id)
  {
  }

  method AllStarts(groups: seq<Group>, units: seq<Unit>) returns (starts: map<Id, nat>)
    ensures starts == Starts(groups, units, |units|)
  {
    starts := map[];
    for i := 0 to |groups|
      invariant starts == GroupStarts(groups, i)
    {
      starts := starts[groups[i].id := groups[i].start];
    }
    for i := 0 to |units|
      invariant starts == Starts(groups, units, i)
    {
      starts := starts[units[i].id := units[i].start];
    }
  }

  // ---- What the links are

  lemma {:induction false} BestIsLeast(groups: seq<Group>, child: Id, n: nat)
    requires n <= |groups|
    ensures Best(groups, child, n).None? <==> forall i :: 0 <= i < n ==> child !in groups[i].children
    ensures Best(groups, child, n).Some? ==>
              && (exists i :: 0 <= i < n && child in groups[i].children && CandidateOf(groups[i]) == Best(groups, child, n).value)
              && forall i :: 0 <= i < n && child in groups[i].children ==> Before(Best(groups, child, n).value, CandidateOf(groups[i]))
  {
    if n > 0 {
      BestIsLeast(groups, child, n - 1);
    }
  }

  lemma {:induction false} GroupsUnderAre(groups: seq<Group>, id: Id, n: nat)
    requires n <= |groups|
    ensures forall c :: c in GroupsUnder(groups, id, n) <==> exists i :: 0 <= i < n && groups[i].id == c && groups[i].parent == Some(id)
  {
    if n > 0 {
      GroupsUnderAre(groups, id, n - 1);
    }
  }

  lemma {:induction false} UnitsUnderAre(units: seq<Unit>, id: Id, n: nat)
    requires n <= |units|
    ensures forall c :: c in UnitsUnder(units, id, n) <==> exists i :: 0 <= i < n && units[i].id == c && units[i].parent == Some(id)
  {
    if n > 0 {
      UnitsUnderAre(units, id, n - 1);
    }
  }

  ghost predicate NoRepeats(ids: seq<Id>) {
    forall i, j :: 0 <= i < j < |ids| ==> ids[i] != ids[j]
  }

  lemma {:induction false} GroupsUnderOnce(groups: seq<Group>, units: seq<Unit>, id: Id, n: nat)
    requires Distinct(groups, units) && n <= |groups|
    ensures NoRepeats(GroupsUnder(groups, id, n))
  {
    if n > 0 {
      GroupsUnderOnce(groups, units, id, n - 1);
      GroupsUnderAre(groups, id, n - 1);
      assert groups[n - 1].id !in GroupsUnder(groups, id, n - 1);
    }
  }

  lemma {:induction false} UnitsUnderOnce(groups: seq<Group>, units: seq<Unit>, id: Id, n: nat)
    requires Distinct(groups, units) && n <= |units|
    ensures NoRepeats(UnitsUnder(units, id, n))
  {
    if n > 0 {
      UnitsUnderOnce(groups, units, id, n - 1);
      UnitsUnderAre(units, id, n - 1);
      assert units[n - 1].id !in UnitsUnder(units, id, n - 1);
    }
  }

  lemma {:induction false} UnderOnce(groups: seq<Group>, units: seq<Unit>, id: Id)
    requires Distinct(groups, units)
    ensures NoRepeats(Under(groups, units, id))
  {
    hide GroupsUnder, UnitsUnder;
    GroupsUnderOnce(groups, units, id, |groups|);
    UnitsUnderOnce(groups, units, id, |units|);
    GroupsUnderAre(groups, id, |groups|);
    UnitsUnderAre(units, id, |units|);
    var a, b := GroupsUnder(groups, id, |groups|), UnitsUnder(units, id, |units|);
    forall i, j | 0 <= i < j < |a + b| ensures (a + b)[i] != (a + b)[j] {
      if i < |a| && |a| <= j {
        assert a[i] in a && b[j - |a|] in b;
      }
    }
  }

  lemma {:induction false} PermutedOnce(a: seq<Id>, b: seq<Id>)
    requires NoRepeats(a) && multiset(a) == multiset(b)
    ensures NoRepeats(b)
  {
    forall i, j | 0 <= i < j < |b| ensures b[i] != b[j] {
      if b[i] == b[j] {
        Sorting.Twice(b, i, j);
        Sorting.Repeats(a, b[i], |a|);
      }
    }
  }

  lemma {:induction false} DedupKeeps(ids: seq<Id>, n: nat)
    requires NoRepeats(ids) && n <= |ids|
    ensures Dedup(ids, n) == ids[..n]
  {
    if n > 0 {
      DedupKeeps(ids, n - 1);
    }
  }

  /** A child list is the sorted list of whatever has the group as its parent: `dedup` finds nothing. */
  lemma {:induction false} ChildrenAre(groups: seq<Group>, units: seq<Unit>, id: Id)
    requires Distinct(groups, units)
    ensures
      var children := ChildrenOf(groups, units, id);
      && children == Ordered(Starts(groups, units, |units|), Under(groups, units, id))
      && NoRepeats(children)
      && forall c :: c in children <==> c in Under(groups, units, id)
  {
    hide Under;
    UnderOnce(groups, units, id);
    var ordered := Ordered(Starts(groups, units, |units|), Under(groups, units, id));
    PermutedOnce(Under(groups, units, id), ordered);
    DedupKeeps(ordered, |ordered|);
    assert ordered[..|ordered|] == ordered;
    forall c ensures c in ordered <==> c in Under(groups, units, id) {
      Sorting.MemberOfEqualMultisets(ordered, Under(groups, units, id), c);
    }
  }

  /** The parent that a group or unit names. */
  ghost predicate Names(groups: seq<Group>, units: seq<Unit>, child: Id, parent: Id) {
    || (exists i :: 0 <= i < |groups| && groups[i].id == child && groups[i].parent == Some(parent))
    || (exists i :: 0 <= i < |units| && units[i].id == child && units[i].parent == Some(parent))
  }

  lemma {:induction false} UnderNames(groups: seq<Group>, units: seq<Unit>, id: Id, child: Id)
    ensures child in Under(groups, units, id) <==> Names(groups, units, child, id)
  {
    GroupsUnderAre(groups, id, |groups|);
    UnitsUnderAre(units, id, |units|);
  }

  /**
   * Links are reciprocal: a group or unit is among a group's children exactly when that group is
   * its parent. No child appears twice, and children are in source order.
   */
  lemma {:induction false} LinksReciprocal(groups: seq<Group>, units: seq<Unit>, i: nat)
    requires Distinct(groups, units) && i < |groups|
    ensures
      var (wired, linked) := (WiredUnits(groups, units), WiredGroups(groups, WiredUnits(groups, units)));
      var starts := Starts(groups, wired, |wired|);
      && NoRepeats(linked[i].children)
      && (forall child: Id :: child in linked[i].children <==> Names(linked, wired, child, linked[i].id))
      && Sorting.Sorted(linked[i].children, (id: Id) => StartKey(starts, id))
  {
    hide ChildrenOf, Names, Starts;
    var wired := WiredUnits(groups, units);
    var linked, id := WiredGroups(groups, wired), groups[i].id;
    WiredDistinct(groups, units);
    ChildrenAre(groups, wired, id);
    forall child: Id ensures child in linked[i].children <==> Names(linked, wired, child, id) {
      UnderNames(groups, wired, id, child);
      SameNames(groups, linked, wired, child, id);
    }
    var starts := Starts(groups, wired, |wired|);
    Sorting.SortBySorted(Under(groups, wired, id), (c: Id) => StartKey(starts, c));
  }

  lemma {:induction false} WiredDistinct(groups: seq<Group>, units: seq<Unit>)
    requires Distinct(groups, units)
    ensures Distinct(groups, WiredUnits(groups, units))
    ensures Distinct(WiredGroups(groups, WiredUnits(groups, units)), WiredUnits(groups, units))
  {
    hide ChildrenOf, Best;
  }

  lemma {:induction false} SameNames(a: seq<Group>, b: seq<Group>, units: seq<Unit>, child: Id, parent: Id)
    requires |a| == |b| && forall i :: 0 <= i < |a| ==> a[i].id == b[i].id && a[i].parent == b[i].parent
    ensures Names(a, units, child, parent) <==> Names(b, units, child, parent)
  {
  }

  /** No child has two parents. */
  lemma {:induction false} OneParent(groups: seq<Group>, units: seq<Unit>, i: nat, j: nat, child: Id)
    requires Distinct(groups, units) && i < |groups| && j < |groups|
    requires child in WiredGroups(groups, WiredUnits(groups, units))[i].children
    requires child in WiredGroups(groups, WiredUnits(groups, units))[j].children
    ensures i == j
  {
    hide ChildrenOf, Best, Starts;
    var wired := WiredUnits(groups, units);
    var linked := WiredGroups(groups, wired);
    LinksReciprocal(groups, units, i);
    LinksReciprocal(groups, units, j);
    WiredDistinct(groups, units);
    assert Names(linked, wired, child, linked[i].id) && Names(linked, wired, child, linked[j].id);
  }

  /** Whether a group or a unit of some identifier starts at a position. */
  ghost predicate StartsAt(groups: seq<Group>, units: seq<Unit>, id: Id, start: nat) {
    || (exists i :: 0 <= i < |groups| && groups[i].id == id && groups[i].start == start)
    || (exists i :: 0 <= i < |units| && units[i].id == id && units[i].start == start)
  }

  lemma {:induction false} GroupStartsExactly(groups: seq<Group>, n: nat, id: Id)
    requires n <= |groups| && forall i, j :: 0 <= i < j < |groups| ==> groups[i].id != groups[j].id
    ensures id in GroupStarts(groups, n) ==> exists i :: 0 <= i < n && groups[i].id == id
    ensures forall i :: 0 <= i < n && groups[i].id == id ==> id in GroupStarts(groups, n) && GroupStarts(groups, n)[id] == groups[i].start
  {
    if n > 0 {
      GroupStartsExactly(groups, n - 1, id);
    }
  }

  lemma {:induction false} StartsExactly(groups: seq<Group>, units: seq<Unit>, n: nat, id: Id)
    requires n <= |units| && Distinct(groups, units)
    ensures forall i :: 0 <= i < |groups| && groups[i].id == id ==> id in Starts(groups, units, n) && Starts(groups, units, n)[id] == groups[i].start
    ensures forall i :: 0 <= i < n && units[i].id == id ==> id in Starts(groups, units, n) && Starts(groups, units, n)[id] == units[i].start
  {
    if n == 0 {
      GroupStartsExactly(groups, |groups|, id);
    } else {
      StartsExactly(groups, units, n - 1, id);
    }
  }

  /** A group's children stand in the order in which they start, and by identifier where they start alike. */
  lemma {:induction false} ChildrenInOrder(groups: seq<Group>, units: seq<Unit>, i: nat, a: nat, b: nat, first: nat, second: nat)
    requires Distinct(groups, units) && i < |groups|
    requires a < b < |WiredGroups(groups, WiredUnits(groups, units))[i].children|
    requires
      var children := WiredGroups(groups, WiredUnits(groups, units))[i].children;
      StartsAt(groups, units, children[a], first) && StartsAt(groups, units, children[b], second)
    ensures
      var children := WiredGroups(groups, WiredUnits(groups, units))[i].children;
      first < second || (first == second && children[a] < children[b])
  {
    hide ChildrenOf, Best, Starts, Names;
    var wired := WiredUnits(groups, units);
    var children := WiredGroups(groups, wired)[i].children;
    LinksReciprocal(groups, units, i);
    WiredDistinct(groups, units);
    StartsExactly(groups, wired, |wired|, children[a]);
    StartsExactly(groups, wired, |wired|, children[b]);
    var starts := Starts(groups, wired, |wired|);
    forall k | 0 <= k < |units| ensures wired[k].id == units[k].id && wired[k].start == units[k].start {
    }
    assert Sorting.Leq(StartKey(starts, children[a]), StartKey(starts, children[b]));
  }

  /** The kinds that are narrower than another: a row before what groups rows, lines or paragraphs, that before a section, that before a page. */
  predicate Narrower(a: Kind, b: Kind) {
    match a
    case Row => b != Row
    case TableGroup | Procedure | CodeGroup | Paragraphs => b == SectionGroup || b == Page
    case SectionGroup => b == Page
    case Page => false
  }

  /** Whether a group is preferred to another as a parent: the narrower kind, and of kinds alike the smaller identifier. */
  predicate Preferred(a: Group, b: Group) {
    Narrower(a.kind, b.kind) || (!Narrower(b.kind, a.kind) && a.id <= b.id)
  }

  /** A unit's parent is the preferred one of the groups that listed it, and none without one. */
  lemma {:induction false} UnitParent(groups: seq<Group>, units: seq<Unit>, u: nat)
    requires u < |units|
    ensures
      var parent := WiredUnits(groups, units)[u].parent;
      && (parent.None? <==> forall i :: 0 <= i < |groups| ==> units[u].id !in groups[i].children)
      && (parent.Some? ==> exists i :: 0 <= i < |groups| && units[u].id in groups[i].children && groups[i].id == parent.value
                             && forall j :: 0 <= j < |groups| && units[u].id in groups[j].children ==> Preferred(groups[i], groups[j]))
  {
    hide Best;
    BestIsLeast(groups, units[u].id, |groups|);
    var best := Best(groups, units[u].id, |groups|);
    if best.Some? {
      var i :| 0 <= i < |groups| && units[u].id in groups[i].children && CandidateOf(groups[i]) == best.value;
      assert units[u].id in groups[i].children && groups[i].id == best.value.1;
      forall j | 0 <= j < |groups| && units[u].id in groups[j].children ensures Preferred(groups[i], groups[j]) {
        assert Before(CandidateOf(groups[i]), CandidateOf(groups[j]));
      }
    }
  }

  // ---- Wiring again changes nothing

  lemma {:induction false} ParentAgain(groups: seq<Group>, units: seq<Unit>, u: nat)
    requires Distinct(groups, units) && u < |units|
    ensures
      var wired := WiredUnits(groups, units);
      ParentOf(WiredGroups(groups, wired), wired[u].id) == wired[u].parent
  {
    hide ChildrenOf, Best, Starts;
    var wired := WiredUnits(groups, units);
    var linked, id := WiredGroups(groups, wired), units[u].id;
    WiredDistinct(groups, units);
    BestIsLeast(linked, id, |linked|);
    UnitParent(groups, units, u);
    forall i | 0 <= i < |linked| ensures id in linked[i].children <==> wired[u].parent == Some(linked[i].id) {
      LinksReciprocal(groups, units, i);
      NamesUnit(linked, wired, u, linked[i].id);
    }
    assert wired[u].parent.Some? ==> Best(linked, id, |linked|).Some? by {
      if wired[u].parent.Some? {
        var i :| 0 <= i < |groups| && groups[i].id == wired[u].parent.value;
        assert id in linked[i].children;
      }
    }
    if Best(linked, id, |linked|).Some? {
      var k :| 0 <= k < |linked| && id in linked[k].children && CandidateOf(linked[k]) == Best(linked, id, |linked|).value;
      assert wired[u].parent == Some(linked[k].id);
    }
  }

  lemma {:induction false} NamesUnit(groups: seq<Group>, units: seq<Unit>, u: nat, parent: Id)
    requires Distinct(groups, units) && u < |units|
    ensures Names(groups, units, units[u].id, parent) <==> units[u].parent == Some(parent)
  {
  }

  lemma {:induction false} StartsAgain(a: seq<Group>, b: seq<Group>, units: seq<Unit>, n: nat)
    requires |a| == |b| && n <= |units| && forall i :: 0 <= i < |a| ==> a[i].id == b[i].id && a[i].start == b[i].start
    ensures Starts(a, units, n) == Starts(b, units, n)
  {
    if n == 0 {
      GroupStartsAgain(a, b, |a|);
    } else {
      StartsAgain(a, b, units, n - 1);
    }
  }

  lemma {:induction false} GroupStartsAgain(a: seq<Group>, b: seq<Group>, n: nat)
    requires n <= |a| == |b| && forall i :: 0 <= i < |a| ==> a[i].id == b[i].id && a[i].start == b[i].start
    ensures GroupStarts(a, n) == GroupStarts(b, n)
  {
    if n > 0 {
      GroupStartsAgain(a, b, n - 1);
    }
  }

  lemma {:induction false} UnderAgain(a: seq<Group>, b: seq<Group>, id: Id, n: nat)
    requires n <= |a| == |b| && forall i :: 0 <= i < |a| ==> a[i].id == b[i].id && a[i].parent == b[i].parent
    ensures GroupsUnder(a, id, n) == GroupsUnder(b, id, n)
  {
    if n > 0 {
      UnderAgain(a, b, id, n - 1);
    }
  }

  /** Wiring what is wired changes nothing. */
  lemma {:induction false} WiringAgain(groups: seq<Group>, units: seq<Unit>)
    requires Distinct(groups, units)
    ensures
      var wired := WiredUnits(groups, units);
      var linked := WiredGroups(groups, wired);
      WiredUnits(linked, wired) == wired && WiredGroups(linked, wired) == linked
  {
    hide Best, Starts, GroupsUnder, UnitsUnder, Dedup;
    var wired := WiredUnits(groups, units);
    var linked := WiredGroups(groups, wired);
    forall u | 0 <= u < |units| ensures WiredUnits(linked, wired)[u] == wired[u] {
      ParentAgain(groups, units, u);
    }
    StartsAgain(linked, groups, wired, |wired|);
    forall i | 0 <= i < |groups| ensures WiredGroups(linked, wired)[i] == linked[i] {
      UnderAgain(linked, groups, groups[i].id, |groups|);
    }
  }
}
