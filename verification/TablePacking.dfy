/**
 * Packing whole tables into one unit each, from right to left, with unit positions looked up once
 * and kept right while the list is edited.
 */
module TablePacking {
  import opened Common
  import B = Brackets
  import Sorting

  /** A source part of a unit; only primary parts own their source. */
  datatype Part = Part(id: Id, starts: seq<nat>, primary: bool, ordinal: nat)

  datatype Unit = Unit(id: Id, block: Id, whole: bool, parts: seq<Part>)

  /** A table and its rows' blocks, in the order of their identifiers. */
  datatype Table = Table(id: Id, rows: seq<Id>)

  /** What a complete table's identity derives from, and whether its prepared text fits the limit. */
  datatype Tools = Tools(identify: (Id, multiset<Id>) -> Id, fits: Unit -> Result<bool>)

  function LeastOf(starts: seq<nat>, n: nat, least: nat): nat
    requires n <= |starts|
  {
    if n == 0 then least else Min(LeastOf(starts, n - 1, least), starts[n - 1])
  }

  function PartStart(part: Part): nat {
    LeastOf(part.starts, |part.starts|, LastStart)
  }

  /** `first_start`: the earliest position that the first n parts own. */
  function StartOf(parts: seq<Part>, n: nat): nat
    requires n <= |parts|
  {
    if n == 0 then LastStart else Min(StartOf(parts, n - 1), PartStart(parts[n - 1]))
  }

  function UnitStart(unit: Unit): nat {
    StartOf(unit.parts, |unit.parts|)
  }

  function UnitKey(unit: Unit): Sorting.Key {
    (UnitStart(unit), unit.id)
  }

  function PartKey(part: Part): Sorting.Key {
    (PartStart(part), 0)
  }

  // ---- A complete table

  function PrimaryParts(parts: seq<Part>, n: nat): seq<Part>
    requires n <= |parts|
  {
    if n == 0 then [] else PrimaryParts(parts, n - 1) + if parts[n - 1].primary then [parts[n - 1]] else []
  }

  function UnitsPrimary(units: seq<Unit>, n: nat): seq<Part>
    requires n <= |units|
  {
    if n == 0 then [] else UnitsPrimary(units, n - 1) + PrimaryParts(units[n - 1].parts, |units[n - 1].parts|)
  }

  function Numbered(parts: seq<Part>): (r: seq<Part>)
    ensures |r| == |parts| && forall i :: 0 <= i < |r| ==> r[i] == parts[i].(ordinal := i)
  {
    seq(|parts|, i requires 0 <= i < |parts| => parts[i].(ordinal := i))
  }

  function IdsOf(units: seq<Unit>, n: nat): multiset<Id>
    requires n <= |units|
  {
    if n == 0 then multiset{} else IdsOf(units, n - 1) + multiset{units[n - 1].id}
  }

  /** `complete_table_unit`: the primary parts of some units, in source order and numbered anew. */
  function Complete(t: Tools, table: Table, candidates: seq<Unit>): Unit {
    Unit(t.identify(table.id, IdsOf(candidates, |candidates|)), table.id, true,
         Numbered(Sorting.SortBy(UnitsPrimary(candidates, |candidates|), PartKey)))
  }

  method CompleteTable(t: Tools, table: Table, candidates: seq<Unit>) returns (unit: Unit)
    ensures unit == Complete(t, table, candidates)
  {
    var parts: seq<Part> := [];
    for i := 0 to |candidates|
      invariant parts == UnitsPrimary(candidates, i)
    {
      for k := 0 to |candidates[i].parts|
        invariant parts == UnitsPrimary(candidates, i) + PrimaryParts(candidates[i].parts, k)
      {
        if candidates[i].parts[k].primary {
          parts := parts + [candidates[i].parts[k]];
        }
      }
    }
    parts := Sorting.SortBy(parts, PartKey);
    var numbered := parts;
    for i := 0 to |parts|
      invariant |numbered| == |parts|
      invariant forall k :: 0 <= k < i ==> numbered[k] == parts[k].(ordinal := k)
      invariant forall k :: i <= k < |parts| ==> numbered[k] == parts[k]
    {
      numbered := numbered[i := parts[i].(ordinal := i)];
    }
    unit := Unit(t.identify(table.id, IdsOf(candidates, |candidates|)), table.id, true, numbered);
  }

  // ---- Looking units up

  /** The positions of a block's units among the first n. */
  function Positions(units: seq<Unit>, block: Id, n: nat): (r: seq<nat>)
    requires n <= |units|
    ensures forall i :: 0 <= i < |r| ==> r[i] < n && units[r[i]].block == block
    ensures forall i, j :: 0 <= i < j < |r| ==> r[i] < r[j]
    ensures forall p: nat :: p < n && units[p].block == block ==> p in r
  {
    if n == 0 then [] else Positions(units, block, n - 1) + if units[n - 1].block == block then [n - 1] else []
  }

  /** The positions of the units of a table's first n rows, row by row. */
  function RowPositions(units: seq<Unit>, rows: seq<Id>, n: nat): (r: seq<nat>)
    requires n <= |rows|
    ensures forall i :: 0 <= i < |r| ==> r[i] < |units| && units[r[i]].block in rows
  {
    if n == 0 then [] else RowPositions(units, rows, n - 1) + Positions(units, rows[n - 1], |units|)
  }

  function UnitsAt(units: seq<Unit>, positions: seq<nat>, n: nat): seq<Unit>
    requires n <= |positions|
  {
    if n == 0 then []
    else UnitsAt(units, positions, n - 1) + if positions[n - 1] < |units| then [units[positions[n - 1]]] else []
  }

  /** The units of a table looked up now. */
  function Fresh(units: seq<Unit>, table: Table): seq<Unit> {
    var positions := RowPositions(units, table.rows, |table.rows|);
    UnitsAt(units, positions, |positions|)
  }

  function Retained(units: seq<Unit>, removed: multiset<Id>, n: nat): seq<Unit>
    requires n <= |units|
  {
    if n == 0 then [] else Retained(units, removed, n - 1) + if units[n - 1].id in removed then [] else [units[n - 1]]
  }

  function Replaced(t: Tools, units: seq<Unit>, table: Table, candidates: seq<Unit>): seq<Unit> {
    var retained := Retained(units, IdsOf(candidates, |candidates|), |units|);
    Sorting.SortBy(retained + [Complete(t, table, candidates)], UnitKey)
  }

  /** One table packed from some candidates, if it has any and fits. */
  function PackedFrom(t: Tools, units: seq<Unit>, table: Table, candidates: seq<Unit>): Result<seq<Unit>> {
    if candidates == [] then Ok(units)
    else
      var fits :- t.fits(Complete(t, table, candidates));
      Ok(if fits then Replaced(t, units, table, candidates) else units)
  }

  /** Every table from the k-th on packed, right to left, each looked up afresh. */
  function Packed(t: Tools, units: seq<Unit>, tables: seq<Table>, k: nat): Result<seq<Unit>>
    requires k <= |tables|
    decreases |tables| - k
  {
    if k == |tables| then Ok(units)
    else
      var after :- Packed(t, units, tables, k + 1);
      PackedFrom(t, after, tables[k], Fresh(after, tables[k]))
  }

  // ---- What the packer relies on

  predicate RowOf(tables: seq<Table>, n: nat, block: Id)
    requires n <= |tables|
  {
    exists k :: 0 <= k < n && block in tables[k].rows
  }

  ghost predicate DistinctIds(units: seq<Unit>) {
    forall i, j :: 0 <= i < j < |units| ==> units[i].id != units[j].id
  }

  /** Units in order of their first position, and tables one after the other with rows of their own. */
  ghost predicate Laid(units: seq<Unit>, tables: seq<Table>) {
    && Sorting.Sorted(units, UnitKey) && DistinctIds(units)
    && (forall i, k :: 0 <= i < |tables| && 0 <= k < |tables| ==> tables[i].id !in tables[k].rows)
    && forall u, v, i, j :: 0 <= u < |units| && 0 <= v < |units| && 0 <= i < j < |tables|
                            && units[u].block in tables[i].rows && units[v].block in tables[j].rows ==>
         UnitStart(units[u]) < UnitStart(units[v])
  }

  /**
   * Two lists share their first p units, and no unit of the first k tables comes after those: what
   * packing the later tables keeps.
   */
  ghost predicate SamePlaces(units: seq<Unit>, after: seq<Unit>, tables: seq<Table>, k: nat, p: nat)
    requires k <= |tables|
  {
    && p <= |units| && p <= |after| && after[..p] == units[..p]
    && (forall i :: p <= i < |units| ==> !RowOf(tables, k, units[i].block))
    && forall i :: p <= i < |after| ==> !RowOf(tables, k, after[i].block)
  }

  lemma {:induction false} PositionsBefore(units: seq<Unit>, block: Id, p: nat, n: nat)
    requires p <= n <= |units| && forall i :: p <= i < |units| ==> units[i].block != block
    ensures Positions(units, block, n) == Positions(units, block, p)
  {
    if p < n {
      PositionsBefore(units, block, p, n - 1);
    }
  }

  lemma {:induction false} PositionsPrefix(a: seq<Unit>, b: seq<Unit>, block: Id, n: nat)
    requires n <= |a| && n <= |b| && a[..n] == b[..n]
    ensures Positions(a, block, n) == Positions(b, block, n)
  {
    if n > 0 {
      assert a[n - 1] == a[..n][n - 1] == b[n - 1];
      assert a[..n - 1] == a[..n][..n - 1] && b[..n - 1] == b[..n][..n - 1];
      PositionsPrefix(a, b, block, n - 1);
    }
  }

  lemma {:induction false} PositionsSame(units: seq<Unit>, after: seq<Unit>, tables: seq<Table>, k: nat, p: nat, block: Id)
    requires k <= |tables| && SamePlaces(units, after, tables, k, p) && RowOf(tables, k, block)
    ensures Positions(after, block, |after|) == Positions(units, block, |units|) == Positions(units, block, p)
  {
    hide Positions;
    PositionsBefore(units, block, p, |units|);
    PositionsBefore(after, block, p, |after|);
    PositionsPrefix(units, after, block, p);
  }

  lemma {:induction false} RowPositionsSame(units: seq<Unit>, after: seq<Unit>, tables: seq<Table>, k: nat, p: nat, n: nat)
    requires k < |tables| && SamePlaces(units, after, tables, k + 1, p) && n <= |tables[k].rows|
    ensures RowPositions(after, tables[k].rows, n) == RowPositions(units, tables[k].rows, n)
    ensures forall i :: 0 <= i < |RowPositions(units, tables[k].rows, n)| ==> RowPositions(units, tables[k].rows, n)[i] < p
  {
    hide Positions, SamePlaces;
    if n > 0 {
      RowPositionsSame(units, after, tables, k, p, n - 1);
      assert tables[k].rows[n - 1] in tables[k].rows;
      PositionsSame(units, after, tables, k + 1, p, tables[k].rows[n - 1]);
      PositionsBelow(units, tables, k + 1, p, tables[k].rows[n - 1], after);
    }
  }

  lemma {:induction false} PositionsBelow(units: seq<Unit>, tables: seq<Table>, k: nat, p: nat, block: Id, after: seq<Unit>)
    requires k <= |tables| && SamePlaces(units, after, tables, k, p)
    ensures forall i :: 0 <= i < |Positions(units, block, p)| ==> Positions(units, block, p)[i] < p
  {
  }

  lemma {:induction false} UnitsAtSame(a: seq<Unit>, b: seq<Unit>, positions: seq<nat>, p: nat, n: nat)
    requires p <= |a| && p <= |b| && a[..p] == b[..p] && n <= |positions|
    requires forall i :: 0 <= i < |positions| ==> positions[i] < p
    ensures UnitsAt(a, positions, n) == UnitsAt(b, positions, n)
  {
    if n > 0 {
      UnitsAtSame(a, b, positions, p, n - 1);
      assert a[positions[n - 1]] == a[..p][positions[n - 1]] == b[positions[n - 1]];
    }
  }

  /** The positions looked up before anything was packed still select what a fresh lookup would. */
  lemma {:induction false} CacheSelects(units: seq<Unit>, after: seq<Unit>, tables: seq<Table>, k: nat, p: nat)
    requires k < |tables| && SamePlaces(units, after, tables, k + 1, p)
    ensures
      var positions := RowPositions(units, tables[k].rows, |tables[k].rows|);
      && Fresh(after, tables[k]) == UnitsAt(after, positions, |positions|) == Fresh(units, tables[k])
      && forall i :: 0 <= i < |positions| ==> positions[i] < p
  {
    RowPositionsSame(units, after, tables, k, p, |tables[k].rows|);
    var positions := RowPositions(units, tables[k].rows, |tables[k].rows|);
    UnitsAtSame(units, after, positions, p, |positions|);
  }

  // ---- Packing a table leaves what comes before it in place

  /** Keys of some units are at most those of others. */
  ghost predicate KeysBelow(first: seq<Unit>, rest: seq<Unit>) {
    forall i, j :: 0 <= i < |first| && 0 <= j < |rest| ==> Sorting.Leq(UnitKey(first[i]), UnitKey(rest[j]))
  }

  lemma {:induction false} SortFirst(u: Unit, rest: seq<Unit>)
    requires KeysBelow([u], rest)
    ensures Sorting.SortBy([u] + rest, UnitKey) == [u] + Sorting.SortBy(rest, UnitKey)
  {
    hide UnitKey;
    var all, sorted := [u] + rest, Sorting.SortBy(rest, UnitKey);
    assert all[1..] == rest && all[0] == u;
    if sorted != [] {
      assert sorted[0] in multiset(sorted);
      assert sorted[0] in rest by { Sorting.MemberOfEqualMultisets(sorted, rest, sorted[0]); }
      var j :| 0 <= j < |rest| && rest[j] == sorted[0];
      assert Sorting.Leq(UnitKey([u][0]), UnitKey(rest[j]));
    }
  }

  lemma {:induction false} SortAfter(first: seq<Unit>, rest: seq<Unit>)
    requires Sorting.Sorted(first, UnitKey) && KeysBelow(first, rest)
    ensures Sorting.SortBy(first + rest, UnitKey) == first + Sorting.SortBy(rest, UnitKey)
  {
    hide UnitKey;
    if first == [] {
      assert first + rest == rest;
    } else {
      var tail := first[1..];
      assert first == [first[0]] + tail;
      SortAfter(tail, rest);
      forall j | 0 <= j < |tail + rest| ensures Sorting.Leq(UnitKey([first[0]][0]), UnitKey((tail + rest)[j])) {
        if j < |tail| {
          assert Sorting.Leq(UnitKey(first[0]), UnitKey(first[j + 1]));
        }
      }
      SortFirst(first[0], tail + rest);
      B.Associative([first[0]], tail, rest);
      B.Associative([first[0]], tail, Sorting.SortBy(rest, UnitKey));
    }
  }

  lemma {:induction false} RetainedThen(a: seq<Unit>, b: seq<Unit>, removed: multiset<Id>, n: nat)
    requires n <= |b|
    ensures Retained(a + b, removed, |a| + n) == Retained(a, removed, |a|) + Retained(b, removed, n)
  {
    if n == 0 {
      RetainedPrefix(a, b, removed, |a|);
    } else {
      RetainedThen(a, b, removed, n - 1);
      assert (a + b)[|a| + n - 1] == b[n - 1];
    }
  }

  lemma {:induction false} RetainedPrefix(a: seq<Unit>, b: seq<Unit>, removed: multiset<Id>, n: nat)
    requires n <= |a|
    ensures Retained(a + b, removed, n) == Retained(a, removed, n)
  {
    if n > 0 {
      RetainedPrefix(a, b, removed, n - 1);
    }
  }

  lemma {:induction false} RetainedAll(units: seq<Unit>, removed: multiset<Id>, n: nat)
    requires n <= |units| && forall i :: 0 <= i < |units| ==> units[i].id !in removed
    ensures Retained(units, removed, n) == units[..n]
  {
    if n > 0 {
      RetainedAll(units, removed, n - 1);
    }
  }

  lemma {:induction false} RetainedIn(units: seq<Unit>, removed: multiset<Id>, n: nat)
    requires n <= |units|
    ensures forall u :: u in Retained(units, removed, n) <==> u in units[..n] && u.id !in removed
  {
    if n > 0 {
      RetainedIn(units, removed, n - 1);
      assert units[..n] == units[..n - 1] + [units[n - 1]];
    }
  }

  lemma {:induction false} IdIn(units: seq<Unit>, n: nat, id: Id)
    requires n <= |units|
    ensures id in IdsOf(units, n) <==> exists i :: 0 <= i < n && units[i].id == id
  {
    if n > 0 {
      IdIn(units, n - 1, id);
    }
  }

  // ---- Where a complete table starts

  lemma {:induction false} StartBelow(parts: seq<Part>, n: nat, i: nat)
    requires i < n <= |parts|
    ensures StartOf(parts, n) <= PartStart(parts[i])
  {
    if i < n - 1 {
      StartBelow(parts, n - 1, i);
    }
  }

  lemma {:induction false} StartAbove(parts: seq<Part>, n: nat, least: nat)
    requires n <= |parts| && least <= LastStart && forall i :: 0 <= i < |parts| ==> least <= PartStart(parts[i])
    ensures least <= StartOf(parts, n) <= LastStart
  {
    if n > 0 {
      StartAbove(parts, n - 1, least);
    }
  }

  lemma {:induction false} StartCapped(parts: seq<Part>, n: nat)
    requires n <= |parts|
    ensures StartOf(parts, n) <= LastStart
  {
    if n > 0 {
      StartCapped(parts, n - 1);
    }
  }

  ghost predicate PartsFrom(parts: seq<Part>, least: nat) {
    forall i :: 0 <= i < |parts| ==> least <= PartStart(parts[i])
  }

  lemma {:induction false} PrimaryFrom(parts: seq<Part>, n: nat, least: nat)
    requires n <= |parts| && least <= StartOf(parts, |parts|)
    ensures PartsFrom(PrimaryParts(parts, n), least)
  {
    hide PartStart;
    if n > 0 {
      PrimaryFrom(parts, n - 1, least);
      StartBelow(parts, |parts|, n - 1);
    }
  }

  lemma {:induction false} UnitsPrimaryFrom(units: seq<Unit>, n: nat, least: nat)
    requires n <= |units| && forall i :: 0 <= i < |units| ==> least <= UnitStart(units[i])
    ensures PartsFrom(UnitsPrimary(units, n), least)
  {
    hide PartStart, StartOf;
    if n > 0 {
      UnitsPrimaryFrom(units, n - 1, least);
      PrimaryFrom(units[n - 1].parts, |units[n - 1].parts|, least);
    }
  }

  /** A complete table starts no earlier than its units. */
  lemma {:induction false} CompleteStarts(t: Tools, table: Table, candidates: seq<Unit>, least: nat)
    requires candidates != [] && forall i :: 0 <= i < |candidates| ==> least <= UnitStart(candidates[i])
    ensures least <= UnitStart(Complete(t, table, candidates))
  {
    hide PartStart, StartOf;
    StartCapped(candidates[0].parts, |candidates[0].parts|);
    var parts := UnitsPrimary(candidates, |candidates|);
    UnitsPrimaryFrom(candidates, |candidates|, least);
    var sorted := Sorting.SortBy(parts, PartKey);
    var numbered := Numbered(sorted);
    forall i | 0 <= i < |numbered| ensures least <= PartStart(numbered[i]) {
      Sorting.MemberOfEqualMultisets(sorted, parts, sorted[i]);
      SameStart(sorted[i], numbered[i]);
    }
    StartAbove(numbered, |numbered|, least);
  }

  lemma {:induction false} SameStart(a: Part, b: Part)
    requires a.starts == b.starts
    ensures PartStart(a) == PartStart(b)
  {
  }

  // ---- One table packed

  function LeastStart(units: seq<Unit>, n: nat): nat
    requires 0 < n <= |units|
  {
    if n == 1 then UnitStart(units[0]) else Min(LeastStart(units, n - 1), UnitStart(units[n - 1]))
  }

  lemma {:induction false} LeastIsLeast(units: seq<Unit>, n: nat)
    requires 0 < n <= |units|
    ensures forall i :: 0 <= i < n ==> LeastStart(units, n) <= UnitStart(units[i])
    ensures exists i :: 0 <= i < n && LeastStart(units, n) == UnitStart(units[i])
  {
    hide UnitStart;
    if n > 1 {
      LeastIsLeast(units, n - 1);
      var i :| 0 <= i < n - 1 && LeastStart(units, n - 1) == UnitStart(units[i]);
      assert LeastStart(units, n) == UnitStart(units[i]) || LeastStart(units, n) == UnitStart(units[n - 1]);
    } else {
      assert LeastStart(units, n) == UnitStart(units[0]);
    }
  }

  /** Where the units that start at or after a position begin. */
  lemma {:induction false} FirstFrom(units: seq<Unit>, least: nat, n: nat) returns (p: nat)
    requires n <= |units| && Sorting.Sorted(units, UnitKey)
    requires forall i :: n <= i < |units| ==> least <= UnitStart(units[i])
    ensures p <= n && (forall i :: 0 <= i < p ==> UnitStart(units[i]) < least)
    ensures forall i :: p <= i < |units| ==> least <= UnitStart(units[i])
  {
    hide UnitStart;
    if n > 0 && least <= UnitStart(units[n - 1]) {
      p := FirstFrom(units, least, n - 1);
    } else {
      p := n;
      if n > 0 {
        forall i | 0 <= i < n ensures UnitStart(units[i]) < least {
          assert Sorting.Leq(UnitKey(units[i]), UnitKey(units[n - 1]));
        }
      }
    }
  }

  lemma {:induction false} ReplacedSorted(t: Tools, units: seq<Unit>, table: Table, candidates: seq<Unit>)
    ensures Sorting.Sorted(Replaced(t, units, table, candidates), UnitKey)
  {
    hide Retained, Complete, IdsOf;
    Sorting.SortBySorted(Retained(units, IdsOf(candidates, |candidates|), |units|) + [Complete(t, table, candidates)], UnitKey);
  }

  /** Packing a table keeps the units that start before it where they are. */
  lemma {:induction false} ReplacedPrefix(t: Tools, units: seq<Unit>, table: Table, candidates: seq<Unit>, p: nat, least: nat) returns (rest: seq<Unit>)
    requires Sorting.Sorted(units, UnitKey) && p <= |units| && candidates != []
    requires forall i :: 0 <= i < p ==> UnitStart(units[i]) < least && units[i].id !in IdsOf(candidates, |candidates|)
    requires forall i :: p <= i < |units| ==> least <= UnitStart(units[i])
    requires forall i :: 0 <= i < |candidates| ==> least <= UnitStart(candidates[i])
    ensures Replaced(t, units, table, candidates) == units[..p] + rest
    ensures forall u :: u in rest ==> u in units[p..] || u == Complete(t, table, candidates)
  {
    hide UnitStart, Complete, IdsOf, Retained;
    var removed, complete := IdsOf(candidates, |candidates|), Complete(t, table, candidates);
    var first := units[..p];
    var kept := RetainedRest(units, removed, p);
    CompleteStarts(t, table, candidates, least);
    B.Associative(first, kept, [complete]);
    var later := kept + [complete];
    forall i, j | 0 <= i < |first| && 0 <= j < |later| ensures Sorting.Leq(UnitKey(first[i]), UnitKey(later[j])) {
      if j < |kept| {
        assert Among(units, p, kept[j]);
        var m :| p <= m < |units| && units[m] == kept[j];
      }
    }
    SortedPrefix(units, p);
    SortAfter(first, later);
    rest := Sorting.SortBy(later, UnitKey);
    forall u | u in rest ensures u in units[p..] || u == complete {
      Sorting.MemberOfEqualMultisets(rest, later, u);
      if u != complete {
        assert u in kept;
        var j :| 0 <= j < |kept| && kept[j] == u;
        assert Among(units, p, kept[j]);
        var m :| p <= m < |units| && units[m] == kept[j];
        assert units[p..][m - p] == u;
      }
    }
  }

  ghost predicate Among(units: seq<Unit>, p: nat, u: Unit) {
    exists m :: p <= m < |units| && units[m] == u
  }

  /** Where nothing of the first p units is removed, removing keeps them and some of the rest. */
  lemma {:induction false} RetainedRest(units: seq<Unit>, removed: multiset<Id>, p: nat) returns (kept: seq<Unit>)
    requires p <= |units| && forall i :: 0 <= i < p ==> units[i].id !in removed
    ensures Retained(units, removed, |units|) == units[..p] + kept
    ensures forall j :: 0 <= j < |kept| ==> Among(units, p, kept[j])
  {
    hide Retained;
    var first, later := units[..p], units[p..];
    assert units == first + later;
    RetainedThen(first, later, removed, |later|);
    RetainedAll(first, removed, p);
    assert first[..p] == first && later[..|later|] == later;
    kept := Retained(later, removed, |later|);
    RetainedIn(later, removed, |later|);
    forall j | 0 <= j < |kept| ensures Among(units, p, kept[j]) {
      assert kept[j] in later;
      var m :| 0 <= m < |later| && later[m] == kept[j];
      assert units[p + m] == kept[j];
    }
  }

  lemma {:induction false} SortedPrefix(units: seq<Unit>, p: nat)
    requires Sorting.Sorted(units, UnitKey) && p <= |units|
    ensures Sorting.Sorted(units[..p], UnitKey)
  {
  }

  lemma {:induction false} FreshIn(units: seq<Unit>, table: Table)
    ensures forall u :: u in Fresh(units, table) ==> u in units && u.block in table.rows
  {
    var positions := RowPositions(units, table.rows, |table.rows|);
    UnitsAtIn(units, positions, |positions|);
  }

  lemma {:induction false} UnitsAtIn(units: seq<Unit>, positions: seq<nat>, n: nat)
    requires n <= |positions| && forall i :: 0 <= i < |positions| ==> positions[i] < |units|
    ensures |UnitsAt(units, positions, n)| == n
    ensures forall i :: 0 <= i < n ==> UnitsAt(units, positions, n)[i] == units[positions[i]]
  {
    if n > 0 {
      UnitsAtIn(units, positions, n - 1);
    }
  }

  /** One more table packed leaves the units of the tables before it in place. */
  lemma {:induction false} PackKeepsPlaces(t: Tools, units: seq<Unit>, after: seq<Unit>, tables: seq<Table>, k: nat, p: nat) returns (q: nat)
    requires k < |tables| && Laid(units, tables) && SamePlaces(units, after, tables, k + 1, p) && Sorting.Sorted(after, UnitKey)
    requires Fresh(after, tables[k]) != []
    ensures
      var next := Replaced(t, after, tables[k], Fresh(after, tables[k]));
      SamePlaces(units, next, tables, k, q) && Sorting.Sorted(next, UnitKey)
  {
    hide UnitStart, Replaced, RowPositions, UnitsAt, IdsOf;
    var table, candidates := tables[k], Fresh(after, tables[k]);
    CacheSelects(units, after, tables, k, p);
    FreshIn(units, table);
    FreshIn(after, table);
    LeastIsLeast(candidates, |candidates|);
    var least := LeastStart(candidates, |candidates|);
    q := FirstFrom(after, least, |after|);
    var first :| 0 <= first < |candidates| && least == UnitStart(candidates[first]);
    CandidateBefore(units, after, tables, k, p, candidates[first]);
    assert q < p;
    forall i | 0 <= i < q ensures after[i] == units[i] && after[i].id !in IdsOf(candidates, |candidates|) {
      assert after[i] == after[..p][i] == units[i];
      NotCandidate(units, candidates, i, least);
    }
    var rest := ReplacedPrefix(t, after, table, candidates, q, least);
    ReplacedSorted(t, after, table, candidates);
    PlacesStay(t, units, after, tables, k, p, q, rest, candidates[first]);
  }

  lemma {:induction false} PlacesStay(
      t: Tools, units: seq<Unit>, after: seq<Unit>, tables: seq<Table>, k: nat, p: nat, q: nat, rest: seq<Unit>, candidate: Unit)
    requires k < |tables| && Laid(units, tables) && SamePlaces(units, after, tables, k + 1, p) && q < p <= |units| && p <= |after|
    requires Sorting.Sorted(units, UnitKey) && candidate in units && candidate.block in tables[k].rows
    requires forall i :: q <= i < |after| ==> UnitStart(candidate) <= UnitStart(after[i])
    requires forall u :: u in rest ==> u in after[q..] || u.block == tables[k].id
    ensures SamePlaces(units, after[..q] + rest, tables, k, q)
  {
    hide UnitStart, Laid, SamePlaces, RowOf;
    var next := after[..q] + rest;
    SharedPrefix(units, after, tables, k + 1, p, q);
    forall i | q <= i < |units| ensures !RowOf(tables, k, units[i].block) {
      assert i > q ==> Sorting.Leq(UnitKey(units[q]), UnitKey(units[i]));
      LateUnit(units, tables, k, candidate, i);
    }
    forall i | q <= i < |next| ensures !RowOf(tables, k, next[i].block) {
      assert next[i] == rest[i - q] && next[i] in rest;
      if next[i] in after[q..] {
        var j :| q <= j < |after| && after[j] == next[i];
        LateAfter(units, after, tables, k, p, candidate, j);
      } else {
        NoRow(units, tables, k, next[i].block);
      }
    }
    assert next[..q] == after[..q] == units[..q];
    PlacesAre(units, next, tables, k, q);
  }

  lemma {:induction false} SharedPrefix(units: seq<Unit>, after: seq<Unit>, tables: seq<Table>, k: nat, p: nat, q: nat)
    requires k <= |tables| && SamePlaces(units, after, tables, k, p) && q < p
    ensures p <= |units| && p <= |after| && after[..q] == units[..q] && after[q] == units[q]
  {
    assert after[..q] == after[..p][..q] && units[..q] == units[..p][..q];
    assert after[q] == after[..p][q] && units[q] == units[..p][q];
  }

  lemma {:induction false} NoRow(units: seq<Unit>, tables: seq<Table>, k: nat, block: Id)
    requires Laid(units, tables) && k < |tables| && block == tables[k].id
    ensures !RowOf(tables, k, block)
  {
  }

  lemma {:induction false} PlacesAre(units: seq<Unit>, next: seq<Unit>, tables: seq<Table>, k: nat, q: nat)
    requires k <= |tables| && q <= |units| && q <= |next| && next[..q] == units[..q]
    requires forall i :: q <= i < |units| ==> !RowOf(tables, k, units[i].block)
    requires forall i :: q <= i < |next| ==> !RowOf(tables, k, next[i].block)
    ensures SamePlaces(units, next, tables, k, q)
  {
  }

  lemma {:induction false} LateAfter(units: seq<Unit>, after: seq<Unit>, tables: seq<Table>, k: nat, p: nat, candidate: Unit, j: nat)
    requires k < |tables| && Laid(units, tables) && SamePlaces(units, after, tables, k + 1, p) && j < |after|
    requires candidate in units && candidate.block in tables[k].rows && UnitStart(candidate) <= UnitStart(after[j])
    ensures !RowOf(tables, k, after[j].block)
  {
    hide UnitStart, Laid;
    if j < p {
      assert after[j] == after[..p][j] == units[j];
      LateUnit(units, tables, k, candidate, j);
    } else {
      assert !RowOf(tables, k + 1, after[j].block);
    }
  }

  lemma {:induction false} CandidateBefore(units: seq<Unit>, after: seq<Unit>, tables: seq<Table>, k: nat, p: nat, u: Unit)
    requires k < |tables| && SamePlaces(units, after, tables, k + 1, p) && u in after && u.block in tables[k].rows
    ensures exists i :: 0 <= i < p && after[i] == u
  {
    var i :| 0 <= i < |after| && after[i] == u;
    assert RowOf(tables, k + 1, u.block);
  }

  lemma {:induction false} NotCandidate(units: seq<Unit>, candidates: seq<Unit>, i: nat, least: nat)
    requires DistinctIds(units) && i < |units| && UnitStart(units[i]) < least
    requires forall c :: c in candidates ==> c in units
    requires forall c :: 0 <= c < |candidates| ==> least <= UnitStart(candidates[c])
    ensures units[i].id !in IdsOf(candidates, |candidates|)
  {
    hide UnitStart;
    IdIn(candidates, |candidates|, units[i].id);
    if c :| 0 <= c < |candidates| && candidates[c].id == units[i].id {
      assert candidates[c] in candidates;
      var j :| 0 <= j < |units| && units[j] == candidates[c];
    }
  }

  lemma {:induction false} LateUnit(units: seq<Unit>, tables: seq<Table>, k: nat, candidate: Unit, i: nat)
    requires Laid(units, tables) && k < |tables| && i < |units|
    requires candidate in units && candidate.block in tables[k].rows && UnitStart(candidate) <= UnitStart(units[i])
    ensures !RowOf(tables, k, units[i].block)
  {
    hide UnitStart;
    var v :| 0 <= v < |units| && units[v] == candidate;
    assert units[v].block in tables[k].rows;
  }

  // ---- The packer

  /** The positions of every block's units, looked up once. */
  ghost predicate Indexes(index: map<Id, seq<nat>>, units: seq<Unit>, n: nat)
    requires n <= |units|
  {
    forall block: Id :: At(index, block) == Positions(units, block, n)
  }

  function At(index: map<Id, seq<nat>>, block: Id): seq<nat> {
    if block in index then index[block] else []
  }

  lemma {:induction false} IndexesNothing(units: seq<Unit>)
    ensures Indexes(map[], units, 0)
  {
  }

  lemma {:induction false} IndexesNext(index: map<Id, seq<nat>>, units: seq<Unit>, i: nat)
    requires i < |units| && Indexes(index, units, i)
    ensures
      var block := units[i].block;
      Indexes(index[block := At(index, block) + [i]], units, i + 1)
  {
    hide Positions;
    var block := units[i].block;
    var next := index[block := At(index, block) + [i]];
    forall other: Id ensures At(next, other) == Positions(units, other, i + 1) {
      PositionsNext(units, other, i);
      assert At(index, other) == Positions(units, other, i);
    }
  }

  lemma {:induction false} PositionsNext(units: seq<Unit>, block: Id, n: nat)
    requires n < |units|
    ensures Positions(units, block, n + 1) == Positions(units, block, n) + if units[n].block == block then [n] else []
  {
  }

  method IndexUnits(units: seq<Unit>) returns (index: map<Id, seq<nat>>)
    ensures Indexes(index, units, |units|)
  {
    hide Indexes;
    index := map[];
    IndexesNothing(units);
    for i := 0 to |units|
      invariant Indexes(index, units, i)
    {
      var block := units[i].block;
      IndexesNext(index, units, i);
      index := index[block := At(index, block) + [i]];
    }
  }

  /** The cached positions of a table's rows. */
  method LookUp(index: map<Id, seq<nat>>, ghost units: seq<Unit>, table: Table) returns (positions: seq<nat>)
    requires Indexes(index, units, |units|)
    ensures positions == RowPositions(units, table.rows, |table.rows|)
  {
    hide Positions;
    positions := [];
    for i := 0 to |table.rows|
      invariant positions == RowPositions(units, table.rows, i)
    {
      assert At(index, table.rows[i]) == Positions(units, table.rows[i], |units|);
      positions := positions + At(index, table.rows[i]);
    }
  }

  method SelectUnits(units: seq<Unit>, positions: seq<nat>) returns (selected: seq<Unit>)
    ensures selected == UnitsAt(units, positions, |positions|)
  {
    selected := [];
    for i := 0 to |positions|
      invariant selected == UnitsAt(units, positions, i)
    {
      if positions[i] < |units| {
        selected := selected + [units[positions[i]]];
      }
    }
  }

  method ReplaceUnits(units: seq<Unit>, removed: multiset<Id>, complete: Unit) returns (r: seq<Unit>)
    ensures r == Sorting.SortBy(Retained(units, removed, |units|) + [complete], UnitKey)
  {
    r := [];
    for i := 0 to |units|
      invariant r == Retained(units, removed, i)
    {
      if units[i].id !in removed {
        r := r + [units[i]];
      }
    }
    r := Sorting.SortBy(r + [complete], UnitKey);
  }

  /**
   * `pack_small_tables`: positions are looked up once, tables are packed from right to left. The
   * cached positions stay right: the result is that of looking every table up afresh, whatever the
   * counter answers.
   */
  method PackTables(t: Tools, units: seq<Unit>, tables: seq<Table>) returns (r: Result<seq<Unit>>)
    requires Laid(units, tables)
    ensures r == Packed(t, units, tables, 0)
  {
    hide Laid, SamePlaces, Indexes, Complete, RowPositions, UnitsAt, IdsOf, Retained;
    var index := IndexUnits(units);
    var after := units;
    var k: nat := |tables|;
    ghost var p: nat := |units|;
    StartPlaces(units, tables);
    while k > 0
      invariant k <= |tables|
      invariant Packed(t, units, tables, k) == Ok(after)
      invariant SamePlaces(units, after, tables, k, p) && Sorting.Sorted(after, UnitKey)
    {
      k := k - 1;
      var table := tables[k];
      CacheSelects(units, after, tables, k, p);
      var positions := LookUp(index, units, table);
      var candidates := SelectUnits(after, positions);
      assert candidates == Fresh(after, table);
      ghost var step := PackedFrom(t, after, table, candidates);
      assert Packed(t, units, tables, k) == step;
      FewerTables(units, after, tables, k, p);
      if candidates != [] {
        var complete := CompleteTable(t, table, candidates);
        var fits := t.fits(complete);
        if fits.Err? {
          PackedStops(t, units, tables, 0, k);
          return Err(fits.error);
        }
        if fits.value {
          ghost var q := PackKeepsPlaces(t, units, after, tables, k, p);
          after := ReplaceUnits(after, IdsOf(candidates, |candidates|), complete);
          p := q;
        }
      }
    }
    r := Ok(after);
  }

  lemma {:induction false} StartPlaces(units: seq<Unit>, tables: seq<Table>)
    requires Laid(units, tables)
    ensures SamePlaces(units, units, tables, |tables|, |units|) && Sorting.Sorted(units, UnitKey)
  {
  }

  lemma {:induction false} FewerTables(units: seq<Unit>, after: seq<Unit>, tables: seq<Table>, k: nat, p: nat)
    requires k < |tables| && SamePlaces(units, after, tables, k + 1, p)
    ensures SamePlaces(units, after, tables, k, p)
  {
    forall i | p <= i < |units| ensures !RowOf(tables, k, units[i].block) {
      assert !RowOf(tables, k + 1, units[i].block);
    }
    forall i | p <= i < |after| ensures !RowOf(tables, k, after[i].block) {
      assert !RowOf(tables, k + 1, after[i].block);
    }
  }

  lemma {:induction false} PackedStops(t: Tools, units: seq<Unit>, tables: seq<Table>, k: nat, m: nat)
    requires k <= m <= |tables| && Packed(t, units, tables, m).Err?
    ensures Packed(t, units, tables, k) == Packed(t, units, tables, m)
    decreases m - k
  {
    hide PackedFrom;
    if k < m {
      PackedStops(t, units, tables, k + 1, m);
    }
  }

  // ---- What packing conserves

  /** A primary part without its place among its unit's parts. */
  type Owned = (Id, seq<nat>)

  ghost function PartOwns(part: Part): multiset<Owned> {
    if part.primary then multiset{(part.id, part.starts)} else multiset{}
  }

  ghost function UnitOwns(unit: Unit): multiset<Owned> {
    Sorting.Total(unit.parts, PartOwns)
  }

  lemma {:induction false} PrimaryOwns(parts: seq<Part>, n: nat)
    requires n <= |parts|
    ensures Sorting.Total(PrimaryParts(parts, n), PartOwns) == Sorting.Total(parts[..n], PartOwns)
  {
    if n > 0 {
      PrimaryOwns(parts, n - 1);
      assert parts[..n] == parts[..n - 1] + [parts[n - 1]];
      Sorting.TotalConcat(parts[..n - 1], [parts[n - 1]], PartOwns);
      Sorting.TotalOne(parts[n - 1], PartOwns);
      if parts[n - 1].primary {
        Sorting.TotalConcat(PrimaryParts(parts, n - 1), [parts[n - 1]], PartOwns);
      } else {
        assert PrimaryParts(parts, n) == PrimaryParts(parts, n - 1);
      }
    }
  }

  lemma {:induction false} UnitsPrimaryOwns(units: seq<Unit>, n: nat)
    requires n <= |units|
    ensures Sorting.Total(UnitsPrimary(units, n), PartOwns) == Sorting.Total(units[..n], UnitOwns)
  {
    hide PrimaryParts, PartOwns;
    if n > 0 {
      UnitsPrimaryOwns(units, n - 1);
      var parts := units[n - 1].parts;
      PrimaryOwns(parts, |parts|);
      assert parts[..|parts|] == parts;
      assert units[..n] == units[..n - 1] + [units[n - 1]];
      Sorting.TotalConcat(units[..n - 1], [units[n - 1]], UnitOwns);
      Sorting.TotalOne(units[n - 1], UnitOwns);
      Sorting.TotalConcat(UnitsPrimary(units, n - 1), PrimaryParts(parts, |parts|), PartOwns);
    }
  }

  /** A complete table owns what its units own. */
  lemma {:induction false} CompleteOwns(t: Tools, table: Table, candidates: seq<Unit>)
    ensures UnitOwns(Complete(t, table, candidates)) == Sorting.Total(candidates, UnitOwns)
  {
    hide UnitsPrimary;
    var parts := UnitsPrimary(candidates, |candidates|);
    var sorted := Sorting.SortBy(parts, PartKey);
    UnitsPrimaryOwns(candidates, |candidates|);
    assert candidates[..|candidates|] == candidates;
    Sorting.TotalMultiset(sorted, parts, PartOwns);
    Sorting.TotalSame(Numbered(sorted), sorted, PartOwns);
  }

  function Removed(units: seq<Unit>, removed: multiset<Id>, n: nat): seq<Unit>
    requires n <= |units|
  {
    if n == 0 then [] else Removed(units, removed, n - 1) + if units[n - 1].id in removed then [units[n - 1]] else []
  }

  lemma {:induction false} SplitOwns(units: seq<Unit>, removed: multiset<Id>, n: nat)
    requires n <= |units|
    ensures Sorting.Total(units[..n], UnitOwns)
         == Sorting.Total(Retained(units, removed, n), UnitOwns) + Sorting.Total(Removed(units, removed, n), UnitOwns)
  {
    hide UnitOwns, Sorting.Total;
    if n == 0 {
      assert Retained(units, removed, 0) == Removed(units, removed, 0) == units[..0] == [];
      NoneOwned();
    } else {
      SplitOwns(units, removed, n - 1);
      var u := units[n - 1];
      assert units[..n] == units[..n - 1] + [u];
      Sorting.TotalConcat(units[..n - 1], [u], UnitOwns);
      if u.id in removed {
        Sorting.TotalConcat(Removed(units, removed, n - 1), [u], UnitOwns);
        assert Retained(units, removed, n) == Retained(units, removed, n - 1);
      } else {
        Sorting.TotalConcat(Retained(units, removed, n - 1), [u], UnitOwns);
        assert Removed(units, removed, n) == Removed(units, removed, n - 1);
      }
    }
  }

  lemma {:induction false} NoneOwned()
    ensures Sorting.Total([], UnitOwns) == multiset{}
  {
  }

  lemma {:induction false} RemovedAre(units: seq<Unit>, removed: multiset<Id>, n: nat)
    requires n <= |units| && DistinctIds(units)
    ensures forall u :: u in Removed(units, removed, n) <==> u in units[..n] && u.id in removed
    ensures forall u :: multiset(Removed(units, removed, n))[u] <= 1
  {
    if n > 0 {
      RemovedAre(units, removed, n - 1);
      assert units[..n] == units[..n - 1] + [units[n - 1]];
      if units[n - 1].id in removed {
        assert units[n - 1] !in units[..n - 1];
        assert units[n - 1] !in multiset(Removed(units, removed, n - 1));
      }
    }
  }

  ghost predicate DistinctRows(table: Table) {
    forall i, j :: 0 <= i < j < |table.rows| ==> table.rows[i] != table.rows[j]
  }

  ghost predicate DistinctPositions(positions: seq<nat>) {
    forall i, j :: 0 <= i < j < |positions| ==> positions[i] != positions[j]
  }

  lemma {:induction false} RowPositionsDistinct(units: seq<Unit>, table: Table, n: nat)
    requires n <= |table.rows| && DistinctRows(table)
    ensures DistinctPositions(RowPositions(units, table.rows, n))
    ensures forall p: nat :: p in RowPositions(units, table.rows, n) <==> p < |units| && units[p].block in table.rows[..n]
  {
    if n > 0 {
      RowPositionsDistinct(units, table, n - 1);
      assert table.rows[..n] == table.rows[..n - 1] + [table.rows[n - 1]];
      var before, own := RowPositions(units, table.rows, n - 1), Positions(units, table.rows[n - 1], |units|);
      forall i, j | 0 <= i < j < |before + own| ensures (before + own)[i] != (before + own)[j] {
        if i < |before| && |before| <= j {
          assert before[i] in before;
          assert units[before[i]].block in table.rows[..n - 1];
        }
      }
    }
  }

  lemma {:induction false} FreshAre(units: seq<Unit>, table: Table)
    requires DistinctIds(units) && DistinctRows(table)
    ensures forall u :: u in Fresh(units, table) <==> u in units && u.block in table.rows
    ensures forall u :: multiset(Fresh(units, table))[u] <= 1
  {
    hide RowPositions, UnitsAt;
    var positions := RowPositions(units, table.rows, |table.rows|);
    var found := Fresh(units, table);
    RowPositionsDistinct(units, table, |table.rows|);
    assert table.rows[..|table.rows|] == table.rows;
    UnitsAtIn(units, positions, |positions|);
    forall u ensures u in found <==> u in units && u.block in table.rows {
      if u in units && u.block in table.rows {
        var p :| 0 <= p < |units| && units[p] == u;
        assert p in positions;
        var i :| 0 <= i < |positions| && positions[i] == p;
        assert found[i] == u;
      }
    }
    forall i, j | 0 <= i < j < |found| ensures found[i] != found[j] {
    }
    OnceEach(found, |found|);
    assert found[..|found|] == found;
  }

  lemma {:induction false} OnceEach(units: seq<Unit>, n: nat)
    requires n <= |units| && forall i, j :: 0 <= i < j < |units| ==> units[i] != units[j]
    ensures forall u :: multiset(units[..n])[u] <= 1
  {
    if n > 0 {
      OnceEach(units, n - 1);
      assert units[..n] == units[..n - 1] + [units[n - 1]];
      assert units[n - 1] !in units[..n - 1];
      assert units[n - 1] !in multiset(units[..n - 1]);
    }
  }

  /** Packing one table conserves what all units own, up to the numbering of parts. */
  lemma {:induction false} ReplacedOwns(t: Tools, units: seq<Unit>, table: Table)
    requires DistinctIds(units) && DistinctRows(table)
    ensures Sorting.Total(Replaced(t, units, table, Fresh(units, table)), UnitOwns) == Sorting.Total(units, UnitOwns)
  {
    hide UnitOwns, Fresh, Complete, DistinctIds, IdsOf, Removed, Retained;
    var candidates := Fresh(units, table);
    var ids := IdsOf(candidates, |candidates|);
    var removed, retained := Removed(units, ids, |units|), Retained(units, ids, |units|);
    SplitOwns(units, ids, |units|);
    RemovedAre(units, ids, |units|);
    FreshAre(units, table);
    assert units[..|units|] == units;
    forall u ensures multiset(removed)[u] == multiset(candidates)[u] {
      CandidateById(units, candidates, u);
      assert u in removed <==> u in multiset(removed);
      assert u in candidates <==> u in multiset(candidates);
    }
    Sorting.TotalMultiset(removed, candidates, UnitOwns);
    CompleteOwns(t, table, candidates);
    Sorting.TotalConcat(retained, [Complete(t, table, candidates)], UnitOwns);
    Sorting.TotalOne(Complete(t, table, candidates), UnitOwns);
    Sorting.TotalMultiset(Replaced(t, units, table, candidates), retained + [Complete(t, table, candidates)], UnitOwns);
  }

  lemma {:induction false} CandidateById(units: seq<Unit>, candidates: seq<Unit>, u: Unit)
    requires DistinctIds(units) && forall c :: c in candidates ==> c in units
    ensures u in candidates <==> u in units && u.id in IdsOf(candidates, |candidates|)
  {
    IdIn(candidates, |candidates|, u.id);
    if u in units && u.id in IdsOf(candidates, |candidates|) {
      var i :| 0 <= i < |candidates| && candidates[i].id == u.id;
      assert candidates[i] in candidates;
      var j :| 0 <= j < |units| && units[j] == candidates[i];
      var k :| 0 <= k < |units| && units[k] == u;
      assert units[j].id == units[k].id;
    }
  }

  /** Identities of complete tables are new, and tell tables apart. */
  ghost predicate NewIdentities(t: Tools, units: seq<Unit>, tables: seq<Table>) {
    && (forall i, k, ids :: 0 <= i < |units| && 0 <= k < |tables| ==> t.identify(tables[k].id, ids) != units[i].id)
    && forall j, k, a, b :: 0 <= j < k < |tables| ==> t.identify(tables[j].id, a) != t.identify(tables[k].id, b)
  }

  /** Every unit is one of the first, or a complete table from the k-th on. */
  ghost predicate FromTables(t: Tools, units: seq<Unit>, after: seq<Unit>, tables: seq<Table>, k: nat)
    requires k <= |tables|
  {
    forall i :: 0 <= i < |after| ==>
      after[i] in units || exists j, ids :: k <= j < |tables| && after[i].id == t.identify(tables[j].id, ids)
  }

  lemma {:induction false} ReplacedDistinct(t: Tools, units: seq<Unit>, after: seq<Unit>, tables: seq<Table>, k: nat, candidates: seq<Unit>)
    requires k < |tables| && NewIdentities(t, units, tables) && DistinctIds(after) && FromTables(t, units, after, tables, k + 1)
    ensures
      var next := Replaced(t, after, tables[k], candidates);
      DistinctIds(next) && FromTables(t, units, next, tables, k)
  {
    hide UnitKey, IdsOf, DistinctIds, Retained, NewIdentities, FromTables;
    var removed, complete := IdsOf(candidates, |candidates|), Complete(t, tables[k], candidates);
    var retained := Retained(after, removed, |after|);
    RetainedIn(after, removed, |after|);
    assert after[..|after|] == after;
    RetainedDistinct(after, removed, |after|);
    var all, next := retained + [complete], Replaced(t, after, tables[k], candidates);
    OneMoreDistinct(t, units, after, tables, k, retained, complete, removed);
    DistinctPermuted(all, next);
    forall u ensures u in next ==> u in after || u == complete {
      Sorting.MemberOfEqualMultisets(next, all, u);
    }
    FromOneMore(t, units, after, tables, k, next, complete, removed);
  }

  lemma {:induction false} OneMoreDistinct(
      t: Tools, units: seq<Unit>, after: seq<Unit>, tables: seq<Table>, k: nat, retained: seq<Unit>, complete: Unit, ids: multiset<Id>)
    requires k < |tables| && NewIdentities(t, units, tables) && FromTables(t, units, after, tables, k + 1)
    requires DistinctIds(retained) && (forall u :: u in retained ==> u in after) && complete.id == t.identify(tables[k].id, ids)
    ensures DistinctIds(retained + [complete])
  {
    forall i | 0 <= i < |retained| ensures retained[i].id != complete.id {
      assert retained[i] in after;
      var m :| 0 <= m < |after| && after[m] == retained[i];
      assert after[m] in units || exists j, ids :: k + 1 <= j < |tables| && after[m].id == t.identify(tables[j].id, ids);
    }
  }

  lemma {:induction false} FromOneMore(
      t: Tools, units: seq<Unit>, after: seq<Unit>, tables: seq<Table>, k: nat, next: seq<Unit>, complete: Unit, ids: multiset<Id>)
    requires k < |tables| && FromTables(t, units, after, tables, k + 1) && complete.id == t.identify(tables[k].id, ids)
    requires forall u :: u in next ==> u in after || u == complete
    ensures FromTables(t, units, next, tables, k)
  {
    forall i | 0 <= i < |next|
      ensures next[i] in units || exists j, ids :: k <= j < |tables| && next[i].id == t.identify(tables[j].id, ids)
    {
      if next[i] != complete {
        assert next[i] in after;
        var m :| 0 <= m < |after| && after[m] == next[i];
        if after[m] !in units {
          var j, ids :| k + 1 <= j < |tables| && after[m].id == t.identify(tables[j].id, ids);
          assert k <= j < |tables|;
        }
      } else {
        assert next[i].id == t.identify(tables[k].id, ids);
      }
    }
  }

  lemma {:induction false} RetainedDistinct(units: seq<Unit>, removed: multiset<Id>, n: nat)
    requires n <= |units| && DistinctIds(units)
    ensures DistinctIds(Retained(units, removed, n))
  {
    if n > 0 {
      RetainedDistinct(units, removed, n - 1);
      RetainedIn(units, removed, n - 1);
      var before := Retained(units, removed, n - 1);
      forall i | 0 <= i < |before| ensures before[i].id != units[n - 1].id {
        assert before[i] in units[..n - 1];
      }
    }
  }

  lemma {:induction false} DistinctPermuted(a: seq<Unit>, b: seq<Unit>)
    requires DistinctIds(a) && multiset(a) == multiset(b)
    ensures DistinctIds(b)
  {
    forall i, j | 0 <= i < j < |b| ensures b[i].id != b[j].id {
      Sorting.MemberOfEqualMultisets(a, b, b[i]);
      Sorting.MemberOfEqualMultisets(a, b, b[j]);
      if b[i] == b[j] {
        Sorting.Twice(b, i, j);
        Sorting.Repeats(a, b[i], |a|);
      } else {
        var k :| 0 <= k < |a| && a[k] == b[i];
        var m :| 0 <= m < |a| && a[m] == b[j];
      }
    }
  }

  lemma {:induction false} PackedOwnsFrom(t: Tools, units: seq<Unit>, tables: seq<Table>, k: nat)
    requires k <= |tables| && DistinctIds(units) && NewIdentities(t, units, tables) && Packed(t, units, tables, k).Ok?
    requires forall i :: 0 <= i < |tables| ==> DistinctRows(tables[i])
    ensures
      var after := Packed(t, units, tables, k).value;
      && Sorting.Total(after, UnitOwns) == Sorting.Total(units, UnitOwns)
      && DistinctIds(after) && FromTables(t, units, after, tables, k)
    decreases |tables| - k
  {
    hide UnitOwns, Fresh, Replaced, DistinctIds, NewIdentities, FromTables, Complete, DistinctRows;
    if k == |tables| {
      FromThemselves(t, units, tables);
    } else {
      PackedOwnsFrom(t, units, tables, k + 1);
      var after := Packed(t, units, tables, k + 1).value;
      FromMore(t, units, after, tables, k);
      ReplacedOwns(t, after, tables[k]);
      ReplacedDistinct(t, units, after, tables, k, Fresh(after, tables[k]));
    }
  }

  lemma {:induction false} FromThemselves(t: Tools, units: seq<Unit>, tables: seq<Table>)
    ensures FromTables(t, units, units, tables, |tables|)
  {
  }

  lemma {:induction false} FromMore(t: Tools, units: seq<Unit>, after: seq<Unit>, tables: seq<Table>, k: nat)
    requires k < |tables| && FromTables(t, units, after, tables, k + 1)
    ensures FromTables(t, units, after, tables, k)
  {
    forall i | 0 <= i < |after|
      ensures after[i] in units || exists j, ids :: k <= j < |tables| && after[i].id == t.identify(tables[j].id, ids)
    {
      if after[i] !in units {
        var j, ids :| k + 1 <= j < |tables| && after[i].id == t.identify(tables[j].id, ids);
        assert k <= j < |tables|;
      }
    }
  }

  /** Whatever the counter answers, packing conserves the primary parts of all units, up to their numbering. */
  lemma {:induction false} PackedOwns(t: Tools, units: seq<Unit>, tables: seq<Table>)
    requires DistinctIds(units) && NewIdentities(t, units, tables) && Packed(t, units, tables, 0).Ok?
    requires forall i :: 0 <= i < |tables| ==> DistinctRows(tables[i])
    ensures Sorting.Total(Packed(t, units, tables, 0).value, UnitOwns) == Sorting.Total(units, UnitOwns)
  {
    hide UnitOwns, Packed;
    PackedOwnsFrom(t, units, tables, 0);
  }

  lemma {:induction false} LeastBelow(starts: seq<nat>, n: nat)
    requires n <= |starts|
    ensures LeastOf(starts, n, LastStart) <= LastStart && forall i :: 0 <= i < n ==> LeastOf(starts, n, LastStart) <= starts[i]
    ensures LeastOf(starts, n, LastStart) == LastStart || LeastOf(starts, n, LastStart) in starts[..n]
  {
    if n > 0 {
      LeastBelow(starts, n - 1);
      assert starts[..n] == starts[..n - 1] + [starts[n - 1]];
    }
  }

  lemma {:induction false} AllPrimary(units: seq<Unit>, n: nat)
    requires n <= |units|
    ensures forall part :: part in UnitsPrimary(units, n) <==> exists i :: 0 <= i < n && part in units[i].parts && part.primary
  {
    hide PrimaryParts;
    if n > 0 {
      AllPrimary(units, n - 1);
      PartsPrimary(units[n - 1].parts, |units[n - 1].parts|);
      assert units[n - 1].parts[..|units[n - 1].parts|] == units[n - 1].parts;
    }
  }

  lemma {:induction false} PartsPrimary(parts: seq<Part>, n: nat)
    requires n <= |parts|
    ensures forall part :: part in PrimaryParts(parts, n) <==> part in parts[..n] && part.primary
  {
    if n > 0 {
      PartsPrimary(parts, n - 1);
      assert parts[..n] == parts[..n - 1] + [parts[n - 1]];
    }
  }

  /** No position a part owns comes before its start, which is one of them if there are any. */
  ghost predicate Begins(part: Part, start: nat) {
    && (forall i :: 0 <= i < |part.starts| ==> start <= part.starts[i])
    && (start == LastStart || start in part.starts)
  }

  /** A complete table: the primary parts of its units and no others, numbered in the order in which they start. */
  lemma {:induction false} CompleteExactly(t: Tools, table: Table, candidates: seq<Unit>)
    ensures
      var complete := Complete(t, table, candidates);
      && complete.block == table.id && complete.whole && complete.id == t.identify(table.id, IdsOf(candidates, |candidates|))
      && (forall i :: 0 <= i < |complete.parts| ==>
            complete.parts[i].primary && complete.parts[i].ordinal == i && Begins(complete.parts[i], PartStart(complete.parts[i])))
      && (forall i, j :: 0 <= i < j < |complete.parts| ==> PartStart(complete.parts[i]) <= PartStart(complete.parts[j]))
      && forall i, part :: 0 <= i < |candidates| && part in candidates[i].parts && part.primary ==>
           exists k :: 0 <= k < |complete.parts| && complete.parts[k] == part.(ordinal := k)
  {
    hide IdsOf, UnitsPrimary, Begins, PartStart, Numbered;
    var primary := UnitsPrimary(candidates, |candidates|);
    AllPrimary(candidates, |candidates|);
    NumberedAre(primary);
    var numbered := Numbered(Sorting.SortBy(primary, PartKey));
    assert Complete(t, table, candidates).parts == numbered;
    forall i | 0 <= i < |numbered| ensures numbered[i].primary && numbered[i].ordinal == i && Begins(numbered[i], PartStart(numbered[i])) {
    }
    forall i, part | 0 <= i < |candidates| && part in candidates[i].parts && part.primary ensures part in primary {
    }
  }

  lemma {:induction false} NumberedAre(parts: seq<Part>)
    requires forall part :: part in parts ==> part.primary
    ensures
      var numbered := Numbered(Sorting.SortBy(parts, PartKey));
      && (forall i :: 0 <= i < |numbered| ==> numbered[i].primary && numbered[i].ordinal == i && Begins(numbered[i], PartStart(numbered[i])))
      && (forall i, j :: 0 <= i < j < |numbered| ==> PartStart(numbered[i]) <= PartStart(numbered[j]))
      && forall part :: part in parts ==> exists k :: 0 <= k < |numbered| && numbered[k] == part.(ordinal := k)
  {
    hide Begins, PartStart;
    var sorted := Sorting.SortBy(parts, PartKey);
    var numbered := Numbered(sorted);
    StartsSorted(parts);
    forall i | 0 <= i < |sorted| ensures sorted[i].primary && PartStart(numbered[i]) == PartStart(sorted[i]) && Begins(numbered[i], PartStart(numbered[i])) {
      Sorting.MemberOfEqualMultisets(sorted, parts, sorted[i]);
      StartBegins(numbered[i]);
      SameStart(numbered[i], sorted[i]);
    }
    forall part | part in parts ensures exists k :: 0 <= k < |numbered| && numbered[k] == part.(ordinal := k) {
      Sorting.MemberOfEqualMultisets(sorted, parts, part);
      var k :| 0 <= k < |sorted| && sorted[k] == part;
      assert numbered[k] == part.(ordinal := k);
    }
  }

  lemma {:induction false} StartsSorted(parts: seq<Part>)
    ensures
      var sorted := Sorting.SortBy(parts, PartKey);
      forall i, j :: 0 <= i < j < |sorted| ==> PartStart(sorted[i]) <= PartStart(sorted[j])
  {
    hide PartStart;
    Sorting.SortBySorted(parts, PartKey);
    var sorted := Sorting.SortBy(parts, PartKey);
    forall i, j | 0 <= i < j < |sorted| ensures PartStart(sorted[i]) <= PartStart(sorted[j]) {
      assert Sorting.Leq(PartKey(sorted[i]), PartKey(sorted[j]));
    }
  }

  lemma {:induction false} StartBegins(part: Part)
    ensures Begins(part, PartStart(part))
  {
    LeastBelow(part.starts, |part.starts|);
    assert part.starts[..|part.starts|] == part.starts;
  }

  // ---- Which tables are packed

  /** Whether a table has units and all of them fit together. */
  ghost predicate Packs(t: Tools, units: seq<Unit>, table: Table) {
    Fresh(units, table) != [] && t.fits(Complete(t, table, Fresh(units, table))) == Ok(true)
  }

  ghost predicate Refuses(t: Tools, units: seq<Unit>, table: Table, error: Error) {
    Fresh(units, table) != [] && t.fits(Complete(t, table, Fresh(units, table))) == Err(error)
  }

  /** Whether a block is a row of a table from the k-th on that is packed. */
  ghost predicate Taken(t: Tools, units: seq<Unit>, tables: seq<Table>, k: nat, block: Id) {
    exists j :: k <= j < |tables| && Packs(t, units, tables[j]) && block in tables[j].rows
  }

  ghost predicate Made(t: Tools, units: seq<Unit>, tables: seq<Table>, k: nat, u: Unit) {
    exists j :: k <= j < |tables| && Packs(t, units, tables[j]) && u == Complete(t, tables[j], Fresh(units, tables[j]))
  }

  /** The units that are left of those of no packed table, and one complete unit for every packed table. */
  ghost predicate PackedAre(t: Tools, units: seq<Unit>, after: seq<Unit>, tables: seq<Table>, k: nat) {
    forall u :: u in after <==> (u in units && !Taken(t, units, tables, k, u.block)) || Made(t, units, tables, k, u)
  }

  lemma {:induction false} ReplacedAre(t: Tools, units: seq<Unit>, table: Table, u: Unit)
    requires DistinctIds(units) && DistinctRows(table)
    ensures
      u in Replaced(t, units, table, Fresh(units, table))
      <==> (u in units && u.block !in table.rows) || u == Complete(t, table, Fresh(units, table))
  {
    hide Fresh, Complete, DistinctIds, IdsOf, UnitKey, Retained, DistinctRows;
    var candidates := Fresh(units, table);
    var ids := IdsOf(candidates, |candidates|);
    var retained := Retained(units, ids, |units|);
    FreshAre(units, table);
    CandidateById(units, candidates, u);
    RetainedExactly(units, ids, |units|, u);
    assert units[..|units|] == units;
    Sorting.MemberOfEqualMultisets(Replaced(t, units, table, candidates), retained + [Complete(t, table, candidates)], u);
  }

  lemma {:induction false} RetainedExactly(units: seq<Unit>, removed: multiset<Id>, n: nat, u: Unit)
    requires n <= |units|
    ensures u in Retained(units, removed, n) <==> u in units[..n] && u.id !in removed
  {
    if n > 0 {
      RetainedExactly(units, removed, n - 1, u);
      assert units[..n] == units[..n - 1] + [units[n - 1]];
    }
  }

  lemma {:induction false} PackedNext(t: Tools, units: seq<Unit>, after: seq<Unit>, tables: seq<Table>, k: nat)
    requires k < |tables| && Laid(units, tables) && DistinctIds(after) && DistinctRows(tables[k]) && PackedAre(t, units, after, tables, k + 1)
    requires Fresh(after, tables[k]) == Fresh(units, tables[k])
    ensures
      PackedAre(t, units, if Packs(t, units, tables[k]) then Replaced(t, after, tables[k], Fresh(after, tables[k])) else after, tables, k)
  {
    hide Fresh, Complete, DistinctIds, Laid, DistinctRows, Replaced;
    var next := if Packs(t, units, tables[k]) then Replaced(t, after, tables[k], Fresh(after, tables[k])) else after;
    forall u ensures u in next <==> (u in units && !Taken(t, units, tables, k, u.block)) || Made(t, units, tables, k, u) {
      ReplacedAre(t, after, tables[k], u);
      TakenNext(t, units, tables, k, u);
      if Made(t, units, tables, k + 1, u) {
        MadeBlock(t, units, tables, k, u);
      }
    }
  }

  lemma {:induction false} TakenNext(t: Tools, units: seq<Unit>, tables: seq<Table>, k: nat, u: Unit)
    requires k < |tables|
    ensures Taken(t, units, tables, k, u.block) <==> (Packs(t, units, tables[k]) && u.block in tables[k].rows) || Taken(t, units, tables, k + 1, u.block)
    ensures
      Made(t, units, tables, k, u)
      <==> (Packs(t, units, tables[k]) && u == Complete(t, tables[k], Fresh(units, tables[k]))) || Made(t, units, tables, k + 1, u)
  {
    hide Packs, Complete, Fresh;
  }

  lemma {:induction false} MadeBlock(t: Tools, units: seq<Unit>, tables: seq<Table>, k: nat, u: Unit)
    requires Laid(units, tables) && k < |tables| && Made(t, units, tables, k + 1, u)
    ensures u.block !in tables[k].rows
  {
    hide Packs, Fresh;
  }

  /** Units in the order in which they start, and by identifier where they start alike. */
  ghost predicate InStartOrder(units: seq<Unit>) {
    forall i, j :: 0 <= i < j < |units| ==>
      UnitStart(units[i]) < UnitStart(units[j]) || (UnitStart(units[i]) == UnitStart(units[j]) && units[i].id <= units[j].id)
  }

  lemma {:induction false} StartOrder(units: seq<Unit>)
    ensures InStartOrder(units) <==> Sorting.Sorted(units, UnitKey)
  {
    hide UnitStart;
    if InStartOrder(units) {
      forall i, j | 0 <= i < j < |units| ensures Sorting.Leq(UnitKey(units[i]), UnitKey(units[j])) {
      }
    }
    if Sorting.Sorted(units, UnitKey) {
      forall i, j | 0 <= i < j < |units|
        ensures UnitStart(units[i]) < UnitStart(units[j]) || (UnitStart(units[i]) == UnitStart(units[j]) && units[i].id <= units[j].id)
      {
        assert Sorting.Leq(UnitKey(units[i]), UnitKey(units[j]));
      }
    }
  }

  /** A unit starts where the earliest of its parts does. */
  lemma {:induction false} UnitStartIs(parts: seq<Part>, n: nat)
    requires n <= |parts|
    ensures StartOf(parts, n) <= LastStart && forall i :: 0 <= i < n ==> StartOf(parts, n) <= PartStart(parts[i])
    ensures StartOf(parts, n) == LastStart || exists i :: 0 <= i < n && StartOf(parts, n) == PartStart(parts[i])
  {
    hide PartStart;
    if n > 0 {
      UnitStartIs(parts, n - 1);
    }
  }

  /** What packing the tables from the k-th on gives: a refusal of the counter, or every fitting table packed and all else left, in order. */
  ghost predicate PacksExactly(t: Tools, units: seq<Unit>, tables: seq<Table>, k: nat, r: Result<seq<Unit>>) {
    match r
    case Ok(after) =>
      && InStartOrder(after) && PackedAre(t, units, after, tables, k)
      && forall j, e :: k <= j < |tables| ==> !Refuses(t, units, tables[j], e)
    case Err(error) => exists j :: k <= j < |tables| && Refuses(t, units, tables[j], error)
  }

  /**
   * Packing stops at a refusal of the counter. Otherwise a table becomes one complete unit exactly
   * when it has units and they fit together; the units of every other table, and all other units,
   * are left as they were, and all are in order.
   */
  lemma {:induction false} PackedExactly(t: Tools, units: seq<Unit>, tables: seq<Table>, k: nat)
    requires k <= |tables| && Laid(units, tables) && NewIdentities(t, units, tables)
    requires forall i :: 0 <= i < |tables| ==> DistinctRows(tables[i])
    ensures PacksExactly(t, units, tables, k, Packed(t, units, tables, k))
    ensures Packed(t, units, tables, k).Ok? ==> exists p: nat :: SamePlaces(units, Packed(t, units, tables, k).value, tables, k, p)
    decreases |tables| - k
  {
    hide Laid, NewIdentities, DistinctRows, SamePlaces, PackedAre, Refuses, PackedFrom, UnitKey, InStartOrder, Fresh, DistinctIds, FromTables;
    if k == |tables| {
      StartPlaces(units, tables);
      StartOrder(units);
      PackedNothing(t, units, tables);
    } else {
      PackedExactly(t, units, tables, k + 1);
      if Packed(t, units, tables, k + 1).Ok? {
        var after := Packed(t, units, tables, k + 1).value;
        var p: nat :| SamePlaces(units, after, tables, k + 1, p);
        LaidDistinct(units, tables);
        PackedOwnsFrom(t, units, tables, k + 1);
        NextExactly(t, units, tables, k, after, p);
      }
    }
  }

  lemma {:induction false} NextExactly(t: Tools, units: seq<Unit>, tables: seq<Table>, k: nat, after: seq<Unit>, p: nat)
    requires k < |tables| && Laid(units, tables) && DistinctIds(after) && DistinctRows(tables[k]) && SamePlaces(units, after, tables, k + 1, p)
    requires PacksExactly(t, units, tables, k + 1, Ok(after))
    ensures
      var next := PackedFrom(t, after, tables[k], Fresh(after, tables[k]));
      PacksExactly(t, units, tables, k, next) && (next.Ok? ==> exists q: nat :: SamePlaces(units, next.value, tables, k, q))
  {
    hide Laid, DistinctRows, SamePlaces, PackedAre, Refuses, PackedFrom, UnitKey, InStartOrder, Fresh, DistinctIds;
    PackedStep(t, units, after, tables, k, p);
    StartOrder(after);
    if PackedFrom(t, after, tables[k], Fresh(after, tables[k])).Ok? {
      var q := StepPlaces(t, units, after, tables, k, p);
      StartOrder(PackedFrom(t, after, tables[k], Fresh(after, tables[k])).value);
    }
  }

  lemma {:induction false} PackedStep(t: Tools, units: seq<Unit>, after: seq<Unit>, tables: seq<Table>, k: nat, p: nat)
    requires k < |tables| && Laid(units, tables) && DistinctIds(after) && DistinctRows(tables[k]) && PackedAre(t, units, after, tables, k + 1)
    requires SamePlaces(units, after, tables, k + 1, p)
    ensures
      match PackedFrom(t, after, tables[k], Fresh(after, tables[k]))
      case Ok(next) => PackedAre(t, units, next, tables, k) && forall e :: !Refuses(t, units, tables[k], e)
      case Err(error) => Refuses(t, units, tables[k], error)
  {
    hide Laid, DistinctIds, DistinctRows, SamePlaces, PackedAre, Complete, Fresh, Replaced;
    CacheSelects(units, after, tables, k, p);
    PackedNext(t, units, after, tables, k);
  }

  lemma {:induction false} StepPlaces(t: Tools, units: seq<Unit>, after: seq<Unit>, tables: seq<Table>, k: nat, p: nat) returns (q: nat)
    requires k < |tables| && Laid(units, tables) && SamePlaces(units, after, tables, k + 1, p) && Sorting.Sorted(after, UnitKey)
    requires PackedFrom(t, after, tables[k], Fresh(after, tables[k])).Ok?
    ensures
      var next := PackedFrom(t, after, tables[k], Fresh(after, tables[k])).value;
      SamePlaces(units, next, tables, k, q) && Sorting.Sorted(next, UnitKey)
  {
    hide Laid, SamePlaces, Complete, Fresh, Replaced, UnitKey;
    FewerTables(units, after, tables, k, p);
    q := p;
    if PackedFrom(t, after, tables[k], Fresh(after, tables[k])).value != after {
      q := PackKeepsPlaces(t, units, after, tables, k, p);
    }
  }

  lemma {:induction false} LaidDistinct(units: seq<Unit>, tables: seq<Table>)
    requires Laid(units, tables)
    ensures DistinctIds(units)
  {
  }

  lemma {:induction false} PackedNothing(t: Tools, units: seq<Unit>, tables: seq<Table>)
    ensures PackedAre(t, units, units, tables, |tables|)
  {
  }
}
