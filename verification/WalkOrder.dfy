/** The order in which the walk over blocks builds units: every subtree's units in one run, blocks before blocks that follow them. */
module WalkOrder {
  import opened Common
  import opened Units
  import opened Documents
  import opened Mapping
  import opened Mappers
  import opened Reaching

  // ---- Stretches nest

  lemma {:induction false} CoversEnd(blocks: seq<Block>, id: nat, a: nat, b: nat)
    requires Covers(blocks, id, a) && Covers(blocks, id, b)
    ensures a == b
    decreases if a > id then a - id else 0, 0
  {
    TilesEnd(blocks, blocks[id].children, |blocks[id].children|, id + 1, a, b);
  }

  lemma {:induction false} TilesEnd(blocks: seq<Block>, children: seq<Child>, n: nat, from: nat, a: nat, b: nat)
    requires n <= |children| && Tiles(blocks, children, n, from, a) && Tiles(blocks, children, n, from, b)
    ensures a == b
    decreases if a > from then a - from else 0, n
  {
    if n > 0 {
      match children[n - 1] {
        case InlineChild(_) => TilesEnd(blocks, children, n - 1, from, a, b);
        case BlockChild(c) => CoversEnd(blocks, c, a, b);
      }
    }
  }

  /** A stretch that starts inside another ends inside it. */
  lemma {:induction false} CoversInside(blocks: seq<Block>, id: nat, next: nat, t: nat, end: nat)
    requires Covers(blocks, id, next) && Covers(blocks, t, end) && id <= t < next
    ensures end <= next
    decreases if next > id then next - id else 0, 0
  {
    if t == id {
      CoversEnd(blocks, id, next, end);
    } else {
      TilesInside(blocks, blocks[id].children, |blocks[id].children|, id + 1, next, t, end);
    }
  }

  lemma {:induction false} TilesInside(blocks: seq<Block>, children: seq<Child>, n: nat, from: nat, to: nat, t: nat, end: nat)
    requires n <= |children| && Tiles(blocks, children, n, from, to) && Covers(blocks, t, end) && from <= t < to
    ensures end <= to
    decreases if to > from then to - from else 0, n
  {
    match children[n - 1] {
      case InlineChild(_) => TilesInside(blocks, children, n - 1, from, to, t, end);
      case BlockChild(c) =>
        if t < c {
          TilesInside(blocks, children, n - 1, from, c, t, end);
        } else {
          CoversInside(blocks, c, to, t, end);
        }
    }
  }

  /** The child whose stretch holds a place. */
  lemma {:induction false} TileHolds(blocks: seq<Block>, children: seq<Child>, n: nat, from: nat, to: nat, x: nat) returns (c: nat, end: nat)
    requires n <= |children| && Tiles(blocks, children, n, from, to) && from <= x < to
    ensures BlockChild(c) in children && Covers(blocks, c, end) && from <= c <= x < end <= to
    decreases n
  {
    hide Covers;
    match children[n - 1] {
      case InlineChild(_) => c, end := TileHolds(blocks, children, n - 1, from, to, x);
      case BlockChild(b) =>
        if x < b {
          c, end := TileHolds(blocks, children, n - 1, from, b, x);
        } else {
          c, end := b, to;
        }
    }
  }

  // ---- Runs of units

  /** Whether some consecutive units from a place on are exactly those of a stretch of blocks. */
  ghost predicate OneRun(units: seq<SourceUnit>, a: nat, t: nat, end: nat) {
    exists p: nat, q: nat :: RunIs(units, a, t, end, p, q)
  }

  ghost predicate RunIs(units: seq<SourceUnit>, a: nat, t: nat, end: nat, p: nat, q: nat) {
    a <= p <= q <= |units| && forall i :: a <= i < |units| ==> (t <= units[i].block < end <==> p <= i < q)
  }

  /** The units from a place on, by blocks: every stretch of a part of the document in one run. */
  ghost predicate Grouped(blocks: seq<Block>, units: seq<SourceUnit>, a: nat, from: nat, to: nat) {
    forall t: nat, end: nat :: Covers(blocks, t, end) && from <= t && end <= to ==> OneRun(units, a, t, end)
  }

  ghost predicate Holder(blocks: seq<Block>, x: nat, y: nat) {
    exists end: nat :: Covers(blocks, x, end) && x <= y < end
  }

  /** Units come in the order of their blocks, but for a block's own after those inside it. */
  ghost predicate InTurn(blocks: seq<Block>, units: seq<SourceUnit>, a: nat) {
    forall i, j :: a <= i < j < |units| ==> units[i].block <= units[j].block || Holder(blocks, units[j].block, units[i].block)
  }

  /** Whether a unit is inline content of its block, or what its block shows of itself. */
  ghost predicate Backed(blocks: seq<Block>, unit: SourceUnit) {
    unit.block < |blocks| &&
    ((exists k :: 0 <= k < |blocks[unit.block].children| && blocks[unit.block].children[k].InlineChild?)
     || blocks[unit.block].kind in {Code, ListItem, BlockQuote, FootnoteDefinition})
  }

  /** What the units from a place on are: units of a part of the document, in order. */
  ghost predicate Run(blocks: seq<Block>, units: seq<SourceUnit>, a: nat, own: int, from: nat, to: nat) {
    && a <= |units|
    && (forall i :: a <= i < |units| ==> Backed(blocks, units[i]) && (units[i].block == own || from <= units[i].block < to))
    && Grouped(blocks, units, a, from, to) && InTurn(blocks, units, a)
  }

  lemma {:induction false} RunStarts(blocks: seq<Block>, units: seq<SourceUnit>, own: int, from: nat)
    ensures Run(blocks, units, |units|, own, from, from)
  {
    hide Covers;
    forall t: nat, end: nat | Covers(blocks, t, end) && from <= t && end <= from ensures OneRun(units, |units|, t, end) {
      assert RunIs(units, |units|, t, end, |units|, |units|);
    }
  }

  /** A unit of the block itself, while its children are walked. */
  lemma {:induction false} RunOwn(blocks: seq<Block>, units: seq<SourceUnit>, a: nat, own: nat, from: nat, to: nat, next: nat, unit: SourceUnit)
    requires Run(blocks, units, a, own, from, to) && unit.block == own && own < from && Backed(blocks, unit)
    requires Covers(blocks, own, next) && to <= next
    ensures Run(blocks, units + [unit], a, own, from, to)
  {
    hide Covers, Backed;
    var all := units + [unit];
    forall t: nat, end: nat | Covers(blocks, t, end) && from <= t && end <= to ensures OneRun(all, a, t, end) {
      assert OneRun(units, a, t, end);
      var p: nat, q: nat :| RunIs(units, a, t, end, p, q);
      assert RunIs(all, a, t, end, p, q);
    }
    forall i, j | a <= i < j < |all| ensures all[i].block <= all[j].block || Holder(blocks, all[j].block, all[i].block) {
      if j == |units| && all[i].block > own {
        assert Holder(blocks, own, all[i].block);
      }
    }
  }

  /** The units of one more child. */
  lemma {:induction false} RunChild(blocks: seq<Block>, children: seq<Child>, n: nat, units: seq<SourceUnit>, all: seq<SourceUnit>, a: nat, own: int, from: nat, c: nat, to: nat)
    requires Run(blocks, units, a, own, from, c) && own < from <= c && units <= all
    requires Run(blocks, all, |units|, c, c + 1, to) && Covers(blocks, c, to)
    requires n <= |children| && Tiles(blocks, children, n, from, c)
    requires OneRun(all, |units|, c, to)
    ensures Run(blocks, all, a, own, from, to)
  {
    hide Covers, Backed, Tiles;
    forall i | a <= i < |all| ensures Backed(blocks, all[i]) && (all[i].block == own || from <= all[i].block < to) {
      if i < |units| {
        assert all[i] == units[i];
      }
      CoversForward(blocks, c, to);
    }
    forall t: nat, end: nat | Covers(blocks, t, end) && from <= t && end <= to ensures OneRun(all, a, t, end) {
      ChildRun(blocks, children, n, units, all, a, own, from, c, to, t, end);
    }
    forall i, j | a <= i < j < |all| ensures all[i].block <= all[j].block || Holder(blocks, all[j].block, all[i].block) {
      if j < |units| {
        assert all[i] == units[i] && all[j] == units[j];
      } else if i < |units| {
        assert all[i] == units[i];
      }
    }
  }

  lemma {:induction false} CoversForward(blocks: seq<Block>, c: nat, to: nat)
    requires Covers(blocks, c, to)
    ensures c < to
  {
  }

  lemma {:induction false} ChildRun(blocks: seq<Block>, children: seq<Child>, n: nat, units: seq<SourceUnit>, all: seq<SourceUnit>, a: nat, own: int, from: nat,
                                    c: nat, to: nat, t: nat, end: nat)
    requires Run(blocks, units, a, own, from, c) && own < from <= c && units <= all
    requires Run(blocks, all, |units|, c, c + 1, to) && Covers(blocks, c, to)
    requires n <= |children| && Tiles(blocks, children, n, from, c) && OneRun(all, |units|, c, to)
    requires Covers(blocks, t, end) && from <= t && end <= to
    ensures OneRun(all, a, t, end)
  {
    hide Covers, Backed, Tiles, InTurn;
    CoversForward(blocks, t, end);
    CoversForward(blocks, c, to);
    if t < c {
      TilesInside(blocks, children, n, from, c, t, end);
      assert OneRun(units, a, t, end);
      var p: nat, q: nat :| RunIs(units, a, t, end, p, q);
      forall i | a <= i < |all| ensures t <= all[i].block < end <==> p <= i < q {
        if i < |units| {
          assert all[i] == units[i];
        }
      }
      assert RunIs(all, a, t, end, p, q);
    } else {
      if t == c {
        CoversEnd(blocks, c, to, end);
      }
      assert OneRun(all, |units|, t, end);
      var p: nat, q: nat :| RunIs(all, |units|, t, end, p, q);
      forall i | a <= i < |all| ensures t <= all[i].block < end <==> p <= i < q {
        if i < |units| {
          assert all[i] == units[i];
        }
      }
      assert RunIs(all, a, t, end, p, q);
    }
  }

  /** A block's whole walk: its units in one run, and those of every block inside it. */
  lemma {:induction false} RunWhole(blocks: seq<Block>, units: seq<SourceUnit>, a: nat, id: nat, next: nat)
    requires Run(blocks, units, a, id, id + 1, next) && Covers(blocks, id, next)
    ensures OneRun(units, a, id, next) && Grouped(blocks, units, a, id, next)
  {
    hide Backed, Covers, InTurn;
    CoversForward(blocks, id, next);
    assert RunIs(units, a, id, next, a, |units|);
    forall t: nat, end: nat | Covers(blocks, t, end) && id <= t && end <= next ensures OneRun(units, a, t, end) {
      if t == id {
        CoversEnd(blocks, id, next, end);
      }
    }
  }

  // ---- The walk

  lemma {:induction false} BegunRuns(source: Source, index: map<Id, Block>, id: nat, next: nat, units: seq<SourceUnit>)
    requires Placed(index, source.blocks) && id < |source.blocks| && Covers(source.blocks, id, next)
    requires Begun(source, index, source.blocks[id], units).Ok? && source.blocks[id].id == id
    ensures
      var begun := Begun(source, index, source.blocks[id], units).value;
      units <= begun && Run(source.blocks, begun, |units|, id, id + 1, id + 1)
  {
    hide Covers, Run, Appended, Slices.MappedSlice, MarkerOf;
    var begun := Begun(source, index, source.blocks[id], units).value;
    RunStarts(source.blocks, units, id, id + 1);
    if begun != units {
      var unit := begun[|units|];
      assert begun == units + [unit] && unit.block == id;
      CoversForward(source.blocks, id, next);
      RunOwn(source.blocks, units, |units|, id, id + 1, id + 1, next, unit);
    }
  }

  lemma {:induction false} InlineRuns(source: Source, units: seq<SourceUnit>, a: nat, id: nat, k: nat, from: nat, to: nat, next: nat)
    requires id < |source.blocks| && k < |source.blocks[id].children| && source.blocks[id].children[k].InlineChild?
    requires Run(source.blocks, units, a, id, from, to) && id < from && Covers(source.blocks, id, next) && to <= next
    requires InlineAdded(source, units, id, k, source.blocks[id].children[k].inline).Ok?
    ensures
      var all := InlineAdded(source, units, id, k, source.blocks[id].children[k].inline).value;
      units <= all && Run(source.blocks, all, a, id, from, to)
  {
    hide Covers, Run, Draw, RenderInline, Slices.MappedSlice;
    var all := InlineAdded(source, units, id, k, source.blocks[id].children[k].inline).value;
    if all != units {
      var unit := all[|units|];
      assert all == units + [unit] && unit.block == id;
      RunOwn(source.blocks, units, a, id, from, to, next, unit);
    }
  }

  /** A block's walk builds its units in one run, those inside it in order. */
  lemma {:induction false} BlockRuns(source: Source, index: map<Id, Block>, id: nat, next: nat, w: Walking)
    requires Placed(index, source.blocks) && Leafy(source.blocks) && Covers(source.blocks, id, next)
    requires WalkedBlock(source, index, id, w).Ok?
    ensures
      var r := WalkedBlock(source, index, id, w).value;
      w.units <= r.units && Run(source.blocks, r.units, |w.units|, id, id + 1, next)
    decreases if next > id then next - id else 0, 0
  {
    hide WalkedBlock, WalkedChildren, Begun, Run, Leafy;
    WalkGoes(source, index, id, w);
    var block := source.blocks[id];
    if Unmapped(block) {
      LeafEnds(source.blocks, id, next);
      RunStarts(source.blocks, w.units, id, id + 1);
    } else {
      BegunRuns(source, index, id, next, w.units);
      var begun := Begun(source, index, block, w.units).value;
      ChildrenRun(source, index, id, |block.children|, id + 1, next, next, |w.units|, Walking(w.visited + {id}, begun));
    }
  }

  lemma {:induction false} ChildrenRun(source: Source, index: map<Id, Block>, id: nat, n: nat, from: nat, to: nat, next: nat, a: nat, w: Walking)
    requires Placed(index, source.blocks) && Leafy(source.blocks) && Covers(source.blocks, id, next) && from == id + 1 && to <= next
    requires n <= |source.blocks[id].children| && Tiles(source.blocks, source.blocks[id].children, n, from, to)
    requires Run(source.blocks, w.units, a, id, from, from) && WalkedChildren(source, index, source.blocks[id], n, w).Ok?
    ensures
      var r := WalkedChildren(source, index, source.blocks[id], n, w).value;
      w.units <= r.units && Run(source.blocks, r.units, a, id, from, to)
    decreases if to > from then to - from else 0, n
  {
    hide WalkedBlock, WalkedChildren, InlineAdded, Run, Leafy, Placed;
    var (blocks, block) := (source.blocks, source.blocks[id]);
    if n == 0 {
      WalkStarts(source, index, block, w);
    } else {
      TilesForward(blocks, block.children, n, from, to);
      var mid := if block.children[n - 1].InlineChild? then to else block.children[n - 1].id;
      if WalkedChildren(source, index, block, n - 1, w).Err? {
        ChildrenStop(source, index, block, n - 1, n, w);
      }
      ChildrenRun(source, index, id, n - 1, from, mid, next, a, w);
      var before := WalkedChildren(source, index, block, n - 1, w).value;
      ChildrenGo(source, index, block, n - 1, w, before);
      match block.children[n - 1] {
        case InlineChild(inline) => InlineRuns(source, before.units, a, id, n - 1, from, to, next);
        case BlockChild(c) =>
          BlockRuns(source, index, c, to, before);
          var after := WalkedBlock(source, index, c, before).value;
          RunWhole(blocks, after.units, |before.units|, c, to);
          RunChild(blocks, block.children, n - 1, before.units, after.units, a, id, from, c, to);
      }
    }
  }

  /** The walk from the roots, up to any of them. */
  lemma {:induction false} RootsRun(source: Source, roots: seq<Child>, n: nat, to: nat)
    requires Placed(ById(source.blocks, |source.blocks|), source.blocks) && Leafy(source.blocks)
    requires n <= |roots| && to <= |source.blocks| && WalkedRoots(source, to).Ok?
    requires Tiles(source.blocks, roots, n, 0, to) && Parented(source.blocks, roots, n, 0, to, None)
    ensures Run(source.blocks, WalkedRoots(source, to).value.units, 0, -1, 0, to)
  {
    hide WalkedBlock, Leafy, Covers, Run, ById, Placed;
    if n == 0 {
      RunStarts(source.blocks, [], -1, 0);
    } else {
      match roots[n - 1] {
        case InlineChild(_) => RootsRun(source, roots, n - 1, to);
        case BlockChild(c) =>
          RootsSkip(source, c + 1, to);
          if WalkedRoots(source, c).Err? {
            RootsStop(source, c, to);
          }
          RootsRun(source, roots, n - 1, c);
          var index, before := ById(source.blocks, |source.blocks|), WalkedRoots(source, c).value;
          TiledHere(source.blocks, c, to);
          BlockRuns(source, index, c, to, before);
          var after := WalkedBlock(source, index, c, before).value;
          RunWhole(source.blocks, after.units, |before.units|, c, to);
          RunChild(source.blocks, roots, n - 1, before.units, after.units, 0, -1, 0, c, to);
      }
    }
  }

  lemma {:induction false} TiledHere(blocks: seq<Block>, c: nat, to: nat)
    requires Covers(blocks, c, to)
    ensures c < |blocks| && blocks[c].id == c
  {
  }

  /** The units of an assembled document: of its blocks, in order, and those of every subtree in one run. */
  lemma {:induction false} MappedRun(source: Source, roots: seq<Child>)
    requires Placed(ById(source.blocks, |source.blocks|), source.blocks) && Leafy(source.blocks)
    requires Tiles(source.blocks, roots, |roots|, 0, |source.blocks|) && Parented(source.blocks, roots, |roots|, 0, |source.blocks|, None)
    requires MappedUnits(source).Ok?
    ensures Run(source.blocks, MappedUnits(source).value, 0, -1, 0, |source.blocks|)
  {
    hide WalkedRoots, Leafy, Tiles, Parented, Run, ById, Placed;
    RootsRun(source, roots, |roots|, |source.blocks|);
  }
}
