/** Indexing a document for chunking: its blocks by identifier, and each unit's path of ancestors. */
module Indexing {
  import opened Common
  import opened Ranges
  import opened Units
  import opened Layouts
  import opened Hanging
  import Documents
  import Reaching

  /** The blocks from the outermost to one of them; a missing parent, or one met before, is refused. */
  function PathTo(blocks: map<Id, Block>, id: Id, seen: set<Id>): Result<seq<Block>>
    decreases blocks.Keys - seen
  {
    if id !in blocks || id in seen then Err(Structure)
    else
      assert blocks.Keys - (seen + {id}) < blocks.Keys - seen by {
        assert id in blocks.Keys - seen;
      }
      match blocks[id].parent
      case None => Ok([blocks[id]])
      case Some(parent) =>
        var before :- PathTo(blocks, parent, seen + {id});
        Ok(before + [blocks[id]])
  }

  function IdSet(path: seq<Block>): set<Id> {
    set i | 0 <= i < |path| :: path[i].id
  }

  function Reversed(path: seq<Block>): (r: seq<Block>)
    ensures |r| == |path|
  {
    seq(|path|, i requires 0 <= i < |path| => path[|path| - 1 - i])
  }

  /** What the walk up makes of the blocks it passed, once it is through. */
  function Above(blocks: map<Id, Block>, current: Option<Id>, path: seq<Block>): Result<seq<Block>> {
    match current
    case None => Ok(Reversed(path))
    case Some(id) =>
      var before :- PathTo(blocks, id, IdSet(path));
      Ok(before + Reversed(path))
  }

  lemma {:induction false} AboveNext(blocks: map<Id, Block>, id: Id, path: seq<Block>)
    requires id in blocks && blocks[id].id == id && id !in IdSet(path)
    ensures Above(blocks, Some(id), path) == Above(blocks, blocks[id].parent, path + [blocks[id]])
  {
    var next := path + [blocks[id]];
    assert IdSet(next) == IdSet(path) + {id} by {
      forall x ensures x in IdSet(next) <==> x in IdSet(path) || x == id {
        if x == id {
          assert next[|path|].id == id;
        }
        if x in IdSet(path) {
          var i :| 0 <= i < |path| && path[i].id == x;
          assert next[i].id == x;
        }
      }
    }
    assert [blocks[id]] + Reversed(path) == Reversed(next);
    if blocks[id].parent.Some? {
      var before := PathTo(blocks, blocks[id].parent.value, IdSet(next));
      if before.Ok? {
        assert (before.value + [blocks[id]]) + Reversed(path) == before.value + Reversed(next);
      }
    }
  }

  /** `ancestry`: the walk up from the block that owns a unit, reversed at the end. */
  method Ancestry(blocks: map<Id, Block>, owner: Id) returns (r: Result<seq<Block>>)
    requires forall id :: id in blocks ==> blocks[id].id == id
    ensures r == PathTo(blocks, owner, {})
  {
    hide PathTo;
    var path: seq<Block> := [];
    var current := Some(owner);
    StartAbove(blocks, owner);
    while current.Some?
      invariant Above(blocks, current, path) == PathTo(blocks, owner, {})
      invariant IdSet(path) <= blocks.Keys
      decreases |blocks.Keys - IdSet(path)|, current.Some?
    {
      var id := current.value;
      RefusedAbove(blocks, id, path);
      if id !in blocks {
        return Err(Structure);
      }
      if exists i :: 0 <= i < |path| && path[i].id == id {
        assert id in IdSet(path);
        return Err(Structure);
      }
      AboveNext(blocks, id, path);
      ghost var before := path;
      path := path + [blocks[id]];
      current := blocks[id].parent;
      OneFewer(blocks, before, id);
    }
    r := Ok(Reversed(path));
  }

  lemma {:induction false} StartAbove(blocks: map<Id, Block>, owner: Id)
    ensures Above(blocks, Some(owner), []) == PathTo(blocks, owner, {})
  {
    assert IdSet([]) == {};
    var path := PathTo(blocks, owner, {});
    if path.Ok? {
      assert path.value + Reversed([]) == path.value;
    }
  }

  lemma {:induction false} RefusedAbove(blocks: map<Id, Block>, id: Id, path: seq<Block>)
    ensures id !in blocks || id in IdSet(path) ==> Above(blocks, Some(id), path) == Err(Structure)
  {
  }

  lemma {:induction false} OneFewer(blocks: map<Id, Block>, path: seq<Block>, id: Id)
    requires id in blocks && blocks[id].id == id && id !in IdSet(path)
    ensures IdSet(path + [blocks[id]]) <= IdSet(path) + {id}
    ensures |blocks.Keys - IdSet(path + [blocks[id]])| < |blocks.Keys - IdSet(path)|
  {
    var next := path + [blocks[id]];
    assert next[|path|].id == id;
    forall x | x in IdSet(path) ensures x in IdSet(next) {
      var i :| 0 <= i < |path| && path[i].id == x;
      assert next[i].id == x;
    }
    var (a, b) := (blocks.Keys - IdSet(next), blocks.Keys - IdSet(path));
    assert id in b && id !in a && a <= b;
    Fewer(a, b, id);
  }

  lemma {:induction false} Fewer(a: set<Id>, b: set<Id>, id: Id)
    requires a <= b && id in b && id !in a
    ensures |a| < |b|
  {
    assert a <= b - {id};
    Smaller(a, b - {id});
  }

  lemma {:induction false} Smaller(a: set<Id>, b: set<Id>)
    requires a <= b
    ensures |a| <= |b|
    decreases |a|
  {
    if a != {} {
      var x :| x in a;
      Smaller(a - {x}, b - {x});
    }
  }

  /** The paths of the first n units. */
  function Paths(blocks: map<Id, Block>, units: seq<SourceUnit>, n: nat): Result<seq<seq<Block>>>
    requires n <= |units|
  {
    if n == 0 then Ok([])
    else
      var before :- Paths(blocks, units, n - 1);
      var path :- PathTo(blocks, units[n - 1].block, {});
      Ok(before + [path])
  }

  /** The layout of a document's blocks and units, with the parts of the units that a profile indexes. */
  function LayoutOf(markdown: string, blocks: seq<Block>, units: seq<SourceUnit>, kept: seq<Option<TextRange>>, rules: Rules): Result<Layout> {
    var index := Documents.ById(blocks, |blocks|);
    var ancestry :- Paths(index, units, |units|);
    Ok(Layout(markdown, units, index, ancestry, kept, rules))
  }

  lemma {:induction false} PathsStop(blocks: map<Id, Block>, units: seq<SourceUnit>, n: nat, m: nat)
    requires n <= m <= |units| && Paths(blocks, units, n).Err?
    ensures Paths(blocks, units, m) == Paths(blocks, units, n)
  {
    hide PathTo;
    if n < m {
      PathsStop(blocks, units, n, m - 1);
    }
  }

  /** `Layout::new`. */
  method NewLayout(markdown: string, blocks: seq<Block>, units: seq<SourceUnit>, kept: seq<Option<TextRange>>, rules: Rules)
    returns (r: Result<Layout>)
    ensures r == LayoutOf(markdown, blocks, units, kept, rules)
  {
    hide PathTo, Documents.ById;
    var index := Documents.ById(blocks, |blocks|);
    ByIdKeeps(blocks, |blocks|);
    var ancestry: seq<seq<Block>> := [];
    for i := 0 to |units|
      invariant Paths(index, units, i) == Ok(ancestry)
    {
      var path := Ancestry(index, units[i].block);
      if path.Err? {
        PathsStop(index, units, i + 1, |units|);
        return Err(path.error);
      }
      ancestry := ancestry + [path.value];
    }
    r := Ok(Layout(markdown, units, index, ancestry, kept, rules));
  }

  lemma {:induction false} ByIdKeeps(blocks: seq<Block>, n: nat)
    requires n <= |blocks|
    ensures forall id :: id in Documents.ById(blocks, n) ==> Documents.ById(blocks, n)[id].id == id
  {
    if n > 0 {
      ByIdKeeps(blocks, n - 1);
    }
  }

  // ---- Where every block hangs on an earlier one

  /** A block's path by its parents, which come before it. */
  function LineOf(blocks: seq<Block>, id: nat): (r: seq<Block>)
    requires id < |blocks|
    ensures r != [] && r[|r| - 1] == blocks[id]
  {
    match blocks[id].parent
    case Some(p) => (if p < id then LineOf(blocks, p) else []) + [blocks[id]]
    case None => [blocks[id]]
  }

  lemma {:induction false} EarlierParent(blocks: seq<Block>, i: nat)
    requires Wired(blocks) && i < |blocks| && blocks[i].parent.Some?
    ensures blocks[i].parent.value < i && Documents.BlockChild(i) in blocks[blocks[i].parent.value].children
  {
    hide Hung;
    assert Inside(blocks, i, 0);
    var p: nat :| HangsOn(blocks, i, 0, p);
  }

  /** Every block of a document that hangs together has a path. */
  lemma {:induction false} PathIs(blocks: seq<Block>, index: map<Id, Block>, id: nat, seen: set<Id>)
    requires Wired(blocks) && Reaching.Placed(index, blocks) && id < |blocks| && forall x :: x in seen ==> x > id
    ensures PathTo(index, id, seen) == Ok(LineOf(blocks, id))
  {
    hide Wired, Reaching.Placed;
    assert id in index && index[id] == blocks[id] by { Here(blocks, index, id); }
    if blocks[id].parent.Some? {
      EarlierParent(blocks, id);
      PathIs(blocks, index, blocks[id].parent.value, seen + {id});
    }
  }

  lemma {:induction false} Here(blocks: seq<Block>, index: map<Id, Block>, id: nat)
    requires Reaching.Placed(index, blocks) && id < |blocks|
    ensures id in index && index[id] == blocks[id]
  {
  }

  lemma {:induction false} PathsAre(blocks: seq<Block>, index: map<Id, Block>, units: seq<SourceUnit>, n: nat)
    requires Wired(blocks) && Reaching.Placed(index, blocks) && n <= |units| && forall i :: 0 <= i < n ==> units[i].block < |blocks|
    ensures Paths(index, units, n).Ok? && |Paths(index, units, n).value| == n
    ensures forall i :: 0 <= i < n ==> Paths(index, units, n).value[i] == LineOf(blocks, units[i].block)
  {
    hide Wired, Reaching.Placed, PathTo, LineOf;
    if n > 0 {
      PathsAre(blocks, index, units, n - 1);
      PathIs(blocks, index, units[n - 1].block, {});
    }
  }
}
