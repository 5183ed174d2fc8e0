/** Splitting an oversized body at its structure: a table row by its columns, else by its fragments. */
module Refining {
  import opened Common
  import opened Ranges
  import opened Units
  import opened Layouts

  /** Of the first n fragments, those directly in a block. */
  function FragmentsIn(l: Layout, fragments: seq<Fragment>, block: Id, n: nat): seq<Fragment>
    requires n <= |fragments|
  {
    if n == 0 then []
    else
      FragmentsIn(l, fragments, block, n - 1)
      + if l.InBlock(fragments[n - 1].contribution.unit, block) then [fragments[n - 1]] else []
  }

  /** One body for each of the first n columns of a window that holds some of the body. */
  function ColumnBodies(l: Layout, body: Body, window: TableWindow, cells: seq<Block>, n: nat): Result<seq<Body>>
    requires n <= |window.columns|
  {
    if n == 0 then Ok([])
    else
      var before :- ColumnBodies(l, body, window, cells, n - 1);
      var column := window.columns[n - 1];
      if column >= |cells| then Err(Structure)
      else
        var fragments := FragmentsIn(l, body.fragments, cells[column].id, |body.fragments|);
        Ok(if fragments == [] then before else before + [Body(fragments, [window.(columns := [column])])])
  }

  /** A fragment as a body of its own, with its own table window. */
  function FragmentBody(l: Layout, fragment: Fragment): Result<Body> {
    var window :- l.Window(fragment.contribution.unit, false);
    Ok(Body([fragment], if window.Some? then [window.value] else []))
  }

  function FragmentBodies(l: Layout, fragments: seq<Fragment>, n: nat): Result<seq<Body>>
    requires n <= |fragments|
  {
    if n == 0 then Ok([])
    else
      var before :- FragmentBodies(l, fragments, n - 1);
      var body :- FragmentBody(l, fragments[n - 1]);
      Ok(before + [body])
  }

  /** Whether a body starts with a row of several columns. */
  predicate Wide(body: Body) {
    body.windows != [] && |body.windows[0].columns| > 1
  }

  function Columns(l: Layout, body: Body): Result<seq<Body>>
    requires Wide(body)
  {
    var cells :- l.RowCells(body.windows[0].row);
    ColumnBodies(l, body, body.windows[0], cells, |body.windows[0].columns|)
  }

  /** `refine`: the smaller bodies of an oversized one, or none when it is a single fragment. */
  function Refined(l: Layout, body: Body): Result<Option<seq<Body>>> {
    var columns :- if Wide(body) then Columns(l, body) else Ok([]);
    if columns != [] then Ok(Some(columns))
    else if |body.fragments| > 1 then
      var bodies :- FragmentBodies(l, body.fragments, |body.fragments|);
      Ok(Some(bodies))
    else Ok(None)
  }

  function BodiesFragments(bodies: seq<Body>, n: nat): seq<Fragment>
    requires n <= |bodies|
  {
    if n == 0 then [] else BodiesFragments(bodies, n - 1) + bodies[n - 1].fragments
  }

  // ---- Refining ends

  function BodyWeight(body: Body): nat {
    if Wide(body) then 1 + |body.windows[0].columns| * (|body.fragments| + 1)
    else if |body.fragments| > 1 then |body.fragments| + 1
    else 1
  }

  function BodiesWeight(bodies: seq<Body>, n: nat): nat
    requires n <= |bodies|
  {
    if n == 0 then 0 else BodiesWeight(bodies, n - 1) + BodyWeight(bodies[n - 1])
  }

  lemma {:induction false} FragmentsInFewer(l: Layout, fragments: seq<Fragment>, block: Id, n: nat)
    requires n <= |fragments|
    ensures |FragmentsIn(l, fragments, block, n)| <= n
  {
    if n > 0 {
      FragmentsInFewer(l, fragments, block, n - 1);
    }
  }

  lemma {:induction false} ColumnsWeigh(l: Layout, body: Body, window: TableWindow, cells: seq<Block>, n: nat)
    requires n <= |window.columns| && ColumnBodies(l, body, window, cells, n).Ok?
    ensures
      var bodies := ColumnBodies(l, body, window, cells, n).value;
      BodiesWeight(bodies, |bodies|) <= n * (|body.fragments| + 1)
  {
    if n > 0 {
      ColumnsWeigh(l, body, window, cells, n - 1);
      var before := ColumnBodies(l, body, window, cells, n - 1).value;
      var fragments := FragmentsIn(l, body.fragments, cells[window.columns[n - 1]].id, |body.fragments|);
      FragmentsInFewer(l, body.fragments, cells[window.columns[n - 1]].id, |body.fragments|);
      if fragments != [] {
        var added := Body(fragments, [window.(columns := [window.columns[n - 1]])]);
        WeightThen(before, added);
      }
      assert n * (|body.fragments| + 1) == (n - 1) * (|body.fragments| + 1) + (|body.fragments| + 1);
    }
  }

  lemma {:induction false} WeightPrefix(a: seq<Body>, b: seq<Body>, n: nat)
    requires n <= |a|
    ensures BodiesWeight(a + b, n) == BodiesWeight(a, n)
    ensures BodiesFragments(a + b, n) == BodiesFragments(a, n)
  {
    if n > 0 {
      WeightPrefix(a, b, n - 1);
    }
  }

  lemma {:induction false} WeightThen(bodies: seq<Body>, body: Body)
    ensures BodiesWeight(bodies + [body], |bodies| + 1) == BodiesWeight(bodies, |bodies|) + BodyWeight(body)
    ensures BodiesFragments(bodies + [body], |bodies| + 1) == BodiesFragments(bodies, |bodies|) + body.fragments
  {
    WeightPrefix(bodies, [body], |bodies|);
  }

  lemma {:induction false} OwnColumn(l: Layout, unit: nat)
    requires l.Window(unit, false).Ok? && l.Window(unit, false).value.Some?
    ensures |l.Window(unit, false).value.value.columns| == 1
  {
  }

  lemma {:induction false} FragmentBodiesAre(l: Layout, fragments: seq<Fragment>, n: nat)
    requires n <= |fragments| && FragmentBodies(l, fragments, n).Ok?
    ensures
      var bodies := FragmentBodies(l, fragments, n).value;
      && |bodies| == n
      && BodiesWeight(bodies, n) == n
      && BodiesFragments(bodies, n) == fragments[..n]
      && forall i :: 0 <= i < n ==> bodies[i].fragments == [fragments[i]] && !Wide(bodies[i])
  {
    if n > 0 {
      FragmentBodiesAre(l, fragments, n - 1);
      var body := FragmentBody(l, fragments[n - 1]).value;
      FragmentBodyIs(l, fragments[n - 1]);
      WeightThen(FragmentBodies(l, fragments, n - 1).value, body);
    }
  }

  lemma {:induction false} FragmentBodyIs(l: Layout, fragment: Fragment)
    requires FragmentBody(l, fragment).Ok?
    ensures var body := FragmentBody(l, fragment).value; body.fragments == [fragment] && !Wide(body) && BodyWeight(body) == 1
  {
    hide l.Window;
    if l.Window(fragment.contribution.unit, false).value.Some? {
      OwnColumn(l, fragment.contribution.unit);
    }
  }

  /** Refining always returns smaller bodies, so it ends. */
  lemma {:induction false} RefinedSmaller(l: Layout, body: Body)
    requires Refined(l, body).Ok? && Refined(l, body).value.Some?
    ensures
      var bodies := Refined(l, body).value.value;
      BodiesWeight(bodies, |bodies|) < BodyWeight(body)
  {
    hide ColumnBodies, FragmentBodies, BodiesWeight, l.RowCells;
    if Wide(body) && Columns(l, body).value != [] {
      ColumnsWeigh(l, body, body.windows[0], l.RowCells(body.windows[0].row).value, |body.windows[0].columns|);
    } else {
      FragmentBodiesAre(l, body.fragments, |body.fragments|);
      if Wide(body) {
        assert |body.windows[0].columns| * (|body.fragments| + 1) >= |body.fragments| + 1;
      }
    }
  }

  // ---- Refining conserves the fragments exactly when the row's cells own them in column order

  /** The first cell that owns a unit. */
  function CellColumn(l: Layout, cells: seq<Block>, unit: nat): Option<nat> {
    if unit < |l.units| then PositionFrom(Ids(cells), l.units[unit].block, 0) else None
  }

  ghost predicate DistinctIds(cells: seq<Block>) {
    forall i, j :: 0 <= i < j < |cells| ==> cells[i].id != cells[j].id
  }

  /** Every fragment is directly in a cell, and the cells come in column order. */
  ghost predicate InColumnOrder(l: Layout, cells: seq<Block>, fragments: seq<Fragment>) {
    && (forall i :: 0 <= i < |fragments| ==> CellColumn(l, cells, fragments[i].contribution.unit).Some?)
    && (forall i, j :: 0 <= i < j < |fragments| ==>
          CellColumn(l, cells, fragments[i].contribution.unit).value
          <= CellColumn(l, cells, fragments[j].contribution.unit).value)
  }

  /** The fragments of the first c cells, cell by cell. */
  ghost function CellFragments(l: Layout, cells: seq<Block>, fragments: seq<Fragment>, c: nat): seq<Fragment>
    requires c <= |cells|
  {
    if c == 0 then []
    else CellFragments(l, cells, fragments, c - 1) + FragmentsIn(l, fragments, cells[c - 1].id, |fragments|)
  }

  /** Of the first n fragments, those in one of the first c cells. */
  ghost function Below(l: Layout, cells: seq<Block>, fragments: seq<Fragment>, c: nat, n: nat): seq<Fragment>
    requires n <= |fragments|
  {
    if n == 0 then []
    else
      var column := CellColumn(l, cells, fragments[n - 1].contribution.unit);
      Below(l, cells, fragments, c, n - 1) + if column.Some? && column.value < c then [fragments[n - 1]] else []
  }

  lemma {:induction false} OwnCell(l: Layout, cells: seq<Block>, unit: nat, c: nat)
    requires DistinctIds(cells) && c < |cells|
    ensures l.InBlock(unit, cells[c].id) <==> CellColumn(l, cells, unit) == Some(c)
  {
    var column := CellColumn(l, cells, unit);
    assert Ids(cells)[c] == cells[c].id;
    if column.Some? {
      assert Ids(cells)[column.value] == cells[column.value].id;
    }
  }

  lemma {:induction false} NoneEarlier(l: Layout, cells: seq<Block>, fragments: seq<Fragment>, c: nat, n: nat)
    requires DistinctIds(cells) && c < |cells| && n <= |fragments|
    requires forall i :: 0 <= i < n ==>
               var column := CellColumn(l, cells, fragments[i].contribution.unit); column.Some? && column.value < c
    ensures FragmentsIn(l, fragments, cells[c].id, n) == []
  {
    if n > 0 {
      NoneEarlier(l, cells, fragments, c, n - 1);
      OwnCell(l, cells, fragments[n - 1].contribution.unit, c);
    }
  }

  lemma {:induction false} BelowNext(l: Layout, cells: seq<Block>, fragments: seq<Fragment>, c: nat, n: nat)
    requires DistinctIds(cells) && InColumnOrder(l, cells, fragments)
    requires c < |cells| && n <= |fragments|
    ensures Below(l, cells, fragments, c + 1, n)
         == Below(l, cells, fragments, c, n) + FragmentsIn(l, fragments, cells[c].id, n)
  {
    hide CellColumn, l.InBlock;
    if n > 0 {
      BelowNext(l, cells, fragments, c, n - 1);
      var column := CellColumn(l, cells, fragments[n - 1].contribution.unit).value;
      OwnCell(l, cells, fragments[n - 1].contribution.unit, c);
      if column < c {
        NoneEarlier(l, cells, fragments, c, n - 1);
      }
    }
  }

  lemma {:induction false} BelowAll(l: Layout, cells: seq<Block>, fragments: seq<Fragment>, n: nat)
    requires InColumnOrder(l, cells, fragments) && n <= |fragments|
    ensures Below(l, cells, fragments, |cells|, n) == fragments[..n]
    ensures Below(l, cells, fragments, 0, n) == []
  {
    if n > 0 {
      BelowAll(l, cells, fragments, n - 1);
    }
  }

  lemma {:induction false} CellsBelow(l: Layout, cells: seq<Block>, fragments: seq<Fragment>, c: nat)
    requires DistinctIds(cells) && InColumnOrder(l, cells, fragments) && c <= |cells|
    ensures CellFragments(l, cells, fragments, c) == Below(l, cells, fragments, c, |fragments|)
  {
    hide InColumnOrder, Below;
    if c > 0 {
      CellsBelow(l, cells, fragments, c - 1);
      BelowNext(l, cells, fragments, c - 1, |fragments|);
    } else {
      BelowAll(l, cells, fragments, |fragments|);
    }
  }

  lemma {:induction false} InOneCell(l: Layout, cells: seq<Block>, fragments: seq<Fragment>, c: nat, n: nat)
    requires DistinctIds(cells) && c < |cells| && n <= |fragments|
    ensures forall f :: f in FragmentsIn(l, fragments, cells[c].id, n) ==> CellColumn(l, cells, f.contribution.unit) == Some(c)
  {
    if n > 0 {
      InOneCell(l, cells, fragments, c, n - 1);
      OwnCell(l, cells, fragments[n - 1].contribution.unit, c);
    }
  }

  lemma {:induction false} CellsOrdered(l: Layout, cells: seq<Block>, fragments: seq<Fragment>, c: nat)
    requires DistinctIds(cells) && c <= |cells|
    ensures
      var all := CellFragments(l, cells, fragments, c);
      && InColumnOrder(l, cells, all)
      && forall i :: 0 <= i < |all| ==> CellColumn(l, cells, all[i].contribution.unit).value < c
  {
    hide CellColumn;
    if c > 0 {
      CellsOrdered(l, cells, fragments, c - 1);
      InOneCell(l, cells, fragments, c - 1, |fragments|);
      var own := FragmentsIn(l, fragments, cells[c - 1].id, |fragments|);
      assert forall i :: 0 <= i < |own| ==> own[i] in own;
    }
  }

  /** Laid out cell by cell a row keeps its fragments exactly when its cells own them all in column order. */
  lemma {:induction false} CellsConserveExactly(l: Layout, cells: seq<Block>, fragments: seq<Fragment>)
    requires DistinctIds(cells)
    ensures CellFragments(l, cells, fragments, |cells|) == fragments <==> InColumnOrder(l, cells, fragments)
  {
    if InColumnOrder(l, cells, fragments) {
      CellsBelow(l, cells, fragments, |cells|);
      BelowAll(l, cells, fragments, |fragments|);
      assert fragments[..|fragments|] == fragments;
    }
    CellsOrdered(l, cells, fragments, |cells|);
  }

  lemma {:induction false} ColumnBodiesAre(l: Layout, body: Body, window: TableWindow, cells: seq<Block>, n: nat)
    requires n <= |window.columns| <= |cells| && ColumnBodies(l, body, window, cells, n).Ok?
    requires forall i :: 0 <= i < |window.columns| ==> window.columns[i] == i
    ensures
      var bodies := ColumnBodies(l, body, window, cells, n).value;
      && BodiesFragments(bodies, |bodies|) == CellFragments(l, cells, body.fragments, n)
      && forall i :: 0 <= i < |bodies| ==> !Wide(bodies[i]) && bodies[i].fragments != []
  {
    hide FragmentsIn;
    if n > 0 {
      ColumnBodiesAre(l, body, window, cells, n - 1);
      var before := ColumnBodies(l, body, window, cells, n - 1).value;
      var fragments := FragmentsIn(l, body.fragments, cells[n - 1].id, |body.fragments|);
      if fragments != [] {
        WeightThen(before, Body(fragments, [window.(columns := [n - 1])]));
      }
    }
  }

  /** A body whose window, if it has several columns, is a whole row of cells. */
  ghost predicate WholeRow(l: Layout, body: Body) {
    Wide(body) ==>
      && l.RowCells(body.windows[0].row).Ok?
      && var cells := l.RowCells(body.windows[0].row).value;
         && DistinctIds(cells)
         && |body.windows[0].columns| == |cells|
         && forall i :: 0 <= i < |cells| ==> body.windows[0].columns[i] == i
  }

  /** Whether refining a body would go by columns and yet not find every fragment in a cell, in order. */
  ghost predicate LosesText(l: Layout, body: Body)
    requires WholeRow(l, body)
  {
    && Wide(body)
    && var cells := l.RowCells(body.windows[0].row).value;
       && (exists i, c :: 0 <= i < |body.fragments| && 0 <= c < |cells|
                          && l.InBlock(body.fragments[i].contribution.unit, cells[c].id))
       && !InColumnOrder(l, cells, body.fragments)
  }

  lemma {:induction false} SomeCellFragment(l: Layout, cells: seq<Block>, fragments: seq<Fragment>, i: nat, c: nat, n: nat)
    requires i < |fragments| && c < n <= |cells| && l.InBlock(fragments[i].contribution.unit, cells[c].id)
    ensures CellFragments(l, cells, fragments, n) != []
  {
    hide FragmentsIn, l.InBlock;
    if c < n - 1 {
      SomeCellFragment(l, cells, fragments, i, c, n - 1);
    } else {
      SomeFragmentIn(l, fragments, cells[c].id, i, |fragments|);
    }
  }

  lemma {:induction false} SomeFragmentIn(l: Layout, fragments: seq<Fragment>, block: Id, i: nat, n: nat)
    requires i < n <= |fragments| && l.InBlock(fragments[i].contribution.unit, block)
    ensures FragmentsIn(l, fragments, block, n) != []
  {
    if i < n - 1 {
      SomeFragmentIn(l, fragments, block, i, n - 1);
    }
  }

  lemma {:induction false} NoFragmentIn(l: Layout, fragments: seq<Fragment>, block: Id, n: nat)
    requires n <= |fragments| && forall i :: 0 <= i < n ==> !l.InBlock(fragments[i].contribution.unit, block)
    ensures FragmentsIn(l, fragments, block, n) == []
  {
    if n > 0 {
      NoFragmentIn(l, fragments, block, n - 1);
    }
  }

  lemma {:induction false} NoCellFragment(l: Layout, cells: seq<Block>, fragments: seq<Fragment>, n: nat)
    requires n <= |cells|
    requires forall i, c :: 0 <= i < |fragments| && 0 <= c < |cells| ==> !l.InBlock(fragments[i].contribution.unit, cells[c].id)
    ensures CellFragments(l, cells, fragments, n) == []
  {
    if n > 0 {
      NoCellFragment(l, cells, fragments, n - 1);
      NoFragmentIn(l, fragments, cells[n - 1].id, |fragments|);
    }
  }

  /**
   * The smaller bodies hold exactly the body's fragments, in order, if and only if the body is not
   * a row whose cells own some of them but not all in column order. A fragment in a block nested
   * inside a cell, beside text of the cell's own, makes it fail.
   */
  lemma {:induction false} RefinedConservesExactly(l: Layout, body: Body)
    requires WholeRow(l, body) && Refined(l, body).Ok? && Refined(l, body).value.Some?
    ensures
      var bodies := Refined(l, body).value.value;
      BodiesFragments(bodies, |bodies|) == body.fragments <==> !LosesText(l, body)
  {
    hide ColumnBodies, FragmentBodies, CellFragments, InColumnOrder, l.RowCells, l.InBlock;
    if Wide(body) {
      var cells := l.RowCells(body.windows[0].row).value;
      ColumnBodiesAre(l, body, body.windows[0], cells, |cells|);
      CellsConserveExactly(l, cells, body.fragments);
      if i, c :| 0 <= i < |body.fragments| && 0 <= c < |cells| && l.InBlock(body.fragments[i].contribution.unit, cells[c].id) {
        SomeCellFragment(l, cells, body.fragments, i, c, |cells|);
      } else {
        NoCellFragment(l, cells, body.fragments, |cells|);
      }
    }
    if !Wide(body) || Columns(l, body).value == [] {
      FragmentBodiesAre(l, body.fragments, |body.fragments|);
      assert body.fragments[..|body.fragments|] == body.fragments;
    }
  }

  /** The smaller bodies are nonempty and go no further by columns. */
  lemma {:induction false} RefinedNarrow(l: Layout, body: Body)
    requires WholeRow(l, body) && Refined(l, body).Ok? && Refined(l, body).value.Some?
    ensures
      var bodies := Refined(l, body).value.value;
      forall i :: 0 <= i < |bodies| ==> !Wide(bodies[i]) && bodies[i].fragments != []
  {
    hide ColumnBodies, FragmentBodies, l.RowCells;
    if Wide(body) {
      var cells := l.RowCells(body.windows[0].row).value;
      ColumnBodiesAre(l, body, body.windows[0], cells, |cells|);
    }
    if !Wide(body) || Columns(l, body).value == [] {
      FragmentBodiesAre(l, body.fragments, |body.fragments|);
    }
  }

  lemma {:induction false} ColumnBodiesOk(l: Layout, body: Body, window: TableWindow, cells: seq<Block>, n: nat)
    requires n <= |window.columns| && forall i :: 0 <= i < n ==> window.columns[i] < |cells|
    ensures ColumnBodies(l, body, window, cells, n).Ok?
  {
    hide FragmentsIn;
    if n > 0 {
      ColumnBodiesOk(l, body, window, cells, n - 1);
    }
  }
}
