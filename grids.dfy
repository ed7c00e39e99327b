/**
  Two-dimensional grids stored as a list of rows, indexed by a GridLocation as
  rows[p.y][p.x], and the class Grid that wraps one.
 */
module Grids {
  import opened Locations

  /** Whether p indexes a cell of g. */
  predicate InGrid<T>(g: seq<seq<T>>, p: GridLocation) {
    0 <= p.y < |g| && 0 <= p.x < |g[p.y]|
  }

  /** The cell of g at p. */
  function At<T>(g: seq<seq<T>>, p: GridLocation): T
    requires InGrid(g, p)
  {
    g[p.y][p.x]
  }

  /** g has `height` rows of `width` cells each. */
  predicate Shaped<T>(g: seq<seq<T>>, width: int, height: int) {
    |g| == height && forall y :: 0 <= y < |g| ==> |g[y]| == width
  }

  /** g and h have the same number of rows and the same row lengths. */
  predicate SameShape<T, U>(g: seq<seq<T>>, h: seq<seq<U>>) {
    |g| == |h| && forall y :: 0 <= y < |g| ==> |g[y]| == |h[y]|
  }

  /** The indices of a shaped grid are exactly the locations inside its rectangle. */
  lemma ShapedIndices<T>(g: seq<seq<T>>, width: int, height: int, p: GridLocation)
    requires Shaped(g, width, height)
    ensures InGrid(g, p) <==> Within(p, width, height)
  {
  }

  /** g with the cell at p replaced by v; every other cell is unchanged. */
  function Write<T>(g: seq<seq<T>>, p: GridLocation, v: T): (h: seq<seq<T>>)
    requires InGrid(g, p)
    ensures SameShape(g, h)
    ensures forall q :: InGrid(g, q) ==> At(h, q) == if q == p then v else At(g, q)
  {
    g[p.y := g[p.y][p.x := v]]
  }

  /** A grid of `height` rows of `width` copies of v. */
  function Filled<T>(v: T, width: nat, height: nat): (g: seq<seq<T>>)
    ensures Shaped(g, width, height)
    ensures forall q :: InGrid(g, q) ==> At(g, q) == v
  {
    seq(height, _ => seq(width, _ => v))
  }

  /** The sum of f over the cells of one row. */
  function RowTotal<T>(row: seq<T>, f: T -> nat): nat
  {
    if row == [] then 0 else RowTotal(row[..|row| - 1], f) + f(row[|row| - 1])
  }

  /** The sum of f over every cell of g. */
  function Total<T>(g: seq<seq<T>>, f: T -> nat): nat
  {
    if g == [] then 0 else Total(g[..|g| - 1], f) + RowTotal(g[|g| - 1], f)
  }

  /** Replacing one cell of a row changes its total by the difference of the two weights. */
  lemma {:induction false} RowTotalUpdate<T>(row: seq<T>, i: int, v: T, f: T -> nat)
    requires 0 <= i < |row|
    ensures RowTotal(row[i := v], f) + f(row[i]) == RowTotal(row, f) + f(v)
  {
    var n := |row| - 1;
    assert row[i := v][..n] == if i == n then row[..n] else row[..n][i := v];
    if i < n {
      RowTotalUpdate(row[..n], i, v, f);
    }
  }

  /** Replacing one cell of a grid changes its total by the difference of the two weights. */
  lemma {:induction false} TotalUpdate<T>(g: seq<seq<T>>, p: GridLocation, v: T, f: T -> nat)
    requires InGrid(g, p)
    ensures Total(Write(g, p, v), f) + f(At(g, p)) == Total(g, f) + f(v)
  {
    var n := |g| - 1;
    var h := Write(g, p, v);
    RowTotalUpdate(g[p.y], p.x, v, f);
    if p.y == n {
      assert h[..n] == g[..n];
    } else {
      assert h[..n] == Write(g[..n], p, v);
      TotalUpdate(g[..n], p, v, f);
    }
  }

  /** A row all of whose weights are zero has total zero. */
  lemma {:induction false} RowTotalZero<T>(row: seq<T>, f: T -> nat)
    requires forall i :: 0 <= i < |row| ==> f(row[i]) == 0
    ensures RowTotal(row, f) == 0
  {
    if row != [] {
      RowTotalZero(row[..|row| - 1], f);
    }
  }

  /** A grid all of whose weights are zero has total zero. */
  lemma {:induction false} TotalZero<T>(g: seq<seq<T>>, f: T -> nat)
    requires forall q :: InGrid(g, q) ==> f(At(g, q)) == 0
    ensures Total(g, f) == 0
  {
    if g != [] {
      var n := |g| - 1;
      forall i | 0 <= i < |g[n]| ensures f(g[n][i]) == 0 {
        assert InGrid(g, GridLocation(i, n));
      }
      RowTotalZero(g[n], f);
      forall q | InGrid(g[..n], q) ensures f(At(g[..n], q)) == 0 {
        assert InGrid(g, q);
      }
      TotalZero(g[..n], f);
    }
  }

  /** A row all of whose weights are one has its length as total. */
  lemma {:induction false} RowTotalOnes<T>(row: seq<T>, f: T -> nat)
    requires forall i :: 0 <= i < |row| ==> f(row[i]) == 1
    ensures RowTotal(row, f) == |row|
  {
    if row != [] {
      RowTotalOnes(row[..|row| - 1], f);
    }
  }

  /** A width by height grid all of whose weights are one has total width * height. */
  lemma {:induction false} TotalOnes<T>(g: seq<seq<T>>, f: T -> nat, width: nat, height: nat)
    requires Shaped(g, width, height)
    requires forall q :: InGrid(g, q) ==> f(At(g, q)) == 1
    ensures Total(g, f) == width * height
  {
    if g != [] {
      var n := |g| - 1;
      forall i | 0 <= i < |g[n]| ensures f(g[n][i]) == 1 {
        assert InGrid(g, GridLocation(i, n));
      }
      RowTotalOnes(g[n], f);
      forall q | InGrid(g[..n], q) ensures f(At(g[..n], q)) == 1 {
        assert InGrid(g, q);
      }
      TotalOnes(g[..n], f, width, height - 1);
      assert width * height == width * (height - 1) + width;
    }
  }

  /**
    A two-dimensional grid indexed by GridLocations (class Grid of the source).
    Each cell starts out as its own copy of the initial value.
   */
  class Grid<T> {
    const width: nat
    const height: nat
    var cells: seq<seq<T>>

    ghost predicate Valid()
      reads this
    {
      Shaped(cells, width, height)
    }

    constructor (init: T, width: nat, height: nat)
      ensures Valid() && this.width == width && this.height == height
      ensures cells == Filled(init, width, height)
    {
      this.width := width;
      this.height := height;
      cells := Filled(init, width, height);
    }

    /** The cell at p: row p.y, column p.x. */
    function Get(p: GridLocation): (x: T)
      reads this
      requires Valid() && Within(p, width, height)
      ensures x == cells[p.y][p.x]
    {
      At(cells, p)
    }

    /** Replaces the cell at p by x; nothing else changes. */
    method Set(p: GridLocation, x: T)
      requires Valid() && Within(p, width, height)
      modifies this
      ensures Valid()
      ensures cells == Write(old(cells), p, x)
      ensures Get(p) == x
      ensures forall q :: Within(q, width, height) && q != p ==> Get(q) == old(Get(q))
    {
      cells := Write(cells, p, x);
    }
  }
}
