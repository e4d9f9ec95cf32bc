/**
 * The layout-independent view of a grid: its cells given row by row.
 *
 * Both storage layouts are related to this view by an abstraction
 * function (`Cells()` in each grid class). Two grids whose views are
 * equal answer every checked read the same way.
 */
module Cells {
  import opened Wrappers

  /** A coordinate (x, y): x selects the column, y the row. */
  type Coord = (nat, nat)

  /** `g` has exactly `h` rows, every one of them `w` cells long. */
  predicate IsRect<T>(g: seq<seq<T>>, w: nat, h: nat)
  {
    |g| == h && forall y :: 0 <= y < h ==> |g[y]| == w
  }

  /** Cell (x, y) lies inside the rows of `g`. */
  predicate Holds<T>(g: seq<seq<T>>, x: nat, y: nat)
  {
    y < |g| && x < |g[y]|
  }

  /** The checked reading of cell (x, y): present exactly when `g` holds it. */
  function CellAt<T>(g: seq<seq<T>>, x: nat, y: nat): Option<T>
  {
    if Holds(g, x, y) then Some(g[y][x]) else None
  }

  /** `h` rows of `w` copies of `d`: what default-filled construction produces. */
  function Filled<T>(w: nat, h: nat, d: T): (g: seq<seq<T>>)
    ensures IsRect(g, w, h)
    ensures forall x, y :: 0 <= x < w && 0 <= y < h ==> g[y][x] == d
  {
    seq(h, _ => seq(w, _ => d))
  }

  /** The view after storing `v` into cell (x, y). */
  function Write<T>(g: seq<seq<T>>, x: nat, y: nat, v: T): seq<seq<T>>
    requires Holds(g, x, y)
  {
    g[y := g[y][x := v]]
  }

  /** Rows of `a` and `b` have the same number and the same lengths. */
  predicate SameShape<T>(a: seq<seq<T>>, b: seq<seq<T>>)
  {
    |a| == |b| && forall y :: 0 <= y < |a| ==> |a[y]| == |b[y]|
  }

  /**
   * A store is observed by the next read of the same cell, and by no
   * other cell; the shape of the grid is untouched.
   */
  lemma WriteThenRead<T>(g: seq<seq<T>>, x: nat, y: nat, v: T, x': nat, y': nat)
    requires Holds(g, x, y)
    ensures SameShape(Write(g, x, y, v), g)
    ensures CellAt(Write(g, x, y, v), x', y') == if x' == x && y' == y then Some(v) else CellAt(g, x', y')
  {
  }
}
