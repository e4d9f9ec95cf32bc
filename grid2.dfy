/**
 * The nested layout: a sequence of independently owned rows.
 *
 * `height()` is the number of rows and `width()` the length of row 0.
 * Nothing in the type keeps the rows equally long: `new` builds them so,
 * but `from_data` adopts whatever rows it is given, the rows are a public
 * field, and each row `rows_mut` yields can be resized. The model covers
 * only stores into existing cells, which keep every row's length. The
 * grid's row-by-row view is its storage itself.
 *
 * As in the flat layout, a mutable reference an accessor hands out is
 * modelled by the one store of `v` the caller makes through it.
 */
module NestedGrid {
  import opened Wrappers
  import opened Cells

  /** `Vec::get`: the element at `i` when there is one. */
  function SeqGet<T>(s: seq<T>, i: nat): (r: Option<T>)
    ensures r.Some? <==> i < |s|
    ensures r.Some? ==> r.value == s[i]
  {
    if i < |s| then Some(s[i]) else None
  }

  /** Every row is as long as the first one. */
  predicate UniformRows<T>(rows: seq<seq<T>>)
  {
    forall y :: 0 <= y < |rows| ==> |rows[y]| == |rows[0]|
  }

  /** Uniform rows, `h` of them, each as long as the first, form an `|rows[0]|` by `h` rectangle. */
  lemma UniformIsRect<T>(rows: seq<seq<T>>)
    requires |rows| > 0 && UniformRows(rows)
    ensures IsRect(rows, |rows[0]|, |rows|)
  {
  }

  class Grid<T> {
    var data: seq<seq<T>>

    /** The grid's cells, row by row: the rows it owns. */
    function Cells(): seq<seq<T>>
      reads this
    {
      data
    }

    /** `new`: `height` rows of `width` default values each. */
    constructor (width: nat, height: nat, default: T)
      ensures IsRect(Cells(), width, height)
      ensures Cells() == Filled(width, height, default)
    {
      data := seq(height, _ => seq(width, _ => default));
    }

    /** `from_data`: adopts the rows unchanged; their lengths are not checked. */
    constructor FromData(data: seq<seq<T>>)
      ensures Cells() == data
    {
      this.data := data;
    }

    /**
     * `from_data` as its documentation describes it: rows of unequal
     * length abort construction.
     */
    constructor FromUniformData(data: seq<seq<T>>)
      requires UniformRows(data)
      ensures Cells() == data
      ensures |data| > 0 ==> forall x: nat, y: nat :: Get(x, y).Some? <==> x < Width() && y < Height()
    {
      this.data := data;
      new;
      if |data| > 0 {
        UniformIsRect(data);
      }
    }

    /** `width()`: the length of row 0, the common row length when the rows are uniform; no rows aborts. */
    function Width(): (r: nat)
      reads this
      requires |data| > 0
      ensures UniformRows(data) ==> IsRect(Cells(), r, |Cells()|)
      ensures forall w :: IsRect(Cells(), w, |Cells()|) ==> r == w
    {
      |data[0]|
    }

    /** `height()`: the number of rows. */
    function Height(): (r: nat)
      reads this
      ensures r == |Cells()|
      ensures forall x: nat, y: nat :: Get(x, y).Some? ==> y < r
    {
      |data|
    }

    /**
     * `get`: two chained checked lookups, the row and then the cell in it.
     * Present exactly when that row exists and is long enough.
     */
    function Get(x: nat, y: nat): (r: Option<T>)
      reads this
      ensures r.Some? <==> y < |data| && x < |data[y]|
      ensures r == CellAt(Cells(), x, y)
    {
      match SeqGet(data, y)
      case None => None
      case Some(row) => SeqGet(row, x)
    }

    /** `get_unchecked`: the caller vouches that row `y` exists and holds column `x`. */
    function GetUnchecked(x: nat, y: nat): (r: T)
      reads this
      requires Holds(data, x, y)
      ensures Get(x, y) == Some(r)
    {
      data[y][x]
    }

    /** `get_unchecked_mut` followed by a store of `v` through the reference it returns. */
    method GetUncheckedMut(x: nat, y: nat, v: T)
      requires Holds(data, x, y)
      modifies this
      ensures SameShape(Cells(), old(Cells()))
      ensures Cells() == Write(old(Cells()), x, y, v)
    {
      data := data[y := data[y][x := v]];
    }

    /**
     * `get_mut` followed by a store of `v` when it returns a reference:
     * `found` tells whether it did. Out of range nothing changes.
     */
    method GetMut(x: nat, y: nat, v: T) returns (found: bool)
      modifies this
      ensures found <==> Holds(old(data), x, y)
      ensures found ==> Cells() == Write(old(Cells()), x, y, v)
      ensures !found ==> data == old(data)
    {
      found := y < |data| && x < |data[y]|;
      if found {
        GetUncheckedMut(x, y, v);
      }
    }

    /** `row`: the whole of row `y`, which `get` reads cell by cell; `y >= height()` aborts. */
    function Row(y: nat): (r: seq<T>)
      reads this
      requires y < |data|
      ensures forall x :: 0 <= x < |r| ==> Get(x, y) == Some(r[x])
      ensures Get(|r|, y) == None
    {
      data[y]
    }

    /** `row_mut(y)[x] = v`: the store lands in cell (x, y) and nowhere else. */
    method RowMut(y: nat, x: nat, v: T)
      requires y < |data| && x < |data[y]|
      modifies this
      ensures SameShape(Cells(), old(Cells()))
      ensures Cells() == Write(old(Cells()), x, y, v)
    {
      data := data[y := data[y][x := v]];
    }

    /** `rows`: the rows in order, exactly `height()` of them. */
    function Rows(): (r: seq<seq<T>>)
      reads this
      ensures |r| == Height()
      ensures forall y :: 0 <= y < |r| ==> r[y] == Row(y)
    {
      data
    }

    /** `rows_mut`: a store of `v` into element `x` of the `k`-th row it yields lands in cell (x, k). */
    method RowsMut(k: nat, x: nat, v: T)
      requires k < |data| && x < |data[k]|
      modifies this
      ensures SameShape(Cells(), old(Cells()))
      ensures Cells() == Write(old(Cells()), x, k, v)
    {
      var rows := data;
      data := rows[k := rows[k][x := v]];
    }
  }

  /** On a grid built by `new` a cell is present exactly when both coordinates are in range. */
  lemma NewGridGet<T>(g: Grid<T>, width: nat, height: nat, x: nat, y: nat)
    requires IsRect(g.Cells(), width, height)
    ensures g.Get(x, y).Some? <==> x < width && y < height
  {
  }

  /** Rows `[[1, 2], [3, 4], [5, 6]]`: width 2, height 3, and cell (1, 2) holds 6. */
  method ThreeRowScenario() returns (width: nat, height: nat, cell: Option<int>)
    ensures width == 2 && height == 3 && cell == Some(6)
  {
    var g := new Grid.FromData([[1, 2], [3, 4], [5, 6]]);
    width := g.Width();
    height := g.Height();
    cell := g.Get(1, 2);
  }

  /**
   * Rows `[[1, 2], [3]]` are adopted as they are: `width()` reports 2, yet
   * cell (1, 1), inside that width and the height of 2, is missing.
   */
  method RaggedScenario() returns (width: nat, height: nat, cell: Option<int>)
    ensures width == 2 && height == 2 && cell == None
  {
    var g := new Grid.FromData([[1, 2], [3]]);
    width := g.Width();
    height := g.Height();
    cell := g.Get(1, 1);
  }

  /**
   * A grid built from uniform rows answers `get` exactly inside
   * `width()` by `height()`.
   */
  lemma UniformDataGet<T>(g: Grid<T>, x: nat, y: nat)
    requires |g.Cells()| > 0 && UniformRows(g.Cells())
    ensures g.Get(x, y).Some? <==> x < g.Width() && y < g.Height()
  {
    UniformIsRect(g.Cells());
  }
}
