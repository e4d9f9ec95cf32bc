/**
 * The two layouts side by side. Both expose the same row-by-row view of
 * their cells, and their checked reads are defined on that view, so grids
 * whose views agree cannot be told apart by `get`. Construction by `new`
 * and every store through `get_mut` keep the views in agreement.
 */
module Layouts {
  import opened Wrappers
  import opened Cells
  import FlatGrid
  import NestedGrid

  /** Grids with the same cells answer every `get` alike, in range or not. */
  lemma SameCellsSameGet<T>(flat: FlatGrid.Grid<T>, nested: NestedGrid.Grid<T>, x: nat, y: nat)
    requires flat.Valid() && flat.Cells() == nested.Cells()
    ensures flat.Get(x, y) == nested.Get(x, y)
  {
  }

  /**
   * `new` on both layouts with the same dimensions and default: `get`
   * agrees at (x, y), finds the default inside the grid and nothing outside.
   */
  method NewLayoutsAgree<T>(width: nat, height: nat, default: T, x: nat, y: nat)
    returns (fromFlat: Option<T>, fromNested: Option<T>)
    ensures fromFlat == fromNested
    ensures fromFlat.Some? <==> x < width && y < height
    ensures fromFlat.Some? ==> fromFlat.value == default
  {
    var flat := new FlatGrid.Grid(width, height, default);
    var nested := new NestedGrid.Grid(width, height, default);
    fromFlat := flat.Get(x, y);
    fromNested := nested.Get(x, y);
  }

  /**
   * The same store through `get_mut` on both layouts: both find the cell
   * or neither does, and their cells stay equal.
   */
  method StoreOnBoth<T>(flat: FlatGrid.Grid<T>, nested: NestedGrid.Grid<T>, x: nat, y: nat, v: T)
    returns (foundFlat: bool, foundNested: bool)
    requires flat.Valid() && flat.Cells() == nested.Cells()
    modifies flat, nested
    ensures flat.Valid() && flat.Cells() == nested.Cells()
    ensures foundFlat == foundNested
    ensures foundFlat ==> flat.Get(x, y) == Some(v)
  {
    foundFlat := flat.GetMut(x, y, v);
    foundNested := nested.GetMut(x, y, v);
  }

  /**
   * A flat 4 by 3 grid built by `new` with default 0: all twelve cells are
   * 0, cell (3, 2) is found and holds 0, and (4, 2) and (3, 3) are out of range.
   */
  method FlatFourByThree() returns (buffer: seq<int>, corner: Option<int>, right: Option<int>, below: Option<int>)
    ensures buffer == [0, 0, 0, 0, 0, 0, 0, 0, 0, 0, 0, 0]
    ensures corner == Some(0) && right == None && below == None
  {
    var g := new FlatGrid.Grid(4, 3, 0);
    buffer := g.AsSlice();
    corner := g.Get(3, 2);
    right := g.Get(4, 2);
    below := g.Get(3, 3);
  }
}
