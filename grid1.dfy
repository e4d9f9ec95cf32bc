/**
 * The flat layout: one buffer of `width * height` cells in row-major order,
 * with `width` and `height` stored beside it.
 *
 * The buffer is a field the mutating methods reassign. A mutable reference
 * that an accessor hands out (`get_mut`, `row_mut`, `IndexMut`, ...) is
 * modelled by the one store the caller makes through it: each such method
 * takes the stored value `v`.
 */
module FlatGrid {
  import opened Wrappers
  import opened Cells

  /** Row-major offset of cell (x, y) in a buffer whose rows are `width` long. */
  function Offset(width: nat, x: nat, y: nat): (r: nat)
    ensures x <= r
    ensures x < width ==> y * width <= r < y * width + width
  {
    y * width + x
  }

  /** Every in-bounds cell has its offset inside the buffer. */
  lemma OffsetInBounds(width: nat, height: nat, x: nat, y: nat)
    requires x < width && y < height
    ensures Offset(width, x, y) < width * height
  {
    RowEndInBounds(width, height, y);
  }

  /** Row `y` ends no later than the buffer does. */
  lemma RowEndInBounds(width: nat, height: nat, y: nat)
    requires y < height
    ensures y * width + width <= width * height
  {
    assert y * width + width == (y + 1) * width;
    assert (y + 1) * width <= height * width by {
      MulMonotone(y + 1, height, width);
    }
  }

  lemma MulMonotone(a: nat, b: nat, c: nat)
    requires a <= b
    ensures a * c <= b * c
  {
  }

  /** Distinct in-bounds cells never share an offset, and equal cells do. */
  lemma OffsetInjective(width: nat, x1: nat, y1: nat, x2: nat, y2: nat)
    requires x1 < width && x2 < width
    ensures Offset(width, x1, y1) == Offset(width, x2, y2) <==> x1 == x2 && y1 == y2
  {
    if y1 < y2 {
      RowsApart(width, x1, y1, x2, y2);
    } else if y2 < y1 {
      RowsApart(width, x2, y2, x1, y1);
    }
  }

  /** A cell in an earlier row lies strictly before any cell of a later row. */
  lemma RowsApart(width: nat, x1: nat, y1: nat, x2: nat, y2: nat)
    requires x1 < width && y1 < y2
    ensures Offset(width, x1, y1) < Offset(width, x2, y2)
  {
    assert y1 * width + width <= y2 * width by {
      MulMonotone(y1 + 1, y2, width);
    }
  }

  /** Every buffer index `i` is the offset of column `i % width` in row `i / width`. */
  lemma OffsetSplit(width: nat, height: nat, i: nat)
    requires i < width * height
    ensures width > 0
    ensures i % width < width && i / width < height
    ensures Offset(width, i % width, i / width) == i
  {
    if i / width >= height {
      MulMonotone(height, i / width, width);
      assert false;
    }
  }

  /** The cells of row `y`: the `width` buffer entries starting at offset `y * width`. */
  function RowSlice<T>(width: nat, height: nat, data: seq<T>, y: nat): (r: seq<T>)
    requires |data| == width * height && y < height
    ensures |r| == width
    ensures forall x :: 0 <= x < width ==> Offset(width, x, y) < |data| && r[x] == data[Offset(width, x, y)]
  {
    RowEndInBounds(width, height, y);
    data[y * width .. y * width + width]
  }

  /** The row-by-row view of a flat buffer: the abstraction function of the flat layout. */
  function RowsOf<T>(width: nat, height: nat, data: seq<T>): (g: seq<seq<T>>)
    requires |data| == width * height
    ensures |g| == height
    ensures forall y :: 0 <= y < height ==> g[y] == RowSlice(width, height, data, y)
  {
    seq(height, y requires 0 <= y < height => RowSlice(width, height, data, y))
  }

  /** Cell (x, y) of the view is the buffer entry at offset (x, y). */
  lemma RowsOfCell<T>(width: nat, height: nat, data: seq<T>, x: nat, y: nat)
    requires |data| == width * height && x < width && y < height
    ensures |RowsOf(width, height, data)[y]| == width
    ensures Offset(width, x, y) < |data| && RowsOf(width, height, data)[y][x] == data[Offset(width, x, y)]
  {
    var row := RowSlice(width, height, data, y);
    assert RowsOf(width, height, data)[y] == row;
  }

  /** The view is a `width` by `height` rectangle whose cell (x, y) is the entry at offset (x, y). */
  lemma RowsOfCells<T>(width: nat, height: nat, data: seq<T>)
    requires |data| == width * height
    ensures IsRect(RowsOf(width, height, data), width, height)
    ensures forall x, y :: 0 <= x < width && 0 <= y < height ==>
      Offset(width, x, y) < |data| && RowsOf(width, height, data)[y][x] == data[Offset(width, x, y)]
  {
    forall x, y | 0 <= x < width && 0 <= y < height
      ensures Offset(width, x, y) < |data| && RowsOf(width, height, data)[y][x] == data[Offset(width, x, y)]
    {
      RowsOfCell(width, height, data, x, y);
    }
  }

  /** A store at the offset of (x, y) changes cell (x, y) of the view and nothing else. */
  lemma {:induction false} RowsOfWrite<T>(width: nat, height: nat, data: seq<T>, x: nat, y: nat, v: T)
    requires |data| == width * height && x < width && y < height
    ensures Offset(width, x, y) < |data|
    ensures RowsOf(width, height, data[Offset(width, x, y) := v]) == Write(RowsOf(width, height, data), x, y, v)
  {
    OffsetInBounds(width, height, x, y);
    var data' := data[Offset(width, x, y) := v];
    var lhs := RowsOf(width, height, data');
    var rhs := Write(RowsOf(width, height, data), x, y, v);
    forall y' | 0 <= y' < height
      ensures lhs[y'] == rhs[y']
    {
      forall x' | 0 <= x' < width
        ensures lhs[y'][x'] == rhs[y'][x']
      {
        OffsetInjective(width, x, y, x', y');
      }
    }
  }

  /** A default-filled buffer has the default-filled view. */
  lemma {:induction false} RowsOfFilled<T>(width: nat, height: nat, d: T)
    ensures RowsOf(width, height, seq(width * height, _ => d)) == Filled(width, height, d)
  {
    var lhs := RowsOf(width, height, seq(width * height, _ => d));
    var rhs := Filled(width, height, d);
    forall y | 0 <= y < height
      ensures lhs[y] == rhs[y]
    {
      forall x | 0 <= x < width
        ensures lhs[y][x] == rhs[y][x]
      {
        OffsetInBounds(width, height, x, y);
      }
    }
  }

  /**
   * `chunks_exact(n)`: the consecutive pieces of `s` that are exactly `n`
   * long, in order; a shorter remainder at the end is dropped.
   */
  function ChunksExact<T>(s: seq<T>, n: nat): (r: seq<seq<T>>)
    requires n > 0
    ensures |r| * n <= |s| < |r| * n + n
    ensures forall k :: 0 <= k < |r| ==> |r[k]| == n
    decreases |s|
  {
    if |s| < n then [] else
      var rest := ChunksExact(s[n..], n);
      assert (|rest| + 1) * n == |rest| * n + n;
      [s[..n]] + rest
  }

  /** A buffer of `h` rows of `n` cells cuts into exactly `h` chunks. */
  lemma {:induction false} ChunksCount<T>(s: seq<T>, n: nat, h: nat)
    requires n > 0 && |s| == n * h
    ensures |ChunksExact(s, n)| == h
  {
    if h > 0 {
      assert |s[n..]| == n * (h - 1);
      ChunksCount(s[n..], n, h - 1);
    }
  }

  /** When the buffer reaches the end of chunk `k`, chunk `k` is entries `k * n .. k * n + n`. */
  lemma {:induction false} ChunkAt<T>(s: seq<T>, n: nat, k: nat)
    requires n > 0 && k * n + n <= |s|
    ensures k < |ChunksExact(s, n)| && ChunksExact(s, n)[k] == s[k * n .. k * n + n]
  {
    if k > 0 {
      assert (k - 1) * n + n == k * n;
      ChunkAt(s[n..], n, k - 1);
      assert s[n..][(k - 1) * n .. (k - 1) * n + n] == s[k * n .. k * n + n];
    }
  }

  /** Cutting `h` rows of `n` cells into chunks of `n` gives back exactly those `h` rows. */
  lemma ChunksOfRect<T>(s: seq<T>, n: nat, h: nat)
    requires n > 0 && |s| == n * h
    ensures |ChunksExact(s, n)| == h
    ensures forall k :: 0 <= k < h ==> k * n + n <= |s| && ChunksExact(s, n)[k] == s[k * n .. k * n + n]
  {
    ChunksCount(s, n, h);
    forall k | 0 <= k < h
      ensures k * n + n <= |s| && ChunksExact(s, n)[k] == s[k * n .. k * n + n]
    {
      RowEndInBounds(n, h, k);
      ChunkAt(s, n, k);
    }
  }

  class Grid<T> {
    var width: nat
    var height: nat
    var data: seq<T>

    /** The buffer holds exactly one entry per cell. */
    ghost predicate Valid()
      reads this
    {
      |data| == width * height
    }

    /** The grid's cells, row by row. */
    function Cells(): (g: seq<seq<T>>)
      reads this
      requires Valid()
      ensures IsRect(g, width, height)
      ensures forall x, y :: 0 <= x < width && 0 <= y < height ==> Offset(width, x, y) < |data| && g[y][x] == data[Offset(width, x, y)]
    {
      RowsOfCells(width, height, data);
      RowsOf(width, height, data)
    }

    /** `new`: a `width` by `height` grid whose every cell holds the default value. */
    constructor (width: nat, height: nat, default: T)
      ensures Valid() && this.width == width && this.height == height
      ensures data == seq(width * height, _ => default)
      ensures Cells() == Filled(width, height, default)
    {
      this.width := width;
      this.height := height;
      data := seq(width * height, _ => default);
      new;
      RowsOfFilled(width, height, default);
    }

    /** `from_data`: adopts `data` unchanged; a length other than `width * height` aborts. */
    constructor FromData(width: nat, height: nat, data: seq<T>)
      requires width * height == |data|
      ensures Valid() && this.width == width && this.height == height && this.data == data
    {
      this.width := width;
      this.height := height;
      this.data := data;
    }

    /** `width()`: the row length; the buffer holds `height` rows of it. */
    function Width(): (r: nat)
      reads this
      requires Valid()
      ensures r * height == |data|
      ensures height > 0 ==> r == |Cells()[0]|
    {
      width
    }

    /** `height()`: the number of rows; the buffer holds that many rows of `width`. */
    function Height(): (r: nat)
      reads this
      requires Valid()
      ensures width * r == |data|
      ensures r == |Cells()|
    {
      height
    }

    /** `get`: the cell (x, y) when both coordinates are in range, otherwise `None`. */
    function Get(x: nat, y: nat): (r: Option<T>)
      reads this
      requires Valid()
      ensures r.Some? <==> x < width && y < height
      ensures r == CellAt(Cells(), x, y)
    {
      if x < width && y < height then Some(GetUnchecked(x, y)) else None
    }

    /** `get_unchecked`: the caller vouches for the bounds; the entry at the row-major offset. */
    function GetUnchecked(x: nat, y: nat): (r: T)
      reads this
      requires Valid() && x < width && y < height
      ensures r == Cells()[y][x]
    {
      OffsetInBounds(width, height, x, y);
      data[Offset(width, x, y)]
    }

    /** `get_unchecked_mut` followed by a store of `v` through the reference it returns. */
    method GetUncheckedMut(x: nat, y: nat, v: T)
      requires Valid() && x < width && y < height
      modifies this
      ensures Valid() && width == old(width) && height == old(height)
      ensures Cells() == Write(old(Cells()), x, y, v)
    {
      RowsOfWrite(width, height, data, x, y, v);
      data := data[Offset(width, x, y) := v];
    }

    /**
     * `get_mut` followed by a store of `v` when it returns a reference:
     * `found` tells whether it did. Out of range nothing changes.
     */
    method GetMut(x: nat, y: nat, v: T) returns (found: bool)
      requires Valid()
      modifies this
      ensures Valid() && width == old(width) && height == old(height)
      ensures found <==> x < width && y < height
      ensures found ==> Cells() == Write(old(Cells()), x, y, v)
      ensures !found ==> data == old(data)
    {
      found := x < width && y < height;
      if found {
        GetUncheckedMut(x, y, v);
      }
    }

    /** `grid[(x, y)]`: the cell, which `get` finds; out of range the program aborts. */
    function Index(x: nat, y: nat): (r: T)
      reads this
      requires Valid() && x < width && y < height
      ensures Get(x, y) == Some(r)
    {
      Get(x, y).value
    }

    /** `grid[(x, y)] = v`: a store through `get_mut`, which must find the cell. */
    method IndexMut(x: nat, y: nat, v: T)
      requires Valid() && x < width && y < height
      modifies this
      ensures Valid() && width == old(width) && height == old(height)
      ensures Cells() == Write(old(Cells()), x, y, v)
    {
      var found := GetMut(x, y, v);
    }

    /** `row`: the `width` cells of row `y`, read left to right; `y >= height` aborts. */
    function Row(y: nat): (r: seq<T>)
      reads this
      requires Valid() && y < height
      ensures |r| == width
      ensures forall x :: 0 <= x < width ==> Get(x, y) == Some(r[x])
    {
      RowSlice(width, height, data, y)
    }

    /** `row_mut(y)[x] = v`: the store lands in cell (x, y) and nowhere else. */
    method RowMut(y: nat, x: nat, v: T)
      requires Valid() && y < height && x < width
      modifies this
      ensures Valid() && width == old(width) && height == old(height)
      ensures Cells() == Write(old(Cells()), x, y, v)
    {
      RowsOfWrite(width, height, data, x, y, v);
      data := data[Offset(width, x, y) := v];
    }

    /**
     * `rows`: `chunks_exact(width)` over the buffer, which yields exactly
     * `height` slices, the rows in increasing y. A width of 0 aborts.
     */
    function Rows(): (r: seq<seq<T>>)
      reads this
      requires Valid() && width > 0
      ensures |r| == height
      ensures forall y :: 0 <= y < height ==> r[y] == Row(y)
    {
      ChunksOfRect(data, width, height);
      ChunksExact(data, width)
    }

    /**
     * `rows_mut`: a store of `v` into element `x` of the `k`-th slice that
     * `chunks_exact_mut(width)` yields lands in cell (x, k). A width of 0 aborts.
     */
    method RowsMut(k: nat, x: nat, v: T)
      requires Valid() && width > 0 && k < height && x < width
      modifies this
      ensures Valid() && width == old(width) && height == old(height)
      ensures Cells() == Write(old(Cells()), x, k, v)
    {
      ChunksOfRect(data, width, height);
      assert ChunksExact(data, width)[k][x] == data[Offset(width, x, k)];
      RowsOfWrite(width, height, data, x, k, v);
      data := data[Offset(width, x, k) := v];
    }

    /** `as_slice`: the whole buffer, which read row-major is exactly the grid. */
    function AsSlice(): (r: seq<T>)
      reads this
      requires Valid()
      ensures |r| == width * height
      ensures RowsOf(width, height, r) == Cells()
    {
      data
    }

    /**
     * `as_mut_slice()[i] = v`: buffer entry `i` is cell (i % width, i / width).
     * An index past the buffer aborts.
     */
    method AsMutSlice(i: nat, v: T)
      requires Valid() && i < |data|
      modifies this
      ensures Valid() && width == old(width) && height == old(height)
      ensures data == old(data)[i := v]
      ensures Cells() == Write(old(Cells()), i % width, i / width, v)
    {
      OffsetSplit(width, height, i);
      RowsOfWrite(width, height, data, i % width, i / width, v);
      data := data[i := v];
    }
  }
}
