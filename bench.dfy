/**
 * The benchmark driver: the menu of grid dimensions, the sizing of the
 * coordinate workloads, their construction from the random generator, and
 * the stores `bench` makes into a grid. Wall-clock timing is not modelled;
 * what remains is the effect each run has on the grid.
 *
 * The random generator is passed in as a function `range(k, lo, hi)`: the
 * value its `k`-th draw returns when asked for a number in [lo, hi].
 */
module Bench {
  import opened Cells
  import FlatGrid
  import NestedGrid

  /** `EXP_RANGE`: the exponents whose powers of two seed the dimension menu. */
  const ExpLo: nat := 8
  const ExpHi: nat := 15

  /** `N_RUNS`: how many times the timed workload is repeated. */
  const Runs: nat := 20

  /** `1 << e`. */
  function Pow2(e: nat): (r: nat)
    ensures r >= 1
  {
    if e == 0 then 1 else 2 * Pow2(e - 1)
  }

  /** The twelve (width, height) pairs listed for exponent `e`, with `base = 2^e` and integer division. */
  function Menu(e: nat): (m: seq<Coord>)
    ensures |m| == 12
  {
    var base := Pow2(e);
    [ (base, base), (base, base / 2), (base / 2, base), (base, base * 2), (base * 2, base),
      (base * 3, base * 2), (base * 2, base * 3), (base * 4, base / 2), (base / 2, base * 4),
      (base * 3 / 2, base), (base, base * 3 / 2), (base * 5 / 4, base * 3 / 4) ]
  }

  /**
   * `generate_dimensions(lo..hi)`: one block of twelve pairs per exponent,
   * the blocks in increasing exponent order; an empty range gives nothing.
   */
  method GenerateDimensions(lo: nat, hi: nat) returns (dims: seq<Coord>)
    ensures |dims| == 12 * (if lo < hi then hi - lo else 0)
    ensures forall i :: 0 <= i < |dims| ==> dims[i] == Menu(lo + i / 12)[i % 12]
  {
    dims := [];
    var e := lo;
    while e < hi
      invariant lo <= e && (lo < hi ==> e <= hi) && (hi <= lo ==> e == lo)
      invariant |dims| == 12 * (e - lo)
      invariant forall i :: 0 <= i < |dims| ==> dims[i] == Menu(lo + i / 12)[i % 12]
    {
      var block := Menu(e);
      forall i | 12 * (e - lo) <= i < 12 * (e - lo) + 12
        ensures (dims + block)[i] == Menu(lo + i / 12)[i % 12]
      {
        BlockIndex(i, e - lo);
      }
      dims := dims + block;
      e := e + 1;
    }
  }

  /** Index `i` of the `b`-th block of twelve is entry `i - 12 * b` of that block. */
  lemma BlockIndex(i: nat, b: nat)
    requires 12 * b <= i < 12 * b + 12
    ensures i / 12 == b && i % 12 == i - 12 * b
  {
  }

  /** For e >= 1 every width and height in the block is at least 1. */
  lemma {:induction false} MenuPositive(e: nat)
    requires e >= 1
    ensures forall i :: 0 <= i < 12 ==> Menu(e)[i].0 >= 1 && Menu(e)[i].1 >= 1
  {
    assert Pow2(e) >= 2 by {
      assert Pow2(e) == 2 * Pow2(e - 1);
    }
  }

  /** The block for e = 8 (base 256): it opens with (256, 256), lists (384, 256) and (320, 192), and never (384, 128). */
  lemma MenuAtEight()
    ensures Menu(8)[0] == (256, 256)
    ensures Menu(8)[9] == (384, 256) && Menu(8)[11] == (320, 192)
    ensures (384, 128) !in Menu(8)
  {
    assert Pow2(8) == 256;
  }

  /** `n_coords = (16 * x * y) / (x + y)` under integer division; `x + y == 0` would divide by zero. */
  function NCoords(x: nat, y: nat): (r: nat)
    requires x + y > 0
    ensures r * (x + y) <= 16 * x * y < r * (x + y) + (x + y)
  {
    (16 * x * y) / (x + y)
  }

  /** The workload never exceeds sixteen samples per cell of the shorter side. */
  lemma NCoordsBound(x: nat, y: nat)
    requires x + y > 0
    ensures NCoords(x, y) <= 16 * (if x <= y then x else y)
  {
    var m := if x <= y then x else y;
    assert x * y <= m * (x + y) by {
      if x <= y {
        assert x * y <= x * x + x * y;
      } else {
        assert x * y <= x * y + y * y;
      }
    }
    DivAtMost(16 * x * y, x + y, 16 * m);
  }

  lemma DivAtMost(a: nat, b: nat, c: nat)
    requires b > 0 && a <= c * b
    ensures a / b <= c
  {
  }

  /** A grid with an empty side gets no coordinates, so the `x - 1` and `y - 1` of the generator never wrap. */
  lemma NCoordsEmptySide(x: nat, y: nat)
    requires x + y > 0
    ensures NCoords(x, y) > 0 ==> x >= 1 && y >= 1
  {
  }

  /** A 100 by 50 grid gets 533 coordinates. */
  lemma NCoordsExample()
    ensures NCoords(100, 50) == 533
  {
  }

  /** Every pair of the menu can be sized, and sized to a workload only when both sides are at least 1. */
  lemma MenuSizable(e: nat, i: nat)
    requires i < 12
    ensures Menu(e)[i].0 + Menu(e)[i].1 > 0
    ensures NCoords(Menu(e)[i].0, Menu(e)[i].1) > 0 ==> Menu(e)[i].0 >= 1 && Menu(e)[i].1 >= 1
  {
  }

  /** The contract of the external generator: a draw asked for [lo, hi] lies in [lo, hi]. */
  ghost predicate IsRange(range: (nat, nat, nat) -> nat)
  {
    forall k: nat, lo: nat, hi: nat :: lo <= hi ==> lo <= range(k, lo, hi) <= hi
  }

  /** Every coordinate of `cs` lies in an `x` by `y` grid. */
  predicate AllWithin(cs: seq<Coord>, x: nat, y: nat)
  {
    forall i :: 0 <= i < |cs| ==> cs[i].0 < x && cs[i].1 < y
  }

  /**
   * `generate_coords`: `n` coordinates, the i-th made of draws `next + 2i`
   * (the column, in [0, x - 1]) and `next + 2i + 1` (the row, in [0, y - 1]).
   * With `n > 0` an empty side would make `x - 1` or `y - 1` wrap.
   */
  method GenerateCoords(n: nat, x: nat, y: nat, range: (nat, nat, nat) -> nat, next: nat)
    returns (coords: seq<Coord>, next': nat)
    requires IsRange(range)
    requires n > 0 ==> x >= 1 && y >= 1
    ensures |coords| == n && next' == next + 2 * n
    ensures AllWithin(coords, x, y)
    ensures forall i :: 0 <= i < n ==>
      coords[i] == (range(next + 2 * i, 0, x - 1), range(next + 2 * i + 1, 0, y - 1))
  {
    coords := [];
    next' := next;
    while |coords| < n
      invariant |coords| <= n && next' == next + 2 * |coords|
      invariant AllWithin(coords, x, y)
      invariant forall i :: 0 <= i < |coords| ==>
        coords[i] == (range(next + 2 * i, 0, x - 1), range(next + 2 * i + 1, 0, y - 1))
    {
      var cx := range(next', 0, x - 1);
      var cy := range(next' + 1, 0, y - 1);
      coords := coords + [(cx, cy)];
      next' := next' + 2;
    }
  }

  /**
   * The two workloads of one dimension pair: the timed list of `n_coords`
   * coordinates, then the warm-up list made of two more such lists.
   */
  method MakeWorkload(x: nat, y: nat, range: (nat, nat, nat) -> nat, next: nat)
    returns (timed: seq<Coord>, warmup: seq<Coord>, next': nat)
    requires IsRange(range) && x + y > 0
    ensures |timed| == NCoords(x, y) && |warmup| == 2 * NCoords(x, y)
    ensures AllWithin(timed, x, y) && AllWithin(warmup, x, y)
    ensures next' == next + 6 * NCoords(x, y)
  {
    var n := NCoords(x, y);
    NCoordsEmptySide(x, y);
    var first, second;
    timed, next' := GenerateCoords(n, x, y, range, next);
    first, next' := GenerateCoords(n, x, y, range, next');
    second, next' := GenerateCoords(n, x, y, range, next');
    warmup := first + second;
  }

  /** Every coordinate of `cs` names a cell of `g`. */
  predicate AllHeld(g: seq<seq<nat>>, cs: seq<Coord>)
  {
    forall i :: 0 <= i < |cs| ==> Holds(g, cs[i].0, cs[i].1)
  }

  /** Grids of the same shape hold the same coordinates. */
  lemma AllHeldSameShape(g: seq<seq<nat>>, g': seq<seq<nat>>, cs: seq<Coord>)
    requires SameShape(g, g') && AllHeld(g, cs)
    ensures AllHeld(g', cs)
  {
  }

  /** An `x` by `y` grid holds every coordinate within it. */
  lemma AllWithinHeld(g: seq<seq<nat>>, x: nat, y: nat, cs: seq<Coord>)
    requires IsRect(g, x, y) && AllWithin(cs, x, y)
    ensures AllHeld(g, cs)
  {
  }

  /** The view after the stores of `bench`: `x + y` into cell (x, y) for each listed coordinate, in order. */
  function ApplyWrites(g: seq<seq<nat>>, cs: seq<Coord>): (r: seq<seq<nat>>)
    requires AllHeld(g, cs)
    ensures SameShape(r, g)
    decreases |cs|
  {
    if cs == [] then g
    else
      var before := ApplyWrites(g, cs[..|cs| - 1]);
      var c := cs[|cs| - 1];
      Write(before, c.0, c.1, c.0 + c.1)
  }

  /** After the stores, a listed cell holds `x + y` and every other cell keeps its value. */
  lemma {:induction false} ApplyWritesAt(g: seq<seq<nat>>, cs: seq<Coord>, x: nat, y: nat)
    requires AllHeld(g, cs) && Holds(g, x, y)
    ensures ApplyWrites(g, cs)[y][x] == if (x, y) in cs then x + y else g[y][x]
    decreases |cs|
  {
    if cs != [] {
      var init := cs[..|cs| - 1];
      ApplyWritesAt(g, init, x, y);
      assert cs == init + [cs[|cs| - 1]];
    }
  }

  /** Running the same list of stores twice leaves the grid as running it once. */
  lemma ApplyWritesIdempotent(g: seq<seq<nat>>, cs: seq<Coord>)
    requires AllHeld(g, cs)
    ensures AllHeld(ApplyWrites(g, cs), cs)
    ensures ApplyWrites(ApplyWrites(g, cs), cs) == ApplyWrites(g, cs)
  {
    var once := ApplyWrites(g, cs);
    AllHeldSameShape(g, once, cs);
    var twice := ApplyWrites(once, cs);
    forall y | 0 <= y < |g|
      ensures twice[y] == once[y]
    {
      forall x | 0 <= x < |g[y]|
        ensures twice[y][x] == once[y][x]
      {
        ApplyWritesAt(g, cs, x, y);
        ApplyWritesAt(once, cs, x, y);
      }
    }
  }

  /**
   * One pass of `bench` over a list on the flat layout: `get_mut(x, y)`,
   * unwrapped, receives `x + y` for each coordinate in order. Every
   * coordinate must be in range, since `unwrap` aborts on a missing cell.
   */
  method WriteAllFlat(grid: FlatGrid.Grid<nat>, cs: seq<Coord>)
    requires grid.Valid() && AllHeld(grid.Cells(), cs)
    modifies grid
    ensures grid.Valid() && grid.width == old(grid.width) && grid.height == old(grid.height)
    ensures grid.Cells() == ApplyWrites(old(grid.Cells()), cs)
  {
    ghost var start := grid.Cells();
    for i := 0 to |cs|
      invariant grid.Valid() && grid.width == old(grid.width) && grid.height == old(grid.height)
      invariant grid.Cells() == ApplyWrites(start, cs[..i])
    {
      var c := cs[i];
      var found := grid.GetMut(c.0, c.1, c.0 + c.1);
      assert found;
      assert cs[..i + 1][..i] == cs[..i];
    }
    assert cs[..|cs|] == cs;
  }

  /**
   * `bench` on the flat layout: the warm-up pass, then the timed pass
   * `Runs` times over. The grid ends as after one pass of each list.
   */
  method BenchFlat(grid: FlatGrid.Grid<nat>, pre: seq<Coord>, timed: seq<Coord>)
    requires grid.Valid() && AllHeld(grid.Cells(), pre) && AllHeld(grid.Cells(), timed)
    modifies grid
    ensures grid.Valid() && grid.width == old(grid.width) && grid.height == old(grid.height)
    ensures AllHeld(ApplyWrites(old(grid.Cells()), pre), timed)
    ensures grid.Cells() == ApplyWrites(ApplyWrites(old(grid.Cells()), pre), timed)
  {
    ghost var start := grid.Cells();
    WriteAllFlat(grid, pre);
    ghost var warm := grid.Cells();
    AllHeldSameShape(start, warm, timed);
    ApplyWritesIdempotent(warm, timed);
    for run := 0 to Runs
      invariant grid.Valid() && grid.width == old(grid.width) && grid.height == old(grid.height)
      invariant grid.Cells() == if run == 0 then warm else ApplyWrites(warm, timed)
    {
      AllHeldSameShape(warm, grid.Cells(), timed);
      WriteAllFlat(grid, timed);
    }
  }

  /** One pass of `bench` over a list on the nested layout, through its `get_mut`. */
  method WriteAllNested(grid: NestedGrid.Grid<nat>, cs: seq<Coord>)
    requires AllHeld(grid.Cells(), cs)
    modifies grid
    ensures grid.Cells() == ApplyWrites(old(grid.Cells()), cs)
  {
    ghost var start := grid.Cells();
    for i := 0 to |cs|
      invariant grid.Cells() == ApplyWrites(start, cs[..i])
    {
      var c := cs[i];
      var found := grid.GetMut(c.0, c.1, c.0 + c.1);
      assert found;
      assert cs[..i + 1][..i] == cs[..i];
    }
    assert cs[..|cs|] == cs;
  }

  /**
   * `bench` on the nested layout: the same protocol with the same effect
   * on its cells.
   */
  method BenchNested(grid: NestedGrid.Grid<nat>, pre: seq<Coord>, timed: seq<Coord>)
    requires AllHeld(grid.Cells(), pre) && AllHeld(grid.Cells(), timed)
    modifies grid
    ensures AllHeld(ApplyWrites(old(grid.Cells()), pre), timed)
    ensures grid.Cells() == ApplyWrites(ApplyWrites(old(grid.Cells()), pre), timed)
  {
    ghost var start := grid.Cells();
    WriteAllNested(grid, pre);
    ghost var warm := grid.Cells();
    AllHeldSameShape(start, warm, timed);
    ApplyWritesIdempotent(warm, timed);
    for run := 0 to Runs
      invariant grid.Cells() == if run == 0 then warm else ApplyWrites(warm, timed)
    {
      AllHeldSameShape(warm, grid.Cells(), timed);
      WriteAllNested(grid, timed);
    }
  }

  /**
   * One dimension pair of the benchmark: build the workloads, then a flat
   * and a nested `x` by `y` grid by `new` (default 0), and run `bench` on
   * each. Both layouts end with the same cells: the stores of the warm-up
   * list and then of the timed list, over a grid of zeros.
   */
  method BenchmarkPair(x: nat, y: nat, range: (nat, nat, nat) -> nat, next: nat)
    returns (timed: seq<Coord>, warmup: seq<Coord>, flatCells: seq<seq<nat>>, nestedCells: seq<seq<nat>>, next': nat)
    requires IsRange(range) && x + y > 0
    ensures |timed| == NCoords(x, y) && |warmup| == 2 * NCoords(x, y)
    ensures AllWithin(timed, x, y) && AllWithin(warmup, x, y)
    ensures AllHeld(Filled(x, y, 0), warmup) && AllHeld(ApplyWrites(Filled(x, y, 0), warmup), timed)
    ensures flatCells == ApplyWrites(ApplyWrites(Filled(x, y, 0), warmup), timed)
    ensures nestedCells == flatCells
  {
    timed, warmup, next' := MakeWorkload(x, y, range, next);
    var flat := new FlatGrid.Grid(x, y, 0);
    var nested := new NestedGrid.Grid(x, y, 0);
    AllWithinHeld(flat.Cells(), x, y, warmup);
    AllWithinHeld(flat.Cells(), x, y, timed);
    BenchFlat(flat, warmup, timed);
    BenchNested(nested, warmup, timed);
    flatCells := flat.Cells();
    nestedCells := nested.Cells();
  }

  /**
   * The benchmark loop of `main` without its timing and printing: every
   * pair of `generate_dimensions(EXP_RANGE)` in order, each benchmarked on
   * both layouts. `table` lists the (width, height) of each row, and
   * `agree` says for each row whether the two layouts ended equal.
   */
  method RunAll(range: (nat, nat, nat) -> nat, seed: nat) returns (table: seq<Coord>, agree: seq<bool>)
    requires IsRange(range)
    ensures |table| == 84 && |agree| == 84
    ensures forall i :: 0 <= i < 84 ==> table[i] == Menu(ExpLo + i / 12)[i % 12]
    ensures forall i :: 0 <= i < 84 ==> agree[i]
  {
    var dims := GenerateDimensions(ExpLo, ExpHi);
    table, agree := [], [];
    var next := seed;
    for i := 0 to |dims|
      invariant table == dims[..i] && |agree| == i
      invariant forall j :: 0 <= j < i ==> agree[j]
    {
      var (x, y) := dims[i];
      MenuSizable(ExpLo + i / 12, i % 12);
      var timed, warmup, flatCells, nestedCells;
      timed, warmup, flatCells, nestedCells, next := BenchmarkPair(x, y, range, next);
      table := table + [(x, y)];
      agree := agree + [flatCells == nestedCells];
    }
  }
}
