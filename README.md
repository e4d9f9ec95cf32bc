# grid_bench in Dafny

A model of the grid benchmark: two storage layouts for a dense 2D grid and
the workload that exercises them.

- The **flat grid** keeps `width * height` cells in one row-major buffer
  (`FlatGrid.Grid`, a class with fields `width`, `height` and `data`).
  Cell (x, y) sits at offset `y * width + x`.
- The **nested grid** keeps a sequence of independently owned rows
  (`NestedGrid.Grid`, a class with one field `data`).
- Both layouts are related by an abstraction function `Cells()` to one
  common view: the grid's cells given row by row (module `Cells`). Both
  `get` operations are stated on that view. So grids with equal views
  answer every checked read alike, and module `Layouts` proves that `new`
  and `get_mut` keep the two layouts' views equal.
- The **benchmark driver** (module `Bench`) covers:
  - the menu of dimension pairs generated per exponent;
  - the `n_coords` sizing formula;
  - construction of the timed and warm-up coordinate lists from an
    injected random generator;
  - the stores `bench` makes: `x + y` into every listed cell, the warm-up
    list once and then the timed list `N_RUNS` times.

Conventions used throughout:

- A mutable reference handed out by an accessor (`get_mut`, `row_mut`,
  `rows_mut`, `as_mut_slice`, `IndexMut`) is modelled by the one store the
  caller makes through it. Such a method takes the stored value `v`.
- A Rust panic (`assert!`, `assert_eq!`, `expect`, `unwrap`, a slice index
  out of range, a division by zero) is a precondition. The program aborts
  instead of continuing, so callers must rule it out.
- `T::default()` is the constructor parameter `default`.
- The random generator is the parameter `range(k, lo, hi)`, the value of
  its `k`-th draw when asked for [lo, hi]. `IsRange` states the only
  contract the program relies on: the draw lies in [lo, hi], inclusive.

## Model

| member | source | states |
|---|---|---|
| `Cells.Filled` | src/grid2.rs:17-19 | default-filled construction gives exactly `h` rows of `w` cells, each holding the default |
| `Cells.WriteThenRead` | src/grid1.rs:52-55 | a store into (x, y) is seen by the next read of (x, y); no other cell changes; the shape is kept |
| `FlatGrid.Offset` | src/grid1.rs:63-73 | the offset `y * width + x` of a cell in column `x < width` lies inside the slice of row `y`, `[y * width, y * width + width)` |
| `FlatGrid.OffsetInBounds` | src/grid1.rs:63-66 | the row-major offset of an in-bounds cell is less than `width * height` |
| `FlatGrid.OffsetInjective` | src/grid1.rs:70-73 | two in-bounds cells share an offset exactly when they are the same cell |
| `FlatGrid.RowsApart` | src/grid1.rs:79-80 | every cell of an earlier row lies before every cell of a later row |
| `FlatGrid.OffsetSplit` | src/grid1.rs:112-114 | every buffer index `i` is the offset of the in-bounds cell (i % width, i / width) |
| `FlatGrid.RowEndInBounds` | src/grid1.rs:79-80 | the slice of row `y < height` ends within the buffer |
| `FlatGrid.RowSlice` | src/grid1.rs:77-81 | the slice of row `y` has `width` entries; entry `x` is the buffer entry at offset (x, y) |
| `FlatGrid.RowsOfCell` | src/grid1.rs:63-66 | cell (x, y) of the row view is the buffer entry at offset `y * width + x` |
| `FlatGrid.RowsOfCells` | src/grid1.rs:8-12 | the row view is a `width` by `height` rectangle whose every cell is the entry at its offset |
| `FlatGrid.RowsOfWrite` | src/grid1.rs:70-73 | storing at the offset of (x, y) changes cell (x, y) of the view and no other cell |
| `FlatGrid.RowsOfFilled` | src/grid1.rs:16-22 | a buffer of `width * height` defaults has the default-filled view |
| `FlatGrid.ChunksExact` | src/grid1.rs:92-96 | `chunks_exact(n)` (which needs `n > 0`) gives chunks of exactly `n` entries, as many as fit: the dropped remainder is shorter than `n` |
| `FlatGrid.ChunksCount` | src/grid1.rs:94-96 | `chunks_exact(n)` over `h` rows of `n` entries yields exactly `h` chunks |
| `FlatGrid.ChunkAt` | src/grid1.rs:94-96 | when the buffer reaches past chunk `k`, the k-th chunk is entries `k*n .. k*n+n` |
| `FlatGrid.ChunksOfRect` | src/grid1.rs:94-96 | `chunks_exact(n)` over `h` rows of `n` gives exactly `h` chunks, the k-th being entries `k*n .. k*n+n` |
| `FlatGrid.Grid.Cells` | src/grid1.rs:8-12 | the grid's cells form a `width` by `height` rectangle; cell (x, y) is `data[y*width + x]` |
| `FlatGrid.Grid.constructor` | src/grid1.rs:16-22 | `new` stores the dimensions and `width * height` defaults; every cell is the default |
| `FlatGrid.Grid.FromData` | src/grid1.rs:25-29 | `from_data` aborts unless `width * height == len`, and otherwise adopts the buffer unchanged |
| `FlatGrid.Grid.Width` | src/grid1.rs:33-35 | the width times the height is the buffer length; the width is the length of every row |
| `FlatGrid.Grid.Height` | src/grid1.rs:39-41 | the width times the height is the buffer length; the height is the number of rows |
| `FlatGrid.Grid.Get` | src/grid1.rs:45-48 | `Some` exactly when `x < width && y < height`, and then the cell (x, y) |
| `FlatGrid.Grid.GetUnchecked` | src/grid1.rs:63-66 | under the caller's bounds precondition, the cell (x, y) |
| `FlatGrid.Grid.GetUncheckedMut` | src/grid1.rs:70-73 | under the bounds precondition, a store changes cell (x, y) only; dimensions are kept |
| `FlatGrid.Grid.GetMut` | src/grid1.rs:52-55 | finds the cell exactly in bounds; then the store changes cell (x, y) only; out of bounds nothing changes |
| `FlatGrid.Grid.Index` | src/grid1.rs:121-123 | defined exactly where `get` is `Some`, and returns its value |
| `FlatGrid.Grid.IndexMut` | src/grid1.rs:128-130 | in bounds, the store changes cell (x, y) only |
| `FlatGrid.Grid.Row` | src/grid1.rs:77-81 | `y < height` is required; the row has `width` entries and entry `x` is what `get(x, y)` finds |
| `FlatGrid.Grid.RowMut` | src/grid1.rs:86-90 | a store into entry `x` of row `y` is cell (x, y) of the grid; nothing else changes |
| `FlatGrid.Grid.Rows` | src/grid1.rs:94-96 | needs `width > 0`; yields exactly `height` slices, the y-th equal to `row(y)` |
| `FlatGrid.Grid.RowsMut` | src/grid1.rs:100-102 | needs `width > 0`; a store into entry `x` of the k-th yielded slice changes cell (x, k) only |
| `FlatGrid.Grid.AsSlice` | src/grid1.rs:106-108 | the buffer has `width * height` entries and, read row-major, is exactly the grid |
| `FlatGrid.Grid.AsMutSlice` | src/grid1.rs:112-114 | a store into buffer entry `i` changes cell (i % width, i / width) only |
| `NestedGrid.Grid.constructor` | src/grid2.rs:13-21 | `new` gives `height` rows of `width` cells, each the default |
| `NestedGrid.Grid.FromData` | src/grid2.rs:25-27 | `from_data` adopts any rows unchanged, ragged ones included |
| `NestedGrid.Grid.FromUniformData` | src/grid2.rs:23-24 | construction as documented: rows of unequal length abort, and `get` is then `Some` exactly inside `width()` by `height()` |
| `NestedGrid.Grid.Width` | src/grid2.rs:31-33 | needs at least one row; for uniform rows it is their common length, and the only width the rows fit |
| `NestedGrid.Grid.Height` | src/grid2.rs:37-39 | the number of rows; no cell lies in a row at or past it |
| `NestedGrid.Grid.Get` | src/grid2.rs:43-45 | `Some(data[y][x])` exactly when row `y` exists and has column `x` |
| `NestedGrid.Grid.GetUnchecked` | src/grid2.rs:59-61 | when row `y` exists and holds column `x`, the value `get` finds |
| `NestedGrid.Grid.GetUncheckedMut` | src/grid2.rs:65-67 | a store changes cell (x, y) only; all row lengths are kept |
| `NestedGrid.Grid.GetMut` | src/grid2.rs:49-51 | finds the cell exactly when row `y` has column `x`; then cell (x, y) only changes; otherwise nothing changes |
| `NestedGrid.Grid.Row` | src/grid2.rs:71-74 | `y < height()` is required; entry `x` of the row is what `get(x, y)` finds, and `get` finds nothing past its end |
| `NestedGrid.Grid.RowMut` | src/grid2.rs:79-82 | a store into entry `x` of row `y` changes cell (x, y) only; row lengths are kept |
| `NestedGrid.Grid.Rows` | src/grid2.rs:86-88 | exactly `height()` rows, the y-th equal to `row(y)` |
| `NestedGrid.Grid.RowsMut` | src/grid2.rs:92-94 | a store into entry `x` of the k-th yielded row changes cell (x, k) only |
| `NestedGrid.SeqGet` | src/grid2.rs:41-45 | `Vec::get(i)` is `Some` exactly when `i` is below the length, and then holds the element at `i` |
| `NestedGrid.UniformIsRect` | src/grid2.rs:31-33 | uniform rows form a rectangle whose width is the length of row 0 |
| `NestedGrid.NewGridGet` | src/grid2.rs:43-45 | on a `width` by `height` grid, as `new` builds, `get` is `Some` exactly when `x < width && y < height` |
| `NestedGrid.ThreeRowScenario` | src/grid2.rs:25-45 | rows `[[1,2],[3,4],[5,6]]` give width 2, height 3 and `get(1, 2) == Some(6)` |
| `NestedGrid.RaggedScenario` | src/grid2.rs:25-33 | rows `[[1,2],[3]]` are accepted: width 2 and height 2, yet `get(1, 1)` is `None` |
| `NestedGrid.UniformDataGet` | src/grid2.rs:31-45 | for uniform rows, `get` is `Some` exactly inside `width()` by `height()` |
| `Layouts.SameCellsSameGet` | src/grid2.rs:43-45 | a flat and a nested grid with the same cells give the same `get` at every coordinate |
| `Layouts.NewLayoutsAgree` | src/main.rs:101-102 | both layouts built by `new` give the same `get`: the default inside the grid, `None` outside |
| `Layouts.StoreOnBoth` | src/main.rs:25 | one `get_mut` store on both layouts: both find the cell or neither does, and their cells stay equal |
| `Layouts.FlatFourByThree` | src/grid1.rs:16-22 | a flat 4 by 3 `new` grid has twelve zeros; `get(3,2)` is `Some(0)`; `get(4,2)` and `get(3,3)` are `None` |
| `Bench.Pow2` | src/main.rs:48 | `1 << e` is at least 1 |
| `Bench.Menu` | src/main.rs:51-69 | the block for one exponent has exactly twelve pairs |
| `Bench.GenerateDimensions` | src/main.rs:44-74 | `12 * (hi - lo)` pairs; entry `i` is entry `i % 12` of the block for exponent `lo + i / 12` |
| `Bench.MenuPositive` | src/main.rs:48-69 | for exponent at least 1, every width and height is at least 1 |
| `Bench.MenuAtEight` | src/main.rs:48-69 | for e = 8 the block begins with (256,256), holds (384,256) and (320,192), and lacks (384,128) |
| `Bench.NCoords` | src/main.rs:86 | `n_coords` is the floor of `16 * x * y / (x + y)`: the largest `r` with `r * (x + y) <= 16 * x * y`; `x + y > 0` rules out the division by zero |
| `Bench.NCoordsBound` | src/main.rs:86 | `n_coords <= 16 * min(x, y)` |
| `Bench.NCoordsEmptySide` | src/main.rs:86-91 | a positive `n_coords` implies both sides are at least 1, so `x - 1` and `y - 1` do not wrap |
| `Bench.NCoordsExample` | src/main.rs:86 | a 100 by 50 grid gets 533 coordinates |
| `Bench.MenuSizable` | src/main.rs:84-91 | every menu pair has `x + y > 0`, and a positive `n_coords` only when both sides are at least 1 |
| `Bench.GenerateCoords` | src/main.rs:89-93 | `n` coordinates, all inside the grid, the i-th built from draws `2i` and `2i+1` in order |
| `Bench.MakeWorkload` | src/main.rs:95-98 | the timed list has `n_coords` entries and the warm-up list `2 * n_coords`, all inside the grid |
| `Bench.ApplyWrites` | src/main.rs:24-26 | the stores keep the grid's shape |
| `Bench.ApplyWritesAt` | src/main.rs:24-37 | afterwards a listed cell (x, y) holds `x + y`, and every other cell keeps its prior value |
| `Bench.ApplyWritesIdempotent` | src/main.rs:31-39 | a second pass of the same list leaves the grid as after the first |
| `Bench.WriteAllFlat` | src/main.rs:24-26 | one pass of stores through the flat `get_mut`; every coordinate must be in range for `unwrap` |
| `Bench.BenchFlat` | src/main.rs:20-41 | after the warm-up pass and `N_RUNS` timed passes, the flat grid equals one pass of each list |
| `Bench.WriteAllNested` | src/main.rs:34-36 | one pass of stores through the nested `get_mut`; every coordinate must be in range for `unwrap` |
| `Bench.BenchNested` | src/main.rs:20-41 | after the warm-up pass and `N_RUNS` timed passes, the nested grid equals one pass of each list |
| `Bench.BenchmarkPair` | src/main.rs:84-102 | for one pair: workloads of the right sizes; both layouts end with the same cells, the stores applied over zeros |
| `Bench.RunAll` | src/main.rs:84-105 | 84 table rows in `generate_dimensions(8..15)` order; for every row both layouts end with equal cells |

## Findings

| source | as written | input that shows it | evidently intended | confidence | as-written member | corrected member |
|---|---|---|---|---|---|---|
| src/grid2.rs:23-27 | `from_data` adopts the rows with no check, though its comment says it panics on a mismatch | rows `[[1, 2], [3]]`: `width()` is 2 and `height()` is 2, yet `get(1, 1)` is `None` | rows of unequal length are rejected, so `width()` holds for every row | not executed | `NestedGrid.RaggedScenario` | `NestedGrid.Grid.FromUniformData` |

## Left out

- Wall-clock timing is not modelled: `Instant`, `Duration`, the sum of elapsed times, the mean `total / N_RUNS` and `black_box`. They measure and compute nothing the grid state depends on.
- The `rng` module and the `_rdtsc` seed are not part of this model. The generator is the parameter `range`, and the seed is where its draw counter starts.
- Printing of the header and the result table is left out.
- The `GridImpl` trait of src/lib.rs is not modelled as a trait. The generic `bench` is written once per layout (`BenchFlat`, `BenchNested`), with the same specification.
- Integers are unbounded. `usize` overflow of `width * height`, `16 * x * y` and `1 << exponent` is not modelled. None of them overflows for the exponents 8 to 14 the program uses.
- FlatGrid.Grid.FromData: the abort on a length mismatch is its precondition, so the model has no grid for a mismatched buffer rather than an error value.
- The undefined behaviour of the unchecked accessors, and `debug_assert!`, are modelled as preconditions.
- `NestedGrid.Grid.GetUnchecked`: its precondition is that row `y` exists and has column `x`. The documentation says `x < width() && y < height()`. The two agree for uniform rows, but for ragged rows only the first keeps both lookups in bounds.
- NestedGrid.Grid.RowsMut: each row it yields is a resizable `Vec`, and the `data` field is public, so a caller can lengthen or shorten a row of any nested grid and make it ragged. Only a store into an existing cell is modelled, and that keeps every row's length.
- Lifetimes, borrowing and the iterator types (`ChunksExact`, `Iter` and their mutable forms) are not modelled. `rows()` is the sequence of rows it would yield. The mutable forms are modelled by the store a caller makes through one yielded item.
- `Debug` formatting is left out.
- The concurrent comparison of the two layouts on separate threads is not part of this model, because the source shown spawns no threads.
