// The dense, mutable, generic grid of aoc2022/grid.py: `height` rows of
// `width` cells, addressed as `grid[x, y]` (column x of row y).
module Grids {
  import opened Wrappers

  /** `cells` has `h` rows of `w` cells each. */
  predicate Rect<T>(cells: seq<seq<T>>, w: nat, h: nat) {
    |cells| == h && forall y :: 0 <= y < h ==> |cells[y]| == w
  }

  /** The cells of a fresh `w` by `h` grid, every one `zero`. */
  function Fill<T>(w: nat, h: nat, zero: T): (cells: seq<seq<T>>)
    ensures Rect(cells, w, h)
    ensures forall y, x :: 0 <= y < h && 0 <= x < w ==> cells[y][x] == zero
  {
    seq(h, _ => seq(w, _ => zero))
  }

  /** The cells after `grid[x, y] = v`. */
  function Updated<T>(cells: seq<seq<T>>, x: nat, y: nat, v: T): (r: seq<seq<T>>)
    requires y < |cells| && x < |cells[y]|
    ensures |r| == |cells| && forall j :: 0 <= j < |r| ==> |r[j]| == |cells[j]|
    ensures r[y][x] == v
    ensures forall j, i :: 0 <= j < |r| && 0 <= i < |r[j]| && (j, i) != (y, x) ==> r[j][i] == cells[j][i]
  {
    cells[y := cells[y][x := v]]
  }

  /** `[grid[x, y] for y in range(height)]`: a copy of column `x`. */
  function Column<T>(cells: seq<seq<T>>, x: nat): (r: seq<T>)
    requires forall y :: 0 <= y < |cells| ==> x < |cells[y]|
    ensures |r| == |cells|
    ensures forall y :: 0 <= y < |cells| ==> r[y] == cells[y][x]
  {
    if |cells| == 0 then [] else [cells[0][x]] + Column(cells[1..], x)
  }

  /** The concatenation of a sequence of sequences. */
  function Flatten<T>(ss: seq<seq<T>>): seq<T>
  {
    if |ss| == 0 then [] else ss[0] + Flatten(ss[1..])
  }

  /** Flattening `k` pieces of length `n` puts piece i's j-th item at i*n+j. */
  lemma {:induction false} FlattenAt<T>(ss: seq<seq<T>>, n: nat, i: nat, j: nat)
    requires forall k :: 0 <= k < |ss| ==> |ss[k]| == n
    requires i < |ss| && j < n
    ensures i * n + j < |Flatten(ss)|
    ensures Flatten(ss)[i * n + j] == ss[i][j]
  {
    FlattenLength(ss, n);
    if i > 0 {
      FlattenAt(ss[1..], n, i - 1, j);
      var k := (i - 1) * n + j;
      assert i * n + j == n + k;
      FlattenSkip(ss, n + k);
    }
  }

  lemma FlattenSkip<T>(ss: seq<seq<T>>, p: nat)
    requires 0 < |ss| && |ss[0]| <= p < |Flatten(ss)|
    ensures Flatten(ss)[p] == Flatten(ss[1..])[p - |ss[0]|]
  {
  }

  lemma {:induction false} FlattenLength<T>(ss: seq<seq<T>>, n: nat)
    requires forall k :: 0 <= k < |ss| ==> |ss[k]| == n
    ensures |Flatten(ss)| == |ss| * n
  {
    if |ss| > 0 {
      FlattenLength(ss[1..], n);
    }
  }

  /** An item is in the flattened sequence exactly when it is in one of the pieces. */
  lemma {:induction false} FlattenMember<T>(ss: seq<seq<T>>, x: T)
    ensures x in Flatten(ss) <==> exists i :: 0 <= i < |ss| && x in ss[i]
  {
    if |ss| > 0 {
      FlattenMember(ss[1..], x);
      if x in Flatten(ss[1..]) {
        var i :| 0 <= i < |ss[1..]| && x in ss[1..][i];
        assert x in ss[i + 1];
      }
      if exists i :: 0 <= i < |ss| && x in ss[i] {
        var i :| 0 <= i < |ss| && x in ss[i];
        if i > 0 {
          assert x in ss[1..][i - 1];
        }
      }
    }
  }

  /** The `(x, y, value)` triples of one row, left to right. */
  function RowEntries<T>(row: seq<T>, y: int): seq<(int, int, T)>
  {
    seq(|row|, x requires 0 <= x < |row| => (x, y, row[x]))
  }

  /** The rows of `cells`, each as its `(x, y, value)` triples. */
  function EntryRows<T>(cells: seq<seq<T>>): (rows: seq<seq<(int, int, T)>>)
    ensures |rows| == |cells|
    ensures forall y :: 0 <= y < |cells| ==> rows[y] == RowEntries(cells[y], y)
  {
    seq(|cells|, y requires 0 <= y < |cells| => RowEntries(cells[y], y))
  }

  /** Row-major `(x, y, value)` triples: y outer, x inner. */
  function RowMajor<T>(cells: seq<seq<T>>): seq<(int, int, T)>
  {
    Flatten(EntryRows(cells))
  }

  /** The row-major order has one triple per cell. */
  lemma RowMajorLength<T>(cells: seq<seq<T>>, w: nat, h: nat)
    requires Rect(cells, w, h)
    ensures |RowMajor(cells)| == w * h
  {
    FlattenLength(EntryRows(cells), w);
  }

  /** Cell (x, y) sits at position y*w + x of the row-major order. */
  lemma RowMajorCell<T>(cells: seq<seq<T>>, w: nat, h: nat, x: nat, y: nat)
    requires Rect(cells, w, h) && x < w && y < h
    ensures y * w + x < |RowMajor(cells)|
    ensures RowMajor(cells)[y * w + x] == (x, y, cells[y][x])
  {
    var rows := EntryRows(cells);
    FlattenAt(rows, w, y, x);
    assert rows[y][x] == (x, y, cells[y][x]);
  }

  /** Rows of triples whose values are `cells` flatten to triples whose values are the flattened cells. */
  lemma {:induction false} FlattenValues<T>(rows: seq<seq<(int, int, T)>>, cells: seq<seq<T>>)
    requires |rows| == |cells|
    requires forall y :: 0 <= y < |rows| ==> |rows[y]| == |cells[y]| && forall x :: 0 <= x < |rows[y]| ==> rows[y][x].2 == cells[y][x]
    ensures |Flatten(rows)| == |Flatten(cells)|
    ensures forall k :: 0 <= k < |Flatten(rows)| ==> Flatten(rows)[k].2 == Flatten(cells)[k]
  {
    if |rows| > 0 {
      FlattenValues(rows[1..], cells[1..]);
    }
  }

  class Grid<T> {
    var cells: seq<seq<T>>
    var width: nat
    var height: nat

    predicate Valid() reads this { Rect(cells, width, height) }

    /** `Grid(width, height, zero)`: height rows of width cells, all `zero`. */
    constructor (width: nat, height: nat, zero: T)
      ensures Valid() && this.width == width && this.height == height
      ensures cells == Fill(width, height, zero)
    {
      this.width := width;
      this.height := height;
      cells := Fill(width, height, zero);
    }

    predicate InBounds(x: int, y: int) reads this {
      0 <= x < width && 0 <= y < height
    }

    /** `grid[x, y]`. */
    function Get(x: int, y: int): T
      reads this
      requires Valid() && InBounds(x, y)
    {
      cells[y][x]
    }

    /** `grid[x, y] = v`: that cell becomes v, every other cell is unchanged. */
    method Set(x: int, y: int, v: T)
      requires Valid() && InBounds(x, y)
      modifies this
      ensures Valid() && width == old(width) && height == old(height)
      ensures cells == Updated(old(cells), x, y, v)
    {
      cells := Updated(cells, x, y, v);
    }

    /** `grid.row(y)`: the grid's own row list. */
    function Row(y: int): (r: seq<T>)
      reads this
      requires Valid() && 0 <= y < height
      ensures |r| == width && forall x :: 0 <= x < width ==> r[x] == Get(x, y)
    {
      cells[y]
    }

    /**
     * `grid.row(y)[x] = v`: the row list is not a copy, so writing into it
     * writes the grid cell.
     */
    method SetInRow(y: int, x: int, v: T)
      requires Valid() && InBounds(x, y)
      modifies this
      ensures Valid() && width == old(width) && height == old(height)
      ensures Row(y) == old(Row(y))[x := v]
      ensures cells == Updated(old(cells), x, y, v)
    {
      cells := cells[y := cells[y][x := v]];
    }

    /** `grid.col(x)`: a fresh list of the column, top to bottom. */
    function Col(x: int): (r: seq<T>)
      reads this
      requires Valid() && 0 <= x < width
      ensures |r| == height && forall y :: 0 <= y < height ==> r[y] == Get(x, y)
    {
      Column(cells, x)
    }

    /** `grid.enumerate_all_cells()`: `(x, y, value)` in row-major order. */
    function EnumerateAllCells(): (r: seq<(int, int, T)>)
      reads this
      requires Valid()
      ensures |r| == width * height
    {
      RowMajorLength(cells, width, height);
      RowMajor(cells)
    }

    /** `grid.all_cells()`: the values of `enumerate_all_cells`, same order. */
    function AllCells(): (r: seq<T>)
      reads this
      requires Valid()
      ensures |r| == width * height
    {
      var e := EnumerateAllCells();
      seq(|e|, i requires 0 <= i < |e| => e[i].2)
    }

    /** `all_cells()` is the rows, top to bottom, concatenated. */
    lemma AllCellsAreRows()
      requires Valid()
      ensures AllCells() == Flatten(cells)
    {
      FlattenValues(EntryRows(cells), cells);
    }

    /** Cell (x, y) is enumerated at position y*width + x, and so is its value. */
    lemma EnumerateAt(x: nat, y: nat)
      requires Valid() && InBounds(x, y)
      ensures y * width + x < width * height
      ensures EnumerateAllCells()[y * width + x] == (x, y, Get(x, y))
      ensures AllCells()[y * width + x] == Get(x, y)
    {
      RowMajorLength(cells, width, height);
      RowMajorCell(cells, width, height, x, y);
      var k := y * width + x;
      var e := EnumerateAllCells();
      assert e == RowMajor(cells);
      assert AllCells()[k] == e[k].2;
    }

    /**
     * `grid.map(mapper)`: a new grid of the same size holding the mapped
     * cells.  It reads `grid[0, 0]` first, so the grid needs a cell, and
     * the mapper must not raise on any cell.
     */
    method Map<U>(mapper: T --> U) returns (g: Grid<U>)
      requires Valid() && width > 0 && height > 0
      requires forall y, x :: 0 <= y < height && 0 <= x < width ==> mapper.requires(cells[y][x])
      ensures fresh(g) && g.Valid()
      ensures g.width == width && g.height == height
      ensures forall y, x :: 0 <= y < height && 0 <= x < width ==> g.cells[y][x] == mapper(cells[y][x])
    {
      g := new Grid<U>(width, height, mapper(Get(0, 0)));
      var y := 0;
      while y < height
        invariant 0 <= y <= height
        invariant fresh(g) && g.Valid() && g.width == width && g.height == height
        invariant forall j, i :: 0 <= j < y && 0 <= i < width ==> g.cells[j][i] == mapper(cells[j][i])
      {
        var x := 0;
        while x < width
          invariant 0 <= x <= width
          invariant fresh(g) && g.Valid() && g.width == width && g.height == height
          invariant forall j, i :: 0 <= j < y && 0 <= i < width ==> g.cells[j][i] == mapper(cells[j][i])
          invariant forall i :: 0 <= i < x ==> g.cells[y][i] == mapper(cells[y][i])
        {
          g.Set(x, y, mapper(Get(x, y)));
          x := x + 1;
        }
        y := y + 1;
      }
    }

    /** `grid.img_get_size(scale)`: the image size at `scale` pixels per cell. */
    function ImgGetSize(scale: int): (r: (int, int))
      reads this
      ensures scale == 1 ==> r == (width, height)
      ensures scale >= 0 ==> r.0 >= 0 && r.1 >= 0
      ensures r.0 == width * scale && r.1 == height * scale
    {
      (width * scale, height * scale)
    }
  }

  /** The cell `from_lines` leaves at `(x, y)`: the character, or "" past a short line. */
  function LineCell(lines: seq<string>, x: nat, y: nat): string
    requires y < |lines|
  {
    if x < |lines[y]| then [lines[y][x]] else ""
  }

  /** Whether `from_lines` fails: no lines, or a line longer than the first. */
  predicate FromLinesFails(lines: seq<string>) {
    |lines| == 0 || exists y :: 0 <= y < |lines| && |lines[y]| > |lines[0]|
  }

  /**
   * The cell at (i, j) once `from_lines` has copied rows 0..y-1 and the
   * first x characters of row y.
   */
  function Copied(lines: seq<string>, y: nat, x: nat, i: nat, j: nat): string
    requires y < |lines|
    requires j < |lines|
  {
    if j < y || (j == y && i < x) then LineCell(lines, i, j) else ""
  }

  /**
   * `Grid.from_lines(lines)`: width from the first line, one row per line,
   * one one-character cell per character.  No lines fails the assert; a
   * line longer than the first runs off its row.
   */
  method FromLines(lines: seq<string>) returns (r: Option<Grid<string>>)
    ensures r.None? <==> FromLinesFails(lines)
    ensures r.Some? ==> fresh(r.value) && r.value.Valid()
    ensures r.Some? ==> r.value.width == |lines[0]| && r.value.height == |lines|
    ensures r.Some? ==> forall y, x :: 0 <= y < |lines| && 0 <= x < |lines[0]| ==>
      r.value.cells[y][x] == LineCell(lines, x, y)
  {
    if |lines| == 0 {
      return None;
    }
    var width, height := |lines[0]|, |lines|;
    var g := new Grid<string>(width, height, "");
    var y := 0;
    while y < height
      invariant 0 <= y <= height
      invariant fresh(g) && g.Valid() && g.width == width && g.height == height
      invariant forall j :: 0 <= j < y ==> |lines[j]| <= width
      invariant forall j, i :: 0 <= j < height && 0 <= i < width ==>
        g.cells[j][i] == (if j < y then LineCell(lines, i, j) else "")
    {
      var line := lines[y];
      var x := 0;
      while x < |line|
        invariant 0 <= x <= |line| && x <= width
        invariant fresh(g) && g.Valid() && g.width == width && g.height == height
        invariant forall j, i :: 0 <= j < height && 0 <= i < width ==> g.cells[j][i] == Copied(lines, y, x, i, j)
      {
        if x >= width {
          assert |lines[y]| > |lines[0]|;
          return None;
        }
        g.Set(x, y, [line[x]]);
        x := x + 1;
      }
      y := y + 1;
    }
    return Some(g);
  }

  /** A grid built by `from_lines` reads back each line's characters. */
  lemma FromLinesGet(lines: seq<string>, g: Grid<string>, x: nat, y: nat)
    requires |lines| > 0 && g.Valid() && g.width == |lines[0]| && g.height == |lines|
    requires forall j, i :: 0 <= j < |lines| && 0 <= i < |lines[0]| ==> g.cells[j][i] == LineCell(lines, i, j)
    requires y < |lines| && x < |lines[y]| && !FromLinesFails(lines)
    ensures g.Get(x, y) == [lines[y][x]]
  {
  }
}
