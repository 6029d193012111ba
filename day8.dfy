// Day 8 of aoc2022/day8.py: which trees of a height map can be seen from
// outside the grid, and the best scenic score of any tree.
module Day8 {
  import opened Wrappers
  import opened Seqs
  import Text
  import Grids

  /** One tree: its height, whether a pass has seen it, and its scenic score. */
  datatype Cell = Cell(value: int, visible: bool, score: int)

  /** `Cell.of_char(char)`: `int(char)` as the height, not yet seen, score 0. */
  function OfChar(s: string): Option<Cell>
  {
    match Text.ParseInt(s)
    case Some(v) => Some(Cell(v, false, 0))
    case None => None
  }

  /** A one-character cell loads exactly when it is a decimal digit, as that digit's value. */
  lemma OfCharDigit(c: char)
    ensures OfChar([c]).Some? <==> Text.IsDigit(c)
    ensures OfChar([c]).Some? ==> OfChar([c]).value == Cell(Text.DigitValue(c), false, 0)
  {
    if Text.IsSpace(c) {
      assert Text.RStrip([c]) == Text.RStrip([]);
    } else {
      assert Text.RStrip([c]) == [c];
      assert Text.LStrip([c]) == [c];
      if Text.IsDigit(c) {
        assert Text.DigitsValue([c]) == Text.DigitsValue([]) * 10 + Text.DigitValue(c) by {
          assert [c][..0] == [];
        }
      }
    }
  }

  // ---------------------------------------------------------------------
  // Loading the height map

  /** A non-empty rectangle of heights. */
  predicate IsForest(hs: seq<seq<int>>) {
    |hs| > 0 && |hs[0]| > 0 && Grids.Rect(hs, |hs[0]|, |hs|)
  }

  /**
   * Whether `Grid.from_lines(lines).map(Cell.of_char)` succeeds: the lines
   * form a grid, `map` finds a cell at (0, 0), and every cell is an integer.
   */
  predicate Loads(lines: seq<string>) {
    !Grids.FromLinesFails(lines) && |lines[0]| > 0 &&
    forall y, x :: 0 <= y < |lines| && 0 <= x < |lines[0]| ==> OfChar(Grids.LineCell(lines, x, y)).Some?
  }

  /** The heights of a grid that loads. */
  function Forest(lines: seq<string>): (hs: seq<seq<int>>)
    requires Loads(lines)
    ensures IsForest(hs) && |hs| == |lines| && |hs[0]| == |lines[0]|
  {
    seq(|lines|, y requires 0 <= y < |lines| =>
      seq(|lines[0]|, x requires 0 <= x < |lines[0]| => OfChar(Grids.LineCell(lines, x, y)).value.value))
  }

  /** Every height of a loaded grid is a single digit, 0 to 9. */
  lemma ForestHeights(lines: seq<string>)
    requires Loads(lines)
    ensures forall y, x :: 0 <= y < |lines| && 0 <= x < |lines[0]| ==> 0 <= Forest(lines)[y][x] <= 9
  {
    forall y, x | 0 <= y < |lines| && 0 <= x < |lines[0]|
      ensures 0 <= Forest(lines)[y][x] <= 9
    {
      if x < |lines[y]| {
        OfCharDigit(lines[y][x]);
      } else {
        assert OfChar("").None? by {
          assert Text.Strip("") == "";
        }
      }
    }
  }

  /** `Cell.of_char` on a cell known to hold an integer. */
  function CellOf(s: string): (c: Cell)
    requires OfChar(s).Some?
    ensures c == Cell(OfChar(s).value.value, false, 0)
  {
    OfChar(s).value
  }

  /** Over the text grid `from_lines` builds, every cell being an integer is what `Loads` asks. */
  lemma LoadsOfText(lines: seq<string>, text: seq<seq<string>>)
    requires !Grids.FromLinesFails(lines) && |lines[0]| > 0 && Grids.Rect(text, |lines[0]|, |lines|)
    requires forall y, x :: 0 <= y < |lines| && 0 <= x < |lines[0]| ==> text[y][x] == Grids.LineCell(lines, x, y)
    ensures Loads(lines) <==> forall y, x :: 0 <= y < |lines| && 0 <= x < |lines[0]| ==> OfChar(text[y][x]).Some?
  {
  }

  /** Mapping the text grid gives each cell its height from `Forest`. */
  lemma LoadedCells(lines: seq<string>, text: seq<seq<string>>, cells: seq<seq<Cell>>)
    requires Loads(lines) && Grids.Rect(text, |lines[0]|, |lines|) && Grids.Rect(cells, |lines[0]|, |lines|)
    requires forall y, x :: 0 <= y < |lines| && 0 <= x < |lines[0]| ==> text[y][x] == Grids.LineCell(lines, x, y)
    requires forall y, x :: 0 <= y < |lines| && 0 <= x < |lines[0]| ==>
      OfChar(text[y][x]).Some? && cells[y][x] == CellOf(text[y][x])
    ensures forall y, x :: 0 <= y < |lines| && 0 <= x < |lines[0]| ==> cells[y][x] == Cell(Forest(lines)[y][x], false, 0)
  {
    var hs := Forest(lines);
    forall y, x | 0 <= y < |lines| && 0 <= x < |lines[0]|
      ensures cells[y][x] == Cell(hs[y][x], false, 0)
    {
      var t := Grids.LineCell(lines, x, y);
      assert text[y][x] == t && OfChar(t).Some?;
      assert hs[y][x] == OfChar(t).value.value;
    }
  }

  /** `Grid.from_lines(lines).map(Cell.of_char)`: one unseen cell per height. */
  method Load(lines: seq<string>) returns (r: Option<Grids.Grid<Cell>>)
    ensures r.None? <==> !Loads(lines)
    ensures r.Some? ==> Loads(lines) && fresh(r.value) && r.value.Valid()
    ensures r.Some? ==> r.value.width == |lines[0]| && r.value.height == |lines|
    ensures r.Some? ==> forall y, x :: 0 <= y < |lines| && 0 <= x < |lines[0]| ==>
      r.value.cells[y][x] == Cell(Forest(lines)[y][x], false, 0)
  {
    var text := Grids.FromLines(lines);
    if text.None? {
      return None;
    }
    var grid := text.value;
    if grid.width == 0 {
      return None;
    }
    LoadsOfText(lines, grid.cells);
    if !(forall y, x :: 0 <= y < grid.height && 0 <= x < grid.width ==> OfChar(grid.Get(x, y)).Some?) {
      return None;
    }
    forall y, x | 0 <= y < grid.height && 0 <= x < grid.width
      ensures CellOf.requires(grid.cells[y][x])
    {
      assert OfChar(grid.Get(x, y)).Some?;
    }
    ghost var tc := grid.cells;
    var cells := grid.Map(CellOf);
    assert forall y, x :: 0 <= y < |lines| && 0 <= x < |lines[0]| ==>
      OfChar(tc[y][x]).Some? && cells.cells[y][x] == CellOf(tc[y][x]);
    LoadedCells(lines, tc, cells.cells);
    return Some(cells);
  }

  // ---------------------------------------------------------------------
  // Part 1: visibility

  /** The heights of a list of cells. */
  function Heights(cells: seq<Cell>): (hs: seq<int>)
    ensures |hs| == |cells| && forall i :: 0 <= i < |cells| ==> hs[i] == cells[i].value
  {
    seq(|cells|, i requires 0 <= i < |cells| => cells[i].value)
  }

  /** Looking along `hs` from its start, tree `i` is taller than every tree before it. */
  predicate SeenFromStart(hs: seq<int>, i: nat)
    requires i < |hs|
  {
    hs[i] > -1 && forall j :: 0 <= j < i ==> hs[j] < hs[i]
  }

  /** Looking along `hs` from its end, tree `i` is taller than every tree after it. */
  predicate SeenFromEnd(hs: seq<int>, i: nat)
    requires i < |hs|
  {
    hs[i] > -1 && forall j :: i < j < |hs| ==> hs[j] < hs[i]
  }

  /** Tree (x, y) is seen from the left or from the right. */
  predicate SeenInRow(hs: seq<seq<int>>, x: nat, y: nat)
    requires IsForest(hs) && y < |hs| && x < |hs[0]|
  {
    SeenFromStart(hs[y], x) || SeenFromEnd(hs[y], x)
  }

  /** Tree (x, y) is seen from the top or from the bottom. */
  predicate SeenInColumn(hs: seq<seq<int>>, x: nat, y: nat)
    requires IsForest(hs) && y < |hs| && x < |hs[0]|
  {
    SeenFromStart(Grids.Column(hs, x), y) || SeenFromEnd(Grids.Column(hs, x), y)
  }

  /** A tree is visible when it is seen from the left, the right, the top or the bottom. */
  predicate Visible(hs: seq<seq<int>>, x: nat, y: nat)
    requires IsForest(hs) && y < |hs| && x < |hs[0]|
  {
    SeenInRow(hs, x, y) || SeenInColumn(hs, x, y)
  }

  /** The grid after the four passes of `solve_p1`, as the visibility rule defines it. */
  function Marked(hs: seq<seq<int>>): (cells: seq<seq<Cell>>)
    requires IsForest(hs)
  {
    seq(|hs|, y requires 0 <= y < |hs| =>
      seq(|hs[0]|, x requires 0 <= x < |hs[0]| => Cell(hs[y][x], Visible(hs, x, y), 0)))
  }

  /** `cur_height` after a prefix: the tallest height so far, -1 before any. */
  function Tallest(hs: seq<int>): int
  {
    if |hs| == 0 then -1 else Max(Tallest(hs[..|hs| - 1]), hs[|hs| - 1])
  }

  /** Exceeding the running maximum is the same as being taller than every tree so far. */
  lemma {:induction false} TallestBound(hs: seq<int>, v: int)
    ensures v > Tallest(hs) <==> v > -1 && forall j :: 0 <= j < |hs| ==> hs[j] < v
  {
    if |hs| > 0 {
      var init := hs[..|hs| - 1];
      TallestBound(init, v);
      assert forall j :: 0 <= j < |init| ==> init[j] == hs[j];
    }
  }

  /** Cell (x, y) of `cells`. */
  predicate OnGrid(cells: seq<seq<Cell>>, p: (int, int)) {
    0 <= p.1 < |cells| && 0 <= p.0 < |cells[p.1]|
  }

  /** The heights of the cells a list of positions visits, in order. */
  function Along(cells: seq<seq<Cell>>, path: seq<(int, int)>): (hs: seq<int>)
    requires forall k :: 0 <= k < |path| ==> OnGrid(cells, path[k])
    ensures |hs| == |path|
  {
    seq(|path|, k requires 0 <= k < |path| && OnGrid(cells, path[k]) => cells[path[k].1][path[k].0].value)
  }

  /** Among the first `n` positions of `path`, (i, j) is one seen from the start. */
  predicate Lit(cells: seq<seq<Cell>>, path: seq<(int, int)>, n: nat, i: int, j: int)
    requires n <= |path| && forall k :: 0 <= k < |path| ==> OnGrid(cells, path[k])
  {
    exists k :: 0 <= k < n && path[k] == (i, j) && SeenFromStart(Along(cells, path), k)
  }

  /** `c.visible = True` when `seen`. */
  function Mark(c: Cell, seen: bool): Cell
  {
    c.(visible := c.visible || seen)
  }

  /**
   * `process_visibility(cells)` where `cells` are the grid's own cells at
   * the positions `path`: each cell taller than all before it is marked
   * visible in the grid; heights and scores stay.
   */
  method ProcessVisibility(grid: Grids.Grid<Cell>, path: seq<(int, int)>)
    requires grid.Valid()
    requires forall k :: 0 <= k < |path| ==> grid.InBounds(path[k].0, path[k].1)
    modifies grid
    ensures grid.Valid() && grid.width == old(grid.width) && grid.height == old(grid.height)
    ensures forall k :: 0 <= k < |path| ==> OnGrid(old(grid.cells), path[k])
    ensures forall j, i :: 0 <= j < grid.height && 0 <= i < grid.width ==>
      grid.cells[j][i] == Mark(old(grid.cells)[j][i], Lit(old(grid.cells), path, |path|, i, j))
  {
    ghost var start := grid.cells;
    ghost var hs := Along(start, path);
    var curHeight := -1;
    var k := 0;
    while k < |path|
      invariant 0 <= k <= |path|
      invariant grid.Valid() && grid.width == old(grid.width) && grid.height == old(grid.height)
      invariant curHeight == Tallest(hs[..k])
      invariant forall j, i :: 0 <= j < grid.height && 0 <= i < grid.width ==>
        grid.cells[j][i] == Mark(start[j][i], Lit(start, path, k, i, j))
    {
      var (x, y) := path[k];
      var c := grid.Get(x, y);
      SeenIffTaller(hs, k);
      MarkStep(start, path, k, grid.cells, grid.width, grid.height);
      if c.value > curHeight {
        grid.Set(x, y, c.(visible := true));
        curHeight := c.value;
      }
      k := k + 1;
    }
  }

  /** `c.value > cur_height` is the test of being taller than every tree before. */
  lemma SeenIffTaller(hs: seq<int>, k: nat)
    requires k < |hs|
    ensures SeenFromStart(hs, k) <==> hs[k] > Tallest(hs[..k])
    ensures Tallest(hs[..k + 1]) == Max(Tallest(hs[..k]), hs[k])
  {
    TallestBound(hs[..k], hs[k]);
    assert hs[..k + 1][..k] == hs[..k];
  }

  /**
   * One step of `process_visibility`: marking position k when it is seen
   * (and leaving the grid alone otherwise) extends the marks to k + 1.
   */
  lemma MarkStep(start: seq<seq<Cell>>, path: seq<(int, int)>, k: nat, cur: seq<seq<Cell>>, w: nat, h: nat)
    requires Grids.Rect(start, w, h) && Grids.Rect(cur, w, h)
    requires k < |path| && forall q :: 0 <= q < |path| ==> OnGrid(start, path[q])
    requires forall j, i :: 0 <= j < h && 0 <= i < w ==> cur[j][i] == Mark(start[j][i], Lit(start, path, k, i, j))
    ensures OnGrid(cur, path[k]) && cur[path[k].1][path[k].0].value == Along(start, path)[k]
    ensures SeenFromStart(Along(start, path), k) ==>
      var next := Grids.Updated(cur, path[k].0, path[k].1, cur[path[k].1][path[k].0].(visible := true));
      forall j, i :: 0 <= j < h && 0 <= i < w ==> next[j][i] == Mark(start[j][i], Lit(start, path, k + 1, i, j))
    ensures !SeenFromStart(Along(start, path), k) ==>
      forall j, i :: 0 <= j < h && 0 <= i < w ==> cur[j][i] == Mark(start[j][i], Lit(start, path, k + 1, i, j))
  {
    LitStep(start, path, k);
  }

  /** One more position of the path marks that position if it is seen, and no other. */
  lemma LitStep(cells: seq<seq<Cell>>, path: seq<(int, int)>, k: nat)
    requires k < |path| && forall q :: 0 <= q < |path| ==> OnGrid(cells, path[q])
    ensures forall i, j :: Lit(cells, path, k + 1, i, j) <==>
      Lit(cells, path, k, i, j) || (path[k] == (i, j) && SeenFromStart(Along(cells, path), k))
  {
  }

  /** On a path that visits (i, j) once, at `k0`, (i, j) is marked exactly when it is seen there. */
  lemma LitOnce(cells: seq<seq<Cell>>, path: seq<(int, int)>, k0: nat, i: int, j: int)
    requires forall q :: 0 <= q < |path| ==> OnGrid(cells, path[q])
    requires k0 < |path| && path[k0] == (i, j)
    requires forall q :: 0 <= q < |path| && path[q] == (i, j) ==> q == k0
    ensures Lit(cells, path, |path|, i, j) <==> SeenFromStart(Along(cells, path), k0)
  {
  }

  /** Seen from the start of the reversed line is seen from the end of the line. */
  lemma SeenReversed(hs: seq<int>, i: nat)
    requires i < |hs|
    ensures SeenFromStart(Reversed(hs), |hs| - 1 - i) <==> SeenFromEnd(hs, i)
  {
    var r := Reversed(hs);
    if SeenFromEnd(hs, i) {
      forall j | 0 <= j < |hs| - 1 - i ensures r[j] < r[|hs| - 1 - i] {
        assert r[j] == hs[|hs| - 1 - j];
      }
    }
    if SeenFromStart(r, |hs| - 1 - i) {
      forall j | i < j < |hs| ensures hs[j] < hs[i] {
        assert hs[j] == r[|hs| - 1 - j];
      }
    }
  }

  /** The positions of `grid.row(y)`, left to right. */
  function RowPath(w: nat, y: int): (path: seq<(int, int)>)
    ensures |path| == w && forall k :: 0 <= k < w ==> path[k] == (k, y)
  {
    seq(w, k requires 0 <= k < w => (k, y))
  }

  /** The positions of `grid.col(x)`, top to bottom. */
  function ColPath(h: nat, x: int): (path: seq<(int, int)>)
    ensures |path| == h && forall k :: 0 <= k < h ==> path[k] == (x, k)
  {
    seq(h, k requires 0 <= k < h => (x, k))
  }

  /** `cells` carries the heights `hs`, whatever its flags and scores. */
  predicate HasHeights(cells: seq<seq<Cell>>, hs: seq<seq<int>>)
    requires IsForest(hs)
  {
    Grids.Rect(cells, |hs[0]|, |hs|) &&
    forall j, i :: 0 <= j < |hs| && 0 <= i < |hs[0]| ==> cells[j][i].value == hs[j][i]
  }

  /** The two passes over row y mark the cells of row y seen from the left and from the right. */
  lemma RowPasses(cells: seq<seq<Cell>>, hs: seq<seq<int>>, y: nat, i: nat, j: nat)
    requires IsForest(hs) && HasHeights(cells, hs)
    requires y < |hs| && j < |hs| && i < |hs[0]|
    ensures forall q :: 0 <= q < |hs[0]| ==> OnGrid(cells, RowPath(|hs[0]|, y)[q])
    ensures forall q :: 0 <= q < |hs[0]| ==> OnGrid(cells, Reversed(RowPath(|hs[0]|, y))[q])
    ensures Lit(cells, RowPath(|hs[0]|, y), |hs[0]|, i, j) <==> j == y && SeenFromStart(hs[y], i)
    ensures Lit(cells, Reversed(RowPath(|hs[0]|, y)), |hs[0]|, i, j) <==> j == y && SeenFromEnd(hs[y], i)
  {
    var w := |hs[0]|;
    var p := RowPath(w, y);
    var rp := Reversed(p);
    assert Along(cells, p) == hs[y];
    assert Along(cells, rp) == Reversed(hs[y]);
    if j == y {
      LitOnce(cells, p, i, i, j);
      LitOnce(cells, rp, w - 1 - i, i, j);
      SeenReversed(hs[y], i);
    }
  }

  /** Walking column x down, and back up, reads the column's heights, and back to front. */
  lemma ColAlong(cells: seq<seq<Cell>>, hs: seq<seq<int>>, x: nat)
    requires IsForest(hs) && HasHeights(cells, hs) && x < |hs[0]|
    ensures forall q :: 0 <= q < |hs| ==> OnGrid(cells, ColPath(|hs|, x)[q])
    ensures forall q :: 0 <= q < |hs| ==> OnGrid(cells, Reversed(ColPath(|hs|, x))[q])
    ensures Along(cells, ColPath(|hs|, x)) == Grids.Column(hs, x)
    ensures Along(cells, Reversed(ColPath(|hs|, x))) == Reversed(Grids.Column(hs, x))
  {
    var p := ColPath(|hs|, x);
    var col := Grids.Column(hs, x);
    assert Along(cells, p) == col;
    var rp, rc := Reversed(p), Reversed(col);
    forall q | 0 <= q < |hs| ensures OnGrid(cells, rp[q]) && Along(cells, rp)[q] == rc[q] {
      assert rp[q] == p[|hs| - 1 - q];
    }
  }

  /** The pass down column x marks the cells of column x seen from the top. */
  lemma ColDown(cells: seq<seq<Cell>>, hs: seq<seq<int>>, x: nat, i: nat, j: nat)
    requires IsForest(hs) && HasHeights(cells, hs)
    requires x < |hs[0]| && j < |hs| && i < |hs[0]|
    requires forall q :: 0 <= q < |hs| ==> OnGrid(cells, ColPath(|hs|, x)[q])
    requires Along(cells, ColPath(|hs|, x)) == Grids.Column(hs, x)
    ensures Lit(cells, ColPath(|hs|, x), |hs|, i, j) <==> i == x && SeenFromStart(Grids.Column(hs, x), j)
  {
    var p := ColPath(|hs|, x);
    if i == x {
      LitOnce(cells, p, j, i, j);
    } else {
      assert forall q :: 0 <= q < |hs| ==> p[q] != (i, j);
    }
  }

  /** The pass up column x marks the cells of column x seen from the bottom. */
  lemma ColUp(cells: seq<seq<Cell>>, hs: seq<seq<int>>, x: nat, i: nat, j: nat)
    requires IsForest(hs) && HasHeights(cells, hs)
    requires x < |hs[0]| && j < |hs| && i < |hs[0]|
    requires forall q :: 0 <= q < |hs| ==> OnGrid(cells, Reversed(ColPath(|hs|, x))[q])
    requires Along(cells, Reversed(ColPath(|hs|, x))) == Reversed(Grids.Column(hs, x))
    ensures Lit(cells, Reversed(ColPath(|hs|, x)), |hs|, i, j) <==> i == x && SeenFromEnd(Grids.Column(hs, x), j)
  {
    var h := |hs|;
    var rp := Reversed(ColPath(h, x));
    assert forall q :: 0 <= q < h ==> rp[q] == (x, h - 1 - q);
    if i == x {
      LitOnce(cells, rp, h - 1 - j, i, j);
      SeenReversed(Grids.Column(hs, x), j);
    } else {
      assert forall q :: 0 <= q < h ==> rp[q] != (i, j);
    }
  }

  /** The two passes over column x mark the cells of column x seen from the top and from the bottom. */
  lemma ColPasses(cells: seq<seq<Cell>>, hs: seq<seq<int>>, x: nat, i: nat, j: nat)
    requires IsForest(hs) && HasHeights(cells, hs)
    requires x < |hs[0]| && j < |hs| && i < |hs[0]|
    ensures forall q :: 0 <= q < |hs| ==> OnGrid(cells, ColPath(|hs|, x)[q])
    ensures forall q :: 0 <= q < |hs| ==> OnGrid(cells, Reversed(ColPath(|hs|, x))[q])
    ensures Lit(cells, ColPath(|hs|, x), |hs|, i, j) <==> i == x && SeenFromStart(Grids.Column(hs, x), j)
    ensures Lit(cells, Reversed(ColPath(|hs|, x)), |hs|, i, j) <==> i == x && SeenFromEnd(Grids.Column(hs, x), j)
  {
    ColAlong(cells, hs, x);
    ColDown(cells, hs, x, i, j);
    ColUp(cells, hs, x, i, j);
  }

  /** `len([c for c in cells if c.visible])`. */
  function CountVisible(cells: seq<Cell>): (n: nat)
    ensures n <= |cells|
  {
    if |cells| == 0 then 0
    else CountVisible(cells[..|cells| - 1]) + (if cells[|cells| - 1].visible then 1 else 0)
  }

  /** The grid once the rows before `y` have had both passes. */
  predicate RowsDone(cells: seq<seq<Cell>>, hs: seq<seq<int>>, y: nat)
    requires IsForest(hs)
  {
    Grids.Rect(cells, |hs[0]|, |hs|) &&
    forall j, i :: 0 <= j < |hs| && 0 <= i < |hs[0]| ==>
      cells[j][i] == Cell(hs[j][i], j < y && SeenInRow(hs, i, j), 0)
  }

  /** The grid once every row, and the columns before `x`, have had both passes. */
  predicate ColumnsDone(cells: seq<seq<Cell>>, hs: seq<seq<int>>, x: nat)
    requires IsForest(hs)
  {
    Grids.Rect(cells, |hs[0]|, |hs|) &&
    forall j, i :: 0 <= j < |hs| && 0 <= i < |hs[0]| ==>
      cells[j][i] == Cell(hs[j][i], SeenInRow(hs, i, j) || (i < x && SeenInColumn(hs, i, j)), 0)
  }

  /** `process_visibility(row)` then `process_visibility(reversed(row))` finish row y. */
  lemma RowStep(c0: seq<seq<Cell>>, c1: seq<seq<Cell>>, c2: seq<seq<Cell>>, hs: seq<seq<int>>, y: nat)
    requires IsForest(hs) && y < |hs| && RowsDone(c0, hs, y)
    requires forall q :: 0 <= q < |hs[0]| ==> OnGrid(c0, RowPath(|hs[0]|, y)[q])
    requires Grids.Rect(c1, |hs[0]|, |hs|)
    requires forall j, i :: 0 <= j < |hs| && 0 <= i < |hs[0]| ==>
      c1[j][i] == Mark(c0[j][i], Lit(c0, RowPath(|hs[0]|, y), |hs[0]|, i, j))
    requires forall q :: 0 <= q < |hs[0]| ==> OnGrid(c1, Reversed(RowPath(|hs[0]|, y))[q])
    requires Grids.Rect(c2, |hs[0]|, |hs|)
    requires forall j, i :: 0 <= j < |hs| && 0 <= i < |hs[0]| ==>
      c2[j][i] == Mark(c1[j][i], Lit(c1, Reversed(RowPath(|hs[0]|, y)), |hs[0]|, i, j))
    ensures RowsDone(c2, hs, y + 1)
  {
    forall j, i | 0 <= j < |hs| && 0 <= i < |hs[0]|
      ensures c2[j][i] == Cell(hs[j][i], j < y + 1 && SeenInRow(hs, i, j), 0)
    {
      RowPasses(c0, hs, y, i, j);
      RowPasses(c1, hs, y, i, j);
    }
  }

  /** `process_visibility(col)` then `process_visibility(reversed(col))` finish column x. */
  lemma ColumnStep(c0: seq<seq<Cell>>, c1: seq<seq<Cell>>, c2: seq<seq<Cell>>, hs: seq<seq<int>>, x: nat)
    requires IsForest(hs) && x < |hs[0]| && ColumnsDone(c0, hs, x)
    requires forall q :: 0 <= q < |hs| ==> OnGrid(c0, ColPath(|hs|, x)[q])
    requires Grids.Rect(c1, |hs[0]|, |hs|)
    requires forall j, i :: 0 <= j < |hs| && 0 <= i < |hs[0]| ==>
      c1[j][i] == Mark(c0[j][i], Lit(c0, ColPath(|hs|, x), |hs|, i, j))
    requires forall q :: 0 <= q < |hs| ==> OnGrid(c1, Reversed(ColPath(|hs|, x))[q])
    requires Grids.Rect(c2, |hs[0]|, |hs|)
    requires forall j, i :: 0 <= j < |hs| && 0 <= i < |hs[0]| ==>
      c2[j][i] == Mark(c1[j][i], Lit(c1, Reversed(ColPath(|hs|, x)), |hs|, i, j))
    ensures ColumnsDone(c2, hs, x + 1)
  {
    forall j, i | 0 <= j < |hs| && 0 <= i < |hs[0]|
      ensures c2[j][i] == Cell(hs[j][i], SeenInRow(hs, i, j) || (i < x + 1 && SeenInColumn(hs, i, j)), 0)
    {
      ColPasses(c0, hs, x, i, j);
      ColPasses(c1, hs, x, i, j);
    }
  }

  /** The row half of `solve_p1`: every row passed left to right, then right to left. */
  method PassRows(grid: Grids.Grid<Cell>, ghost hs: seq<seq<int>>)
    requires IsForest(hs) && grid.Valid() && grid.width == |hs[0]| && grid.height == |hs|
    requires RowsDone(grid.cells, hs, 0)
    modifies grid
    ensures grid.Valid() && grid.width == |hs[0]| && grid.height == |hs|
    ensures RowsDone(grid.cells, hs, |hs|)
  {
    var y := 0;
    while y < grid.height
      invariant 0 <= y <= grid.height
      invariant grid.Valid() && grid.width == |hs[0]| && grid.height == |hs|
      invariant RowsDone(grid.cells, hs, y)
    {
      ghost var c0 := grid.cells;
      var row := RowPath(grid.width, y);
      ProcessVisibility(grid, row);
      ghost var c1 := grid.cells;
      ProcessVisibility(grid, Reversed(row));
      RowStep(c0, c1, grid.cells, hs, y);
      y := y + 1;
    }
  }

  /** The column half of `solve_p1`: every column passed top to bottom, then bottom to top. */
  method PassColumns(grid: Grids.Grid<Cell>, ghost hs: seq<seq<int>>)
    requires IsForest(hs) && grid.Valid() && grid.width == |hs[0]| && grid.height == |hs|
    requires ColumnsDone(grid.cells, hs, 0)
    modifies grid
    ensures grid.Valid() && grid.width == |hs[0]| && grid.height == |hs|
    ensures ColumnsDone(grid.cells, hs, |hs[0]|)
  {
    var x := 0;
    while x < grid.width
      invariant 0 <= x <= grid.width
      invariant grid.Valid() && grid.width == |hs[0]| && grid.height == |hs|
      invariant ColumnsDone(grid.cells, hs, x)
    {
      ghost var c0 := grid.cells;
      var col := ColPath(grid.height, x);
      ProcessVisibility(grid, col);
      ghost var c1 := grid.cells;
      ProcessVisibility(grid, Reversed(col));
      ColumnStep(c0, c1, grid.cells, hs, x);
      x := x + 1;
    }
  }

  /** Fresh cells are `RowsDone` with no row passed. */
  lemma NoRowsDone(cells: seq<seq<Cell>>, hs: seq<seq<int>>)
    requires IsForest(hs) && Grids.Rect(cells, |hs[0]|, |hs|)
    requires forall y, x :: 0 <= y < |hs| && 0 <= x < |hs[0]| ==> cells[y][x] == Cell(hs[y][x], false, 0)
    ensures RowsDone(cells, hs, 0)
  {
  }

  /** Every row passed is every column still to pass. */
  lemma RowsThenColumns(cells: seq<seq<Cell>>, hs: seq<seq<int>>)
    requires IsForest(hs) && RowsDone(cells, hs, |hs|)
    ensures ColumnsDone(cells, hs, 0)
  {
  }

  /** Every column passed is the `Marked` grid. */
  lemma ColumnsMarked(cells: seq<seq<Cell>>, hs: seq<seq<int>>)
    requires IsForest(hs) && ColumnsDone(cells, hs, |hs[0]|)
    ensures cells == Marked(hs)
  {
    forall j | 0 <= j < |hs| ensures cells[j] == Marked(hs)[j] {
    }
  }

  /**
   * `solve_p1`: pass along every row both ways, then every column both
   * ways, and count the cells marked visible.
   */
  method SolveP1(lines: seq<string>) returns (count: Option<int>)
    ensures count.None? <==> !Loads(lines)
    ensures count.Some? ==> Loads(lines) && count.value == CountVisible(Grids.Flatten(Marked(Forest(lines))))
  {
    var loaded := Load(lines);
    if loaded.None? {
      return None;
    }
    var grid := loaded.value;
    ghost var hs := Forest(lines);
    NoRowsDone(grid.cells, hs);
    PassRows(grid, hs);
    RowsThenColumns(grid.cells, hs);
    PassColumns(grid, hs);
    ColumnsMarked(grid.cells, hs);
    var all := grid.AllCells();
    grid.AllCellsAreRows();
    count := Some(CountVisible(all));
  }

  /** A tree of height at least 0 on the edge of a rectangle of heights is visible. */
  lemma EdgeVisible(hs: seq<seq<int>>, x: nat, y: nat)
    requires IsForest(hs) && y < |hs| && x < |hs[0]| && hs[y][x] >= 0
    requires x == 0 || y == 0 || x == |hs[0]| - 1 || y == |hs| - 1
    ensures Visible(hs, x, y)
  {
    var col := Grids.Column(hs, x);
    assert col[y] == hs[y][x];
    if x == 0 {
      assert SeenFromStart(hs[y], x);
    } else if x == |hs[0]| - 1 {
      assert SeenFromEnd(hs[y], x);
    } else if y == 0 {
      assert SeenFromStart(col, y);
    } else {
      assert SeenFromEnd(col, y);
    }
  }

  /** Every tree on the edge of the grid is visible. */
  lemma EdgesVisible(lines: seq<string>, x: nat, y: nat)
    requires Loads(lines) && y < |lines| && x < |lines[0]|
    requires x == 0 || y == 0 || x == |lines[0]| - 1 || y == |lines| - 1
    ensures Visible(Forest(lines), x, y)
    ensures Marked(Forest(lines))[y][x].visible
  {
    var hs := Forest(lines);
    ForestHeights(lines);
    EdgeVisible(hs, x, y);
  }

  // ---------------------------------------------------------------------
  // Part 2: scenic scores

  /** Trees looked at walking left from just before position `n`, stopping at one at least `h` tall. */
  function StepsBefore(hs: seq<int>, h: int, n: nat): nat
    requires n <= |hs|
  {
    if n == 0 then 0 else if hs[n - 1] >= h then 1 else 1 + StepsBefore(hs, h, n - 1)
  }

  /** Trees looked at walking right from just after position `n`, stopping at one at least `h` tall. */
  function StepsAfter(hs: seq<int>, h: int, n: nat): nat
    requires n < |hs|
    decreases |hs| - n
  {
    if n + 1 >= |hs| then 0 else if hs[n + 1] >= h then 1 else 1 + StepsAfter(hs, h, n + 1)
  }

  /** The viewing distance from `pos` towards the start of the line. */
  function ViewBefore(hs: seq<int>, pos: nat): nat
    requires pos < |hs|
  {
    StepsBefore(hs, hs[pos], pos)
  }

  /** The viewing distance from `pos` towards the end of the line. */
  function ViewAfter(hs: seq<int>, pos: nat): nat
    requires pos < |hs|
  {
    StepsAfter(hs, hs[pos], pos)
  }

  /**
   * `calculate_view(cells, pos)`: how many trees one sees from `pos` towards
   * each end, up to and including the first at least as tall.
   */
  method CalculateView(cells: seq<Cell>, pos: int) returns (l: int, r: int)
    requires 0 <= pos < |cells|
    ensures l == ViewBefore(Heights(cells), pos)
    ensures r == ViewAfter(Heights(cells), pos)
  {
    ghost var hs := Heights(cells);
    var cellHeight := cells[pos].value;
    l := 0;
    var i := pos - 1;
    while i > -1
      invariant -1 <= i < pos
      invariant l + StepsBefore(hs, cellHeight, i + 1) == ViewBefore(hs, pos)
    {
      var cell := cells[i];
      l := l + 1;
      if cell.value >= cellHeight {
        break;
      }
      i := i - 1;
    }
    r := 0;
    var j := pos + 1;
    while j < |cells|
      invariant pos < j <= |cells|
      invariant r + StepsAfter(hs, cellHeight, j - 1) == ViewAfter(hs, pos)
    {
      var cell := cells[j];
      r := r + 1;
      if cell.value >= cellHeight {
        break;
      }
      j := j + 1;
    }
  }

  /**
   * The view towards the start ends at the first tree at least as tall, or
   * at the edge: every tree it passes is shorter.
   */
  lemma {:induction false} StepsBeforeMeaning(hs: seq<int>, h: int, n: nat)
    requires n <= |hs|
    ensures StepsBefore(hs, h, n) <= n
    ensures forall j :: n - StepsBefore(hs, h, n) < j < n ==> hs[j] < h
    ensures StepsBefore(hs, h, n) < n ==> StepsBefore(hs, h, n) >= 1 && hs[n - StepsBefore(hs, h, n)] >= h
    ensures StepsBefore(hs, h, n) == n && n > 0 ==> hs[0] >= h || forall j :: 0 <= j < n ==> hs[j] < h
  {
    if n > 0 && hs[n - 1] < h {
      StepsBeforeMeaning(hs, h, n - 1);
    }
  }

  /** The view towards the end ends at the first tree at least as tall, or at the edge. */
  lemma {:induction false} StepsAfterMeaning(hs: seq<int>, h: int, n: nat)
    requires n < |hs|
    ensures StepsAfter(hs, h, n) <= |hs| - 1 - n
    ensures forall j :: n < j < n + StepsAfter(hs, h, n) ==> hs[j] < h
    ensures StepsAfter(hs, h, n) < |hs| - 1 - n ==> StepsAfter(hs, h, n) >= 1 && hs[n + StepsAfter(hs, h, n)] >= h
    ensures StepsAfter(hs, h, n) == |hs| - 1 - n && n + 1 < |hs| ==>
      hs[|hs| - 1] >= h || forall j :: n < j < |hs| ==> hs[j] < h
    decreases |hs| - n
  {
    if n + 1 < |hs| && hs[n + 1] < h {
      StepsAfterMeaning(hs, h, n + 1);
    }
  }

  /** The scenic score of (x, y): the product of its four viewing distances. */
  function Score(hs: seq<seq<int>>, x: nat, y: nat): nat
    requires IsForest(hs) && y < |hs| && x < |hs[0]|
  {
    var col := Grids.Column(hs, x);
    ViewBefore(col, y) * ViewAfter(col, y) * ViewBefore(hs[y], x) * ViewAfter(hs[y], x)
  }

  /** A tree on the edge sees nothing past the edge, so its score is 0. */
  lemma EdgeScoreZero(hs: seq<seq<int>>, x: nat, y: nat)
    requires IsForest(hs) && y < |hs| && x < |hs[0]|
    requires x == 0 || y == 0 || x == |hs[0]| - 1 || y == |hs| - 1
    ensures Score(hs, x, y) == 0
  {
    var col := Grids.Column(hs, x);
    if x == 0 {
      assert ViewBefore(hs[y], x) == 0;
    } else if y == 0 {
      assert ViewBefore(col, y) == 0;
    } else if x == |hs[0]| - 1 {
      assert ViewAfter(hs[y], x) == 0;
    } else {
      assert ViewAfter(col, y) == 0;
    }
  }

  /** The grid once the cells before (x, y) in row-major order carry their scores. */
  predicate ScoredUpTo(cells: seq<seq<Cell>>, hs: seq<seq<int>>, y: nat, x: nat)
    requires IsForest(hs)
  {
    Grids.Rect(cells, |hs[0]|, |hs|) &&
    forall j, i :: 0 <= j < |hs| && 0 <= i < |hs[0]| ==>
      cells[j][i].value == hs[j][i] &&
      cells[j][i].score == (if j < y || (j == y && i < x) then Score(hs, i, j) else 0)
  }

  /** Setting the score of (x, y) moves the scored prefix one cell on. */
  lemma ScoreStep(cells: seq<seq<Cell>>, hs: seq<seq<int>>, y: nat, x: nat)
    requires IsForest(hs) && y < |hs| && x < |hs[0]| && ScoredUpTo(cells, hs, y, x)
    ensures ScoredUpTo(Grids.Updated(cells, x, y, cells[y][x].(score := Score(hs, x, y))), hs, y, x + 1)
  {
    var next: seq<seq<Cell>> := Grids.Updated(cells, x, y, cells[y][x].(score := Score(hs, x, y)));
    forall j, i | 0 <= j < |hs| && 0 <= i < |hs[0]|
      ensures next[j][i].value == hs[j][i]
      ensures next[j][i].score == (if j < y || (j == y && i < x + 1) then Score(hs, i, j) else 0)
    {
      if (j, i) != (y, x) {
        assert next[j][i] == cells[j][i];
      }
    }
  }

  /** The lines `calculate_view` is given hold the heights of the column and the row. */
  lemma LinesOfGrid(cells: seq<seq<Cell>>, hs: seq<seq<int>>, x: nat, y: nat)
    requires IsForest(hs) && HasHeights(cells, hs) && y < |hs| && x < |hs[0]|
    ensures Heights(Grids.Column(cells, x)) == Grids.Column(hs, x)
    ensures Heights(cells[y]) == hs[y]
  {
  }

  /** The `for x, y, cell in grid.enumerate_all_cells()` loop of `solve_p2`. */
  method ScoreAll(grid: Grids.Grid<Cell>, ghost hs: seq<seq<int>>)
    requires IsForest(hs) && grid.Valid() && grid.width == |hs[0]| && grid.height == |hs|
    requires ScoredUpTo(grid.cells, hs, 0, 0)
    modifies grid
    ensures grid.Valid() && grid.width == |hs[0]| && grid.height == |hs|
    ensures ScoredUpTo(grid.cells, hs, |hs|, 0)
  {
    var y := 0;
    while y < grid.height
      invariant 0 <= y <= grid.height
      invariant grid.Valid() && grid.width == |hs[0]| && grid.height == |hs|
      invariant ScoredUpTo(grid.cells, hs, y, 0)
    {
      var x := 0;
      while x < grid.width
        invariant 0 <= x <= grid.width
        invariant grid.Valid() && grid.width == |hs[0]| && grid.height == |hs|
        invariant ScoredUpTo(grid.cells, hs, y, x)
      {
        LinesOfGrid(grid.cells, hs, x, y);
        var u, d := CalculateView(grid.Col(x), y);
        var l, r := CalculateView(grid.Row(y), x);
        var cell := grid.Get(x, y);
        ScoreStep(grid.cells, hs, y, x);
        grid.Set(x, y, cell.(score := u * d * l * r));
        x := x + 1;
      }
      y := y + 1;
    }
  }

  /** The largest entry of a grid of scores is the highest score of any tree. */
  lemma LargestScore(scores: seq<seq<int>>, hs: seq<seq<int>>)
    requires IsForest(hs) && Grids.Rect(scores, |hs[0]|, |hs|)
    requires forall j, i :: 0 <= j < |hs| && 0 <= i < |hs[0]| ==> scores[j][i] == Score(hs, i, j)
    ensures |Grids.Flatten(scores)| > 0
    ensures forall j, i :: 0 <= j < |hs| && 0 <= i < |hs[0]| ==> Score(hs, i, j) <= Largest(Grids.Flatten(scores))
    ensures exists j, i :: 0 <= j < |hs| && 0 <= i < |hs[0]| && Score(hs, i, j) == Largest(Grids.Flatten(scores))
  {
    var all := Grids.Flatten(scores);
    Grids.FlattenMember(scores, scores[0][0]);
    LargestIsMaximum(all);
    forall j, i | 0 <= j < |hs| && 0 <= i < |hs[0]|
      ensures Score(hs, i, j) <= Largest(all)
    {
      Grids.FlattenMember(scores, scores[j][i]);
      var k :| 0 <= k < |all| && all[k] == scores[j][i];
    }
    Grids.FlattenMember(scores, Largest(all));
    var j :| 0 <= j < |scores| && Largest(all) in scores[j];
    var i :| 0 <= i < |scores[j]| && scores[j][i] == Largest(all);
  }

  /**
   * `solve_p2`: score every cell, then take the largest score.  The result
   * is the highest scenic score of any tree.
   */
  method SolveP2(lines: seq<string>) returns (best: Option<int>)
    ensures best.None? <==> !Loads(lines)
    ensures best.Some? ==> Loads(lines)
    ensures best.Some? ==> forall y, x :: 0 <= y < |lines| && 0 <= x < |lines[0]| ==> Score(Forest(lines), x, y) <= best.value
    ensures best.Some? ==> exists y, x :: 0 <= y < |lines| && 0 <= x < |lines[0]| && Score(Forest(lines), x, y) == best.value
  {
    var loaded := Load(lines);
    if loaded.None? {
      return None;
    }
    var grid := loaded.value;
    ghost var hs := Forest(lines);
    ScoreAll(grid, hs);
    var scores := grid.Map((c: Cell) => c.score);
    scores.AllCellsAreRows();
    LargestScore(scores.cells, hs);
    best := Some(Largest(scores.AllCells()));
  }
}
