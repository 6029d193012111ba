// The line-grouping helpers of aoc2022/util.py and its older copy of the
// grid class.
module Util {
  import opened Wrappers
  import Text
  import Grids
  import Seqs

  // ---------------------------------------------------------------------
  // split_by_newline

  /** A line that `rstrip` empties. */
  predicate Blank(line: string) { Text.RStrip(line) == "" }

  /**
   * The `(result, current)` pair after the loop of `split_by_newline` has
   * seen `lines`: a blank line closes `current` (even an empty one), any
   * other line is appended to it right-stripped.
   */
  function Scan(lines: seq<string>): (seq<seq<string>>, seq<string>)
  {
    if |lines| == 0 then ([], [])
    else
      var (result, current) := Scan(lines[..|lines| - 1]);
      var line := Text.RStrip(lines[|lines| - 1]);
      if line == "" then (result + [current], []) else (result, current + [line])
  }

  /** What `split_by_newline(lines)` returns: the trailing group only if non-empty. */
  function Groups(lines: seq<string>): seq<seq<string>>
  {
    var (result, current) := Scan(lines);
    if current != [] then result + [current] else result
  }

  /** The right-stripped non-blank lines, in order. */
  function NonBlank(lines: seq<string>): seq<string>
  {
    if |lines| == 0 then []
    else if Blank(lines[|lines| - 1]) then NonBlank(lines[..|lines| - 1])
    else NonBlank(lines[..|lines| - 1]) + [Text.RStrip(lines[|lines| - 1])]
  }

  /** The number of blank lines. */
  function BlankCount(lines: seq<string>): nat
  {
    if |lines| == 0 then 0
    else BlankCount(lines[..|lines| - 1]) + (if Blank(lines[|lines| - 1]) then 1 else 0)
  }

  /** `split_by_newline(lines)`. */
  method SplitByNewline(lines: seq<string>) returns (result: seq<seq<string>>)
    ensures result == Groups(lines)
  {
    result := [];
    var current: seq<string> := [];
    var i := 0;
    while i < |lines|
      invariant 0 <= i <= |lines|
      invariant (result, current) == Scan(lines[..i])
    {
      assert lines[..i + 1][..i] == lines[..i];
      var line := Text.RStrip(lines[i]);
      if line == "" {
        result := result + [current];
        current := [];
      } else {
        current := current + [line];
      }
      i := i + 1;
    }
    assert lines[..|lines|] == lines;
    if current != [] {
      result := result + [current];
    }
  }

  /** The scan so far: its groups then the open group are exactly the non-blank lines. */
  lemma {:induction false} ScanContents(lines: seq<string>)
    ensures Grids.Flatten(Scan(lines).0) + Scan(lines).1 == NonBlank(lines)
    ensures |Scan(lines).0| == BlankCount(lines)
    ensures forall g :: g in Scan(lines).0 ==> forall l :: l in g ==> l != "" && Text.RStrip(l) == l
    ensures forall l :: l in Scan(lines).1 ==> l != "" && Text.RStrip(l) == l
  {
    if |lines| > 0 {
      var init := lines[..|lines| - 1];
      ScanContents(init);
      var (result, current) := Scan(init);
      var line := Text.RStrip(lines[|lines| - 1]);
      RStripIdempotent(lines[|lines| - 1]);
      if line == "" {
        FlattenSnoc(result, current);
      } else {
        assert Grids.Flatten(result) + (current + [line]) == (Grids.Flatten(result) + current) + [line];
      }
    }
  }

  lemma RStripIdempotent(s: string)
    ensures Text.RStrip(Text.RStrip(s)) == Text.RStrip(s)
  {
  }

  lemma {:induction false} FlattenSnoc<T>(ss: seq<seq<T>>, s: seq<T>)
    ensures Grids.Flatten(ss + [s]) == Grids.Flatten(ss) + s
  {
    if |ss| == 0 {
      assert ss + [s] == [s];
      assert Grids.Flatten([s]) == s + Grids.Flatten([s][1..]);
    } else {
      FlattenSnoc(ss[1..], s);
      assert (ss + [s])[1..] == ss[1..] + [s];
    }
  }

  /** Concatenating the groups gives exactly the right-stripped non-blank lines, in order. */
  lemma GroupsFlatten(lines: seq<string>)
    ensures Grids.Flatten(Groups(lines)) == NonBlank(lines)
  {
    ScanContents(lines);
    var (result, current) := Scan(lines);
    if current != [] {
      FlattenSnoc(result, current);
    }
  }

  /**
   * No group holds a blank line, every blank line closes a group (so
   * consecutive blank lines give empty groups), and the trailing group is
   * kept only when non-empty.
   */
  lemma GroupsShape(lines: seq<string>)
    ensures forall g :: g in Groups(lines) ==> forall l :: l in g ==> l != ""
    ensures |Groups(lines)| == BlankCount(lines) + (if Scan(lines).1 != [] then 1 else 0)
    ensures |Groups(lines)| > BlankCount(lines) ==> Groups(lines)[|Groups(lines)| - 1] != []
  {
    ScanContents(lines);
  }

  // ---------------------------------------------------------------------
  // split_to_chunks


  /** The chunks of `lines`: n items at a time, the last one possibly shorter. */
  function Chunks<T>(lines: seq<T>, n: nat): seq<seq<T>>
    requires n > 0
    decreases |lines|
  {
    if |lines| == 0 then []
    else if |lines| <= n then [lines]
    else [lines[..n]] + Chunks(lines[n..], n)
  }

  /**
   * `split_to_chunks(lines, n)`: the slices `lines[i:i+n]` for i in
   * `range(0, len(lines), n)`.  A zero step raises; a negative one gives an
   * empty range.
   */
  method SplitToChunks<T>(lines: seq<T>, n: int) returns (r: Option<seq<seq<T>>>)
    ensures r.None? <==> n == 0
    ensures n < 0 ==> r == Some([])
    ensures n > 0 ==> r == Some(Chunks(lines, n))
  {
    if n == 0 {
      return None;
    }
    if n < 0 {
      return Some([]);
    }
    var result: seq<seq<T>> := [];
    var i := 0;
    while i < |lines|
      invariant 0 <= i <= |lines|
      invariant result + Chunks(lines[i..], n) == Chunks(lines, n)
    {
      var chunk := lines[i .. Seqs.Min(i + n, |lines|)];
      if i + n < |lines| {
        assert lines[i..][..n] == chunk && lines[i..][n..] == lines[i + n..];
        result := result + [chunk];
        i := i + n;
      } else {
        assert lines[i..] == chunk && lines[|lines|..] == [];
        result := result + [chunk];
        i := |lines|;
      }
    }
    assert lines[i..] == [];
    assert Chunks(lines[i..], n) == [];
    assert result + [] == result;
    return Some(result);
  }

  /** The chunks concatenate back to the input. */
  lemma {:induction false} ChunksFlatten<T>(lines: seq<T>, n: nat)
    requires n > 0
    ensures Grids.Flatten(Chunks(lines, n)) == lines
    decreases |lines|
  {
    if |lines| > n {
      ChunksFlatten(lines[n..], n);
      assert lines[..n] + lines[n..] == lines;
    } else if |lines| > 0 {
      assert Grids.Flatten([lines]) == lines + Grids.Flatten([lines][1..]);
    }
  }

  /**
   * Every chunk is non-empty and at most n long, all but the last have
   * exactly n items, and there are ceil(len / n) of them.
   */
  lemma {:induction false} ChunksShape<T>(lines: seq<T>, n: nat)
    requires n > 0
    ensures |Chunks(lines, n)| == (|lines| + n - 1) / n
    ensures forall k :: 0 <= k < |Chunks(lines, n)| ==>
      0 < |Chunks(lines, n)[k]| <= n && (k < |Chunks(lines, n)| - 1 ==> |Chunks(lines, n)[k]| == n)
    decreases |lines|
  {
    var c := Chunks(lines, n);
    if |lines| > n {
      ChunksShape(lines[n..], n);
      DivShift(|lines| - n + n - 1, n);
      assert (|lines| + n - 1) == (|lines| - n + n - 1) + n;
      forall k | 0 <= k < |c|
        ensures 0 < |c[k]| <= n && (k < |c| - 1 ==> |c[k]| == n)
      {
        if k > 0 {
          assert c[k] == Chunks(lines[n..], n)[k - 1];
        }
      }
    } else if |lines| > 0 {
      DivUnique(|lines| + n - 1, n, 1);
    } else {
      DivUnique(n - 1, n, 0);
    }
  }

  lemma DivShift(a: nat, n: nat)
    requires n > 0
    ensures (a + n) / n == a / n + 1
  {
    DivUnique(a + n, n, a / n + 1);
  }

  lemma DivUnique(a: nat, n: nat, k: nat)
    requires n > 0 && k * n <= a < (k + 1) * n
    ensures a / n == k
  {
    var q, r := a / n, a % n;
    assert a == q * n + r && 0 <= r < n;
    if q < k {
      MulStep(q, k, n);
      assert false;
    } else if q > k {
      MulStep(k, q, n);
      assert false;
    }
  }

  lemma {:induction false} MulStep(a: nat, b: nat, n: nat)
    requires a < b
    ensures a * n + n <= b * n
  {
    if b > a + 1 {
      MulStep(a, b - 1, n);
    }
    assert b * n == (b - 1) * n + n;
  }

  // ---------------------------------------------------------------------
  // The older Grid copy

  /** The w columns of `cells`, left to right. */
  function Columns<T>(cells: seq<seq<T>>, w: nat): (cols: seq<seq<T>>)
    requires forall y :: 0 <= y < |cells| ==> |cells[y]| == w
    ensures |cols| == w
    ensures forall x :: 0 <= x < w ==> cols[x] == Grids.Column(cells, x)
  {
    seq(w, x requires 0 <= x < w => Grids.Column(cells, x))
  }

  /** Column-major values: x outer, y inner. */
  function ColumnMajor<T>(cells: seq<seq<T>>, w: nat): seq<T>
    requires forall y :: 0 <= y < |cells| ==> |cells[y]| == w
  {
    Grids.Flatten(Columns(cells, w))
  }

  lemma ColumnMajorCell<T>(cells: seq<seq<T>>, w: nat, h: nat, x: nat, y: nat)
    requires Grids.Rect(cells, w, h) && x < w && y < h
    ensures |ColumnMajor(cells, w)| == w * h
    ensures x * h + y < |ColumnMajor(cells, w)|
    ensures ColumnMajor(cells, w)[x * h + y] == cells[y][x]
  {
    var cols := Columns(cells, w);
    forall k | 0 <= k < |cols| ensures |cols[k]| == h {
      assert cols[k] == Grids.Column(cells, k);
    }
    Grids.FlattenLength(cols, h);
    Grids.FlattenAt(cols, h, x, y);
    assert cols[x][y] == cells[y][x];
  }

  class Grid<T> {
    var cells: seq<seq<T>>
    var width: nat
    var height: nat

    predicate Valid() reads this { Grids.Rect(cells, width, height) }

    /** `Grid(width, height, zero)`: the same fill as the grid module's. */
    constructor (width: nat, height: nat, zero: T)
      ensures Valid() && this.width == width && this.height == height
      ensures cells == Grids.Fill(width, height, zero)
    {
      this.width := width;
      this.height := height;
      cells := Grids.Fill(width, height, zero);
    }

    predicate InBounds(x: int, y: int) reads this {
      0 <= x < width && 0 <= y < height
    }

    /** `grid[x, y]`. */
    function Get(x: int, y: int): T
      reads this
      requires Valid() && InBounds(x, y)
    {
      cells[y][x]
    }

    /** `grid[x, y] = v`: the same update as the grid module's. */
    method Set(x: int, y: int, v: T)
      requires Valid() && InBounds(x, y)
      modifies this
      ensures Valid() && width == old(width) && height == old(height)
      ensures cells == Grids.Updated(old(cells), x, y, v)
    {
      cells := Grids.Updated(cells, x, y, v);
    }

    /** `grid.row(y)`: the grid's own row list. */
    function Row(y: int): (r: seq<T>)
      reads this
      requires Valid() && 0 <= y < height
      ensures |r| == width && forall x :: 0 <= x < width ==> r[x] == Get(x, y)
    {
      cells[y]
    }

    /** `grid.col(x)`: a fresh list of the column. */
    function Col(x: int): (r: seq<T>)
      reads this
      requires Valid() && 0 <= x < width
      ensures |r| == height && forall y :: 0 <= y < height ==> r[y] == Get(x, y)
    {
      Grids.Column(cells, x)
    }

    /** `grid.all_cells()`: here column-major, x outer and y inner. */
    function AllCells(): (r: seq<T>)
      reads this
      requires Valid()
    {
      ColumnMajor(cells, width)
    }

    /** Cell (x, y) is at position x*height + y of `all_cells`. */
    lemma AllCellsAt(x: nat, y: nat)
      requires Valid() && InBounds(x, y)
      ensures |AllCells()| == width * height
      ensures x * height + y < |AllCells()|
      ensures AllCells()[x * height + y] == Get(x, y)
    {
      ColumnMajorCell(cells, width, height, x, y);
    }
  }

  /**
   * The two `all_cells` orders list the same cells, transposed: the cell the
   * grid module puts at y*w + x is at x*h + y here.
   */
  lemma AllCellsTransposed<T>(cells: seq<seq<T>>, w: nat, h: nat, x: nat, y: nat)
    requires Grids.Rect(cells, w, h) && x < w && y < h
    ensures |ColumnMajor(cells, w)| == |Grids.RowMajor(cells)| == w * h
    ensures x * h + y < w * h && y * w + x < w * h
    ensures ColumnMajor(cells, w)[x * h + y] == Grids.RowMajor(cells)[y * w + x].2
  {
    ColumnMajorCell(cells, w, h, x, y);
    Grids.RowMajorLength(cells, w, h);
    Grids.RowMajorCell(cells, w, h, x, y);
  }

  /** `Grid.from_lines(lines)`: as in the grid module. */
  method FromLines(lines: seq<string>) returns (r: Option<Grid<string>>)
    ensures r.None? <==> Grids.FromLinesFails(lines)
    ensures r.Some? ==> fresh(r.value) && r.value.Valid()
    ensures r.Some? ==> r.value.width == |lines[0]| && r.value.height == |lines|
    ensures r.Some? ==> forall y, x :: 0 <= y < |lines| && 0 <= x < |lines[0]| ==>
      r.value.cells[y][x] == Grids.LineCell(lines, x, y)
  {
    if |lines| == 0 {
      return None;
    }
    var width, height := |lines[0]|, |lines|;
    var g := new Grid<string>(width, height, "");
    var y := 0;
    while y < height
      invariant 0 <= y <= height
      invariant fresh(g) && g.Valid() && g.width == width && g.height == height
      invariant forall j :: 0 <= j < y ==> |lines[j]| <= width
      invariant forall j, i :: 0 <= j < height && 0 <= i < width ==>
        g.cells[j][i] == (if j < y then Grids.LineCell(lines, i, j) else "")
    {
      var line := lines[y];
      var x := 0;
      while x < |line|
        invariant 0 <= x <= |line| && x <= width
        invariant fresh(g) && g.Valid() && g.width == width && g.height == height
        invariant forall j, i :: 0 <= j < height && 0 <= i < width ==> g.cells[j][i] == Grids.Copied(lines, y, x, i, j)
      {
        if x >= width {
          assert |lines[y]| > |lines[0]|;
          return None;
        }
        g.Set(x, y, [line[x]]);
        x := x + 1;
      }
      y := y + 1;
    }
    return Some(g);
  }
}
