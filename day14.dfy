// Day 14 of aoc2022/day14.py: rock walls drawn into a 1000 by 500 grid of
// one-character strings, grains of sand poured in at (500, 0), and the
// floor two rows below the lowest wall for part 2.
module Day14 {
  import opened Wrappers
  import Seqs
  import Text
  import Grids
  import Coords

  type Point = Coords.Coords

  /** `ORIGIN`: where sand enters. */
  const Origin: Point := Coords.Coords(500, 0)

  /** The size of the grid both parts draw into. */
  const Width: nat := 1000
  const Height: nat := 500

  /** A grain still falling when it reaches this row has left the grid. */
  const Bottom: int := 499

  // ---------------------------------------------------------------------
  // Parsing

  /** `parse_line(line)`: the points between " -> " separators, each `x,y`. */
  function ParseLine(line: string): Option<seq<Point>>
  {
    Seqs.MapAll(Text.SplitText(line, " -> "), Coords.Parse)
  }

  /** A line parses exactly when each of its " -> " pieces is a point, and then to those points. */
  lemma ParseLineMeaning(line: string, pieces: seq<string>)
    requires pieces == Text.SplitText(line, " -> ")
    ensures ParseLine(line).Some? <==> forall i :: 0 <= i < |pieces| ==> Coords.Parse(pieces[i]).Some?
    ensures ParseLine(line).Some? ==> |ParseLine(line).value| == |pieces|
    ensures ParseLine(line).Some? ==> forall i :: 0 <= i < |pieces| ==> ParseLine(line).value[i] == Coords.Parse(pieces[i]).value
  {
    Seqs.MapAllMeaning(pieces, Coords.Parse);
  }

  /** `[parse_line(line) for line in lines]`: one bad line fails them all. */
  function ParsePaths(lines: seq<string>): Option<seq<seq<Point>>>
  {
    Seqs.MapAll(lines, ParseLine)
  }

  // ---------------------------------------------------------------------
  // Writing cells

  /** `grid.set_by(c, v)` is `grid[c.x, c.y] = v`, which Python indexes from the end for negative values. */
  predicate Addressable(w: nat, h: nat, c: Point) {
    Seqs.PyIndex(w, c.x).Some? && Seqs.PyIndex(h, c.y).Some?
  }

  predicate AllAddressable(w: nat, h: nat, pts: seq<Point>) {
    forall i :: 0 <= i < |pts| ==> Addressable(w, h, pts[i])
  }

  /** The cells after writing `v` at each of `pts`, in order. */
  function Paint(cells: seq<seq<string>>, w: nat, h: nat, pts: seq<Point>, v: string): (r: seq<seq<string>>)
    requires Grids.Rect(cells, w, h) && AllAddressable(w, h, pts)
    ensures Grids.Rect(r, w, h)
  {
    if |pts| == 0 then cells
    else
      var before := Paint(cells, w, h, pts[..|pts| - 1], v);
      var p := pts[|pts| - 1];
      Grids.Updated(before, Seqs.PyIndex(w, p.x).value, Seqs.PyIndex(h, p.y).value, v)
  }

  /**
   * After painting, a cell holds `v` exactly when some written point
   * addresses it; every other cell is as it was.
   */
  lemma {:induction false} PaintAt(cells: seq<seq<string>>, w: nat, h: nat, pts: seq<Point>, v: string, x: nat, y: nat)
    requires Grids.Rect(cells, w, h) && AllAddressable(w, h, pts) && x < w && y < h
    ensures Paint(cells, w, h, pts, v)[y][x] ==
      if exists i :: 0 <= i < |pts| && Seqs.PyIndex(w, pts[i].x) == Some(x) && Seqs.PyIndex(h, pts[i].y) == Some(y)
      then v else cells[y][x]
  {
    if |pts| > 0 {
      var front := pts[..|pts| - 1];
      PaintAt(cells, w, h, front, v, x, y);
      assert forall i :: 0 <= i < |front| ==> front[i] == pts[i];
    }
  }

  /** Painting a concatenation paints the first part, then the second. */
  lemma {:induction false} PaintAppend(cells: seq<seq<string>>, w: nat, h: nat, a: seq<Point>, b: seq<Point>, v: string)
    requires Grids.Rect(cells, w, h) && AllAddressable(w, h, a) && AllAddressable(w, h, b)
    ensures AllAddressable(w, h, a + b)
    ensures Paint(cells, w, h, a + b, v) == Paint(Paint(cells, w, h, a, v), w, h, b, v)
  {
    assert forall i :: 0 <= i < |a + b| ==> (a + b)[i] == if i < |a| then a[i] else b[i - |a|];
    if |b| > 0 {
      PaintAppend(cells, w, h, a, b[..|b| - 1], v);
      assert (a + b)[..|a + b| - 1] == a + b[..|b| - 1];
    } else {
      assert a + b == a;
    }
  }

  // ---------------------------------------------------------------------
  // Segments

  /** `k` steps of `delta` from `fr`. */
  function Along(fr: Point, delta: Point, k: int): Point {
    Coords.Coords(fr.x + k * delta.x, fr.y + k * delta.y)
  }

  /** The first `n` points of the walk from `fr` in steps of `delta`. */
  function Walk(fr: Point, delta: Point, n: nat): (r: seq<Point>)
    ensures |r| == n && forall k :: 0 <= k < n ==> r[k] == Along(fr, delta, k)
  {
    seq(n, k => Along(fr, delta, k))
  }

  /** The unit step `build_paths` takes from `fr` towards `to`. */
  function Direction(fr: Point, to: Point): Point {
    Coords.RectNormalize(Coords.Sub(to, fr))
  }

  /** Horizontal, vertical, or at 45 degrees: the segments whose walk reaches their end. */
  predicate Aligned(fr: Point, to: Point) {
    fr.x == to.x || fr.y == to.y || Coords.AbsInt(to.x - fr.x) == Coords.AbsInt(to.y - fr.y)
  }

  /** The points of a segment, both ends included. */
  function SegmentPoints(fr: Point, to: Point): seq<Point>
  {
    Walk(fr, Direction(fr, to), Coords.RectDistance(fr, to) + 1)
  }

  /** One coordinate of the walk: `k` unit steps towards a difference of `d` land on it exactly when `k == |d|` (or d is 0). */
  lemma StepsReach(d: int, k: nat)
    ensures k * Coords.Sign(d) == d <==> (d == 0 || k == Coords.AbsInt(d))
  {
    if d > 0 {
      assert k * Coords.Sign(d) == k;
    } else if d < 0 {
      assert k * Coords.Sign(d) == -(k as int);
    }
  }

  /**
   * The walk from `fr` towards a different `to` reaches it only when the
   * segment is aligned, and then after `RectDistance(fr, to)` steps.
   */
  lemma WalkReaches(fr: Point, to: Point, k: nat)
    ensures Aligned(fr, to) && k == Coords.RectDistance(fr, to) ==> Along(fr, Direction(fr, to), k) == to
    ensures fr != to && Along(fr, Direction(fr, to), k) == to ==> Aligned(fr, to) && k == Coords.RectDistance(fr, to)
  {
    var d := Coords.Sub(to, fr);
    StepsReach(d.x, k);
    StepsReach(d.y, k);
  }

  /** A segment starts at `fr` and ends at `to` exactly when it is aligned. */
  lemma SegmentEnds(fr: Point, to: Point)
    ensures SegmentPoints(fr, to)[0] == fr
    ensures SegmentPoints(fr, to)[Coords.RectDistance(fr, to)] == to <==> Aligned(fr, to)
  {
    WalkReaches(fr, to, Coords.RectDistance(fr, to));
  }

  /** A horizontal segment covers exactly the cells of its row between its ends. */
  lemma HorizontalSegment(fr: Point, to: Point, p: Point)
    requires fr.y == to.y
    ensures p in SegmentPoints(fr, to) <==>
      (p.y == fr.y && Seqs.Min(fr.x, to.x) <= p.x <= Seqs.Max(fr.x, to.x))
  {
    var pts := SegmentPoints(fr, to);
    if p.y == fr.y && Seqs.Min(fr.x, to.x) <= p.x <= Seqs.Max(fr.x, to.x) {
      var k := Coords.AbsInt(p.x - fr.x);
      assert pts[k] == p;
    }
  }

  /** A vertical segment covers exactly the cells of its column between its ends. */
  lemma VerticalSegment(fr: Point, to: Point, p: Point)
    requires fr.x == to.x
    ensures p in SegmentPoints(fr, to) <==>
      (p.x == fr.x && Seqs.Min(fr.y, to.y) <= p.y <= Seqs.Max(fr.y, to.y))
  {
    var pts := SegmentPoints(fr, to);
    if p.x == fr.x && Seqs.Min(fr.y, to.y) <= p.y <= Seqs.Max(fr.y, to.y) {
      var k := Coords.AbsInt(p.y - fr.y);
      assert pts[k] == p;
    }
  }

  /** A segment `build_paths` can draw: aligned, with every point inside the grid's index range. */
  predicate SegmentOk(w: nat, h: nat, fr: Point, to: Point) {
    Aligned(fr, to) && AllAddressable(w, h, SegmentPoints(fr, to))
  }

  /** How many more unit steps along `delta` stay inside Python's index range. */
  function Remaining(w: nat, h: nat, c: Point, delta: Point): int {
    if delta.x > 0 then w - c.x
    else if delta.x < 0 then c.x + w
    else if delta.y > 0 then h - c.y
    else c.y + h
  }

  /** Before `to` is reached, the step is a non-zero unit step and an aligned walk is not yet past its end. */
  lemma StepFacts(fr: Point, to: Point, k: nat)
    requires k >= 1 && Along(fr, Direction(fr, to), k - 1) != to
    requires Aligned(fr, to) ==> k - 1 <= Coords.RectDistance(fr, to)
    ensures Direction(fr, to) != Coords.Coords(0, 0)
    ensures -1 <= Direction(fr, to).x <= 1 && -1 <= Direction(fr, to).y <= 1
    ensures Aligned(fr, to) ==> k <= Coords.RectDistance(fr, to)
    ensures Along(fr, Direction(fr, to), k) == Coords.Add(Along(fr, Direction(fr, to), k - 1), Direction(fr, to))
  {
    WalkReaches(fr, to, k - 1);
  }

  /** A walk that leaves the index range before its end means the segment cannot be drawn. */
  lemma OffGridFails(w: nat, h: nat, fr: Point, to: Point, k: nat)
    requires Aligned(fr, to) ==> k <= Coords.RectDistance(fr, to)
    requires !Addressable(w, h, Along(fr, Direction(fr, to), k))
    ensures !SegmentOk(w, h, fr, to)
  {
    if Aligned(fr, to) {
      assert SegmentPoints(fr, to)[k] == Along(fr, Direction(fr, to), k);
    }
  }

  /** A unit step from an addressable cell uses up one unit of the remaining range. */
  lemma RemainingShrinks(w: nat, h: nat, c: Point, delta: Point)
    requires Addressable(w, h, c) && delta != Coords.Coords(0, 0)
    requires -1 <= delta.x <= 1 && -1 <= delta.y <= 1
    ensures 0 <= Remaining(w, h, c, delta)
    ensures Remaining(w, h, Coords.Add(c, delta), delta) < Remaining(w, h, c, delta)
  {
  }

  /** When the walk stands on `to`, the segment was aligned and every one of its points has been visited. */
  lemma ExitFacts(fr: Point, to: Point, k: nat)
    requires k >= 1 && Along(fr, Direction(fr, to), k - 1) == to
    requires fr == to ==> k == 1
    ensures Aligned(fr, to) && Walk(fr, Direction(fr, to), k) == SegmentPoints(fr, to)
  {
    WalkReaches(fr, to, k - 1);
  }

  /** Painting one more point of a walk is one more cell write. */
  lemma PaintStep(start: seq<seq<string>>, w: nat, h: nat, fr: Point, delta: Point, k: nat, v: string)
    requires Grids.Rect(start, w, h) && AllAddressable(w, h, Walk(fr, delta, k))
    requires Addressable(w, h, Along(fr, delta, k))
    ensures AllAddressable(w, h, Walk(fr, delta, k + 1))
    ensures Paint(start, w, h, Walk(fr, delta, k + 1), v) ==
      Grids.Updated(Paint(start, w, h, Walk(fr, delta, k), v),
        Seqs.PyIndex(w, Along(fr, delta, k).x).value, Seqs.PyIndex(h, Along(fr, delta, k).y).value, v)
  {
    assert Walk(fr, delta, k + 1)[..k] == Walk(fr, delta, k);
  }

  /**
   * One segment of `build_paths`: mark `fr`, then step towards `to`,
   * marking each cell, until `to` is marked.  A segment that is not aligned
   * steps past `to` and walks on until a write falls outside the grid's
   * index range and raises.
   */
  method DrawSegment(grid: Grids.Grid<string>, fr: Point, to: Point) returns (ok: bool)
    requires grid.Valid()
    modifies grid
    ensures grid.Valid() && grid.width == old(grid.width) && grid.height == old(grid.height)
    ensures ok <==> SegmentOk(grid.width, grid.height, fr, to)
    ensures ok ==> grid.cells == Paint(old(grid.cells), grid.width, grid.height, SegmentPoints(fr, to), "#")
  {
    var w, h := grid.width, grid.height;
    ghost var start := grid.cells;
    var delta := Direction(fr, to);
    var cur := fr;
    if !Addressable(w, h, cur) {
      assert SegmentPoints(fr, to)[0] == fr;
      return false;
    }
    grid.Set(Seqs.PyIndex(w, cur.x).value, Seqs.PyIndex(h, cur.y).value, "#");
    ghost var k: nat := 1;
    assert Walk(fr, delta, 1) == [fr];
    while cur != to
      invariant grid.Valid() && grid.width == w && grid.height == h
      invariant k >= 1 && cur == Along(fr, delta, k - 1)
      invariant Addressable(w, h, cur)
      invariant AllAddressable(w, h, Walk(fr, delta, k))
      invariant grid.cells == Paint(start, w, h, Walk(fr, delta, k), "#")
      invariant Aligned(fr, to) ==> k - 1 <= Coords.RectDistance(fr, to)
      invariant fr == to ==> k == 1
      decreases Remaining(w, h, cur, delta)
    {
      StepFacts(fr, to, k);
      RemainingShrinks(w, h, cur, delta);
      cur := Coords.Add(cur, delta);
      if !Addressable(w, h, cur) {
        OffGridFails(w, h, fr, to, k);
        return false;
      }
      PaintStep(start, w, h, fr, delta, k, "#");
      grid.Set(Seqs.PyIndex(w, cur.x).value, Seqs.PyIndex(h, cur.y).value, "#");
      k := k + 1;
    }
    ExitFacts(fr, to, k);
    return true;
  }

  // ---------------------------------------------------------------------
  // Walls

  /** `zip(path, path[1:])`: each point with the next one. */
  function Pairs(path: seq<Point>): (r: seq<(Point, Point)>)
    ensures |path| == 0 ==> |r| == 0
    ensures |path| > 0 ==> |r| == |path| - 1
    ensures forall i :: 0 <= i < |r| ==> r[i] == (path[i], path[i + 1])
  {
    if |path| == 0 then [] else seq(|path| - 1, i requires 0 <= i < |path| - 1 => (path[i], path[i + 1]))
  }

  /** Every segment of every path, in the order `build_paths` draws them. */
  function Segments(paths: seq<seq<Point>>): seq<(Point, Point)>
  {
    if |paths| == 0 then [] else Segments(paths[..|paths| - 1]) + Pairs(paths[|paths| - 1])
  }

  predicate AllSegmentsOk(w: nat, h: nat, segs: seq<(Point, Point)>) {
    forall i :: 0 <= i < |segs| ==> SegmentOk(w, h, segs[i].0, segs[i].1)
  }

  /** The points written for `segs`, segment after segment. */
  function WallPoints(segs: seq<(Point, Point)>): seq<Point>
  {
    if |segs| == 0 then [] else WallPoints(segs[..|segs| - 1]) + SegmentPoints(segs[|segs| - 1].0, segs[|segs| - 1].1)
  }

  /** The cells after drawing every segment of `segs` in order. */
  function DrawAll(cells: seq<seq<string>>, w: nat, h: nat, segs: seq<(Point, Point)>): (r: seq<seq<string>>)
    requires Grids.Rect(cells, w, h) && AllSegmentsOk(w, h, segs)
    ensures Grids.Rect(r, w, h)
  {
    if |segs| == 0 then cells
    else
      var last := segs[|segs| - 1];
      Paint(DrawAll(cells, w, h, segs[..|segs| - 1]), w, h, SegmentPoints(last.0, last.1), "#")
  }

  /** Drawing the segments one by one is painting all their points in one go. */
  lemma {:induction false} DrawAllPaints(cells: seq<seq<string>>, w: nat, h: nat, segs: seq<(Point, Point)>)
    requires Grids.Rect(cells, w, h) && AllSegmentsOk(w, h, segs)
    ensures AllAddressable(w, h, WallPoints(segs))
    ensures DrawAll(cells, w, h, segs) == Paint(cells, w, h, WallPoints(segs), "#")
  {
    if |segs| > 0 {
      var front, last := segs[..|segs| - 1], segs[|segs| - 1];
      DrawAllPaints(cells, w, h, front);
      PaintAppend(cells, w, h, WallPoints(front), SegmentPoints(last.0, last.1), "#");
    }
  }

  /** A point lies on the walls exactly when it lies on one of the segments. */
  lemma {:induction false} WallPointsMember(segs: seq<(Point, Point)>, p: Point)
    ensures p in WallPoints(segs) <==> exists i :: 0 <= i < |segs| && p in SegmentPoints(segs[i].0, segs[i].1)
  {
    if |segs| > 0 {
      var front := segs[..|segs| - 1];
      WallPointsMember(front, p);
      assert forall i :: 0 <= i < |front| ==> front[i] == segs[i];
    }
  }

  /** The cells `build_paths` leaves: "+" at the origin, then every segment drawn with "#". */
  function Walls(cells: seq<seq<string>>, w: nat, h: nat, paths: seq<seq<Point>>): (r: seq<seq<string>>)
    requires Grids.Rect(cells, w, h) && Addressable(w, h, Origin) && AllSegmentsOk(w, h, Segments(paths))
    ensures Grids.Rect(r, w, h)
  {
    DrawAll(Paint(cells, w, h, [Origin], "+"), w, h, Segments(paths))
  }

  /**
   * After `build_paths` a cell is "#" when some segment point addresses it,
   * otherwise "+" when it is the origin's, otherwise untouched.
   */
  lemma WallsAt(cells: seq<seq<string>>, w: nat, h: nat, paths: seq<seq<Point>>, x: nat, y: nat)
    requires Grids.Rect(cells, w, h) && Addressable(w, h, Origin) && AllSegmentsOk(w, h, Segments(paths))
    requires x < w && y < h
    ensures Walls(cells, w, h, paths)[y][x] ==
      if exists p :: p in WallPoints(Segments(paths)) && Seqs.PyIndex(w, p.x) == Some(x) && Seqs.PyIndex(h, p.y) == Some(y) then "#"
      else if Seqs.PyIndex(w, Origin.x) == Some(x) && Seqs.PyIndex(h, Origin.y) == Some(y) then "+"
      else cells[y][x]
  {
    var segs := Segments(paths);
    var marked := Paint(cells, w, h, [Origin], "+");
    DrawAllPaints(marked, w, h, segs);
    PaintAt(marked, w, h, WallPoints(segs), "#", x, y);
    PaintAt(cells, w, h, [Origin], "+", x, y);
    var pts := WallPoints(segs);
    if exists p :: p in pts && Seqs.PyIndex(w, p.x) == Some(x) && Seqs.PyIndex(h, p.y) == Some(y) {
      var p :| p in pts && Seqs.PyIndex(w, p.x) == Some(x) && Seqs.PyIndex(h, p.y) == Some(y);
      var i :| 0 <= i < |pts| && pts[i] == p;
    }
  }

  /** Drawing the walls of `paths` one segment at a time: the segments of the earlier paths, then the first `i` of this one. */
  lemma SegmentsStep(paths: seq<seq<Point>>, p: nat, i: nat)
    requires p < |paths| && i < |Pairs(paths[p])|
    ensures Segments(paths[..p]) + Pairs(paths[p])[..i] + [(paths[p][i], paths[p][i + 1])]
      == Segments(paths[..p]) + Pairs(paths[p])[..i + 1]
  {
  }

  lemma SegmentsNext(paths: seq<seq<Point>>, p: nat)
    requires p < |paths|
    ensures Segments(paths[..p + 1]) == Segments(paths[..p]) + Pairs(paths[p])[..|Pairs(paths[p])|]
  {
    assert paths[..p + 1][..p] == paths[..p];
  }

  /** Drawing one more segment after the ones already drawn. */
  lemma DrawAllSnoc(cells: seq<seq<string>>, w: nat, h: nat, segs: seq<(Point, Point)>, seg: (Point, Point))
    requires Grids.Rect(cells, w, h) && AllSegmentsOk(w, h, segs) && SegmentOk(w, h, seg.0, seg.1)
    ensures AllSegmentsOk(w, h, segs + [seg])
    ensures DrawAll(cells, w, h, segs + [seg]) == Paint(DrawAll(cells, w, h, segs), w, h, SegmentPoints(seg.0, seg.1), "#")
  {
    assert (segs + [seg])[..|segs|] == segs;
  }

  /**
   * `build_paths(grid, paths)`: mark the origin with "+", then draw every
   * segment of every path.  It fails when a write falls outside the
   * grid's index range, which happens for the first segment that is not
   * aligned or leaves the grid.
   */
  method BuildPaths(grid: Grids.Grid<string>, paths: seq<seq<Point>>) returns (ok: bool)
    requires grid.Valid()
    modifies grid
    ensures grid.Valid() && grid.width == old(grid.width) && grid.height == old(grid.height)
    ensures ok <==> Addressable(grid.width, grid.height, Origin) && AllSegmentsOk(grid.width, grid.height, Segments(paths))
    ensures ok ==> grid.cells == Walls(old(grid.cells), grid.width, grid.height, paths)
  {
    var w, h := grid.width, grid.height;
    ghost var start := grid.cells;
    if !Addressable(w, h, Origin) {
      return false;
    }
    grid.Set(Seqs.PyIndex(w, Origin.x).value, Seqs.PyIndex(h, Origin.y).value, "+");
    ghost var marked := grid.cells;
    assert marked == Paint(start, w, h, [Origin], "+") by {
      assert [Origin][..0] == [];
    }
    var p := 0;
    while p < |paths|
      invariant 0 <= p <= |paths|
      invariant grid.Valid() && grid.width == w && grid.height == h
      invariant AllSegmentsOk(w, h, Segments(paths[..p]))
      invariant grid.cells == DrawAll(marked, w, h, Segments(paths[..p]))
    {
      var path := paths[p];
      ghost var pairs := Pairs(path);
      var i := 0;
      assert Segments(paths[..p]) + pairs[..0] == Segments(paths[..p]);
      while i + 1 < |path|
        invariant 0 <= i <= |pairs| && (|path| > 0 ==> i < |path|)
        invariant grid.Valid() && grid.width == w && grid.height == h
        invariant AllSegmentsOk(w, h, Segments(paths[..p]) + pairs[..i])
        invariant grid.cells == DrawAll(marked, w, h, Segments(paths[..p]) + pairs[..i])
      {
        ghost var done := Segments(paths[..p]) + pairs[..i];
        var seg := (path[i], path[i + 1]);
        var drawn := DrawSegment(grid, path[i], path[i + 1]);
        SegmentsStep(paths, p, i);
        if !drawn {
          SegmentFails(w, h, paths, p, i);
          return false;
        }
        DrawAllSnoc(marked, w, h, done, seg);
        i := i + 1;
      }
      SegmentsNext(paths, p);
      assert pairs[..|pairs|] == pairs[..i];
      p := p + 1;
    }
    assert paths[..p] == paths;
    return true;
  }

  /** Each consecutive pair of points of a path is one of the segments. */
  lemma {:induction false} SegmentIn(paths: seq<seq<Point>>, p: nat, i: nat)
    requires p < |paths| && i + 1 < |paths[p]|
    ensures (paths[p][i], paths[p][i + 1]) in Segments(paths)
  {
    var front := paths[..|paths| - 1];
    if p < |paths| - 1 {
      SegmentIn(front, p, i);
    } else {
      assert Pairs(paths[p])[i] == (paths[p][i], paths[p][i + 1]);
    }
  }

  /** One segment that cannot be drawn spoils the whole set of walls. */
  lemma SegmentFails(w: nat, h: nat, paths: seq<seq<Point>>, p: nat, i: nat)
    requires p < |paths| && i + 1 < |paths[p]|
    requires !SegmentOk(w, h, paths[p][i], paths[p][i + 1])
    ensures !AllSegmentsOk(w, h, Segments(paths))
  {
    SegmentIn(paths, p, i);
  }

  /** The segments of the first `p` paths come first among all segments. */
  lemma {:induction false} SegmentsPrefix(paths: seq<seq<Point>>, p: nat)
    requires p <= |paths|
    ensures forall j :: 0 <= j < |Segments(paths[..p])| ==> j < |Segments(paths)| && Segments(paths)[j] == Segments(paths[..p])[j]
  {
    if p < |paths| {
      SegmentsPrefix(paths[..|paths| - 1], p);
      assert paths[..|paths| - 1][..p] == paths[..p];
    } else {
      assert paths[..p] == paths;
    }
  }

  // ---------------------------------------------------------------------
  // Falling sand

  /**
   * A grain can only move one row down and at most one column sideways
   * per step, so it stays in the cone below the origin; every cell it
   * looks at is then inside the 1000 by 500 grid.
   */
  predicate InCone(s: Point) {
    0 <= s.y <= Bottom && Origin.x - s.y <= s.x <= Origin.x + s.y
  }

  predicate Sized(cells: seq<seq<string>>) { Grids.Rect(cells, Width, Height) }

  /** Where a grain at `s` comes to rest, or `None` when it reaches the last row first. */
  function Fall(cells: seq<seq<string>>, s: Point): (r: Option<Point>)
    requires Sized(cells) && InCone(s)
    ensures r.Some? ==> InCone(r.value) && r.value.y < Bottom
    decreases Bottom - s.y
  {
    if s.y >= Bottom then None
    else if cells[s.y + 1][s.x] == "." then Fall(cells, Coords.Coords(s.x, s.y + 1))
    else if cells[s.y + 1][s.x - 1] == "." then Fall(cells, Coords.Coords(s.x - 1, s.y + 1))
    else if cells[s.y + 1][s.x + 1] == "." then Fall(cells, Coords.Coords(s.x + 1, s.y + 1))
    else Some(s)
  }

  /**
   * A grain rests on a cell above the last row, inside the cone, with
   * none of the three cells below it free; it got there by moving into
   * free cells, so it rests where it started or on a free cell.
   */
  lemma {:induction false} FallMeaning(cells: seq<seq<string>>, s: Point)
    requires Sized(cells) && InCone(s) && Fall(cells, s).Some?
    ensures Fall(cells, s).value.y >= s.y
    ensures var r := Fall(cells, s).value;
      cells[r.y + 1][r.x] != "." && cells[r.y + 1][r.x - 1] != "." && cells[r.y + 1][r.x + 1] != "."
    ensures Fall(cells, s).value == s || cells[Fall(cells, s).value.y][Fall(cells, s).value.x] == "."
    decreases Bottom - s.y
  {
    if s.y < Bottom {
      if cells[s.y + 1][s.x] == "." {
        FallMeaning(cells, Coords.Coords(s.x, s.y + 1));
      } else if cells[s.y + 1][s.x - 1] == "." {
        FallMeaning(cells, Coords.Coords(s.x - 1, s.y + 1));
      } else if cells[s.y + 1][s.x + 1] == "." {
        FallMeaning(cells, Coords.Coords(s.x + 1, s.y + 1));
      }
    }
  }

  /** A row of walls below the grain, no lower than the last row, always stops it. */
  lemma {:induction false} FloorCatches(cells: seq<seq<string>>, s: Point, floor: nat)
    requires Sized(cells) && InCone(s) && s.y < floor <= Bottom
    requires forall x :: 0 <= x < Width ==> cells[floor][x] == "#"
    ensures Fall(cells, s).Some?
    decreases Bottom - s.y
  {
    if s.y + 1 < floor {
      if cells[s.y + 1][s.x] == "." {
        FloorCatches(cells, Coords.Coords(s.x, s.y + 1), floor);
      } else if cells[s.y + 1][s.x - 1] == "." {
        FloorCatches(cells, Coords.Coords(s.x - 1, s.y + 1), floor);
      } else if cells[s.y + 1][s.x + 1] == "." {
        FloorCatches(cells, Coords.Coords(s.x + 1, s.y + 1), floor);
      }
    }
  }

  /**
   * `simulate_snowflake(grid, _)`: drop a grain from the origin; when it
   * comes to rest, mark its cell "o" and report true, and when it reaches
   * the last row, report false and leave the grid alone.
   */
  method SimulateSnowflake(grid: Grids.Grid<string>) returns (rested: bool)
    requires grid.Valid() && grid.width == Width && grid.height == Height
    modifies grid
    ensures grid.Valid() && grid.width == Width && grid.height == Height
    ensures rested <==> Fall(old(grid.cells), Origin).Some?
    ensures rested ==> grid.cells == Settle(old(grid.cells))
    ensures !rested ==> grid.cells == old(grid.cells)
  {
    var snowflake := Origin;
    while snowflake.y < Bottom
      invariant InCone(snowflake)
      invariant Fall(grid.cells, snowflake) == Fall(grid.cells, Origin)
      decreases Bottom - snowflake.y
    {
      var test := Coords.Add(snowflake, Coords.Coords(0, 1));
      if grid.Get(test.x, test.y) == "." {
        snowflake := test;
        continue;
      }
      test := Coords.Add(snowflake, Coords.Coords(-1, 1));
      if grid.Get(test.x, test.y) == "." {
        snowflake := test;
        continue;
      }
      test := Coords.Add(snowflake, Coords.Coords(1, 1));
      if grid.Get(test.x, test.y) == "." {
        snowflake := test;
        continue;
      }
      grid.Set(snowflake.x, snowflake.y, "o");
      return true;
    }
    return false;
  }

  // ---------------------------------------------------------------------
  // Counting free cells

  /** How many cells of `row` hold `v`. */
  function RowCount(row: seq<string>, v: string): nat
  {
    if |row| == 0 then 0 else RowCount(row[..|row| - 1], v) + (if row[|row| - 1] == v then 1 else 0)
  }

  /** How many cells of the grid hold `v`. */
  function GridCount(cells: seq<seq<string>>, v: string): nat
  {
    if |cells| == 0 then 0 else GridCount(cells[..|cells| - 1], v) + RowCount(cells[|cells| - 1], v)
  }

  /** Overwriting one cell of a row changes its count by what left and what arrived. */
  lemma {:induction false} RowCountUpdate(row: seq<string>, i: nat, u: string, v: string)
    requires i < |row|
    ensures RowCount(row[i := u], v) + (if row[i] == v then 1 else 0) == RowCount(row, v) + (if u == v then 1 else 0)
  {
    var n := |row|;
    if i < n - 1 {
      RowCountUpdate(row[..n - 1], i, u, v);
      assert row[i := u][..n - 1] == row[..n - 1][i := u];
    } else {
      assert row[i := u][..n - 1] == row[..n - 1];
    }
  }

  /** Replacing one row changes the grid's count by the difference of the two rows' counts. */
  lemma {:induction false} GridCountUpdate(cells: seq<seq<string>>, j: nat, row: seq<string>, v: string)
    requires j < |cells|
    ensures GridCount(cells[j := row], v) + RowCount(cells[j], v) == GridCount(cells, v) + RowCount(row, v)
  {
    var n := |cells|;
    if j < n - 1 {
      GridCountUpdate(cells[..n - 1], j, row, v);
      assert cells[j := row][..n - 1] == cells[..n - 1][j := row];
    } else {
      assert cells[j := row][..n - 1] == cells[..n - 1];
    }
  }

  /** Writing `u` over one cell changes the grid's count of `v` by what left and what arrived. */
  lemma CountUpdated(cells: seq<seq<string>>, x: nat, y: nat, u: string, v: string)
    requires y < |cells| && x < |cells[y]|
    ensures GridCount(Grids.Updated(cells, x, y, u), v) + (if cells[y][x] == v then 1 else 0)
      == GridCount(cells, v) + (if u == v then 1 else 0)
  {
    RowCountUpdate(cells[y], x, u, v);
    GridCountUpdate(cells, y, cells[y][x := u], v);
  }

  /** The origin's cell. */
  function OriginCell(cells: seq<seq<string>>): string
    requires Sized(cells)
  {
    cells[Origin.y][Origin.x]
  }

  /** Free cells, plus one while the origin is not yet sand: every grain that comes to rest uses one up. */
  function Room(cells: seq<seq<string>>): nat
    requires Sized(cells)
  {
    GridCount(cells, ".") + (if OriginCell(cells) == "o" then 0 else 1)
  }

  /** The cells once the grain from the origin has come to rest and been marked "o". */
  function Settle(cells: seq<seq<string>>): (r: seq<seq<string>>)
    requires Sized(cells) && Fall(cells, Origin).Some?
    ensures Sized(r)
  {
    var rest := Fall(cells, Origin).value;
    Grids.Updated(cells, rest.x, rest.y, "o")
  }

  /** A grain that rests anywhere but on sand leaves less room. */
  lemma RestShrinks(cells: seq<seq<string>>)
    requires Sized(cells) && Fall(cells, Origin).Some?
    requires var r := Fall(cells, Origin).value; cells[r.y][r.x] != "o"
    ensures Room(Settle(cells)) < Room(cells)
  {
    var r := Fall(cells, Origin).value;
    FallMeaning(cells, Origin);
    CountUpdated(cells, r.x, r.y, "o", ".");
  }

  /**
   * The origin already holds sand and none of the three cells below it is
   * free: the next grain rests on the origin and changes nothing.
   */
  predicate Stuck(cells: seq<seq<string>>)
    requires Sized(cells)
  {
    OriginCell(cells) == "o" && cells[1][Origin.x] != "." && cells[1][Origin.x - 1] != "." && cells[1][Origin.x + 1] != "."
  }

  /** A grain comes to rest on sand exactly when the origin is stuck. */
  lemma StuckMeaning(cells: seq<seq<string>>)
    requires Sized(cells)
    ensures Stuck(cells) <==> Fall(cells, Origin).Some? && cells[Fall(cells, Origin).value.y][Fall(cells, Origin).value.x] == "o"
  {
    var f := Fall(cells, Origin);
    if Stuck(cells) {
      assert f == Some(Origin);
    } else if f.Some? {
      FallMeaning(cells, Origin);
      if f.value == Origin {
        assert OriginCell(cells) != "o";
      }
    }
  }

  /** `n` more, or still `None`. */
  function Plus(n: Option<nat>, k: nat): (r: Option<nat>)
    ensures r.Some? <==> n.Some?
    ensures r.Some? ==> r.value == n.value + k
  {
    if n.None? then None else Some(n.value + k)
  }

  /** One more, then `k` more, is `k + 1` more. */
  lemma PlusOne(n: Option<nat>, k: nat)
    ensures Plus(Plus(n, 1), k) == Plus(n, k + 1)
  {
  }

  // ---------------------------------------------------------------------
  // Part 1: sand until a grain falls into the abyss

  /**
   * How many grains come to rest before the first one falls past the last
   * row.  `None` when a grain rests on the origin while it already holds
   * sand: from then on nothing changes and `solve_p1` never stops.
   */
  function Pour(cells: seq<seq<string>>): (r: Option<nat>)
    requires Sized(cells)
    decreases Room(cells)
  {
    match Fall(cells, Origin)
    case None => Some(0)
    case Some(rest) =>
      if cells[rest.y][rest.x] == "o" then None
      else
        RestShrinks(cells);
        Plus(Pour(Settle(cells)), 1)
  }

  /** One grain of `Pour`: none when it falls out, stuck for ever, or one more than after it rests. */
  lemma PourStep(cells: seq<seq<string>>)
    requires Sized(cells)
    ensures Fall(cells, Origin).None? ==> Pour(cells) == Some(0)
    ensures Stuck(cells) ==> Pour(cells).None?
    ensures Fall(cells, Origin).Some? && !Stuck(cells) ==>
      Room(Settle(cells)) < Room(cells) && Pour(cells) == Plus(Pour(Settle(cells)), 1)
  {
    StuckMeaning(cells);
    if Fall(cells, Origin).Some? && !Stuck(cells) {
      RestShrinks(cells);
    }
  }

  /** No more grains come to rest than there is room for. */
  lemma {:induction false} PourBound(cells: seq<seq<string>>)
    requires Sized(cells) && Pour(cells).Some?
    ensures Pour(cells).value <= Room(cells)
    decreases Room(cells)
  {
    PourStep(cells);
    if Fall(cells, Origin).Some? {
      PourBound(Settle(cells));
    }
  }

  /**
   * The loop of `solve_p1`: drop grains until one falls out, counting the
   * one that fell out too, and report the count less one.  A stuck origin
   * would repeat the same grain for ever; that is reported as `None`.
   */
  method PourIntoAbyss(grid: Grids.Grid<string>) returns (grains: Option<nat>)
    requires grid.Valid() && grid.width == Width && grid.height == Height
    modifies grid
    ensures grid.Valid() && grid.width == Width && grid.height == Height
    ensures grains == Pour(old(grid.cells))
  {
    ghost var start := grid.cells;
    var count: nat := 0;
    while true
      invariant grid.Valid() && grid.width == Width && grid.height == Height
      invariant Pour(start) == Plus(Pour(grid.cells), count)
      decreases Room(grid.cells)
    {
      ghost var before := grid.cells;
      PourStep(before);
      if grid.Get(Origin.x, Origin.y) == "o" && grid.Get(Origin.x, 1) != "."
        && grid.Get(Origin.x - 1, 1) != "." && grid.Get(Origin.x + 1, 1) != "."
      {
        assert Stuck(before);
        return None;
      }
      var rested := SimulateSnowflake(grid);
      if !rested {
        // `snowflake_count` has counted the grain that fell out; one less is reported.
        return Some(count);
      }
      PlusOne(Pour(grid.cells), count);
      count := count + 1;
    }
  }

  // ---------------------------------------------------------------------
  // Part 2: a floor, and sand until the origin is covered

  /** The last row holding a "#", or 0 when there is none. */
  function LastWallRow(cells: seq<seq<string>>): (r: nat)
    ensures |cells| == 0 ==> r == 0
    ensures |cells| > 0 ==> r < |cells|
  {
    if |cells| == 0 then 0
    else if "#" in cells[|cells| - 1] then |cells| - 1
    else LastWallRow(cells[..|cells| - 1])
  }

  /** `LastWallRow` holds a "#" (unless it is the fallback 0) and no later row does. */
  lemma {:induction false} LastWallRowMeaning(cells: seq<seq<string>>)
    ensures LastWallRow(cells) > 0 ==> "#" in cells[LastWallRow(cells)]
    ensures forall y :: LastWallRow(cells) < y < |cells| ==> "#" !in cells[y]
  {
    if |cells| > 0 && "#" !in cells[|cells| - 1] {
      LastWallRowMeaning(cells[..|cells| - 1]);
    }
  }

  /** A row of `n` walls. */
  function WallRow(n: nat): (r: seq<string>)
    ensures |r| == n && forall x :: 0 <= x < n ==> r[x] == "#"
  {
    seq(n, _ => "#")
  }

  /** The floor `build_floor` lays, two rows below the last wall. */
  function FloorRow(cells: seq<seq<string>>): nat
  {
    LastWallRow(cells) + 2
  }

  /** The first loop of `build_floor`: the last row holding a "#", or 0. */
  method FindLastWallRow(grid: Grids.Grid<string>) returns (maxY: nat)
    requires grid.Valid()
    ensures maxY == LastWallRow(grid.cells)
    ensures maxY > 0 ==> "#" in grid.cells[maxY]
    ensures forall y :: maxY < y < grid.height ==> "#" !in grid.cells[y]
  {
    maxY := 0;
    var y := 0;
    while y < grid.height
      invariant 0 <= y <= grid.height
      invariant maxY == LastWallRow(grid.cells[..y])
    {
      assert grid.cells[..y + 1][..y] == grid.cells[..y];
      if "#" in grid.Row(y) {
        maxY := y;
      }
      y := y + 1;
    }
    assert grid.cells[..y] == grid.cells;
    LastWallRowMeaning(grid.cells);
  }

  /** The second loop of `build_floor`: every cell of row `y` becomes a wall. */
  method FillRow(grid: Grids.Grid<string>, y: nat)
    requires grid.Valid() && y < grid.height
    modifies grid
    ensures grid.Valid() && grid.width == old(grid.width) && grid.height == old(grid.height)
    ensures grid.cells == old(grid.cells)[y := WallRow(grid.width)]
  {
    ghost var start := grid.cells;
    var x := 0;
    WallRowStart(start[y]);
    while x < grid.width
      invariant 0 <= x <= grid.width
      invariant grid.Valid() && grid.width == old(grid.width) && grid.height == old(grid.height)
      invariant grid.cells == start[y := grid.cells[y]]
      invariant grid.cells[y] == WallRow(x) + start[y][x..]
    {
      ghost var before := grid.cells;
      WallRowStep(start[y], x);
      grid.SetInRow(y, x, "#");
      assert grid.cells[y] == before[y][x := "#"];
      x := x + 1;
    }
    assert start[y][x..] == [];
    assert grid.cells[y] == WallRow(grid.width);
  }

  lemma WallRowStart(row: seq<string>)
    ensures WallRow(0) + row[0..] == row
  {
  }

  /** Walling one more cell of a partly walled row. */
  lemma WallRowStep(row: seq<string>, x: nat)
    requires x < |row|
    ensures (WallRow(x) + row[x..])[x := "#"] == WallRow(x + 1) + row[x + 1..]
  {
  }

  /**
   * `build_floor(grid)`: find the last row with a wall, then turn the row
   * two below it into walls.  That row lies past the grid's end when the
   * walls reach the last two rows, and the lookup fails.
   */
  method BuildFloor(grid: Grids.Grid<string>) returns (ok: bool)
    requires grid.Valid()
    modifies grid
    ensures grid.Valid() && grid.width == old(grid.width) && grid.height == old(grid.height)
    ensures ok <==> FloorRow(old(grid.cells)) < grid.height
    ensures ok ==> grid.cells == old(grid.cells)[FloorRow(old(grid.cells)) := WallRow(grid.width)]
    ensures !ok ==> grid.cells == old(grid.cells)
  {
    var maxY := FindLastWallRow(grid);
    maxY := maxY + 2;
    if maxY >= grid.height {
      return false;
    }
    FillRow(grid, maxY);
    return true;
  }

  /**
   * How many grains it takes until one rests on the origin.  `None` when a
   * grain falls past the last row first: the grid does not change again
   * and `solve_p2` never stops.
   */
  function Heap(cells: seq<seq<string>>): (r: Option<nat>)
    requires Sized(cells)
    decreases Room(cells)
  {
    if OriginCell(cells) == "o" then Some(0)
    else match Fall(cells, Origin)
      case None => None
      case Some(rest) =>
        FallMeaning(cells, Origin);
        RestShrinks(cells);
        Plus(Heap(Settle(cells)), 1)
  }

  /** One grain of `Heap`, while the origin is still free of sand. */
  lemma HeapStep(cells: seq<seq<string>>)
    requires Sized(cells) && OriginCell(cells) != "o"
    ensures Fall(cells, Origin).None? ==> Heap(cells).None?
    ensures Fall(cells, Origin).Some? ==> Room(Settle(cells)) < Room(cells) && Heap(cells) == Plus(Heap(Settle(cells)), 1)
  {
    if Fall(cells, Origin).Some? {
      FallMeaning(cells, Origin);
      RestShrinks(cells);
    }
  }

  /** With a floor inside the grid, every grain comes to rest and the origin is eventually covered. */
  lemma {:induction false} FloorFillsUp(cells: seq<seq<string>>, floor: nat)
    requires Sized(cells) && 0 < floor <= Bottom
    requires forall x :: 0 <= x < Width ==> cells[floor][x] == "#"
    ensures Heap(cells).Some?
    ensures Heap(cells).value <= Room(cells)
    decreases Room(cells)
  {
    if OriginCell(cells) != "o" {
      FloorCatches(cells, Origin, floor);
      HeapStep(cells);
      FallMeaning(cells, Origin);
      FloorFillsUp(Settle(cells), floor);
    }
  }

  /** The loop of `solve_p2`: drop grains until the origin holds sand, counting them. */
  method PourUntilBlocked(grid: Grids.Grid<string>) returns (grains: Option<nat>)
    requires grid.Valid() && grid.width == Width && grid.height == Height
    modifies grid
    ensures grid.Valid() && grid.width == Width && grid.height == Height
    ensures grains == Heap(old(grid.cells))
  {
    ghost var start := grid.cells;
    var count: nat := 0;
    while grid.Get(Origin.x, Origin.y) != "o"
      invariant grid.Valid() && grid.width == Width && grid.height == Height
      invariant Heap(start) == Plus(Heap(grid.cells), count)
      decreases Room(grid.cells)
    {
      ghost var before := grid.cells;
      HeapStep(before);
      var rested := SimulateSnowflake(grid);
      if !rested {
        assert Heap(before).None?;
        return None;
      }
      assert grid.cells == Settle(before);
      PlusOne(Heap(grid.cells), count);
      count := count + 1;
    }
    return Some(count);
  }

  // ---------------------------------------------------------------------
  // Both parts

  /** The input parses and every wall can be drawn into the 1000 by 500 grid. */
  predicate Drawable(lines: seq<string>) {
    ParsePaths(lines).Some? && Addressable(Width, Height, Origin) && AllSegmentsOk(Width, Height, Segments(ParsePaths(lines).value))
  }

  /** The grid after `build_paths` on the parsed input. */
  function Cave(lines: seq<string>): (r: seq<seq<string>>)
    requires Drawable(lines)
    ensures Sized(r)
  {
    Walls(Grids.Fill(Width, Height, "."), Width, Height, ParsePaths(lines).value)
  }

  /** `solve_p1`: how many grains rest before sand flows into the abyss. */
  function Part1(lines: seq<string>): Option<nat>
  {
    if !Drawable(lines) then None else Pour(Cave(lines))
  }

  /** `solve_p2`: how many grains rest, on the floor, until the origin is covered. */
  function Part2(lines: seq<string>): Option<nat>
  {
    if !Drawable(lines) then None
    else
      var cave := Cave(lines);
      var floor := FloorRow(cave);
      if floor >= Height then None else Heap(cave[floor := WallRow(Width)])
  }

  /** Part 2 has an answer exactly when the walls can be drawn and their floor fits in the grid. */
  lemma Part2Defined(lines: seq<string>)
    ensures Part2(lines).Some? <==> Drawable(lines) && FloorRow(Cave(lines)) < Height
  {
    if Drawable(lines) && FloorRow(Cave(lines)) < Height {
      var cave := Cave(lines);
      var floor := FloorRow(cave);
      FloorFillsUp(cave[floor := WallRow(Width)], floor);
    }
  }

  /** `solve_p1(lines)`, minus the picture. */
  method SolveP1(lines: seq<string>) returns (answer: Option<nat>)
    ensures answer == Part1(lines)
  {
    var paths := ParsePaths(lines);
    if paths.None? {
      return None;
    }
    var grid := new Grids.Grid<string>(Width, Height, ".");
    var ok := BuildPaths(grid, paths.value);
    if !ok {
      return None;
    }
    answer := PourIntoAbyss(grid);
  }

  /** `solve_p2(lines)`, minus the picture. */
  method SolveP2(lines: seq<string>) returns (answer: Option<nat>)
    ensures answer == Part2(lines)
  {
    var paths := ParsePaths(lines);
    if paths.None? {
      return None;
    }
    var grid := new Grids.Grid<string>(Width, Height, ".");
    var ok := BuildPaths(grid, paths.value);
    if !ok {
      return None;
    }
    ok := BuildFloor(grid);
    if !ok {
      return None;
    }
    answer := PourUntilBlocked(grid);
  }
}
