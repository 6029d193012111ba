// Day 12 of aoc2022/day12.py: a height map of letters, the climbing rule
// between neighbouring squares, and the part-2 choice of the shortest route
// from any lowest square.  The shortest-path search itself is done by a
// graph library; its paths are inputs here.
module Day12 {
  import opened Wrappers
  import opened Seqs
  import Grids
  import Coords

  /** One square: its letter, its elevation, and a direction list that stays empty. */
  datatype Cell = Cell(symbol: string, elevation: int, directions: seq<string>)

  /**
   * `Cell.from_char(char)`: 'S' stands on elevation 'a', 'E' on 'z', any
   * other character on itself, counted from 'a'.  `ord` needs exactly one
   * character, so any other cell text fails.
   */
  function FromChar(s: string): (r: Option<Cell>)
    ensures r.Some? <==> |s| == 1
    ensures r.Some? ==> r.value.symbol == s && r.value.directions == []
    ensures s == "S" ==> r == Some(Cell("S", 0, []))
    ensures s == "E" ==> r == Some(Cell("E", 25, []))
    ensures |s| == 1 && 'a' <= s[0] <= 'z' ==> r.Some? && 0 <= r.value.elevation <= 25
  {
    if |s| != 1 then None
    else
      var letter := if s == "S" then 'a' else if s == "E" then 'z' else s[0];
      Some(Cell(s, letter as int - 'a' as int, []))
  }

  /** `reachable(main, test)`: a step from main to test climbs at most one. */
  predicate Reachable(main: Cell, test: Cell) {
    test.elevation <= main.elevation + 1
  }

  /** The letters a square can carry: lowercase, the start 'S' or the end 'E'. */
  predicate IsSquare(c: char) {
    'a' <= c <= 'z' || c == 'S' || c == 'E'
  }

  /**
   * Between two lowercase squares the rule compares letters: any step down
   * or level is allowed, a step up only to the next letter.
   */
  lemma ReachableLetters(c: char, d: char)
    requires 'a' <= c <= 'z' && 'a' <= d <= 'z'
    ensures Reachable(FromChar([c]).value, FromChar([d]).value) <==> d as int <= c as int + 1
  {
    assert [c] != "S" && [c] != "E" && [d] != "S" && [d] != "E";
  }

  /** The end square 'E' is entered only from 'y', 'z' or another 'E'. */
  lemma EndEnteredFromTop(c: char)
    requires IsSquare(c)
    ensures Reachable(FromChar([c]).value, FromChar("E").value) <==> c == 'y' || c == 'z' || c == 'E'
  {
    if c != 'S' && c != 'E' {
      assert [c] != "S" && [c] != "E";
    }
  }

  /** From the start square 'S' only 'a', 'b' and 'S' itself can be entered. */
  lemma StartLeadsToLowlands(d: char)
    requires IsSquare(d)
    ensures Reachable(FromChar("S").value, FromChar([d]).value) <==> d == 'a' || d == 'b' || d == 'S'
  {
    if d != 'S' && d != 'E' {
      assert [d] != "S" && [d] != "E";
    }
  }

  // ---------------------------------------------------------------------
  // Reachable neighbours

  /** `c` lies on a `w` by `h` grid. */
  predicate OnGrid(w: nat, h: nat, c: Coords.Coords) {
    0 <= c.x < w && 0 <= c.y < h
  }

  /** `c` is one of the eight squares around `here` (not `here` itself). */
  predicate Around(here: Coords.Coords, c: Coords.Coords) {
    c != here && -1 <= c.x - here.x <= 1 && -1 <= c.y - here.y <= 1
  }

  /**
   * What `terrain.enumerate_neighbors(x, y)` yields, in some order: each
   * square around (x, y) that lies on the grid, once.
   */
  ghost predicate IsNeighbourhood(w: nat, h: nat, here: Coords.Coords, ns: seq<Coords.Coords>) {
    (forall i :: 0 <= i < |ns| ==> OnGrid(w, h, ns[i]) && Around(here, ns[i])) &&
    (forall i, j :: 0 <= i < j < |ns| ==> ns[i] != ns[j]) &&
    (forall c :: OnGrid(w, h, c) && Around(here, c) ==> c in ns)
  }

  /**
   * The neighbours among `ns` that `all_reachable_neighbors` keeps: Manhattan
   * distance 1 from `here` and reachable from the square `from`.
   */
  function KeptNeighbours(cells: seq<seq<Cell>>, from: Cell, here: Coords.Coords, ns: seq<Coords.Coords>): seq<Coords.Coords>
    requires forall i :: 0 <= i < |ns| ==> 0 <= ns[i].y < |cells| && 0 <= ns[i].x < |cells[ns[i].y]|
  {
    if |ns| == 0 then []
    else
      var n := ns[|ns| - 1];
      var rest := KeptNeighbours(cells, from, here, ns[..|ns| - 1]);
      if Coords.ManhattanDistance(n, here) == 1 && Reachable(from, cells[n.y][n.x]) then rest + [n] else rest
  }

  /** The kept neighbours are exactly those of `ns` that pass both tests. */
  lemma {:induction false} KeptMembers(cells: seq<seq<Cell>>, from: Cell, here: Coords.Coords, ns: seq<Coords.Coords>, c: Coords.Coords)
    requires forall i :: 0 <= i < |ns| ==> 0 <= ns[i].y < |cells| && 0 <= ns[i].x < |cells[ns[i].y]|
    ensures c in KeptNeighbours(cells, from, here, ns) <==>
      c in ns && Coords.ManhattanDistance(c, here) == 1 && Reachable(from, cells[c.y][c.x])
  {
    if |ns| > 0 {
      var front := ns[..|ns| - 1];
      KeptMembers(cells, from, here, front, c);
      assert ns == front + [ns[|ns| - 1]];
    }
  }

  /** Keeping a sub-list of a duplicate-free list leaves no duplicates. */
  lemma {:induction false} KeptDistinct(cells: seq<seq<Cell>>, from: Cell, here: Coords.Coords, ns: seq<Coords.Coords>)
    requires forall i :: 0 <= i < |ns| ==> 0 <= ns[i].y < |cells| && 0 <= ns[i].x < |cells[ns[i].y]|
    requires forall i, j :: 0 <= i < j < |ns| ==> ns[i] != ns[j]
    ensures var r := KeptNeighbours(cells, from, here, ns); forall i, j :: 0 <= i < j < |r| ==> r[i] != r[j]
  {
    if |ns| > 0 {
      var front := ns[..|ns| - 1];
      var n := ns[|ns| - 1];
      KeptDistinct(cells, from, here, front);
      KeptMembers(cells, from, here, front, n);
      assert forall i :: 0 <= i < |front| ==> front[i] == ns[i] && ns[i] != n;
    }
  }

  /**
   * `all_reachable_neighbors(terrain, x, y)`: walks the enumerated
   * neighbours and appends those at Manhattan distance 1 whose square can be
   * entered from (x, y).
   */
  method AllReachableNeighbors(terrain: Grids.Grid<Cell>, x: int, y: int, ns: seq<Coords.Coords>)
    returns (result: seq<Coords.Coords>)
    requires terrain.Valid() && terrain.InBounds(x, y)
    requires IsNeighbourhood(terrain.width, terrain.height, Coords.Coords(x, y), ns)
    ensures result == KeptNeighbours(terrain.cells, terrain.Get(x, y), Coords.Coords(x, y), ns)
  {
    var cell := terrain.Get(x, y);
    var here := Coords.Coords(x, y);
    result := [];
    var k := 0;
    while k < |ns|
      invariant 0 <= k <= |ns|
      invariant result == KeptNeighbours(terrain.cells, cell, here, ns[..k])
    {
      var n := ns[k];
      assert ns[..k + 1][..k] == ns[..k];
      if Coords.ManhattanDistance(n, here) == 1 && Reachable(cell, terrain.Get(n.x, n.y)) {
        result := result + [n];
      }
      k := k + 1;
    }
    assert ns[..k] == ns;
  }

  /**
   * Whatever order the neighbours come in, the reachable neighbours of (x, y)
   * are exactly the squares on the grid one orthogonal step away whose
   * elevation is at most one above (x, y)'s, each listed once.
   */
  lemma ReachableNeighboursMeaning(terrain: Grids.Grid<Cell>, x: int, y: int, ns: seq<Coords.Coords>, c: Coords.Coords)
    requires terrain.Valid() && terrain.InBounds(x, y)
    requires IsNeighbourhood(terrain.width, terrain.height, Coords.Coords(x, y), ns)
    ensures var r := KeptNeighbours(terrain.cells, terrain.Get(x, y), Coords.Coords(x, y), ns);
      c in r <==> (terrain.InBounds(c.x, c.y) && Coords.ManhattanDistance(c, Coords.Coords(x, y)) == 1 &&
        Reachable(terrain.Get(x, y), terrain.Get(c.x, c.y)))
    ensures var r := KeptNeighbours(terrain.cells, terrain.Get(x, y), Coords.Coords(x, y), ns);
      forall i, j :: 0 <= i < j < |r| ==> r[i] != r[j]
  {
    var here := Coords.Coords(x, y);
    KeptMembers(terrain.cells, terrain.Get(x, y), here, ns, c);
    KeptDistinct(terrain.cells, terrain.Get(x, y), here, ns);
    if terrain.InBounds(c.x, c.y) && Coords.ManhattanDistance(c, here) == 1 {
      assert Around(here, c);
    }
  }

  // ---------------------------------------------------------------------
  // Part 2: the shortest route from a lowest square

  /**
   * The minimum `solve_p2` keeps after the paths from `ps` on, starting from
   * `best`: each path is reversed; an empty one is skipped, as is one whose
   * first square (the original last vertex) stands above elevation 0;
   * otherwise its step count `len - 1` replaces a larger minimum.  A vertex
   * that is not a square of the grid fails.
   */
  function Shortest(squares: seq<Cell>, ps: seq<seq<int>>, best: int): Option<int>
  {
    if |ps| == 0 then Some(best)
    else
      var path := Reversed(ps[0]);
      if |path| == 0 then Shortest(squares, ps[1..], best)
      else if !(0 <= path[0] < |squares|) then None
      else if squares[path[0]].elevation > 0 then Shortest(squares, ps[1..], best)
      else
        var steps := |path| - 1;
        Shortest(squares, ps[1..], if best > steps then steps else best)
  }

  /**
   * The part-2 answer from the paths found into the end square: it starts
   * from the length of the first path, and no paths at all fails.
   */
  function LowestStart(squares: seq<Cell>, paths: seq<seq<int>>): Option<int>
  {
    if |paths| == 0 then None else Shortest(squares, paths, |paths[0]|)
  }

  /** A path whose last vertex is a square of the grid. */
  predicate EndsOnGrid(squares: seq<Cell>, p: seq<int>) {
    |p| > 0 ==> 0 <= p[|p| - 1] < |squares|
  }

  /** A path the minimum ranges over: non-empty, ending on a lowest square. */
  predicate FromLowest(squares: seq<Cell>, p: seq<int>) {
    |p| > 0 && 0 <= p[|p| - 1] < |squares| && squares[p[|p| - 1]].elevation <= 0
  }

  /**
   * What `Shortest` computes: it fails exactly when some non-empty path ends
   * off the grid; otherwise its result is at most `best` and at most every
   * counted path's step count, and is `best` or one of those step counts.
   */
  lemma {:induction false} ShortestIsMinimum(squares: seq<Cell>, ps: seq<seq<int>>, best: int)
    ensures Shortest(squares, ps, best).None? <==> exists i :: 0 <= i < |ps| && !EndsOnGrid(squares, ps[i])
    ensures Shortest(squares, ps, best).Some? ==>
      var r := Shortest(squares, ps, best).value;
      r <= best &&
      (forall i :: 0 <= i < |ps| && FromLowest(squares, ps[i]) ==> r <= |ps[i]| - 1) &&
      (r == best || exists i :: 0 <= i < |ps| && FromLowest(squares, ps[i]) && r == |ps[i]| - 1)
  {
    if |ps| > 0 {
      var p := ps[0];
      var path := Reversed(p);
      var next := if |path| > 0 && 0 <= path[0] < |squares| && squares[path[0]].elevation <= 0 && best > |path| - 1
        then |path| - 1 else best;
      ShortestIsMinimum(squares, ps[1..], next);
      assert forall i :: 1 <= i < |ps| ==> ps[i] == ps[1..][i - 1];
      if Shortest(squares, ps, best).Some? {
        var r := Shortest(squares, ps, best).value;
        if r != best {
          if r == next {
            assert FromLowest(squares, ps[0]);
          } else {
            var j :| 0 <= j < |ps[1..]| && FromLowest(squares, ps[1..][j]) && r == |ps[1..][j]| - 1;
            assert ps[j + 1] == ps[1..][j];
          }
        }
      }
      if !EndsOnGrid(squares, p) {
        assert Shortest(squares, ps, best).None?;
      }
    }
  }

  /**
   * The part-2 answer is the fewest steps over the paths that start on a
   * lowest square, unless the first path's length is smaller still.
   */
  lemma LowestStartMeaning(squares: seq<Cell>, paths: seq<seq<int>>)
    requires |paths| > 0 && forall i :: 0 <= i < |paths| ==> EndsOnGrid(squares, paths[i])
    ensures LowestStart(squares, paths).Some?
    ensures var r := LowestStart(squares, paths).value;
      (forall i :: 0 <= i < |paths| && FromLowest(squares, paths[i]) ==> r <= |paths[i]| - 1) &&
      (r == |paths[0]| || exists i :: 0 <= i < |paths| && FromLowest(squares, paths[i]) && r == |paths[i]| - 1)
  {
    ShortestIsMinimum(squares, paths, |paths[0]|);
  }

  /**
   * The loop of `solve_p2` over the found paths: reverses each path in
   * place, skips empty paths and paths starting above elevation 0, and keeps
   * the fewest steps.  `indexed(v)` is the v-th square in row-major order.
   */
  method MinStartLength(terrain: Grids.Grid<Cell>, paths: array<seq<int>>) returns (minLen: Option<int>)
    requires terrain.Valid()
    modifies paths
    ensures minLen.Some? ==> forall i :: 0 <= i < paths.Length ==> paths[i] == Reversed(old(paths[i]))
    ensures minLen == LowestStart(terrain.AllCells(), old(paths[..]))
  {
    if paths.Length == 0 {
      return None;
    }
    ghost var start := paths[..];
    var squares := terrain.AllCells();
    var best := |paths[0]|;
    var k := 0;
    while k < paths.Length
      invariant 0 <= k <= paths.Length
      invariant forall i :: 0 <= i < k ==> paths[i] == Reversed(start[i])
      invariant forall i :: k <= i < paths.Length ==> paths[i] == start[i]
      invariant Shortest(squares, start[k..], best) == LowestStart(squares, start)
    {
      assert start[k..][0] == start[k] && start[k..][1..] == start[k + 1..];
      var path := Reversed(paths[k]);
      paths[k] := path;
      assert forall i :: k < i < paths.Length ==> paths[i] == start[i];
      assert forall i :: 0 <= i <= k ==> paths[i] == Reversed(start[i]);
      if |path| > 0 {
        if !(0 <= path[0] < |squares|) {
          return None;
        }
        if squares[path[0]].elevation <= 0 && best > |path| - 1 {
          best := |path| - 1;
        }
      }
      k := k + 1;
    }
    return Some(best);
  }
}
