// The frozen 2-D integer point type of aoc2022/coords.py and its
// constant direction tables.
module Coords {
  import opened Wrappers
  import Text

  datatype Coords = Coords(x: int, y: int)

  const Origin := Coords(0, 0)

  function AbsInt(n: int): nat { if n < 0 then -n else n }

  /** The sign of an integer, the reference for `RectNormalize`. */
  function Sign(n: int): int { if n > 0 then 1 else if n < 0 then -1 else 0 }

  function Max(a: int, b: int): int { if a >= b then a else b }

  /** `a + b`, component-wise. */
  function Add(a: Coords, b: Coords): Coords { Coords(a.x + b.x, a.y + b.y) }

  /** `a - b`, component-wise. */
  function Sub(a: Coords, b: Coords): Coords { Coords(a.x - b.x, a.y - b.y) }

  /** `c.abs()`. */
  function Abs(c: Coords): (r: Coords)
    ensures r.x >= 0 && r.y >= 0
    ensures r.x * r.x == c.x * c.x && r.y * r.y == c.y * c.y
  {
    Coords(AbsInt(c.x), AbsInt(c.y))
  }

  /** `a.manhattan_distance(b)`: |dx| + |dy|. */
  function ManhattanDistance(a: Coords, b: Coords): (r: int)
    ensures r >= 0
    ensures r == 0 <==> a == b
    ensures r >= AbsInt(b.x - a.x) && r >= AbsInt(b.y - a.y)
  {
    var diff := Abs(Sub(b, a));
    diff.x + diff.y
  }

  /**
   * `c.rect_normalize()`: each component floor-divided by its absolute
   * value, or by 1 when it is 0.  The divisor is positive, so Dafny's `/`
   * agrees with Python's `//` here.
   */
  function RectNormalize(c: Coords): (r: Coords)
    ensures r.x == Sign(c.x) && r.y == Sign(c.y)
  {
    var abs := Abs(c);
    var dx := if abs.x != 0 then abs.x else 1;
    var dy := if abs.y != 0 then abs.y else 1;
    NormalizeComponent(c.x, dx);
    NormalizeComponent(c.y, dy);
    Coords(c.x / dx, c.y / dy)
  }

  lemma NormalizeComponent(n: int, d: int)
    requires d == (if AbsInt(n) != 0 then AbsInt(n) else 1)
    ensures n / d == Sign(n)
  {
    if n < 0 {
      assert n == -1 * d;
    } else if n > 0 {
      assert n == 1 * d;
    }
  }

  /** `a.rect_distance(b)`: the Chebyshev distance max(|dx|, |dy|). */
  function RectDistance(a: Coords, b: Coords): (r: int)
    ensures r >= 0
    ensures r == 0 <==> a == b
    ensures r <= ManhattanDistance(a, b)
    ensures r == AbsInt(b.x - a.x) || r == AbsInt(b.y - a.y)
    ensures r >= AbsInt(b.x - a.x) && r >= AbsInt(b.y - a.y)
  {
    var diff := Abs(Sub(b, a));
    Max(diff.x, diff.y)
  }

  /** `Coords.parse("x,y")`: exactly one comma and two integers, else an error. */
  function Parse(text: string): Option<Coords>
  {
    var parts := Text.Split(text, ',');
    if |parts| != 2 then None
    else
      match (Text.ParseInt(parts[0]), Text.ParseInt(parts[1]))
      case (Some(x), Some(y)) => Some(Coords(x, y))
      case _ => None
  }

  /** The movement command letters and their unit vectors (`COMMAND_CARD`). */
  const CommandCard: map<char, Coords> :=
    map['L' := Coords(-1, 0), 'R' := Coords(1, 0), 'U' := Coords(0, -1), 'D' := Coords(0, 1)]

  /** `UN_COMMAND_CARD`: from a unit vector back to its letter. */
  const UnCommandCard: map<Coords, char> :=
    map[Coords(-1, 0) := 'L', Coords(1, 0) := 'R', Coords(0, -1) := 'U', Coords(0, 1) := 'D']

  /** `ARROW`: the glyph for each unit vector. */
  const Arrow: map<Coords, char> :=
    map[Coords(-1, 0) := '←', Coords(1, 0) := '→', Coords(0, -1) := '↑', Coords(0, 1) := '↓']

  // ---------------------------------------------------------------------
  // Properties

  /** `(a + b) - b == a` and `(a - b) + b == a`. */
  lemma AddSubCancel(a: Coords, b: Coords)
    ensures Sub(Add(a, b), b) == a && Add(Sub(a, b), b) == a
  {
  }

  /** `abs` is idempotent. */
  lemma AbsIdempotent(c: Coords)
    ensures Abs(Abs(c)) == Abs(c)
  {
  }

  lemma ManhattanSymmetric(a: Coords, b: Coords)
    ensures ManhattanDistance(a, b) == ManhattanDistance(b, a)
  {
  }

  lemma RectDistanceSymmetric(a: Coords, b: Coords)
    ensures RectDistance(a, b) == RectDistance(b, a)
  {
  }

  /** Normalizing twice is normalizing once; the origin stays put. */
  lemma RectNormalizeIdempotent(c: Coords)
    ensures RectNormalize(RectNormalize(c)) == RectNormalize(c)
    ensures RectNormalize(Origin) == Origin
    ensures -1 <= RectNormalize(c).x <= 1 && -1 <= RectNormalize(c).y <= 1
  {
  }

  /** Parsing the printed form `"x,y"` gives the point back. */
  lemma ParseShow(c: Coords)
    ensures Parse(Text.ShowInt(c.x) + "," + Text.ShowInt(c.y)) == Some(c)
  {
    var xs, ys := Text.ShowInt(c.x), Text.ShowInt(c.y);
    ShowIntNoComma(c.x);
    ShowIntNoComma(c.y);
    Text.SplitJoin([xs, ys], ',');
    assert Text.Join([xs, ys], ',') == xs + "," + ys by {
      assert Text.Join([xs, ys][1..], ',') == ys;
    }
    Text.ParseShowInt(c.x);
    Text.ParseShowInt(c.y);
  }

  lemma ShowIntNoComma(n: int)
    ensures ',' !in Text.ShowInt(n)
  {
    Text.ShowIntChars(n, ',');
  }

  /** Text with no comma, or with more than one, does not parse. */
  lemma ParseNeedsOneComma(text: string)
    requires |Text.Split(text, ',')| != 2
    ensures Parse(text) == None
  {
  }

  lemma ParseNoComma(text: string)
    requires ',' !in text
    ensures Parse(text) == None
  {
    Text.SplitNoSep(text, ',');
  }

  /** `UN_COMMAND_CARD` inverts `COMMAND_CARD`, in both directions. */
  lemma CardInverse(k: char, v: Coords)
    ensures k in CommandCard ==> CommandCard[k] in UnCommandCard && UnCommandCard[CommandCard[k]] == k
    ensures v in UnCommandCard ==> UnCommandCard[v] in CommandCard && CommandCard[UnCommandCard[v]] == v
  {
  }

  /** Every card vector is one orthogonal step from the origin. */
  lemma CardUnit(k: char)
    requires k in CommandCard
    ensures ManhattanDistance(Origin, CommandCard[k]) == 1
    ensures RectDistance(Origin, CommandCard[k]) == 1
  {
  }

  /** `ARROW` has a glyph for exactly the card vectors. */
  lemma ArrowKeys()
    ensures Arrow.Keys == UnCommandCard.Keys
  {
  }
}
