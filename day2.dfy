// Day 2 of aoc2022/day2.py: rock-paper-scissors scoring from lookup tables.
// The opponent plays A, B or C; the second column is X, Y or Z.
module Day2 {
  import opened Wrappers
  import Text

  const Loss := 0
  const Tie := 3
  const Win := 6

  /** `letter_scores`: the score for the shape you play. */
  const LetterScores: map<string, int> := map["X" := 1, "Y" := 2, "Z" := 3]

  /** `fights[enemy][you]`: the outcome score of a round. */
  const Fights: map<string, map<string, int>> := map[
    "A" := map["X" := Tie, "Y" := Win, "Z" := Loss],
    "B" := map["X" := Loss, "Y" := Tie, "Z" := Win],
    "C" := map["X" := Win, "Y" := Loss, "Z" := Tie]]

  /** `strat_to_shape[enemy][strategy]`: the shape that gives the wanted outcome. */
  const StratToShape: map<string, map<string, string>> := map[
    "A" := map["X" := "Z", "Y" := "X", "Z" := "Y"],
    "B" := map["X" := "X", "Y" := "Y", "Z" := "Z"],
    "C" := map["X" := "Y", "Y" := "Z", "Z" := "X"]]

  const Enemies: set<string> := {"A", "B", "C"}
  const Shapes: set<string> := {"X", "Y", "Z"}

  /** `calc_score(enemy, you)`; an unknown letter is a KeyError. */
  function CalcScore(enemy: string, you: string): (r: Option<int>)
    ensures r.Some? <==> enemy in Enemies && you in Shapes
    ensures r.Some? ==> 1 <= r.value <= 9
    ensures r.Some? ==> r.value - LetterScores[you] in {Loss, Tie, Win}
  {
    if you in LetterScores && enemy in Fights && you in Fights[enemy] then
      Some(LetterScores[you] + Fights[enemy][you])
    else None
  }

  /** `decode(line)`: the space-separated tokens, each right-stripped. */
  function Decode(line: string): (r: seq<string>)
    ensures |r| == |Text.Split(line, ' ')|
    ensures forall i :: 0 <= i < |r| ==> r[i] == Text.RStrip(Text.Split(line, ' ')[i])
  {
    var parts := Text.Split(line, ' ');
    seq(|parts|, i requires 0 <= i < |parts| => Text.RStrip(parts[i]))
  }

  /** The part 1 score of one line: both columns are shapes. */
  function LineScore1(line: string): (r: Option<int>)
    ensures r.Some? <==> |Decode(line)| == 2 && Decode(line)[0] in Enemies && Decode(line)[1] in Shapes
    ensures r.Some? ==> 1 <= r.value <= 9
  {
    var d := Decode(line);
    if |d| == 2 then CalcScore(d[0], d[1]) else None
  }

  /**
   * The part 2 score of one line: the second column is the wanted outcome,
   * X a loss, Y a tie and Z a win, and the score's outcome part is that one.
   */
  function LineScore2(line: string): (r: Option<int>)
    ensures r.Some? <==> |Decode(line)| == 2 && Decode(line)[0] in Enemies && Decode(line)[1] in Shapes
    ensures r.Some? ==> 1 <= r.value <= 9
    ensures r.Some? ==> (r.value - 1) / 3 * 3 == map["X" := Loss, "Y" := Tie, "Z" := Win][Decode(line)[1]]
  {
    var d := Decode(line);
    if |d| == 2 && d[0] in StratToShape && d[1] in StratToShape[d[0]] then
      CalcScore(d[0], StratToShape[d[0]][d[1]])
    else None
  }

  /** The sum of the part 1 scores, or None if a line fails. */
  function Total1(lines: seq<string>): Option<int>
  {
    if |lines| == 0 then Some(0)
    else
      var t := Total1(lines[..|lines| - 1]);
      var s := LineScore1(lines[|lines| - 1]);
      if t.Some? && s.Some? then Some(t.value + s.value) else None
  }

  /** The sum of the part 2 scores, or None if a line fails. */
  function Total2(lines: seq<string>): Option<int>
  {
    if |lines| == 0 then Some(0)
    else
      var t := Total2(lines[..|lines| - 1]);
      var s := LineScore2(lines[|lines| - 1]);
      if t.Some? && s.Some? then Some(t.value + s.value) else None
  }

  /** `solve_p1`: the sum of the scores of all lines. */
  method SolveP1(lines: seq<string>) returns (total: Option<int>)
    ensures total == Total1(lines)
  {
    var sum := 0;
    var i := 0;
    while i < |lines|
      invariant 0 <= i <= |lines|
      invariant Total1(lines[..i]) == Some(sum)
    {
      assert lines[..i + 1][..i] == lines[..i];
      var score := LineScore1(lines[i]);
      if score.None? {
        assert Total1(lines[..i + 1]).None?;
        Total1Fails(lines, i + 1);
        return None;
      }
      sum := sum + score.value;
      i := i + 1;
      assert Total1(lines[..i]).value == sum;
    }
    assert lines[..|lines|] == lines;
    return Some(sum);
  }

  lemma {:induction false} Total1Fails(lines: seq<string>, k: nat)
    requires k <= |lines| && Total1(lines[..k]).None?
    ensures Total1(lines).None?
    decreases |lines| - k
  {
    if k < |lines| {
      assert lines[..k + 1][..k] == lines[..k];
      Total1Fails(lines, k + 1);
    } else {
      assert lines[..k] == lines;
    }
  }

  /** `solve_p2`: the sum of the scores of all lines, read as strategies. */
  method SolveP2(lines: seq<string>) returns (total: Option<int>)
    ensures total == Total2(lines)
  {
    var sum := 0;
    var i := 0;
    while i < |lines|
      invariant 0 <= i <= |lines|
      invariant Total2(lines[..i]) == Some(sum)
    {
      assert lines[..i + 1][..i] == lines[..i];
      var score := LineScore2(lines[i]);
      if score.None? {
        assert Total2(lines[..i + 1]).None?;
        Total2Fails(lines, i + 1);
        return None;
      }
      sum := sum + score.value;
      i := i + 1;
      assert Total2(lines[..i]).value == sum;
    }
    assert lines[..|lines|] == lines;
    return Some(sum);
  }

  lemma {:induction false} Total2Fails(lines: seq<string>, k: nat)
    requires k <= |lines| && Total2(lines[..k]).None?
    ensures Total2(lines).None?
    decreases |lines| - k
  {
    if k < |lines| {
      assert lines[..k + 1][..k] == lines[..k];
      Total2Fails(lines, k + 1);
    } else {
      assert lines[..k] == lines;
    }
  }

  // ---------------------------------------------------------------------
  // Properties of the tables

  /** The diagonal A-X, B-Y, C-Z is a tie; every row holds one loss, one tie and one win. */
  lemma FightsTable(e: string)
    requires e in Enemies
    ensures Fights["A"]["X"] == Tie && Fights["B"]["Y"] == Tie && Fights["C"]["Z"] == Tie
    ensures e in Fights && Fights[e].Keys == Shapes
    ensures Fights[e].Values == {Loss, Tie, Win}
  {
  }

  /** The strategy X asks to lose, Y to draw, Z to win, and `strat_to_shape` obliges. */
  lemma StrategyOutcome(e: string)
    requires e in Enemies
    ensures e in StratToShape && StratToShape[e].Keys == Shapes
    ensures Fights[e][StratToShape[e]["X"]] == Loss
    ensures Fights[e][StratToShape[e]["Y"]] == Tie
    ensures Fights[e][StratToShape[e]["Z"]] == Win
  {
  }

  /** For every enemy, `strat_to_shape[enemy]` is a bijection on {X, Y, Z}. */
  lemma StrategyBijective(e: string, s1: string, s2: string)
    requires e in Enemies && s1 in Shapes && s2 in Shapes && s1 != s2
    ensures StratToShape[e][s1] in Shapes
    ensures StratToShape[e][s1] != StratToShape[e][s2]
  {
  }

  /** A line "e y\n" decodes to its two tokens. */
  lemma DecodeLine(e: string, y: string)
    requires ' ' !in e && ' ' !in y && |y| > 0 && !Text.IsSpace(y[|y| - 1])
    requires |e| == 0 || !Text.IsSpace(e[|e| - 1])
    ensures Decode(e + " " + y + "\n") == [e, y]
  {
    var line := e + " " + y + "\n";
    Text.SplitJoin([e, y + "\n"], ' ');
    assert Text.Join([e, y + "\n"], ' ') == line by {
      assert Text.Join([e, y + "\n"][1..], ' ') == y + "\n";
    }
    assert Text.RStrip(y + "\n") == y by {
      assert (y + "\n")[..|y|] == y;
    }
  }

  /** Every line scores 1 to 9, so the totals lie between len and 9 * len. */
  lemma {:induction false} TotalBounds(lines: seq<string>)
    ensures Total1(lines).Some? ==> |lines| <= Total1(lines).value <= 9 * |lines|
    ensures Total2(lines).Some? ==> |lines| <= Total2(lines).value <= 9 * |lines|
  {
    if |lines| > 0 {
      TotalBounds(lines[..|lines| - 1]);
    }
  }
}
