// Day 9 of aoc2022/day9.py: a rope whose knots each follow the one in
// front, and the positions its last knot visits.
module Day9 {
  import opened Wrappers
  import opened Seqs
  import Text
  import Grids
  import opened Coords

  // ---------------------------------------------------------------------
  // Expanding the commands

  /** `s * n`: `s` repeated `n` times, empty when `n <= 0`. */
  function Repeat(s: string, n: int): (r: string)
    ensures n <= 0 ==> r == []
    ensures n >= 0 ==> |r| == |s| * n
    decreases if n <= 0 then 0 else n
  {
    if n <= 0 then [] else Repeat(s, n - 1) + s
  }

  /** `parts[0] * int(parts[1])` for `parts = line.split(" ")`; too few parts or a bad count fails. */
  function LineCommands(line: string): Option<string>
  {
    var parts := Text.Split(line, ' ');
    if |parts| < 2 then None
    else
      match Text.ParseInt(parts[1])
      case Some(n) => Some(Repeat(parts[0], n))
      case None => None
  }

  /** The joined command string: one letter per step. */
  function Commands(lines: seq<string>): Option<string>
  {
    var perLine := seq(|lines|, i requires 0 <= i < |lines| => LineCommands(lines[i]));
    match AllSome(perLine)
    case Some(chunks) => Some(Grids.Flatten(chunks))
    case None => None
  }

  /** A line "D 3" expands to "DDD": `n` copies of its letter. */
  lemma LineOfShown(c: char, n: nat)
    requires c != ' '
    ensures LineCommands([c] + " " + Text.ShowInt(n)).Some?
    ensures LineCommands([c] + " " + Text.ShowInt(n)).value == seq(n, _ => c)
  {
    Text.ShowIntChars(n, ' ');
    Text.SplitPrefix([c], Text.ShowInt(n), ' ');
    Text.SplitNoSep(Text.ShowInt(n), ' ');
    assert [c] + " " + Text.ShowInt(n) == [c] + [' '] + Text.ShowInt(n);
    Text.ParseShowInt(n);
    RepeatLetter(c, n);
  }

  lemma {:induction false} RepeatLetter(c: char, n: nat)
    ensures Repeat([c], n) == seq(n, _ => c)
  {
    if n > 0 {
      RepeatLetter(c, n - 1);
    }
  }

  /** The shown lines of letters and counts. */
  function ShowLines(dirs: seq<char>, counts: seq<nat>): (lines: seq<string>)
    requires |dirs| == |counts|
    ensures |lines| == |dirs|
  {
    seq(|dirs|, i requires 0 <= i < |dirs| => [dirs[i]] + " " + Text.ShowInt(counts[i]))
  }

  /** The number of steps is the sum of the counts. */
  lemma StepCount(dirs: seq<char>, counts: seq<nat>)
    requires |dirs| == |counts| && forall i :: 0 <= i < |dirs| ==> dirs[i] != ' '
    ensures Commands(ShowLines(dirs, counts)).Some?
    ensures |Commands(ShowLines(dirs, counts)).value| == Sum(counts)
  {
    var lines := ShowLines(dirs, counts);
    var perLine := seq(|lines|, i requires 0 <= i < |lines| => LineCommands(lines[i]));
    forall i | 0 <= i < |lines| ensures perLine[i].Some? && |perLine[i].value| == counts[i] {
      LineOfShown(dirs[i], counts[i]);
    }
    var chunks := AllSome(perLine).value;
    FlattenLengths(chunks, counts);
  }

  /** Flattening pieces of the given lengths gives their total length. */
  lemma {:induction false} FlattenLengths(chunks: seq<string>, counts: seq<nat>)
    requires |chunks| == |counts| && forall i :: 0 <= i < |chunks| ==> |chunks[i]| == counts[i]
    ensures |Grids.Flatten(chunks)| == Sum(counts)
  {
    if |chunks| > 0 {
      FlattenLengths(chunks[1..], counts[1..]);
      assert counts == [counts[0]] + counts[1..];
      SumAppend([counts[0]], counts[1..]);
      assert Sum([counts[0]]) == Sum([]) + counts[0];
    }
  }

  // ---------------------------------------------------------------------
  // Moving the rope

  /** `tl` after its update: one step towards `hd` on each axis when more than 1 away. */
  function Follow(hd: Coords, tl: Coords): Coords
  {
    if RectDistance(hd, tl) > 1 then Add(tl, RectNormalize(Sub(hd, tl))) else tl
  }

  /** The knots behind `lead` after each follows the one in front, front to back. */
  function Drag(lead: Coords, knots: seq<Coords>): (r: seq<Coords>)
    ensures |r| == |knots|
    decreases |knots|
  {
    if |knots| == 0 then []
    else
      var k := Follow(lead, knots[0]);
      [k] + Drag(k, knots[1..])
  }

  /** One step: the head moves one unit in the command's direction, the rest follow. */
  function Move(rope: seq<Coords>, cmd: char): (r: Option<seq<Coords>>)
    requires |rope| > 0
    ensures r.Some? ==> |r.value| == |rope|
  {
    if cmd in CommandCard then
      var hd := Add(rope[0], CommandCard[cmd]);
      Some([hd] + Drag(hd, rope[1..]))
    else None
  }

  /** One step of the loop: record the last knot, then move; a failed run stays failed. */
  function Advance(state: Option<(seq<Coords>, seq<Coords>)>, cmd: char): (r: Option<(seq<Coords>, seq<Coords>)>)
    requires state.Some? ==> |state.value.0| > 0
    ensures r.Some? ==> state.Some? && |r.value.0| == |state.value.0| && |r.value.1| == |state.value.1| + 1
  {
    match state
    case None => None
    case Some((rope, history)) =>
      match Move(rope, cmd)
      case None => None
      case Some(next) => Some((next, history + [rope[|rope| - 1]]))
  }

  /**
   * The rope after every command, and `tail_history`: the last knot's
   * position before each step.  An unknown letter fails.
   */
  function Simulate(rope: seq<Coords>, commands: string): (r: Option<(seq<Coords>, seq<Coords>)>)
    requires |rope| > 0
    ensures r.Some? ==> |r.value.0| == |rope| && |r.value.1| == |commands|
  {
    if |commands| == 0 then Some((rope, []))
    else Advance(Simulate(rope, commands[..|commands| - 1]), commands[|commands| - 1])
  }

  /** A known command moves the rope and records its last knot. */
  lemma AdvanceMoves(rope: seq<Coords>, history: seq<Coords>, cmd: char)
    requires |rope| > 0 && cmd in CommandCard
    ensures Advance(Some((rope, history)), cmd).Some?
    ensures Advance(Some((rope, history)), cmd).value.0 == Move(rope, cmd).value
    ensures Advance(Some((rope, history)), cmd).value.1 == history + [rope[|rope| - 1]]
  {
  }

  /** One more command advances the simulated prefix by one step. */
  lemma SimulateStep(rope: seq<Coords>, commands: string, k: nat)
    requires |rope| > 0 && k < |commands|
    ensures Simulate(rope, commands[..k + 1]) == Advance(Simulate(rope, commands[..k]), commands[k])
  {
    assert commands[..k + 1][..k] == commands[..k];
  }

  /** Once a prefix of the commands fails, so do all of them. */
  lemma {:induction false} SimulatePrefixFails(rope: seq<Coords>, commands: string, k: nat)
    requires |rope| > 0 && k <= |commands| && Simulate(rope, commands[..k]).None?
    ensures Simulate(rope, commands).None?
    decreases |commands| - k
  {
    if k < |commands| {
      SimulateStep(rope, commands, k);
      SimulatePrefixFails(rope, commands, k + 1);
    } else {
      assert commands[..k] == commands;
    }
  }

  /** A rope of `n` knots at the origin. */
  function Start(n: nat): (rope: seq<Coords>)
    ensures |rope| == n && forall i :: 0 <= i < n ==> rope[i] == Origin
  {
    seq(n, _ => Origin)
  }

  /**
   * `solve_p1`: head and tail from the origin; before each step the tail's
   * position is recorded.  Gives the final head, the final tail and the
   * number of distinct recorded positions.
   */
  method SolveP1(lines: seq<string>) returns (result: Option<(Coords, Coords, nat)>)
    ensures result.None? <==> Commands(lines).None? || Simulate(Start(2), Commands(lines).value).None?
    ensures result.Some? ==> Simulate(Start(2), Commands(lines).value).Some?
    ensures result.Some? ==>
      var (rope, history) := Simulate(Start(2), Commands(lines).value).value;
      result.value == (rope[0], rope[1], |ToSet(history)|)
  {
    var cmds := Commands(lines);
    if cmds.None? {
      return None;
    }
    var commands := cmds.value;
    var head, tail := Origin, Origin;
    assert [head, tail] == Start(2);
    var tailHistory := [];
    var k := 0;
    while k < |commands|
      invariant 0 <= k <= |commands|
      invariant Simulate(Start(2), commands[..k]).Some?
      invariant Simulate(Start(2), commands[..k]).value.0 == [head, tail]
      invariant Simulate(Start(2), commands[..k]).value.1 == tailHistory
    {
      var cmd := commands[k];
      SimulateStep(Start(2), commands, k);
      if cmd !in CommandCard {
        SimulatePrefixFails(Start(2), commands, k + 1);
        return None;
      }
      MovePair(head, tail, cmd);
      tailHistory := tailHistory + [tail];
      head := Add(head, CommandCard[cmd]);
      if RectDistance(head, tail) > 1 {
        tail := Add(tail, RectNormalize(Sub(head, tail)));
      }
      k := k + 1;
    }
    assert commands[..|commands|] == commands;
    result := Some((head, tail, |ToSet(tailHistory)|));
  }

  /** A two-knot rope moves its head and lets the tail follow. */
  lemma MovePair(hd: Coords, tl: Coords, cmd: char)
    requires cmd in CommandCard
    ensures Move([hd, tl], cmd).Some?
    ensures Move([hd, tl], cmd).value == [Add(hd, CommandCard[cmd]), Follow(Add(hd, CommandCard[cmd]), tl)]
  {
    var h2 := Add(hd, CommandCard[cmd]);
    assert [hd, tl][1..] == [tl];
    assert Drag(h2, [tl]) == [Follow(h2, tl)] + Drag(Follow(h2, tl), []);
  }

  /**
   * The inner loop of `solve_p2`: knot `i + 1` follows knot `i` for each
   * `i` in turn.  `zip(rope, rope[1:])` reads each leader after its own
   * update and each follower before it, which is this order.
   */
  method DragKnots(rope: array<Coords>)
    requires rope.Length > 0
    modifies rope
    ensures rope[..] == [old(rope[0])] + Drag(old(rope[0]), old(rope[1..]))
  {
    ghost var orig := rope[..];
    ghost var whole := [orig[0]] + Drag(orig[0], orig[1..]);
    var i := 0;
    while i + 1 < rope.Length
      invariant 0 <= i < rope.Length
      invariant forall k :: i < k < rope.Length ==> rope[k] == orig[k]
      invariant rope[..i + 1] + Drag(rope[i], orig[i + 1..]) == whole
    {
      ghost var done := rope[..i + 1];
      var next := Follow(rope[i], rope[i + 1]);
      DragStep(rope[i], done, orig[i + 1..]);
      assert orig[i + 1..][1..] == orig[i + 2..];
      rope[i + 1] := next;
      assert rope[..i + 2] == done + [next];
      i := i + 1;
    }
    assert rope[..i + 1] == rope[..];
  }

  /** Dragging one more knot moves it from the rest of the rope to the finished part. */
  lemma DragStep(lead: Coords, done: seq<Coords>, rest: seq<Coords>)
    requires |rest| > 0
    ensures done + Drag(lead, rest) == (done + [Follow(lead, rest[0])]) + Drag(Follow(lead, rest[0]), rest[1..])
  {
  }

  /** One step of `solve_p2`'s loop: move the head by the command's unit, then drag the other knots. */
  method MoveRope(rope: array<Coords>, cmd: char)
    requires rope.Length > 0 && cmd in CommandCard
    modifies rope
    ensures rope[..] == Move(old(rope[..]), cmd).value
  {
    ghost var before := rope[..];
    rope[0] := Add(rope[0], CommandCard[cmd]);
    assert rope[1..] == before[1..];
    DragKnots(rope);
  }

  /**
   * `solve_p2`: ten knots from the origin; before each step the last
   * knot's position is recorded.  Gives the number of distinct recorded
   * positions.
   */
  method SolveP2(lines: seq<string>) returns (result: Option<nat>)
    ensures result.None? <==> Commands(lines).None? || Simulate(Start(10), Commands(lines).value).None?
    ensures result.Some? ==> Simulate(Start(10), Commands(lines).value).Some?
    ensures result.Some? ==> result.value == |ToSet(Simulate(Start(10), Commands(lines).value).value.1)|
  {
    var cmds := Commands(lines);
    if cmds.None? {
      return None;
    }
    var rope := new Coords[10](_ => Origin);
    assert rope[..] == Start(10);
    var history := RunRope(rope, cmds.value);
    if history.None? {
      return None;
    }
    result := Some(|ToSet(history.value)|);
  }

  /** The loop of `solve_p2`: move the rope through every command, recording the last knot before each step. */
  method RunRope(rope: array<Coords>, commands: seq<char>) returns (history: Option<seq<Coords>>)
    requires rope.Length > 0
    modifies rope
    ensures history.None? <==> Simulate(old(rope[..]), commands).None?
    ensures history.Some? ==> history.value == Simulate(old(rope[..]), commands).value.1
  {
    ghost var start := rope[..];
    var last := rope.Length - 1;
    var tailHistory := [];
    var k := 0;
    while k < |commands|
      invariant 0 <= k <= |commands|
      invariant Simulate(start, commands[..k]).Some?
      invariant Simulate(start, commands[..k]).value.0 == rope[..]
      invariant Simulate(start, commands[..k]).value.1 == tailHistory
    {
      var cmd := commands[k];
      SimulateStep(start, commands, k);
      if cmd !in CommandCard {
        SimulatePrefixFails(start, commands, k + 1);
        return None;
      }
      ghost var state := Simulate(start, commands[..k]).value;
      AdvanceMoves(state.0, state.1, cmd);
      tailHistory := tailHistory + [rope[last]];
      MoveRope(rope, cmd);
      k := k + 1;
    }
    assert commands[..|commands|] == commands;
    return Some(tailHistory);
  }

  // ---------------------------------------------------------------------
  // Properties

  /** The head moves exactly one orthogonal unit per step. */
  lemma HeadMovesOneUnit(rope: seq<Coords>, cmd: char)
    requires |rope| > 0 && Move(rope, cmd).Some?
    ensures ManhattanDistance(rope[0], Move(rope, cmd).value[0]) == 1
  {
    CardUnit(cmd);
  }

  /** A knot moves only when its leader is more than 1 away, and then by at most 1 on each axis. */
  lemma FollowSteps(hd: Coords, tl: Coords)
    ensures RectDistance(hd, tl) <= 1 ==> Follow(hd, tl) == tl
    ensures RectDistance(tl, Follow(hd, tl)) <= 1
  {
  }

  /** A leader at most 2 away is at most 1 away after the follower's update. */
  lemma FollowCloses(hd: Coords, tl: Coords)
    requires RectDistance(hd, tl) <= 2
    ensures RectDistance(hd, Follow(hd, tl)) <= 1
  {
  }

  /** Every adjacent pair of knots is within rect distance 1. */
  predicate Taut(rope: seq<Coords>) {
    forall i :: 0 <= i < |rope| - 1 ==> RectDistance(rope[i], rope[i + 1]) <= 1
  }

  /** Moving one knot by at most 1 on each axis grows its distance to another by at most 1. */
  lemma ShiftDistance(a: Coords, a2: Coords, b: Coords)
    requires RectDistance(a, a2) <= 1
    ensures RectDistance(a2, b) <= RectDistance(a, b) + 1
  {
  }

  /** Dragging a taut line of knots behind a leader at most 2 from the first leaves a taut rope. */
  lemma {:induction false} DragTaut(lead: Coords, knots: seq<Coords>)
    requires Taut(knots)
    requires |knots| > 0 ==> RectDistance(lead, knots[0]) <= 2
    ensures Taut([lead] + Drag(lead, knots))
    decreases |knots|
  {
    if |knots| > 0 {
      var k := Follow(lead, knots[0]);
      var rest := knots[1..];
      FollowCloses(lead, knots[0]);
      FollowSteps(lead, knots[0]);
      if |rest| > 0 {
        RectDistanceSymmetric(knots[0], k);
        ShiftDistance(knots[0], k, rest[0]);
      }
      assert Taut(rest) by {
        forall i | 0 <= i < |rest| - 1 ensures RectDistance(rest[i], rest[i + 1]) <= 1 {
          assert rest[i] == knots[i + 1] && rest[i + 1] == knots[i + 2];
        }
      }
      DragTaut(k, rest);
      var tailPart := [k] + Drag(k, rest);
      var r := [lead] + tailPart;
      forall i | 0 <= i < |r| - 1 ensures RectDistance(r[i], r[i + 1]) <= 1 {
        if i > 0 {
          assert r[i] == tailPart[i - 1] && r[i + 1] == tailPart[i];
        }
      }
    }
  }

  /**
   * After every step each adjacent pair of knots is within rect distance 1:
   * moving the head of a taut rope by a step of at most 1 and dragging the
   * rest keeps it taut.
   */
  lemma MoveKeepsTaut(rope: seq<Coords>, d: Coords)
    requires |rope| > 0 && Taut(rope) && RectDistance(Origin, d) <= 1
    ensures Taut([Add(rope[0], d)] + Drag(Add(rope[0], d), rope[1..]))
  {
    var hd := Add(rope[0], d);
    var knots := rope[1..];
    UnitShift(rope[0], d);
    TautTail(rope);
    if |knots| > 0 {
      ShiftDistance(rope[0], hd, knots[0]);
    }
    DragTaut(hd, knots);
  }

  /** A step by a vector within 1 of the origin stays within 1. */
  lemma UnitShift(a: Coords, d: Coords)
    requires RectDistance(Origin, d) <= 1
    ensures RectDistance(a, Add(a, d)) <= 1
  {
  }

  /** The knots behind the head of a taut rope are taut. */
  lemma TautTail(rope: seq<Coords>)
    requires |rope| > 0 && Taut(rope)
    ensures Taut(rope[1..])
  {
    var knots := rope[1..];
    forall i | 0 <= i < |knots| - 1 ensures RectDistance(knots[i], knots[i + 1]) <= 1 {
      assert knots[i] == rope[i + 1] && knots[i + 1] == rope[i + 2];
    }
  }

  /**
   * From a rope at the origin, the rope stays taut throughout, and the
   * history has one entry per step, the first at the origin.
   */
  lemma {:induction false} SimulateTaut(n: nat, commands: string)
    requires n > 0 && Simulate(Start(n), commands).Some?
    ensures Taut(Simulate(Start(n), commands).value.0)
    ensures |Simulate(Start(n), commands).value.1| == |commands|
    ensures |commands| > 0 ==> Simulate(Start(n), commands).value.1[0] == Origin
  {
    if |commands| > 0 {
      var k := |commands| - 1;
      SimulateStep(Start(n), commands, k);
      assert commands[..k + 1] == commands;
      var init := commands[..k];
      assert Simulate(Start(n), init).Some?;
      SimulateTaut(n, init);
      var (r, history) := Simulate(Start(n), init).value;
      CardUnit(commands[k]);
      MoveKeepsTaut(r, CommandCard[commands[k]]);
      if k == 0 {
        assert r == Start(n);
      }
    }
  }
}
