// Day 10 of aoc2022/day10.py: a one-register CPU whose `noop` takes one
// cycle and whose `addx n` takes two and then adds `n`; part 1 samples the
// register every 40 cycles from cycle 20, part 2 draws a 40 x 6 display.
module Day10 {
  import opened Wrappers
  import opened Seqs
  import Text
  import Grids
  import Ints

  const Width: nat := 40
  const Height: nat := 6
  const TotalCells: nat := Width * Height

  datatype Instruction = Noop | Addx(amount: int)

  /** The `cycles` field: 1 for `noop`, 2 for `addx`. */
  function Cycles(ins: Instruction): (n: nat)
    ensures 1 <= n <= 2
    ensures n == 2 <==> ins.Addx?
  {
    match ins
    case Noop => 1
    case Addx(_) => 2
  }

  /** `parse_instruction`: "noop", or "addx" and an integer; anything else fails. */
  function ParseInstruction(line: string): Option<Instruction>
  {
    ParseParts(Text.Split(line, ' '))
  }

  /** The `match` on the pieces of the line. */
  function ParseParts(parts: seq<string>): Option<Instruction>
  {
    if parts == ["noop"] then Some(Noop)
    else if |parts| == 2 && parts[0] == "addx" then
      match Text.ParseInt(parts[1])
      case Some(n) => Some(Addx(n))
      case None => None
    else None
  }

  /** The text of an instruction, as the puzzle input writes it. */
  function ShowInstruction(ins: Instruction): string
  {
    match ins
    case Noop => "noop"
    case Addx(n) => "addx " + Text.ShowInt(n)
  }

  /** Every instruction parses back from its text. */
  lemma ParseShown(ins: Instruction)
    ensures ParseInstruction(ShowInstruction(ins)).Some?
    ensures ParseInstruction(ShowInstruction(ins)).value == ins
  {
    match ins
    case Noop =>
      Text.SplitNoSep("noop", ' ');
    case Addx(n) =>
      Text.ShowIntChars(n, ' ');
      Text.ParseShowInt(n);
      ParseAddx(Text.ShowInt(n), n);
  }

  /** "addx " followed by a spaceless word that reads as `n` parses as `addx n`. */
  lemma ParseAddx(num: string, n: int)
    requires ' ' !in num && Text.ParseInt(num) == Some(n)
    ensures ParseInstruction("addx " + num) == Some(Addx(n))
  {
    Text.SplitPrefix("addx", num, ' ');
    Text.SplitNoSep(num, ' ');
    assert "addx " + num == "addx" + [' '] + num;
    assert Text.Split("addx " + num, ' ') == ["addx", num];
  }

  /** `[parse_instruction(line) for line in lines]`. */
  function ParseProgram(lines: seq<string>): (r: Option<seq<Instruction>>)
    ensures r.Some? <==> forall i :: 0 <= i < |lines| ==> ParseInstruction(lines[i]).Some?
    ensures r.Some? ==> |r.value| == |lines|
    ensures r.Some? ==> forall i :: 0 <= i < |lines| ==> r.value[i] == ParseInstruction(lines[i]).value
  {
    var xs := seq(|lines|, i requires 0 <= i < |lines| => ParseInstruction(lines[i]));
    assert |xs| == |lines| && forall i :: 0 <= i < |lines| ==> xs[i] == ParseInstruction(lines[i]);
    AllSome(xs)
  }

  // ---------------------------------------------------------------------
  // The register over time

  /** The register at the end of each cycle of one instruction started with `x`. */
  function StepsAfter(ins: Instruction, x: int): (r: seq<int>)
    ensures |r| == Cycles(ins)
  {
    match ins
    case Noop => [x]
    case Addx(n) => [x, x + n]
  }

  /** The register during each cycle of one instruction started with `x`. */
  function StepsDuring(ins: Instruction, x: int): (r: seq<int>)
    ensures |r| == Cycles(ins)
  {
    match ins
    case Noop => [x]
    case Addx(_) => [x, x]
  }

  /** The register once every instruction has finished. */
  function Final(prog: seq<Instruction>, x: int): int
  {
    if |prog| == 0 then x
    else
      var last := prog[|prog| - 1];
      var before := Final(prog[..|prog| - 1], x);
      StepsAfter(last, before)[Cycles(last) - 1]
  }

  /** The register at the end of cycle `k + 1`, for every cycle of the program. */
  function After(prog: seq<Instruction>, x: int): seq<int>
  {
    if |prog| == 0 then []
    else
      var pre := prog[..|prog| - 1];
      After(pre, x) + StepsAfter(prog[|prog| - 1], Final(pre, x))
  }

  /** The register during cycle `k + 1`, for every cycle of the program. */
  function During(prog: seq<Instruction>, x: int): seq<int>
  {
    if |prog| == 0 then []
    else
      var pre := prog[..|prog| - 1];
      During(pre, x) + StepsDuring(prog[|prog| - 1], Final(pre, x))
  }

  /** The number of cycles a program takes. */
  function TotalCycles(prog: seq<Instruction>): nat
  {
    if |prog| == 0 then 0 else TotalCycles(prog[..|prog| - 1]) + Cycles(prog[|prog| - 1])
  }

  /** The sum of the `addx` amounts. */
  function Added(prog: seq<Instruction>): int
  {
    if |prog| == 0 then 0
    else
      var last := prog[|prog| - 1];
      Added(prog[..|prog| - 1]) + (if last.Addx? then last.amount else 0)
  }

  /** One cycle of the trace per instruction cycle, and the register ends at `x` plus every amount. */
  lemma {:induction false} TraceShape(prog: seq<Instruction>, x: int)
    ensures |After(prog, x)| == TotalCycles(prog)
    ensures |During(prog, x)| == TotalCycles(prog)
    ensures Final(prog, x) == x + Added(prog)
    ensures |prog| > 0 ==> After(prog, x)[TotalCycles(prog) - 1] == Final(prog, x)
  {
    if |prog| > 0 {
      TraceShape(prog[..|prog| - 1], x);
    }
  }

  /**
   * The register during a cycle is its value at the end of the cycle
   * before, or the start value in the first cycle: `rx` only changes at
   * the end of the last cycle of an `addx`.
   */
  lemma {:induction false} DuringIsAfterShifted(prog: seq<Instruction>, x: int)
    ensures |During(prog, x)| == |After(prog, x)|
    ensures forall k :: 0 <= k < |During(prog, x)| ==>
      During(prog, x)[k] == if k == 0 then x else After(prog, x)[k - 1]
  {
    TraceShape(prog, x);
    if |prog| > 0 {
      var pre := prog[..|prog| - 1];
      DuringIsAfterShifted(pre, x);
      TraceShape(pre, x);
    }
  }

  /**
   * An instruction changes the register only at the end of its last cycle,
   * and only an `addx`, by exactly its amount.
   */
  lemma RegisterChanges(ins: Instruction, x: int)
    ensures forall k :: 0 <= k < Cycles(ins) - 1 ==> StepsAfter(ins, x)[k] == x
    ensures StepsAfter(ins, x)[Cycles(ins) - 1] == x + (if ins.Addx? then ins.amount else 0)
    ensures forall k :: 0 <= k < Cycles(ins) ==> StepsDuring(ins, x)[k] == x
  {
  }

  // ---------------------------------------------------------------------
  // Part 1: samples

  /** Cycle `c` is sampled when `(c - 20) % 40 == 0`: 20, 60, 100, ... */
  predicate Sampled(c: int) { Ints.DivMod(c - 20, 40).1 == 0 }

  lemma SampledMeaning(c: int)
    ensures Sampled(c) <==> (c - 20) % 40 == 0
  {
    Ints.DivModPositive(c - 20, 40);
  }

  /** `increment_cycle`: the next cycle, and the samples with `(cycle, rx)` appended when it is sampled. */
  function IncrementCycle(cycle: int, rx: int, samples: seq<(int, int)>): (int, seq<(int, int)>)
  {
    var next := cycle + 1;
    (next, if Sampled(next) then samples + [(next, rx)] else samples)
  }

  /**
   * `increment_cycle` moves to the next cycle and records `(cycle, rx)`
   * for it exactly when that cycle is 20 more than a multiple of 40,
   * keeping the samples taken so far.
   */
  lemma IncrementCycleRecords(cycle: int, rx: int, samples: seq<(int, int)>)
    ensures IncrementCycle(cycle, rx, samples).0 == cycle + 1
    ensures (cycle + 1 - 20) % 40 == 0 ==> IncrementCycle(cycle, rx, samples).1 == samples + [(cycle + 1, rx)]
    ensures (cycle + 1 - 20) % 40 != 0 ==> IncrementCycle(cycle, rx, samples).1 == samples
  {
    SampledMeaning(cycle + 1);
  }

  /**
   * The samples the loop records when the register ends cycle `k + 1` at
   * `after[k]`: cycle `k + 2` begins then.
   */
  function Samples(after: seq<int>): seq<(int, int)>
  {
    if |after| == 0 then []
    else IncrementCycle(|after|, after[|after| - 1], Samples(after[..|after| - 1])).1
  }

  /** A sample is recorded exactly for each sampled cycle the program reaches, with the register then. */
  lemma {:induction false} SamplesMeaning(after: seq<int>)
    ensures forall s :: s in Samples(after) ==>
      2 <= s.0 <= |after| + 1 && Sampled(s.0) && s.1 == after[s.0 - 2]
    ensures forall c :: 2 <= c <= |after| + 1 && Sampled(c) ==> (c, after[c - 2]) in Samples(after)
  {
    if |after| > 0 {
      var pre := after[..|after| - 1];
      SamplesMeaning(pre);
      forall c | 2 <= c <= |after| + 1 && Sampled(c) ensures (c, after[c - 2]) in Samples(after) {
        if c <= |pre| + 1 {
          assert (c, pre[c - 2]) in Samples(pre);
        }
      }
    }
  }

  /**
   * Each sample inside the program's run holds the register during its
   * cycle: the value the signal strength is defined on.
   */
  lemma SampleIsDuring(prog: seq<Instruction>)
    ensures forall s :: s in Samples(After(prog, 1)) && 1 <= s.0 <= |During(prog, 1)| ==>
      s.1 == During(prog, 1)[s.0 - 1]
  {
    SamplesMeaning(After(prog, 1));
    DuringIsAfterShifted(prog, 1);
    TraceShape(prog, 1);
  }

  /** Samples are recorded in increasing cycle order. */
  lemma {:induction false} SamplesOrdered(after: seq<int>)
    ensures forall i, j :: 0 <= i < j < |Samples(after)| ==> Samples(after)[i].0 < Samples(after)[j].0
    ensures forall i :: 0 <= i < |Samples(after)| ==> Samples(after)[i].0 <= |after| + 1
  {
    if |after| > 0 {
      SamplesOrdered(after[..|after| - 1]);
    }
  }

  /** `[cycle * x for cycle, x in samples if 19 < cycle < 221]`. */
  function Strengths(samples: seq<(int, int)>): seq<int>
  {
    if |samples| == 0 then []
    else
      var (c, x) := samples[|samples| - 1];
      Strengths(samples[..|samples| - 1]) + (if 19 < c < 221 then [c * x] else [])
  }

  /** `reduce(add, strengths)`: Python's `reduce` without a start value fails on an empty list. */
  function SignalTotal(samples: seq<(int, int)>): (r: Option<int>)
    ensures r.Some? <==> |Strengths(samples)| > 0
    ensures r.Some? ==> r.value == Sum(Strengths(samples))
  {
    var s := Strengths(samples);
    if |s| == 0 then None else Some(Sum(s))
  }

  /** There is a strength to add up exactly when the program reaches cycle 20. */
  lemma SignalNeedsCycle20(after: seq<int>)
    ensures |Strengths(Samples(after))| > 0 <==> |after| >= 19
  {
    SamplesMeaning(after);
    if |after| >= 19 {
      assert Sampled(20);
      assert (20, after[18]) in Samples(after);
      StrengthsOfMember(Samples(after), (20, after[18]));
    } else {
      StrengthsEmpty(Samples(after));
    }
  }

  lemma {:induction false} StrengthsOfMember(samples: seq<(int, int)>, s: (int, int))
    requires s in samples && 19 < s.0 < 221
    ensures |Strengths(samples)| > 0
  {
    var last := samples[|samples| - 1];
    if s != last {
      assert s in samples[..|samples| - 1];
      StrengthsOfMember(samples[..|samples| - 1], s);
    }
  }

  lemma {:induction false} StrengthsEmpty(samples: seq<(int, int)>)
    requires forall s :: s in samples ==> s.0 > 221 || s.0 < 20
    ensures Strengths(samples) == []
  {
    if |samples| > 0 {
      assert samples[|samples| - 1] in samples;
      forall s | s in samples[..|samples| - 1] ensures s.0 > 221 || s.0 < 20 {
        assert s in samples;
      }
      StrengthsEmpty(samples[..|samples| - 1]);
    }
  }

  /** Running one more instruction extends the traces by its cycles. */
  lemma ProgramStep(prog: seq<Instruction>, i: nat, x: int)
    requires i < |prog|
    ensures Final(prog[..i + 1], x) == StepsAfter(prog[i], Final(prog[..i], x))[Cycles(prog[i]) - 1]
    ensures After(prog[..i + 1], x) == After(prog[..i], x) + StepsAfter(prog[i], Final(prog[..i], x))
    ensures During(prog[..i + 1], x) == During(prog[..i], x) + StepsDuring(prog[i], Final(prog[..i], x))
  {
    assert prog[..i + 1][..i] == prog[..i];
  }

  /** One more cycle of the trace adds the sample `increment_cycle` takes, if any. */
  lemma SampleAppend(trace: seq<int>, x: int)
    ensures Samples(trace + [x]) == IncrementCycle(|trace| + 1, x, Samples(trace)).1
  {
    assert (trace + [x])[..|trace|] == trace;
  }

  lemma TakeOneMore(pre: seq<int>, steps: seq<int>, d: nat)
    requires d < |steps|
    ensures pre + steps[..d + 1] == (pre + steps[..d]) + [steps[d]]
  {
    assert steps[..d + 1] == steps[..d] + [steps[d]];
  }

  /**
   * The inner loop of `solve_p1` for one instruction: one `increment_cycle`
   * per cycle it takes, the `addx` amount added when its last cycle ends.
   */
  method SampleInstruction(ins: Instruction, cycle0: int, rx0: int, samples0: seq<(int, int)>,
                           ghost trace: seq<int>)
    returns (cycle: int, rx: int, samples: seq<(int, int)>)
    requires cycle0 == 1 + |trace| && samples0 == Samples(trace)
    ensures rx == StepsAfter(ins, rx0)[Cycles(ins) - 1]
    ensures cycle == 1 + |trace + StepsAfter(ins, rx0)|
    ensures samples == Samples(trace + StepsAfter(ins, rx0))
  {
    ghost var steps := StepsAfter(ins, rx0);
    cycle, rx, samples := cycle0, rx0, samples0;
    var wait := Cycles(ins);
    ghost var seen := trace;
    while wait >= 1
      invariant 0 <= wait <= Cycles(ins)
      invariant rx == if wait == 0 then steps[Cycles(ins) - 1] else rx0
      invariant seen == trace + steps[..Cycles(ins) - wait]
      invariant cycle == 1 + |seen|
      invariant samples == Samples(seen)
    {
      wait := wait - 1;
      if wait == 0 {
        match ins {
          case Addx(n) => rx := rx + n;
          case Noop =>
        }
      }
      ghost var done := Cycles(ins) - wait;
      assert rx == steps[done - 1];
      TakeOneMore(trace, steps, done - 1);
      SampleAppend(seen, rx);
      seen := seen + [rx];
      var next := IncrementCycle(cycle, rx, samples);
      cycle, samples := next.0, next.1;
    }
    assert steps[..Cycles(ins)] == steps;
  }

  /**
   * `solve_p1`: runs the program from `rx = 1` at cycle 1 and adds up the
   * signal strengths sampled at cycles 20 to 220.  A bad line or a program
   * that never reaches cycle 20 fails.
   */
  method SolveP1(lines: seq<string>) returns (answer: Option<int>)
    ensures ParseProgram(lines).None? ==> answer.None?
    ensures ParseProgram(lines).Some? ==>
      answer == SignalTotal(Samples(After(ParseProgram(lines).value, 1)))
  {
    var parsed := ParseProgram(lines);
    if parsed.None? {
      return None;
    }
    var prog := parsed.value;
    var rx := 1;
    var cycle := 1;
    var samples: seq<(int, int)> := [];
    for i := 0 to |prog|
      invariant rx == Final(prog[..i], 1)
      invariant cycle == 1 + |After(prog[..i], 1)|
      invariant samples == Samples(After(prog[..i], 1))
    {
      ProgramStep(prog, i, 1);
      cycle, rx, samples := SampleInstruction(prog[i], cycle, rx, samples, After(prog[..i], 1));
    }
    assert prog[..|prog|] == prog;
    answer := SignalTotal(samples);
  }

  // ---------------------------------------------------------------------
  // Part 2: the display

  /** `divmod` of the cycle onto the display: column and row of `(cycle - 1) mod 240`. */
  function ScreenPos(cycle: int): (int, int)
  {
    var pos := Ints.DivMod(cycle - 1, TotalCells).1;
    var rowCol := Ints.DivMod(pos, Width);
    (rowCol.1, rowCol.0)
  }

  /** Every cycle draws a cell on the display. */
  lemma ScreenPosBounds(cycle: int)
    ensures 0 <= ScreenPos(cycle).0 < Width && 0 <= ScreenPos(cycle).1 < Height
  {
    var pos := Ints.DivMod(cycle - 1, TotalCells).1;
    Ints.DivModPositive(cycle - 1, TotalCells);
    Ints.DivModPositive(pos, Width);
  }

  /** The cell a cycle draws is number `(cycle - 1) % 240` in row-major order. */
  lemma ScreenPosMeaning(cycle: int)
    ensures ScreenPos(cycle).1 * Width + ScreenPos(cycle).0 == (cycle - 1) % TotalCells
  {
    var pos := Ints.DivMod(cycle - 1, TotalCells).1;
    Ints.DivModPositive(cycle - 1, TotalCells);
    Ints.DivModPositive(pos, Width);
  }

  /** The pixel drawn in column `col` while the register is `rx`: lit when the sprite covers it. */
  function Pixel(col: int, rx: int): (p: string)
    ensures p == "#" <==> rx - 1 <= col <= rx + 1
    ensures p == "#" || p == "."
  {
    if rx - 1 <= col <= rx + 1 then "#" else "."
  }

  /**
   * `update_display`: exactly the cell of this cycle is written, with its
   * pixel; on a display that shows the trace `drawn` so far, the display
   * then shows the trace with this cycle's register added.
   */
  method UpdateDisplay(cycle: int, rx: int, display: Grids.Grid<string>, ghost drawn: seq<int>)
    requires display.Valid() && display.width == Width && display.height == Height
    modifies display
    ensures display.Valid() && display.width == Width && display.height == Height
    ensures 0 <= ScreenPos(cycle).0 < Width && 0 <= ScreenPos(cycle).1 < Height
    ensures display.cells == Grids.Updated(old(display.cells), ScreenPos(cycle).0, ScreenPos(cycle).1,
      Pixel(ScreenPos(cycle).0, rx))
    ensures old(display.cells) == Screen(drawn) && cycle == |drawn| + 1 ==>
      display.cells == Screen(drawn + [rx])
  {
    ScreenAppend(drawn, rx);
    var pos := Ints.DivMod(cycle - 1, TotalCells).1;
    var row, col := Ints.DivMod(pos, Width).0, Ints.DivMod(pos, Width).1;
    Ints.DivModPositive(cycle - 1, TotalCells);
    Ints.DivModPositive(pos, Width);
    if rx - 1 <= col <= rx + 1 {
      display.Set(col, row, "#");
    } else {
      display.Set(col, row, ".");
    }
  }

  /** The display after drawing cycle `k + 1` with the register at `during[k]`, from a blank one. */
  function Screen(during: seq<int>): (s: seq<seq<string>>)
    ensures |s| == Height && forall y :: 0 <= y < Height ==> |s[y]| == Width
  {
    if |during| == 0 then Grids.Fill(Width, Height, ".")
    else
      var pos := ScreenPos(|during|);
      ScreenPosBounds(|during|);
      Grids.Updated(Screen(during[..|during| - 1]), pos.0, pos.1, Pixel(pos.0, during[|during| - 1]))
  }

  /** One more cycle of the trace draws the cell `update_display` writes. */
  lemma ScreenAppend(trace: seq<int>, x: int)
    ensures 0 <= ScreenPos(|trace| + 1).0 < Width && 0 <= ScreenPos(|trace| + 1).1 < Height
    ensures Screen(trace + [x]) == Grids.Updated(Screen(trace),
      ScreenPos(|trace| + 1).0, ScreenPos(|trace| + 1).1, Pixel(ScreenPos(|trace| + 1).0, x))
  {
    assert (trace + [x])[..|trace|] == trace;
    ScreenPosBounds(|trace| + 1);
  }

  /** The last of the first `n` cycles that draws cell `(col, row)`, as an index into the trace. */
  function LastDraw(n: nat, col: nat, row: nat): (k: Option<nat>)
    ensures k.Some? ==> k.value < n && ScreenPos(k.value + 1) == (col, row)
    ensures k.Some? ==> forall c :: k.value + 1 < c <= n ==> ScreenPos(c) != (col, row)
    ensures k.None? ==> forall c :: 1 <= c <= n ==> ScreenPos(c) != (col, row)
  {
    if n == 0 then None
    else if ScreenPos(n) == (col, row) then Some(n - 1)
    else LastDraw(n - 1, col, row)
  }

  /**
   * Each cell of the display shows the pixel of the last cycle that drew
   * it, or stays blank when no cycle reached it.
   */
  lemma {:induction false} ScreenCell(during: seq<int>, col: nat, row: nat)
    requires col < Width && row < Height
    ensures LastDraw(|during|, col, row).None? ==> Screen(during)[row][col] == "."
    ensures LastDraw(|during|, col, row).Some? ==>
      Screen(during)[row][col] == Pixel(col, during[LastDraw(|during|, col, row).value])
  {
    if |during| > 0 {
      var pre := during[..|during| - 1];
      ScreenCell(pre, col, row);
    }
  }

  /**
   * With at least 240 cycles every cell has been drawn, by one of the
   * last 240 cycles: the display shows the final frame.
   */
  lemma LastFrame(n: nat, col: nat, row: nat)
    requires col < Width && row < Height && n >= TotalCells
    ensures LastDraw(n, col, row).Some?
    ensures n - TotalCells <= LastDraw(n, col, row).value
  {
    var p := row * Width + col;
    var k := p + TotalCells * ((n - 1 - p) / TotalCells);
    Ints.DivModPositive(n - 1 - p, TotalCells);
    assert n - TotalCells <= k < n;
    assert k % TotalCells == p;
    ScreenPosMeaning(k + 1);
    ScreenPosBounds(k + 1);
    SamePos(ScreenPos(k + 1).0, ScreenPos(k + 1).1, col, row);
    DrawnBefore(n, k, col, row);
  }

  lemma {:induction false} DrawnBefore(n: nat, k: nat, col: nat, row: nat)
    requires k < n && ScreenPos(k + 1) == (col, row)
    ensures LastDraw(n, col, row).Some? && k <= LastDraw(n, col, row).value
  {
    if ScreenPos(n) != (col, row) {
      DrawnBefore(n - 1, k, col, row);
    }
  }

  /** A cell position has one column and row. */
  lemma SamePos(c: nat, r: nat, col: nat, row: nat)
    requires c < Width && col < Width && r < Height && row < Height
    requires r * Width + c == row * Width + col
    ensures c == col && r == row
  {
  }

  /**
   * The `while wait >= 1` loop of `solve_p2` for one instruction: each of
   * its cycles draws a cell with the register before the update, then
   * moves to the next cycle (the samples `increment_cycle` also collects
   * here are never read, and are not kept).
   */
  method DrawInstruction(ins: Instruction, grid: Grids.Grid<string>, cycle0: int, rx0: int,
                         ghost trace: seq<int>)
    returns (cycle: int, rx: int)
    requires grid.Valid() && grid.width == Width && grid.height == Height
    requires cycle0 == 1 + |trace| && grid.cells == Screen(trace)
    modifies grid
    ensures grid.Valid() && grid.width == Width && grid.height == Height
    ensures cycle == cycle0 + Cycles(ins)
    ensures rx == StepsAfter(ins, rx0)[Cycles(ins) - 1]
    ensures grid.cells == Screen(trace + StepsDuring(ins, rx0))
  {
    ghost var steps := StepsDuring(ins, rx0);
    cycle, rx := cycle0, rx0;
    var wait := Cycles(ins);
    ghost var drawn := trace;
    while wait >= 1
      invariant 0 <= wait <= Cycles(ins)
      invariant grid.Valid() && grid.width == Width && grid.height == Height
      invariant rx == if wait == 0 then StepsAfter(ins, rx0)[Cycles(ins) - 1] else rx0
      invariant drawn == trace + steps[..Cycles(ins) - wait]
      invariant cycle == 1 + |drawn|
      invariant grid.cells == Screen(drawn)
    {
      ghost var done := Cycles(ins) - wait;
      assert rx == steps[done];
      TakeOneMore(trace, steps, done);
      UpdateDisplay(cycle, rx, grid, drawn);
      drawn := drawn + [rx];
      wait := wait - 1;
      if wait == 0 {
        match ins {
          case Addx(n) => rx := rx + n;
          case Noop =>
        }
      }
      cycle := cycle + 1;
    }
    assert steps[..Cycles(ins)] == steps;
  }

  /**
   * `solve_p2`: runs the program as part 1 does and draws one cell per
   * cycle before the cycle's update; the result is the final display.
   */
  method SolveP2(lines: seq<string>) returns (display: Option<Grids.Grid<string>>)
    ensures ParseProgram(lines).None? ==> display.None?
    ensures ParseProgram(lines).Some? ==> display.Some? && display.value.Valid()
    ensures ParseProgram(lines).Some? ==> display.value.cells == Screen(During(ParseProgram(lines).value, 1))
  {
    var parsed := ParseProgram(lines);
    if parsed.None? {
      return None;
    }
    var prog := parsed.value;
    var rx := 1;
    var cycle := 1;
    var grid := new Grids.Grid<string>(Width, Height, ".");
    for i := 0 to |prog|
      invariant grid.Valid() && grid.width == Width && grid.height == Height
      invariant rx == Final(prog[..i], 1)
      invariant cycle == 1 + |During(prog[..i], 1)|
      invariant grid.cells == Screen(During(prog[..i], 1))
    {
      ProgramStep(prog, i, 1);
      cycle, rx := DrawInstruction(prog[i], grid, cycle, rx, During(prog[..i], 1));
    }
    assert prog[..|prog|] == prog;
    display := Some(grid);
  }
}
