// Day 5 of aoc2022/day5.py: stacks of crates drawn as text, and the crane
// instructions that move crates between them.  The list of stacks is an
// array whose entries are the individual stacks, top of stack last.
module Day5 {
  import opened Wrappers
  import opened Seqs
  import Text
  import Util

  /** `Instruction(f, t, c)`: move `c` crates from stack `f` to stack `t` (1-based). */
  datatype Instruction = Instruction(moveFrom: int, moveTo: int, moveCount: int)

  /** `data[1:]`. */
  function Tail<T>(s: seq<T>): seq<T> { if |s| == 0 then [] else s[1..] }

  // ---------------------------------------------------------------------
  // Reading the drawing

  /** `initialize_stacks(first_line)`: `len(first_line) // 4` empty stacks; a trailing newline counts. */
  method InitializeStacks(firstLine: string) returns (stacks: array<seq<char>>)
    ensures fresh(stacks)
    ensures stacks.Length == |firstLine| / 4
    ensures forall i :: 0 <= i < stacks.Length ==> stacks[i] == []
  {
    stacks := new seq<char>[|firstLine| / 4](_ => []);
  }

  /** The crate letter a drawing row holds for stack `x`, in column `4x+1`. */
  function Letter(line: string, x: nat): Option<char>
  {
    if 4 * x + 1 < |line| && line[4 * x + 1] != ' ' then Some(line[4 * x + 1]) else None
  }

  /** The stacks after one drawing row: each stack with a letter in its column gets it on top. */
  function LoadRow(stacks: seq<seq<char>>, line: string): (r: seq<seq<char>>)
    ensures |r| == |stacks|
    ensures forall x :: 0 <= x < |stacks| ==>
      r[x] == if Letter(line, x).Some? then stacks[x] + [Letter(line, x).value] else stacks[x]
  {
    seq(|stacks|, x requires 0 <= x < |stacks| =>
      if Letter(line, x).Some? then stacks[x] + [Letter(line, x).value] else stacks[x])
  }

  /** The stacks after the drawing rows `rows`, in order. */
  function LoadRows(stacks: seq<seq<char>>, rows: seq<string>): (r: seq<seq<char>>)
    ensures |r| == |stacks|
  {
    if |rows| == 0 then stacks else LoadRow(LoadRows(stacks, rows[..|rows| - 1]), rows[|rows| - 1])
  }

  /** `data.reverse()`. */
  method ReverseInPlace(data: array<string>)
    modifies data
    ensures data[..] == Reversed(old(data[..]))
  {
    var n := data.Length;
    var i := 0;
    while i < n / 2
      invariant 0 <= i <= n / 2
      invariant forall k :: 0 <= k < i ==> data[k] == old(data[n - 1 - k]) && data[n - 1 - k] == old(data[k])
      invariant forall k :: i <= k < n - i ==> data[k] == old(data[k])
    {
      data[i], data[n - 1 - i] := data[n - 1 - i], data[i];
      i := i + 1;
    }
  }

  /** One row of `load_stacks`: each stack whose column holds a letter gets it on top. */
  method LoadRowInto(stacks: array<seq<char>>, line: string)
    modifies stacks
    ensures stacks[..] == LoadRow(old(stacks[..]), line)
  {
    ghost var before := stacks[..];
    var x := 0;
    while x < stacks.Length
      invariant 0 <= x <= stacks.Length
      invariant forall k :: 0 <= k < x ==> stacks[k] == LoadRow(before, line)[k]
      invariant forall k :: x <= k < stacks.Length ==> stacks[k] == before[k]
    {
      var index := 4 * x + 1;
      if |line| <= index {
        break;
      }
      var letter := line[index];
      if letter != ' ' {
        stacks[x] := stacks[x] + [letter];
      }
      x := x + 1;
    }
    var loaded := LoadRow(before, line);
    forall k | 0 <= k < stacks.Length ensures stacks[k] == loaded[k] {
      if x <= k {
        assert Letter(line, k).None?;
      }
    }
  }

  /**
   * `load_stacks(data, stacks)`: reverses `data` in place, then reads its
   * rows bottom-up, skipping the row of stack numbers; a row stops at the
   * first stack whose column lies beyond the end of the line.
   */
  method LoadStacks(data: array<string>, stacks: array<seq<char>>)
    requires data != stacks
    modifies data, stacks
    ensures data[..] == Reversed(old(data[..]))
    ensures stacks[..] == LoadRows(old(stacks[..]), Tail(data[..]))
  {
    ReverseInPlace(data);
    LoadRowsInto(stacks, Tail(data[..]));
  }

  /** The loop of `load_stacks` over the rows, bottom row first. */
  method LoadRowsInto(stacks: array<seq<char>>, rows: seq<string>)
    modifies stacks
    ensures stacks[..] == LoadRows(old(stacks[..]), rows)
  {
    ghost var initial := stacks[..];
    var r := 0;
    while r < |rows|
      invariant 0 <= r <= |rows|
      invariant stacks[..] == LoadRows(initial, rows[..r])
    {
      LoadRowInto(stacks, rows[r]);
      assert rows[..r + 1][..r] == rows[..r] && rows[..r + 1][r] == rows[r];
      r := r + 1;
    }
    assert rows[..r] == rows;
  }

  // ---------------------------------------------------------------------
  // Moving crates

  /**
   * The stacks after the top `count` crates of stack `fr` go onto stack
   * `to`: one at a time, which reverses them (`keepOrder` false, the
   * CrateMover 9000), or as one block (`keepOrder` true, the 9001).
   */
  function Moved(stacks: seq<seq<char>>, fr: nat, to: nat, count: nat, keepOrder: bool): (r: seq<seq<char>>)
    requires fr < |stacks| && to < |stacks| && (fr != to ==> count <= |stacks[fr]|)
    ensures |r| == |stacks|
  {
    if fr == to then stacks
    else
      var src := stacks[fr];
      var block := src[|src| - count..];
      stacks[fr := src[..|src| - count]][to := stacks[to] + (if keepOrder then block else Reversed(block))]
  }

  /**
   * What an instruction does, with its error cases: a stack number out of
   * range, or more crates than the source holds.  `execute` looks both
   * stacks up first; `execute_9001` looks up the source only to pop from it.
   * On the 9000 crane a move from a stack onto itself pops and pushes the
   * same stack, so it fails only when that stack is empty.
   */
  function Apply(stacks: seq<seq<char>>, ins: Instruction, keepOrder: bool): (r: Option<seq<seq<char>>>)
    ensures r.Some? ==> |r.value| == |stacks|
  {
    var n := |stacks|;
    var count := Max(0, ins.moveCount);
    var fr := PyIndex(n, ins.moveFrom - 1);
    var to := PyIndex(n, ins.moveTo - 1);
    if to.None? then None
    else if count == 0 then (if fr.None? && !keepOrder then None else Some(stacks))
    else if fr.None? then None
    else if !keepOrder && fr.value == to.value then (if |stacks[fr.value]| == 0 then None else Some(stacks))
    else if count > |stacks[fr.value]| then None
    else Some(Moved(stacks, fr.value, to.value, count, keepOrder))
  }

  /**
   * Moving crates from a stack onto itself leaves every stack as it was.
   * It fails on the 9000 crane only when the stack is empty (the first
   * `pop` raises) and on the 9001 when it holds fewer crates than asked.
   */
  lemma SameStackApply(stacks: seq<seq<char>>, ins: Instruction, keepOrder: bool)
    requires ins.moveCount > 0
    requires PyIndex(|stacks|, ins.moveFrom - 1).Some?
    requires PyIndex(|stacks|, ins.moveFrom - 1) == PyIndex(|stacks|, ins.moveTo - 1)
    ensures var k := PyIndex(|stacks|, ins.moveFrom - 1).value;
      Apply(stacks, ins, keepOrder).Some? <==> (if keepOrder then ins.moveCount <= |stacks[k]| else |stacks[k]| > 0)
    ensures Apply(stacks, ins, keepOrder).Some? ==> Apply(stacks, ins, keepOrder).value == stacks
  {
  }

  /** The loop of `execute`: `count` times, pop the top of stack `f` and push it onto stack `t`. */
  method PopPush(stacks: array<seq<char>>, f: nat, t: nat, count: nat)
    requires f < stacks.Length && t < stacks.Length
    requires f != t ==> count <= |stacks[f]|
    requires f == t && count > 0 ==> |stacks[f]| > 0
    modifies stacks
    ensures stacks[..] == Moved(old(stacks[..]), f, t, count, false)
  {
    ghost var s0 := stacks[..];
    ghost var len := |s0[f]|;
    var i := 0;
    while i < count
      invariant 0 <= i <= count
      invariant forall k :: 0 <= k < stacks.Length && k != f && k != t ==> stacks[k] == s0[k]
      invariant f == t ==> stacks[f] == s0[f]
      invariant f != t ==> stacks[f] == s0[f][..len - i] && stacks[t] == s0[t] + Reversed(s0[f][len - i..])
    {
      var top := stacks[f][|stacks[f]| - 1];
      stacks[f] := stacks[f][..|stacks[f]| - 1];
      stacks[t] := stacks[t] + [top];
      if f != t {
        ReversedSuffixStep(s0[f], len - i - 1);
      }
      i := i + 1;
    }
    if f != t {
      MovedAt(s0, f, t, count, false, stacks[..]);
    } else {
      assert stacks[..] == s0;
    }
  }

  /** Stacks that agree with `Moved` at the two stacks it touches, and with the start elsewhere, are `Moved`. */
  lemma MovedAt(s0: seq<seq<char>>, f: nat, t: nat, count: nat, keepOrder: bool, s1: seq<seq<char>>)
    requires f < |s0| && t < |s0| && count <= |s0[f]| && |s1| == |s0|
    requires forall k :: 0 <= k < |s0| && k != f && k != t ==> s1[k] == s0[k]
    requires f == t ==> s1[f] == s0[f]
    requires f != t ==> s1[f] == s0[f][..|s0[f]| - count]
    requires f != t ==> s1[t] == s0[t] + (if keepOrder then s0[f][|s0[f]| - count..] else Reversed(s0[f][|s0[f]| - count..]))
    ensures s1 == Moved(s0, f, t, count, keepOrder)
  {
    var m := Moved(s0, f, t, count, keepOrder);
    forall k | 0 <= k < |s0| ensures s1[k] == m[k] {
    }
  }

  /** Moving no crates leaves every stack as it was. */
  lemma MovedNothing(s0: seq<seq<char>>, f: nat, t: nat, keepOrder: bool)
    requires f < |s0| && t < |s0|
    ensures Moved(s0, f, t, 0, keepOrder) == s0
  {
    var m := Moved(s0, f, t, 0, keepOrder);
    forall k | 0 <= k < |s0| ensures m[k] == s0[k] {
      if f != t && k == t {
        assert m[k] == s0[t] + [];
      }
    }
  }

  /** `Instruction.execute(stacks)`: pop from the source and push onto the destination, `move_count` times. */
  method Execute(ins: Instruction, stacks: array<seq<char>>) returns (ok: bool)
    modifies stacks
    ensures ok == Apply(old(stacks[..]), ins, false).Some?
    ensures ok ==> stacks[..] == Apply(old(stacks[..]), ins, false).value
    ensures !ok ==> stacks[..] == old(stacks[..])
  {
    var n := stacks.Length;
    var fr := PyIndex(n, ins.moveFrom - 1);
    var to := PyIndex(n, ins.moveTo - 1);
    if fr.None? || to.None? {
      return false;
    }
    var count := Max(0, ins.moveCount);
    if fr.value == to.value {
      if count > 0 && |stacks[fr.value]| == 0 {
        return false;
      }
    } else if count > |stacks[fr.value]| {
      return false;
    }
    PopPush(stacks, fr.value, to.value, count);
    if count == 0 {
      MovedNothing(old(stacks[..]), fr.value, to.value, false);
    }
    return true;
  }

  /** The loop of `execute_9001`: pop `count` crates of stack `f` into a buffer, reverse it, extend stack `t`. */
  method MoveBlock(stacks: array<seq<char>>, f: nat, t: nat, count: nat)
    requires f < stacks.Length && t < stacks.Length && count <= |stacks[f]|
    modifies stacks
    ensures stacks[..] == Moved(old(stacks[..]), f, t, count, true)
  {
    ghost var s0 := stacks[..];
    ghost var len := |s0[f]|;
    var buffer: seq<char> := [];
    var i := 0;
    while i < count
      invariant 0 <= i <= count
      invariant forall k :: 0 <= k < stacks.Length && k != f ==> stacks[k] == s0[k]
      invariant stacks[f] == s0[f][..len - i] && buffer == Reversed(s0[f][len - i..])
    {
      buffer := buffer + [stacks[f][|stacks[f]| - 1]];
      stacks[f] := stacks[f][..|stacks[f]| - 1];
      ReversedSuffixStep(s0[f], len - i - 1);
      i := i + 1;
    }
    buffer := Reversed(buffer);
    ReversedTwice(s0[f][len - count..]);
    stacks[t] := stacks[t] + buffer;
    if f == t {
      assert s0[f][..len - count] + s0[f][len - count..] == s0[f];
    }
    MovedAt(s0, f, t, count, true, stacks[..]);
  }

  /** `Instruction.execute_9001(stacks)`: pop into a buffer, reverse it, extend the destination. */
  method Execute9001(ins: Instruction, stacks: array<seq<char>>) returns (ok: bool)
    modifies stacks
    ensures ok == Apply(old(stacks[..]), ins, true).Some?
    ensures ok ==> stacks[..] == Apply(old(stacks[..]), ins, true).value
    ensures !ok ==> stacks[..] == old(stacks[..])
  {
    var n := stacks.Length;
    var fr := PyIndex(n, ins.moveFrom - 1);
    var to := PyIndex(n, ins.moveTo - 1);
    var count := Max(0, ins.moveCount);
    if count > 0 && (fr.None? || count > |stacks[fr.value]|) {
      return false;
    }
    if to.None? {
      return false;
    }
    if count == 0 {
      return true;
    }
    MoveBlock(stacks, fr.value, to.value, count);
    return true;
  }

  lemma ReversedSuffixStep(s: seq<char>, k: nat)
    requires k < |s|
    ensures Reversed(s[k..]) == Reversed(s[k + 1..]) + [s[k]]
  {
  }

  /** `Instruction.parse(line)`: the words at positions 3, 5 and 1 are the source, destination and count. */
  function ParseInstruction(line: string): Option<Instruction>
  {
    var items := Text.Split(line, ' ');
    if |items| < 6 then None
    else
      var f := Text.ParseInt(items[3]);
      var t := Text.ParseInt(items[5]);
      var c := Text.ParseInt(items[1]);
      if f.Some? && t.Some? && c.Some? then Some(Instruction(f.value, t.value, c.value)) else None
  }

  /** One command line parsed and carried out. */
  function Step(stacks: seq<seq<char>>, command: string, keepOrder: bool): Option<seq<seq<char>>>
  {
    var ins := ParseInstruction(command);
    if ins.None? then None else Apply(stacks, ins.value, keepOrder)
  }

  /** The stacks after the commands in order; `None` once one fails. */
  function Run(stacks: seq<seq<char>>, commands: seq<string>, keepOrder: bool): Option<seq<seq<char>>>
  {
    if |commands| == 0 then Some(stacks)
    else
      var init := Run(stacks, commands[..|commands| - 1], keepOrder);
      if init.None? then None else Step(init.value, commands[|commands| - 1], keepOrder)
  }

  /** The top crate of every stack, in stack order; an empty stack raises. */
  function Tops(stacks: seq<seq<char>>): (r: Option<string>)
    ensures r.Some? <==> forall k :: 0 <= k < |stacks| ==> |stacks[k]| > 0
    ensures r.Some? ==> |r.value| == |stacks| && forall k :: 0 <= k < |stacks| ==> r.value[k] == stacks[k][|stacks[k]| - 1]
  {
    if |stacks| == 0 then Some("")
    else
      var init := Tops(stacks[..|stacks| - 1]);
      var last := stacks[|stacks| - 1];
      if init.Some? && |last| > 0 then Some(init.value + [last[|last| - 1]]) else None
  }

  /** The loop building the answer: `result += stack[-1]` for every stack. */
  method TopOfStacks(stacks: array<seq<char>>) returns (result: Option<string>)
    ensures result == Tops(stacks[..])
  {
    var s := "";
    var k := 0;
    while k < stacks.Length
      invariant 0 <= k <= stacks.Length
      invariant Tops(stacks[..k]) == Some(s)
    {
      assert stacks[..k + 1][..k] == stacks[..k];
      if |stacks[k]| == 0 {
        assert stacks[..] [k] == stacks[k];
        return None;
      }
      s := s + [stacks[k][|stacks[k]| - 1]];
      k := k + 1;
    }
    assert stacks[..k] == stacks[..];
    return Some(s);
  }

  /** The stacks as drawn: `len(lines[0]) // 4` of them, filled from the drawing `data` bottom-up. */
  function Drawn(firstLine: string, data: seq<string>): (r: seq<seq<char>>)
    ensures |r| == |firstLine| / 4
  {
    var initial: seq<seq<char>> := seq(|firstLine| / 4, _ => []);
    LoadRows(initial, Tail(Reversed(data)))
  }

  /**
   * The answer of `solve_p1` (`keepOrder` false) or `solve_p2` (true):
   * the drawing is the first group of lines, the commands the second.
   * `solve_p1` sizes its animation by the tallest stack, which raises when
   * there are no stacks at all.
   */
  function Solution(lines: seq<string>, keepOrder: bool): Option<string>
  {
    if |lines| == 0 then None
    else
      var groups := Util.Groups(lines);
      if |groups| != 2 then None
      else if !keepOrder && |lines[0]| / 4 == 0 then None
      else
        var final := Run(Drawn(lines[0], groups[0]), groups[1], keepOrder);
        if final.None? then None else Tops(final.value)
  }

  /** The instruction loop of `solve_p1` / `solve_p2`. */
  method ExecuteAll(commands: seq<string>, stacks: array<seq<char>>, keepOrder: bool) returns (ok: bool)
    modifies stacks
    ensures ok == Run(old(stacks[..]), commands, keepOrder).Some?
    ensures ok ==> stacks[..] == Run(old(stacks[..]), commands, keepOrder).value
  {
    ghost var loaded := stacks[..];
    var i := 0;
    while i < |commands|
      invariant 0 <= i <= |commands|
      invariant Run(loaded, commands[..i], keepOrder).Some?
      invariant Run(loaded, commands[..i], keepOrder).value == stacks[..]
    {
      RunStep(loaded, commands, i, keepOrder);
      var ins := ParseInstruction(commands[i]);
      if ins.None? {
        RunPrefixFails(loaded, commands, i + 1, keepOrder);
        return false;
      }
      if keepOrder {
        ok := Execute9001(ins.value, stacks);
      } else {
        ok := Execute(ins.value, stacks);
      }
      if !ok {
        RunPrefixFails(loaded, commands, i + 1, keepOrder);
        return false;
      }
      i := i + 1;
    }
    assert commands[..i] == commands;
    return true;
  }

  /** `solve_p1` / `solve_p2`. */
  method Solve(lines: seq<string>, keepOrder: bool) returns (result: Option<string>)
    ensures result == Solution(lines, keepOrder)
  {
    if |lines| == 0 {
      return None;
    }
    var stacks := InitializeStacks(lines[0]);
    var groups := Util.SplitByNewline(lines);
    if |groups| != 2 {
      return None;
    }
    var data := new string[|groups[0]|](i requires 0 <= i < |groups[0]| => groups[0][i]);
    assert data[..] == groups[0];
    assert stacks[..] == seq(|lines[0]| / 4, _ => []);
    LoadStacks(data, stacks);
    assert stacks[..] == Drawn(lines[0], groups[0]);
    if !keepOrder && stacks.Length == 0 {
      return None;
    }
    var ok := ExecuteAll(groups[1], stacks, keepOrder);
    if !ok {
      return None;
    }
    result := TopOfStacks(stacks);
  }

  lemma RunStep(stacks: seq<seq<char>>, commands: seq<string>, i: nat, keepOrder: bool)
    requires i < |commands| && Run(stacks, commands[..i], keepOrder).Some?
    ensures Run(stacks, commands[..i + 1], keepOrder) == Step(Run(stacks, commands[..i], keepOrder).value, commands[i], keepOrder)
  {
    assert commands[..i + 1][..i] == commands[..i];
  }

  /** A failing command makes the whole run fail. */
  lemma {:induction false} RunPrefixFails(stacks: seq<seq<char>>, commands: seq<string>, n: nat, keepOrder: bool)
    requires n <= |commands| && Run(stacks, commands[..n], keepOrder).None?
    ensures Run(stacks, commands, keepOrder).None?
    decreases |commands| - n
  {
    if n < |commands| {
      assert commands[..n + 1][..n] == commands[..n];
      RunPrefixFails(stacks, commands, n + 1, keepOrder);
    } else {
      assert commands[..n] == commands;
    }
  }

  // ---------------------------------------------------------------------
  // Properties

  /** The number of crates on all stacks. */
  function TotalCrates(stacks: seq<seq<char>>): nat
  {
    if |stacks| == 0 then 0 else TotalCrates(stacks[..|stacks| - 1]) + |stacks[|stacks| - 1]|
  }

  lemma {:induction false} TotalUpdate(stacks: seq<seq<char>>, i: nat, v: seq<char>)
    requires i < |stacks|
    ensures TotalCrates(stacks[i := v]) == TotalCrates(stacks) - |stacks[i]| + |v|
  {
    var n := |stacks|;
    if i < n - 1 {
      assert stacks[i := v][..n - 1] == stacks[..n - 1][i := v];
      TotalUpdate(stacks[..n - 1], i, v);
    } else {
      assert stacks[i := v][..n - 1] == stacks[..n - 1];
    }
  }

  /** Both cranes keep the number of crates. */
  lemma MovedKeepsCrates(stacks: seq<seq<char>>, fr: nat, to: nat, count: nat, keepOrder: bool)
    requires fr < |stacks| && to < |stacks| && count <= |stacks[fr]|
    ensures TotalCrates(Moved(stacks, fr, to, count, keepOrder)) == TotalCrates(stacks)
  {
    if fr != to {
      var src := stacks[fr];
      var block := src[|src| - count..];
      var moved := if keepOrder then block else Reversed(block);
      var left := src[..|src| - count];
      var grown := stacks[to] + moved;
      var popped := stacks[fr := left];
      TotalUpdate(stacks, fr, left);
      TotalUpdate(popped, to, grown);
      assert |left| + |moved| == |src|;
      assert Moved(stacks, fr, to, count, keepOrder) == popped[to := grown];
    }
  }

  /** A successful instruction keeps the number of crates, on either crane. */
  lemma ApplyKeepsCrates(stacks: seq<seq<char>>, ins: Instruction, keepOrder: bool)
    requires Apply(stacks, ins, keepOrder).Some?
    ensures TotalCrates(Apply(stacks, ins, keepOrder).value) == TotalCrates(stacks)
  {
    var count := Max(0, ins.moveCount);
    if count > 0 {
      var fr := PyIndex(|stacks|, ins.moveFrom - 1).value;
      var to := PyIndex(|stacks|, ins.moveTo - 1).value;
      if fr != to {
        MovedKeepsCrates(stacks, fr, to, count, keepOrder);
      }
    }
  }

  /** Moving a single crate is the same on both cranes. */
  lemma SingleCrateSameOnBoth(stacks: seq<seq<char>>, fr: nat, to: nat)
    requires fr < |stacks| && to < |stacks| && 1 <= |stacks[fr]|
    ensures Moved(stacks, fr, to, 1, true) == Moved(stacks, fr, to, 1, false)
  {
    var src := stacks[fr];
    assert Reversed(src[|src| - 1..]) == src[|src| - 1..];
  }

  /** The two stacks a move touches, and every other stack unchanged. */
  lemma MovedParts(stacks: seq<seq<char>>, fr: nat, to: nat, count: nat, keepOrder: bool)
    requires fr < |stacks| && to < |stacks| && count <= |stacks[fr]| && fr != to
    ensures var r := Moved(stacks, fr, to, count, keepOrder);
      var block := stacks[fr][|stacks[fr]| - count..];
      && r[fr] == stacks[fr][..|stacks[fr]| - count]
      && r[to] == stacks[to] + (if keepOrder then block else Reversed(block))
      && forall k :: 0 <= k < |stacks| && k != fr && k != to ==> r[k] == stacks[k]
  {
  }

  /** Putting a block back in the crane's order undoes taking it off. */
  lemma BlockBack(block: seq<char>, keepOrder: bool)
    ensures var moved := if keepOrder then block else Reversed(block);
      (if keepOrder then moved else Reversed(moved)) == block
  {
    ReversedTwice(block);
  }

  /** Dropping the appended block from a stack gives the stack back. */
  lemma DropAppended(a: seq<char>, b: seq<char>)
    ensures (a + b)[..|a + b| - |b|] == a && (a + b)[|a + b| - |b|..] == b
  {
  }

  /** Moving the same crates straight back restores every stack, on either crane. */
  lemma MoveBack(stacks: seq<seq<char>>, fr: nat, to: nat, count: nat, keepOrder: bool)
    requires fr < |stacks| && to < |stacks| && count <= |stacks[fr]|
    ensures count <= |Moved(stacks, fr, to, count, keepOrder)[to]|
    ensures Moved(Moved(stacks, fr, to, count, keepOrder), to, fr, count, keepOrder) == stacks
  {
    if fr != to {
      var src := stacks[fr];
      var block := src[|src| - count..];
      var moved := if keepOrder then block else Reversed(block);
      var once := Moved(stacks, fr, to, count, keepOrder);
      assert once[fr] == src[..|src| - count] && once[to] == stacks[to] + moved &&
        forall k :: 0 <= k < |stacks| && k != fr && k != to ==> once[k] == stacks[k]
      by {
        MovedParts(stacks, fr, to, count, keepOrder);
      }
      assert |moved| == count;
      assert once[to][..|once[to]| - count] == stacks[to] && once[to][|once[to]| - count..] == moved by {
        DropAppended(stacks[to], moved);
      }
      assert stacks[fr] == once[fr] + (if keepOrder then moved else Reversed(moved)) by {
        BlockBack(block, keepOrder);
        assert src[..|src| - count] + block == src;
      }
      MovedAt(once, to, fr, count, keepOrder, stacks);
    }
  }

  /** `parse` reads back the command text "move c from f to t" it models. */
  lemma ParseShow(f: int, t: int, c: int)
    ensures ParseInstruction(Text.Join(["move", Text.ShowInt(c), "from", Text.ShowInt(f), "to", Text.ShowInt(t)], ' '))
      == Some(Instruction(f, t, c))
  {
    var parts := ["move", Text.ShowInt(c), "from", Text.ShowInt(f), "to", Text.ShowInt(t)];
    Text.ShowIntChars(c, ' ');
    Text.ShowIntChars(f, ' ');
    Text.ShowIntChars(t, ' ');
    Text.SplitJoin(parts, ' ');
    Text.ParseShowInt(c);
    Text.ParseShowInt(f);
    Text.ParseShowInt(t);
  }
}
