// Day 3 of aoc2022/day3.py: rucksack halves, the item common to a group of
// strings, and item priorities.
module Day3 {
  import opened Wrappers
  import opened Seqs
  import Util

  /** `line_to_sections(line)`: the two halves, the first of len // 2 characters. */
  function LineToSections(line: string): (r: (string, string))
    ensures r.0 + r.1 == line
    ensures |r.0| == |line| / 2 && |r.1| - |r.0| == |line| % 2
  {
    var half := |line| / 2;
    (line[..half], line[half..])
  }

  /**
   * `priority(item)`: `ord(item) - ord('a') + 1` when that is positive,
   * otherwise `ord(item) - ord('A') + 27`.
   */
  function Priority(item: char): (r: int)
    ensures 'a' <= item <= 'z' ==> 1 <= r <= 26
    ensures 'A' <= item <= 'Z' ==> 27 <= r <= 52
  {
    var lower := (item as int) - ('a' as int) + 1;
    if lower > 0 then lower else (item as int) - ('A' as int) + 27
  }

  predicate IsLetter(c: char) { 'a' <= c <= 'z' || 'A' <= c <= 'Z' }

  /** Distinct letters have distinct priorities. */
  lemma PriorityInjective(a: char, b: char)
    requires IsLetter(a) && IsLetter(b) && Priority(a) == Priority(b)
    ensures a == b
  {
  }

  /** `set.intersection(*[set(s) for s in lst])`; it needs at least one set. */
  function Intersection(lst: seq<string>): (r: set<char>)
    requires |lst| > 0
    ensures forall c :: c in r <==> forall i :: 0 <= i < |lst| ==> c in lst[i]
  {
    if |lst| == 1 then ToSet(lst[0])
    else ToSet(lst[0]) * Intersection(lst[1..])
  }

  /** The characters every string of `lst` holds; none when `lst` is empty. */
  function Common(lst: seq<string>): (r: set<char>)
    ensures |lst| == 0 ==> r == {}
    ensures |lst| > 0 ==> forall c :: c in r <==> forall i :: 0 <= i < |lst| ==> c in lst[i]
  {
    if |lst| == 0 then {} else Intersection(lst)
  }

  /**
   * `common_item_of_list(lst)`: some character in every string.  No
   * strings is a TypeError and an empty intersection an IndexError.  Which
   * element `list(intersection)[0]` picks depends on set iteration order,
   * so any element of the intersection may come back.
   */
  method CommonItemOfList(lst: seq<string>) returns (r: Option<char>)
    ensures r.None? <==> Common(lst) == {}
    ensures r.Some? ==> forall i :: 0 <= i < |lst| ==> r.value in lst[i]
  {
    if |lst| == 0 {
      return None;
    }
    var inter := Intersection(lst);
    if inter == {} {
      return None;
    }
    var c :| c in inter;
    return Some(c);
  }

  /** `common_item(lhs, rhs)`: `common_item_of_list([lhs, rhs])`. */
  method CommonItem(lhs: string, rhs: string) returns (r: Option<char>)
    ensures r.None? <==> ToSet(lhs) * ToSet(rhs) == {}
    ensures r.Some? ==> r.value in lhs && r.value in rhs
  {
    assert [lhs, rhs][1..] == [rhs];
    assert Intersection([rhs]) == ToSet(rhs);
    assert Intersection([lhs, rhs]) == ToSet(lhs) * Intersection([rhs]);
    assert Common([lhs, rhs]) == ToSet(lhs) * ToSet(rhs);
    r := CommonItemOfList([lhs, rhs]);
  }

  /** The priorities of the characters in `items`; letters give priorities in 1..52. */
  function Priorities(items: set<char>): (r: set<int>)
    ensures forall c :: c in items ==> Priority(c) in r
    ensures (forall c :: c in items ==> IsLetter(c)) ==> forall p :: p in r ==> 1 <= p <= 52
  {
    set c | c in items :: Priority(c)
  }

  /**
   * `solve_p1`: for each line, the priority of an item common to its two
   * halves, and their sum.  A line whose halves share nothing fails.
   */
  method SolveP1(lines: seq<string>) returns (total: Option<int>, results: seq<int>)
    ensures total.None? <==> exists i :: 0 <= i < |lines| && ToSet(LineToSections(lines[i]).0) * ToSet(LineToSections(lines[i]).1) == {}
    ensures total.Some? ==> |results| == |lines| && total.value == Sum(results)
    ensures total.Some? ==> forall i :: 0 <= i < |lines| ==>
      results[i] in Priorities(ToSet(LineToSections(lines[i]).0) * ToSet(LineToSections(lines[i]).1))
  {
    results := [];
    var i := 0;
    while i < |lines|
      invariant 0 <= i <= |lines| && |results| == i
      invariant forall j :: 0 <= j < i ==> ToSet(LineToSections(lines[j]).0) * ToSet(LineToSections(lines[j]).1) != {}
      invariant forall j :: 0 <= j < i ==>
        results[j] in Priorities(ToSet(LineToSections(lines[j]).0) * ToSet(LineToSections(lines[j]).1))
    {
      var (first, second) := LineToSections(lines[i]);
      var item := CommonItem(first, second);
      if item.None? {
        return None, results;
      }
      assert item.value in ToSet(first) * ToSet(second);
      results := results + [Priority(item.value)];
      i := i + 1;
    }
    return Some(Sum(results)), results;
  }

  /**
   * `solve_p2`: the lines in consecutive groups of three, the priority of
   * the badge common to each group, and their sum.
   */
  method SolveP2(lines: seq<string>) returns (total: Option<int>, priorities: seq<int>)
    ensures total.None? <==> exists k :: 0 <= k < |Util.Chunks(lines, 3)| && Common(Util.Chunks(lines, 3)[k]) == {}
    ensures total.Some? ==> |priorities| == |Util.Chunks(lines, 3)| && total.value == Sum(priorities)
    ensures total.Some? ==> forall k :: 0 <= k < |priorities| ==>
      priorities[k] in Priorities(Common(Util.Chunks(lines, 3)[k]))
  {
    var chunked := Util.SplitToChunks(lines, 3);
    var groups := chunked.value;
    Util.ChunksShape(lines, 3);
    priorities := [];
    var k := 0;
    while k < |groups|
      invariant 0 <= k <= |groups| && |priorities| == k
      invariant forall j :: 0 <= j < k ==> Common(groups[j]) != {}
      invariant forall j :: 0 <= j < k ==> priorities[j] in Priorities(Common(groups[j]))
    {
      var badge := CommonItemOfList(groups[k]);
      if badge.None? {
        return None, priorities;
      }
      assert badge.value in Common(groups[k]);
      priorities := priorities + [Priority(badge.value)];
      k := k + 1;
    }
    return Some(Sum(priorities)), priorities;
  }

  /** When the halves share exactly one item, part 1 has exactly one possible answer per line. */
  lemma SingleCommonItem(line: string, c: char, p: int)
    requires ToSet(LineToSections(line).0) * ToSet(LineToSections(line).1) == {c}
    requires p in Priorities(ToSet(LineToSections(line).0) * ToSet(LineToSections(line).1))
    ensures p == Priority(c)
  {
  }
}
