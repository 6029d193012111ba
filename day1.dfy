// Day 1 of aoc2022/day1.py: the calories carried by each elf (a group of
// lines between blank lines) and the total of the three largest groups.
module Day1 {
  import opened Wrappers
  import opened Seqs
  import Text
  import Util

  /** `sum(map(int, group))`: fails if a line is not an integer. */
  function GroupTotal(group: seq<string>): Option<int>
  {
    match Text.ParseInts(group)
    case Some(values) => Some(Sum(values))
    case None => None
  }

  /** The printed form of a list of integers, one per line. */
  function ShowLines(xs: seq<int>): (r: seq<string>)
    ensures |r| == |xs| && forall i :: 0 <= i < |xs| ==> r[i] == Text.ShowInt(xs[i])
  {
    seq(|xs|, i requires 0 <= i < |xs| => Text.ShowInt(xs[i]))
  }

  /** A group of printed integers totals to their sum. */
  lemma GroupTotalOfShown(xs: seq<int>)
    ensures GroupTotal(ShowLines(xs)) == Some(Sum(xs))
  {
    var g := ShowLines(xs);
    forall i | 0 <= i < |g| ensures Text.ParseInt(g[i]) == Some(xs[i]) {
      Text.ParseShowInt(xs[i]);
    }
    Text.ParseIntsOf(g, xs);
  }

  /** The group totals, one per group, or None if some line is not an integer. */
  function Totals(groups: seq<seq<string>>): (r: Option<seq<int>>)
    ensures r.Some? <==> forall i :: 0 <= i < |groups| ==> GroupTotal(groups[i]).Some?
    ensures r.Some? ==> |r.value| == |groups| && forall i :: 0 <= i < |groups| ==> GroupTotal(groups[i]).value == r.value[i]
  {
    var xs := seq(|groups|, i requires 0 <= i < |groups| => GroupTotal(groups[i]));
    assert |xs| == |groups| && forall i :: 0 <= i < |groups| ==> xs[i] == GroupTotal(groups[i]);
    AllSome(xs)
  }

  /** `s` is in non-increasing order. */
  predicate Descending(s: seq<int>) {
    forall i, j :: 0 <= i < j < |s| ==> s[i] >= s[j]
  }

  /** Insert `x` into a descending list in front of the first smaller-or-equal entry. */
  function Insert(x: int, s: seq<int>): seq<int>
  {
    if s == [] then [x]
    else if x >= s[0] then [x] + s
    else [s[0]] + Insert(x, s[1..])
  }

  /** Insertion adds exactly one `x`. */
  lemma {:induction false} InsertPermutes(x: int, s: seq<int>)
    ensures multiset(Insert(x, s)) == multiset(s) + multiset{x}
  {
    if s != [] && x < s[0] {
      InsertPermutes(x, s[1..]);
      assert s == [s[0]] + s[1..];
    }
  }

  /** A head no smaller than anything after it extends a descending list. */
  lemma PrependDescending(h: int, rest: seq<int>)
    requires Descending(rest) && forall j :: 0 <= j < |rest| ==> rest[j] <= h
    ensures Descending([h] + rest)
  {
    var r := [h] + rest;
    forall i, j | 0 <= i < j < |r| ensures r[i] >= r[j] {
      assert r[j] == rest[j - 1];
      if i > 0 {
        assert r[i] == rest[i - 1];
      }
    }
  }

  /** Insertion keeps a descending list descending. */
  lemma {:induction false} InsertDescending(x: int, s: seq<int>)
    requires Descending(s)
    ensures Descending(Insert(x, s))
  {
    if s != [] && x < s[0] {
      var rest := Insert(x, s[1..]);
      InsertDescending(x, s[1..]);
      InsertPermutes(x, s[1..]);
      forall j | 0 <= j < |rest| ensures rest[j] <= s[0] {
        assert rest[j] in multiset(rest);
        assert rest[j] == x || rest[j] in multiset(s[1..]);
      }
      PrependDescending(s[0], rest);
    } else if s != [] {
      PrependDescending(x, s);
    }
  }

  /** `calories.sort(reverse=True)`: a descending permutation. */
  method SortDescending(a: seq<int>) returns (s: seq<int>)
    ensures Descending(s)
    ensures multiset(s) == multiset(a)
  {
    s := [];
    var i := 0;
    while i < |a|
      invariant 0 <= i <= |a|
      invariant Descending(s)
      invariant multiset(s) == multiset(a[..i])
    {
      assert a[..i + 1] == a[..i] + [a[i]];
      InsertPermutes(a[i], s);
      InsertDescending(a[i], s);
      s := Insert(a[i], s);
      i := i + 1;
    }
    assert a[..|a|] == a;
  }

  /** The loop of `solve` that appends each group's total after the seed 0. */
  method CollectTotals(groups: seq<seq<string>>) returns (calories: Option<seq<int>>)
    ensures calories.None? <==> Totals(groups).None?
    ensures calories.Some? ==> calories.value == [0] + Totals(groups).value
  {
    var acc := [0];
    var k := 0;
    while k < |groups|
      invariant 0 <= k <= |groups| && |acc| == k + 1 && acc[0] == 0
      invariant forall i :: 0 <= i < k ==> GroupTotal(groups[i]) == Some(acc[i + 1])
    {
      var total := GroupTotal(groups[k]);
      if total.None? {
        return None;
      }
      acc := acc + [total.value];
      k := k + 1;
    }
    var ts := Totals(groups).value;
    assert acc == [0] + ts by {
      forall i | 0 <= i < |acc| ensures acc[i] == ([0] + ts)[i] {
        if i > 0 {
          assert GroupTotal(groups[i - 1]) == Some(acc[i]);
        }
      }
    }
    return Some(acc);
  }

  /**
   * `solve`: the totals of the groups after a seed 0, sorted descending,
   * and the sum of the first three.  A non-integer line raises.
   */
  method Solve(lines: seq<string>) returns (answer: Option<int>, ranked: seq<int>)
    ensures answer.None? <==> Totals(Util.Groups(lines)).None?
    ensures answer.Some? ==> multiset(ranked) == multiset([0] + Totals(Util.Groups(lines)).value)
    ensures answer.Some? ==> Descending(ranked) && |ranked| >= 1
    ensures answer.Some? ==> answer.value == Sum(ranked[..Min(3, |ranked|)])
  {
    var groups := Util.SplitByNewline(lines);
    var calories := CollectTotals(groups);
    if calories.None? {
      return None, [];
    }
    ranked := SortDescending(calories.value);
    assert |ranked| == |calories.value| by {
      assert |multiset(ranked)| == |multiset(calories.value)|;
    }
    answer := Some(Sum(ranked[..Min(3, |ranked|)]));
  }

  /** After the descending sort the first entry is the largest of all. */
  lemma FirstIsLargest(ranked: seq<int>, calories: seq<int>)
    requires Descending(ranked) && multiset(ranked) == multiset(calories) && |calories| > 0
    ensures |ranked| > 0
    ensures forall c :: c in calories ==> ranked[0] >= c
  {
    assert |ranked| == |calories| by {
      assert |multiset(ranked)| == |multiset(calories)|;
    }
    forall c | c in calories ensures ranked[0] >= c {
      assert c in multiset(ranked);
      var i :| 0 <= i < |ranked| && ranked[i] == c;
    }
  }
}
