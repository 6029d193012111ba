// Day 4 of aoc2022/day4.py: pairs of section ranges, containment and overlap.
module Day4 {
  import opened Wrappers
  import Text

  /** A range of section ids, both ends included; `l <= r` once built by `MakeRange`. */
  datatype Range = Range(l: int, r: int)

  predicate Valid(a: Range) { a.l <= a.r }

  /** `Range(l, r)`: the constructor orders its two ends. */
  function MakeRange(a: int, b: int): (r: Range)
    ensures Valid(r)
    ensures (r.l == a && r.r == b) || (r.l == b && r.r == a)
  {
    if a <= b then Range(a, b) else Range(b, a)
  }

  /** `contains(id)`. */
  predicate Contains(a: Range, id: int) { a.l <= id <= a.r }

  /** `contains_range(other)`. */
  predicate ContainsRange(a: Range, other: Range) { a.l <= other.l && a.r >= other.r }

  /** `contains_symmetrical(lhs, rhs)`: either range contains the other. */
  predicate ContainsSymmetrical(lhs: Range, rhs: Range)
  {
    ContainsRange(lhs, rhs) || ContainsRange(rhs, lhs)
  }

  /**
   * `overlaps(lhs, rhs)`, term by term; the source tests `lhs.contains(rhs.l)`
   * twice, and `OverlapsMeansCommonId` shows the remaining terms suffice.
   */
  predicate Overlaps(lhs: Range, rhs: Range)
  {
    Contains(lhs, rhs.l) || Contains(lhs, rhs.l) || Contains(rhs, lhs.l) || Contains(rhs, lhs.r)
  }

  /**
   * `Range.parse(text)`: the pieces between '-' signs, all integers, of
   * which the first two are the ends; pieces after the second are ignored
   * and fewer than two is an error.
   */
  function Parse(text: string): (r: Option<Range>)
    ensures r.Some? ==> Valid(r.value)
  {
    match Text.ParseInts(Text.Split(text, '-'))
    case Some(ids) => if |ids| >= 2 then Some(MakeRange(ids[0], ids[1])) else None
    case None => None
  }

  /** `line_to_ranges(line)`: the first two comma-separated ranges; every piece must parse. */
  function LineToRanges(line: string): (r: Option<(Range, Range)>)
    ensures r.Some? ==> Valid(r.value.0) && Valid(r.value.1)
  {
    var chunks := Text.Split(line, ',');
    if forall i :: 0 <= i < |chunks| ==> Parse(chunks[i]).Some? then
      if |chunks| >= 2 then Some((Parse(chunks[0]).value, Parse(chunks[1]).value)) else None
    else None
  }

  /** Whether a pair counts in part 2 (`overlap`) or in part 1. */
  predicate Hit(pair: (Range, Range), overlap: bool)
  {
    if overlap then Overlaps(pair.0, pair.1) else ContainsSymmetrical(pair.0, pair.1)
  }

  /** Each line's pair of ranges, or `None` where `line_to_ranges` raises. */
  function ParsedLines(lines: seq<string>): (r: seq<Option<(Range, Range)>>)
    ensures |r| == |lines| && forall i :: 0 <= i < |lines| ==> r[i] == LineToRanges(lines[i])
  {
    seq(|lines|, i requires 0 <= i < |lines| => LineToRanges(lines[i]))
  }

  /** How many pairs count; `None` as soon as one line failed to parse. */
  function CountHits(parsed: seq<Option<(Range, Range)>>, overlap: bool): (r: Option<nat>)
    ensures r.Some? ==> r.value <= |parsed|
    ensures r.Some? <==> forall i :: 0 <= i < |parsed| ==> parsed[i].Some?
  {
    if |parsed| == 0 then Some(0)
    else
      var init := CountHits(parsed[..|parsed| - 1], overlap);
      var last := parsed[|parsed| - 1];
      if init.Some? && last.Some? then
        Some(if Hit(last.value, overlap) then init.value + 1 else init.value)
      else None
  }

  /** The number of lines whose pair satisfies `contains_symmetrical` (or `overlaps`). */
  function CountPairs(lines: seq<string>, overlap: bool): (r: Option<nat>)
    ensures r.Some? ==> r.value <= |lines|
    ensures r.Some? <==> forall i :: 0 <= i < |lines| ==> LineToRanges(lines[i]).Some?
  {
    CountHits(ParsedLines(lines), overlap)
  }

  /** `solve_p1` (`overlap` false) and `solve_p2` (`overlap` true): the loop counting pairs. */
  method CountLines(lines: seq<string>, overlap: bool) returns (result: Option<nat>)
    ensures result == CountPairs(lines, overlap)
  {
    ghost var parsed := ParsedLines(lines);
    var count := 0;
    var i := 0;
    while i < |lines|
      invariant 0 <= i <= |lines|
      invariant CountHits(parsed[..i], overlap) == Some(count)
    {
      var pair := LineToRanges(lines[i]);
      CountStep(parsed, i, overlap, count, pair);
      if pair.None? {
        PrefixFails(parsed, i + 1, overlap);
        return None;
      }
      if Hit(pair.value, overlap) {
        count := count + 1;
      }
      i := i + 1;
    }
    assert parsed[..i] == parsed;
    return Some(count);
  }

  /** `solve_p1`: how many pairs have one range containing the other. */
  method SolveP1(lines: seq<string>) returns (result: Option<nat>)
    ensures result == CountPairs(lines, false)
  {
    result := CountLines(lines, false);
  }

  /** `solve_p2`: how many pairs overlap at all. */
  method SolveP2(lines: seq<string>) returns (result: Option<nat>)
    ensures result == CountPairs(lines, true)
  {
    result := CountLines(lines, true);
  }

  lemma CountHitsStep(parsed: seq<Option<(Range, Range)>>, i: nat, overlap: bool)
    requires i < |parsed|
    ensures CountHits(parsed[..i + 1], overlap) ==
      (if CountHits(parsed[..i], overlap).Some? && parsed[i].Some? then
        Some(if Hit(parsed[i].value, overlap) then CountHits(parsed[..i], overlap).value + 1 else CountHits(parsed[..i], overlap).value)
      else None)
  {
    assert parsed[..i + 1][..i] == parsed[..i];
  }

  /** The count after one more line, from the count before it. */
  lemma CountStep(parsed: seq<Option<(Range, Range)>>, i: nat, overlap: bool, count: nat,
                  pair: Option<(Range, Range)>)
    requires i < |parsed| && CountHits(parsed[..i], overlap) == Some(count) && parsed[i] == pair
    ensures CountHits(parsed[..i + 1], overlap) ==
      (if pair.Some? then Some(if Hit(pair.value, overlap) then count + 1 else count) else None)
  {
    CountHitsStep(parsed, i, overlap);
  }

  /** A line that does not parse makes every longer input fail as well. */
  lemma PrefixFails(parsed: seq<Option<(Range, Range)>>, n: nat, overlap: bool)
    requires n <= |parsed| && CountHits(parsed[..n], overlap).None?
    ensures CountHits(parsed, overlap).None?
  {
    var k :| 0 <= k < n && parsed[..n][k].None?;
    assert parsed[..n][k] == parsed[k];
  }

  // ---------------------------------------------------------------------
  // Properties

  /** `overlaps` holds exactly when some id lies in both ranges. */
  lemma OverlapsMeansCommonId(lhs: Range, rhs: Range)
    requires Valid(lhs) && Valid(rhs)
    ensures Overlaps(lhs, rhs) <==> exists id :: Contains(lhs, id) && Contains(rhs, id)
  {
    if Overlaps(lhs, rhs) {
      if Contains(lhs, rhs.l) {
        assert Contains(rhs, rhs.l);
      } else {
        assert Contains(lhs, lhs.l);
      }
    }
  }

  lemma OverlapsSymmetric(lhs: Range, rhs: Range)
    requires Valid(lhs) && Valid(rhs)
    ensures Overlaps(lhs, rhs) == Overlaps(rhs, lhs)
  {
    OverlapsMeansCommonId(lhs, rhs);
    OverlapsMeansCommonId(rhs, lhs);
  }

  /** `contains_range` is containment of the id sets. */
  lemma ContainsRangeMeansSubset(a: Range, b: Range)
    requires Valid(a) && Valid(b)
    ensures ContainsRange(a, b) <==> forall id :: Contains(b, id) ==> Contains(a, id)
  {
    if !ContainsRange(a, b) {
      if a.l > b.l {
        assert Contains(b, b.l) && !Contains(a, b.l);
      } else {
        assert Contains(b, b.r) && !Contains(a, b.r);
      }
    }
  }

  lemma ContainsRangeOrder(a: Range, b: Range, c: Range)
    ensures ContainsRange(a, a)
    ensures ContainsRange(a, b) && ContainsRange(b, c) ==> ContainsRange(a, c)
    ensures ContainsRange(a, b) && ContainsRange(b, a) ==> a == b
  {
  }

  /** A pair where one range contains the other always overlaps. */
  lemma ContainedOverlaps(lhs: Range, rhs: Range)
    requires Valid(lhs) && Valid(rhs) && ContainsSymmetrical(lhs, rhs)
    ensures Overlaps(lhs, rhs)
  {
  }

  /** Hence part 1 never counts more pairs than part 2. */
  lemma CountContainedAtMostOverlapping(lines: seq<string>)
    requires CountPairs(lines, false).Some?
    ensures CountPairs(lines, true).Some?
    ensures CountPairs(lines, false).value <= CountPairs(lines, true).value
  {
    CountHitsMonotone(ParsedLines(lines));
  }

  lemma {:induction false} CountHitsMonotone(parsed: seq<Option<(Range, Range)>>)
    requires CountHits(parsed, false).Some?
    requires forall i :: 0 <= i < |parsed| ==> parsed[i].Some? ==> Valid(parsed[i].value.0) && Valid(parsed[i].value.1)
    ensures CountHits(parsed, true).Some?
    ensures CountHits(parsed, false).value <= CountHits(parsed, true).value
  {
    if |parsed| > 0 {
      var init := parsed[..|parsed| - 1];
      CountHitsMonotone(init);
      var pair := parsed[|parsed| - 1].value;
      if ContainsSymmetrical(pair.0, pair.1) {
        ContainedOverlaps(pair.0, pair.1);
      }
    }
  }

  /** Printing two non-negative ends as `l-r` and parsing gives the range back. */
  lemma ParseShow(a: nat, b: nat)
    ensures Parse(Text.ShowInt(a) + "-" + Text.ShowInt(b)) == Some(MakeRange(a, b))
  {
    var xs, ys := Text.ShowInt(a), Text.ShowInt(b);
    assert xs == Text.ShowNat(a) && ys == Text.ShowNat(b);
    assert '-' !in xs && '-' !in ys;
    Text.ParseShowInt(a);
    Text.ParseShowInt(b);
    ParseEnds(xs, ys, a, b);
  }

  /** Two dash-free words that read as `a` and `b`, joined by '-', parse as the range of `a` and `b`. */
  lemma ParseEnds(xs: string, ys: string, a: int, b: int)
    requires '-' !in xs && '-' !in ys
    requires Text.ParseInt(xs) == Some(a) && Text.ParseInt(ys) == Some(b)
    ensures Parse(xs + "-" + ys) == Some(MakeRange(a, b))
  {
    Text.SplitJoin([xs, ys], '-');
    assert Text.Join([xs, ys], '-') == xs + "-" + ys by {
      assert Text.Join([xs, ys][1..], '-') == ys;
    }
    assert [xs, ys][1..] == [ys];
    var parsed := Text.ParseInts([xs, ys]);
    assert parsed.Some? && parsed.value == [a, b];
  }
}
